/**
  Run-length packing of code lengths, as the writer of a dynamic block does it.
 */
module CodeLengthPacker {
  import opened Wrappers
  import opened Bits
  import opened Deflate
  import opened HuffmanTree
  import opened HuffTables
  import opened LzBuffer
  import opened CodeLengths

  const MAX_PACKED: nat := 320

  /** A token as the bytes it is kept in. */
  function Flat(t: Token): (r: seq<nat>)
    ensures 1 <= |r| <= 2
  {
    if t.sym < 16 then [t.sym] else [t.sym, t.extra]
  }

  function Flatten(toks: seq<Token>): (r: seq<nat>)
  {
    if toks == [] then [] else Flatten(toks[..|toks| - 1]) + Flat(toks[|toks| - 1])
  }

  ghost predicate Counted(counts: seq<u16>, toks: seq<Token>)
  {
    |counts| >= 19 && Sum(counts[..19]) == |toks| &&
    forall i :: 0 <= i < |toks| ==> toks[i].sym < 19 && counts[toks[i].sym] > 0
  }

  /** The packed bytes and the frequencies are those of the tokens, which unpack to acc. */
  ghost predicate Packed(packed: seq<byte>, n: nat, counts: seq<u16>, toks: seq<Token>, acc: seq<nat>)
  {
    n <= |packed| && packed[..n] == Flatten(toks) && |toks| <= n <= |acc| &&
    AllWellFormed(toks) && Unpack(toks) == Some(acc) && Counted(counts, toks)
  }

  lemma FlattenSnoc(toks: seq<Token>, t: Token)
    ensures Flatten(toks + [t]) == Flatten(toks) + Flat(t)
  {
    assert (toks + [t])[..|toks|] == toks;
  }

  lemma UnpackSnoc(toks: seq<Token>, t: Token, acc: seq<nat>)
    requires AllWellFormed(toks) && Unpack(toks) == Some(acc) && WellFormed(t)
    ensures AllWellFormed(toks + [t]) && Unpack(toks + [t]) == Expand(acc, t.sym, t.extra)
  {
    assert (toks + [t])[..|toks|] == toks;
  }

  lemma CountedSnoc(counts: seq<u16>, toks: seq<Token>, t: Token)
    requires Counted(counts, toks) && t.sym < 19 && |toks| < 65535
    ensures Counted(counts[t.sym := Inc16(counts[t.sym])], toks + [t])
  {
    var c: seq<nat> := counts[..19];
    SumUpdate(c, t.sym, c[t.sym] + 1);
    SumAtLeast(c, t.sym);
    assert counts[t.sym := Inc16(counts[t.sym])][..19] == c[t.sym := c[t.sym] + 1];
  }

  lemma PackedSnoc(packed: seq<byte>, n: nat, counts: seq<u16>, toks: seq<Token>, acc: seq<nat>, t: Token,
                   packed': seq<byte>, acc': seq<nat>)
    requires Packed(packed, n, counts, toks, acc) && WellFormed(t) && |toks| < 65535
    requires Expand(acc, t.sym, t.extra) == Some(acc') && |acc'| >= |acc| + |Flat(t)|
    requires n + |Flat(t)| <= |packed'| && packed'[..n + |Flat(t)|] == packed[..n] + Flat(t)
    ensures Packed(packed', n + |Flat(t)|, counts[t.sym := Inc16(counts[t.sym])], toks + [t], acc')
  {
    hide Unpack, Flatten, Flat, Counted, Expand;
    FlattenSnoc(toks, t);
    UnpackSnoc(toks, t, acc);
    CountedSnocHere(counts, toks, t);
  }

  lemma CountedSnocHere(counts: seq<u16>, toks: seq<Token>, t: Token)
    requires Counted(counts, toks) && t.sym < 19 && |toks| < 65535
    ensures |counts| >= 19 && Counted(counts[t.sym := Inc16(counts[t.sym])], toks + [t])
  {
    CountedSnoc(counts, toks, t);
  }

  /** Appends a token and counts its symbol. */
  method Emit(packed: array<byte>, n0: nat, t: HuffTable, tok: Token, ghost toks: seq<Token>, ghost acc: seq<nat>,
              ghost acc': seq<nat>)
    returns (n: nat)
    requires t.Shaped() && packed.Length == MAX_PACKED && n0 + |Flat(tok)| <= MAX_PACKED
    requires Packed(packed[..], n0, t.count[..], toks, acc) && WellFormed(tok) && tok.extra < 256
    requires Expand(acc, tok.sym, tok.extra) == Some(acc') && |acc'| >= |acc| + |Flat(tok)|
    modifies packed, t.count
    ensures n == n0 + |Flat(tok)| && Packed(packed[..], n, t.count[..], toks + [tok], acc')
  {
    ghost var p0, c0 := packed[..], t.count[..];
    assert |toks| <= n0;
    hide Packed, Expand;
    n := n0;
    t.count[tok.sym] := Inc16(t.count[tok.sym]);
    packed[n] := tok.sym;
    n := n + 1;
    if tok.sym >= 16 {
      packed[n] := tok.extra;
      n := n + 1;
    }
    assert packed[..n] == p0[..n0] + Flat(tok);
    assert t.count[..] == c0[tok.sym := Inc16(c0[tok.sym])];
    PackedSnoc(p0, n0, c0, toks, acc, tok, packed[..], acc');
  }

  /** The run of repeats of the previous length is packed. */
  method FlushRepeats(packed: array<byte>, n0: nat, t: HuffTable, prev_code_size: byte, rle_repeat_count: nat,
                      ghost toks0: seq<Token>, ghost acc: seq<nat>) returns (n: nat, ghost toks: seq<Token>)
    requires t.Shaped() && packed.Length == MAX_PACKED && |acc| + rle_repeat_count <= MAX_PACKED
    requires rle_repeat_count <= 6
    requires Packed(packed[..], n0, t.count[..], toks0, acc)
    requires rle_repeat_count > 0 ==> acc != [] && acc[|acc| - 1] == prev_code_size < 16
    modifies packed, t.count
    ensures Packed(packed[..], n, t.count[..], toks, acc + Repeat(prev_code_size, rle_repeat_count))
  {
    n, toks := n0, toks0;
    assert n <= |acc|;
    hide Packed;
    assert acc + Repeat(prev_code_size, 0) == acc;
    if rle_repeat_count > 0 {
      if rle_repeat_count < 3 {
        var i := 0;
        while i < rle_repeat_count
          invariant 0 <= i <= rle_repeat_count && n == n0 + i
          invariant Packed(packed[..], n, t.count[..], toks, acc + Repeat(prev_code_size, i))
        {
          var tok := Token(prev_code_size, 0);
          PlainToken(tok);
          assert acc + Repeat(prev_code_size, i) + [prev_code_size] == acc + Repeat(prev_code_size, i + 1);
          n := Emit(packed, n, t, tok, toks, acc + Repeat(prev_code_size, i), acc + Repeat(prev_code_size, i + 1));
          toks := toks + [tok];
          i := i + 1;
        }
      } else {
        var tok := Token(16, rle_repeat_count - 3);
        assert WellFormed(tok) by { Powers(); }
        n := Emit(packed, n, t, tok, toks, acc, acc + Repeat(prev_code_size, rle_repeat_count));
        toks := toks + [tok];
      }
    }
  }

  lemma PlainToken(t: Token)
    requires t.sym < 16 && t.extra == 0
    ensures WellFormed(t)
  {
    Powers();
  }

  /** The run of zero lengths is packed. */
  method FlushZeros(packed: array<byte>, n0: nat, t: HuffTable, rle_z_count: nat, ghost toks0: seq<Token>,
                    ghost acc: seq<nat>)
    returns (n: nat, ghost toks: seq<Token>)
    requires t.Shaped() && packed.Length == MAX_PACKED && |acc| + rle_z_count <= MAX_PACKED && rle_z_count <= 138
    requires Packed(packed[..], n0, t.count[..], toks0, acc)
    modifies packed, t.count
    ensures Packed(packed[..], n, t.count[..], toks, acc + Repeat(0, rle_z_count))
  {
    n, toks := n0, toks0;
    assert n <= |acc|;
    hide Packed;
    assert acc + Repeat(0, 0) == acc;
    if rle_z_count > 0 {
      if rle_z_count < 3 {
        var i := 0;
        while i < rle_z_count
          invariant 0 <= i <= rle_z_count && n == n0 + i
          invariant Packed(packed[..], n, t.count[..], toks, acc + Repeat(0, i))
        {
          PlainToken(Token(0, 0));
          assert acc + Repeat(0, i) + [0] == acc + Repeat(0, i + 1);
          n := Emit(packed, n, t, Token(0, 0), toks, acc + Repeat(0, i), acc + Repeat(0, i + 1));
          toks := toks + [Token(0, 0)];
          i := i + 1;
        }
      } else {
        var tok := if rle_z_count <= 10 then Token(17, rle_z_count - 3) else Token(18, rle_z_count - 11);
        assert WellFormed(tok) by { Powers(); }
        n := Emit(packed, n, t, tok, toks, acc, acc + Repeat(0, rle_z_count));
        toks := toks + [tok];
      }
    }
  }

  /** What is pending after i lengths: z zeros, or r repeats of prev, but never both. */
  ghost predicate Pending(sizes: seq<byte>, i: nat, z: nat, r: nat, prev: byte)
  {
    i <= |sizes| && z + r <= i && (z == 0 || r == 0) && z < 138 && r < 6 &&
    prev == (if i == 0 then 255 else sizes[i - 1]) &&
    (forall k :: i - z <= k < i ==> sizes[k] == 0) &&
    (r > 0 ==> r < i && prev != 0 && forall k :: i - r - 1 <= k < i ==> sizes[k] == prev)
  }

  lemma RunEnds(sizes: seq<byte>, i: nat, z: nat, r: nat, prev: byte)
    requires Pending(sizes, i, z, r, prev)
    ensures z + r <= i <= |sizes|
    ensures z == 0 ==> sizes[..i - z - r] + Repeat(prev, r) == sizes[..i]
    ensures r == 0 ==> sizes[..i - z - r] + Repeat(0, z) == sizes[..i]
    ensures r > 0 ==> i - z - r > 0 && sizes[..i - z - r][i - z - r - 1] == prev
  {
  }

  /** The state of the packing after i lengths. */
  ghost predicate Progress(packed: seq<byte>, n: nat, counts: seq<u16>, toks: seq<Token>, sizes: seq<byte>,
                           i: nat, z: nat, r: nat, prev: byte)
  {
    Pending(sizes, i, z, r, prev) && Packed(packed, n, counts, toks, sizes[..i - z - r])
  }

  lemma ZeroRun(sizes: seq<byte>, i: nat, z: nat, r: nat, prev: byte)
    requires Pending(sizes, i, z, r, prev) && i < |sizes| && sizes[i] == 0
    ensures z + 1 < 138 ==> Pending(sizes, i + 1, if r > 0 then 1 else z + 1, 0, 0)
    ensures Pending(sizes, i + 1, 0, 0, 0)
    ensures sizes[..i][..i] == sizes[..i]
    ensures sizes[..i - z] + Repeat(0, z + 1) == sizes[..i + 1]
  {
  }

  /** A zero length joins the run of zeros. */
  method PackZero(packed: array<byte>, n0: nat, t: HuffTable, ghost sizes: seq<byte>, ghost i: nat, z0: nat, r: nat,
                  prev: byte,
                  ghost toks0: seq<Token>) returns (n: nat, z: nat, ghost toks: seq<Token>)
    requires t.Shaped() && packed.Length == MAX_PACKED && |sizes| <= MAX_PACKED && i < |sizes| && sizes[i] == 0
    requires Progress(packed[..], n0, t.count[..], toks0, sizes, i, z0, r, prev) && (r > 0 ==> prev < 16)
    modifies packed, t.count
    ensures Progress(packed[..], n, t.count[..], toks, sizes, i + 1, z, 0, 0)
  {
    RunEnds(sizes, i, z0, r, prev);
    ZeroRun(sizes, i, z0, r, prev);
    assert z0 < 138 && r < 6;
    hide Packed, Pending;
    n, z, toks := n0, z0, toks0;
    if r > 0 {
      n, toks := FlushRepeats(packed, n, t, prev, r, toks, sizes[..i - z - r]);
    }
    z := z + 1;
    if z == 138 {
      n, toks := FlushZeros(packed, n, t, z, toks, sizes[..i + 1 - z]);
      z := 0;
    }
  }

  lemma NewLength(sizes: seq<byte>, i: nat, z: nat, r: nat, prev: byte)
    requires Pending(sizes, i, z, r, prev) && i < |sizes| && 0 < sizes[i] < 16
    ensures Pending(sizes, i + 1, 0, 0, sizes[i])
    ensures sizes[i] == prev && r + 1 < 6 ==> Pending(sizes, i + 1, 0, r + 1, prev)
    ensures sizes[i] == prev ==> z == 0 && i > 0 && sizes[..i - r] + Repeat(prev, r + 1) == sizes[..i + 1]
    ensures sizes[i] == prev ==> i - r > 0 && sizes[..i - r][i - r - 1] == prev
    ensures sizes[..i] + [sizes[i]] == sizes[..i + 1]
  {
  }

  /** A length other than zero: a repeat of the previous one, or a token of its own. */
  method PackNonZero(packed: array<byte>, n0: nat, t: HuffTable, ghost sizes: seq<byte>, ghost i: nat, z: nat, r0: nat,
                     prev: byte,
                     code_size: byte, ghost toks0: seq<Token>) returns (n: nat, r: nat, ghost toks: seq<Token>)
    requires t.Shaped() && packed.Length == MAX_PACKED && |sizes| <= MAX_PACKED && i < |sizes|
    requires 0 < sizes[i] == code_size < 16 && (r0 > 0 ==> prev < 16)
    requires Progress(packed[..], n0, t.count[..], toks0, sizes, i, z, r0, prev)
    modifies packed, t.count
    ensures Progress(packed[..], n, t.count[..], toks, sizes, i + 1, 0, r, code_size)
  {
    RunEnds(sizes, i, z, r0, prev);
    NewLength(sizes, i, z, r0, prev);
    assert z < 138 && r0 < 6 && (z == 0 || r0 == 0);
    hide Packed, Pending;
    n, r, toks := n0, r0, toks0;
    if z > 0 {
      n, toks := FlushZeros(packed, n, t, z, toks, sizes[..i - z - r]);
    }
    if code_size != prev {
      if r > 0 {
        n, toks := FlushRepeats(packed, n, t, prev, r, toks, sizes[..i - r]);
        r := 0;
      }
      PlainToken(Token(code_size, 0));
      PackedBounds(packed[..], n, t.count[..], toks, sizes[..i]);
      n := Emit(packed, n, t, Token(code_size, 0), toks, sizes[..i], sizes[..i + 1]);
      toks := toks + [Token(code_size, 0)];
    } else {
      r := r + 1;
      if r == 6 {
        n, toks := FlushRepeats(packed, n, t, prev, r, toks, sizes[..i + 1 - r]);
        r := 0;
      }
    }
  }

  lemma PackedBounds(packed: seq<byte>, n: nat, counts: seq<u16>, toks: seq<Token>, acc: seq<nat>)
    requires Packed(packed, n, counts, toks, acc)
    ensures |toks| <= n <= |acc|
  {
  }

  lemma NothingPacked(packed: seq<byte>, counts: seq<u16>, sizes: seq<byte>)
    requires |counts| >= 19 && forall s :: 0 <= s < 19 ==> counts[s] == 0
    ensures Progress(packed, 0, counts, [], sizes, 0, 0, 0, 255)
  {
    NoCounts(counts[..19]);
  }

  /** Packs total code lengths; the frequencies of the symbols used are left in t. */
  method PackCodeSizes(code_sizes: array<byte>, total: nat, packed: array<byte>, t: HuffTable)
    returns (n: nat, ghost toks: seq<Token>)
    requires t.Shaped() && packed.Length == MAX_PACKED == code_sizes.Length && total <= MAX_PACKED
    requires packed != code_sizes
    requires t.count as object != code_sizes
    requires forall k :: 0 <= k < total ==> code_sizes[k] < 16
    modifies packed, t.count
    ensures Packed(packed[..], n, t.count[..], toks, code_sizes[..total])
  {
    ghost var sizes := code_sizes[..total];
    hide Packed, Pending, Progress;
    forall s | 0 <= s < 19 { t.count[s] := 0; }
    NothingPacked(packed[..], t.count[..], sizes);
    var z, r, prev, i := 0, 0, 255, 0;
    n, toks := 0, [];
    while i < total
      invariant 0 <= i <= total && code_sizes[..total] == sizes && (r > 0 ==> prev < 16)
      invariant Progress(packed[..], n, t.count[..], toks, sizes, i, z, r, prev)
    {
      var code_size := code_sizes[i];
      assert sizes[i] == code_size;
      if code_size == 0 {
        n, z, toks := PackZero(packed, n, t, sizes, i, z, r, prev, toks);
        r := 0;
      } else {
        n, r, toks := PackNonZero(packed, n, t, sizes, i, z, r, prev, code_size, toks);
        z := 0;
      }
      prev := code_size;
      i := i + 1;
    }
    n, toks := FlushLast(packed, n, t, sizes, z, r, prev, toks);
  }

  /** What is pending at the end is packed. */
  method FlushLast(packed: array<byte>, n0: nat, t: HuffTable, ghost sizes: seq<byte>, z: nat, r: nat, prev: byte,
                   ghost toks0: seq<Token>) returns (n: nat, ghost toks: seq<Token>)
    requires t.Shaped() && packed.Length == MAX_PACKED && |sizes| <= MAX_PACKED && (r > 0 ==> prev < 16)
    requires Progress(packed[..], n0, t.count[..], toks0, sizes, |sizes|, z, r, prev)
    modifies packed, t.count
    ensures Packed(packed[..], n, t.count[..], toks, sizes)
  {
    RunEnds(sizes, |sizes|, z, r, prev);
    assert sizes[..|sizes|] == sizes;
    assert z < 138 && r < 6 && (z == 0 || r == 0);
    hide Packed, Pending;
    if r > 0 {
      n, toks := FlushRepeats(packed, n0, t, prev, r, toks0, sizes[..|sizes| - z - r]);
    } else {
      n, toks := FlushZeros(packed, n0, t, z, toks0, sizes[..|sizes| - z - r]);
    }
  }
}
