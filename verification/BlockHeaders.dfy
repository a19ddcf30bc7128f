/**
  The headers of dynamic and static blocks: the codes they announce and the tables the block is
  then written with.
 */
module BlockHeaders {
  import opened Wrappers
  import opened Bits
  import opened CanonicalCode
  import opened Deflate
  import opened HuffmanTree
  import opened HuffTables
  import opened LimitedCost
  import opened LzRecords
  import opened LzLayout
  import opened LzBuffer
  import opened CodeLengths
  import opened CodeLengthPacker
  import opened BitWriter
  import opened BlockCodes

  /** How many entries of a table are sent: all up to the last one that has a code, but at least a few. */
  method UsedLength(sizes: array<byte>, most: nat, least: nat) returns (n: nat)
    requires least <= most <= sizes.Length
    requires forall s :: most <= s < sizes.Length ==> sizes[s] == 0
    ensures least <= n <= most
    ensures forall s :: n <= s < sizes.Length ==> sizes[s] == 0
  {
    n := most;
    while n > least
      invariant least <= n <= most
      invariant forall s :: n <= s < sizes.Length ==> sizes[s] == 0
    {
      if sizes[n - 1] != 0 {
        break;
      }
      n := n - 1;
    }
  }

  /** Copies the lengths of both tables, one after the other. */
  method GatherSizes(a: array<byte>, n: nat, b: array<byte>, m: nat, to: array<byte>)
    requires n <= a.Length && m <= b.Length && n + m <= to.Length && to != a && to != b
    modifies to
    ensures to[..n + m] == a[..n] + b[..m]
  {
    forall i | 0 <= i < n { to[i] := a[i]; }
    forall i | 0 <= i < m { to[n + i] := b[i]; }
  }

  /** How many code length code lengths are sent. */
  method UsedSwizzled(sizes: array<byte>) returns (n: nat)
    requires sizes.Length >= 19
    ensures 4 <= n <= 19
    ensures forall k :: n <= k < 19 ==> SWIZZLE[k] < 19 && sizes[SWIZZLE[k]] == 0
  {
    SwizzleInverse();
    var num_bit_lengths := 18;
    while num_bit_lengths >= 0
      invariant -1 <= num_bit_lengths <= 18
      invariant forall k :: num_bit_lengths < k < 19 ==> sizes[SWIZZLE[k]] == 0
    {
      if sizes[SWIZZLE[num_bit_lengths]] != 0 {
        break;
      }
      num_bit_lengths := num_bit_lengths - 1;
    }
    n := if num_bit_lengths + 1 > 4 then num_bit_lengths + 1 else 4;
  }

  lemma SwizzledStep(code: seq<nat>, n: nat, i: nat, m: Bits)
    requires |code| == 19 && i < n <= 19
    ensures SWIZZLE[i] < 19
    ensures (m + ToBits(code[SWIZZLE[i]], 3)) + SwizzledFrom(code, n, i + 1) == m + SwizzledFrom(code, n, i)
  {
    SwizzleInverse();
    hide ToBits;
  }

  /** Sends the code length code lengths. */
  method PutSwizzled(w: BitWriter, ghost a: Snapshot, ghost m0: Bits, sizes: array<byte>, n: nat, ghost code: seq<nat>)
    requires w.Valid() && Extends(a, w.State(), m0) && sizes.Length >= 19 && code == sizes[..19] && 4 <= n <= 19
    requires w.target != sizes && forall s :: 0 <= s < 19 ==> code[s] < 8
    modifies w, w.target
    ensures w.Valid() && w.target == old(w.target) && sizes[..] == old(sizes[..])
    ensures Extends(a, w.State(), m0 + SwizzledFrom(code, n, 0))
  {
    hide Extends, ToBits, Pow2, SwizzledFrom;
    ghost var m := m0;
    var i := 0;
    while i < n
      invariant 0 <= i <= n && w.Valid() && w.target == old(w.target) && sizes[..] == old(sizes[..])
      invariant Extends(a, w.State(), m) && m + SwizzledFrom(code, n, i) == m0 + SwizzledFrom(code, n, 0)
    {
      SwizzledStep(code, n, i, m);
      Powers();
      assert code[SWIZZLE[i]] == sizes[SWIZZLE[i]];
      PutNumber(w, a, m, sizes[SWIZZLE[i]], 3);
      m := m + ToBits(code[SWIZZLE[i]], 3);
      i := i + 1;
    }
    SwizzledEnd(code, n, m);
  }

  lemma SwizzledEnd(code: seq<nat>, n: nat, m: Bits)
    requires |code| == 19 && n <= 19
    ensures m + SwizzledFrom(code, n, n) == m
  {
  }

  lemma {:induction false} FlattenPrefix(toks: seq<Token>, j: nat)
    requires j <= |toks|
    ensures Flatten(toks[..j]) <= Flatten(toks)
    ensures |Flatten(toks[..j])| + (|toks| - j) <= |Flatten(toks)|
    decreases |toks|
  {
    if j == |toks| {
      assert toks[..j] == toks;
    } else {
      FlattenPrefix(toks[..|toks| - 1], j);
      assert toks[..|toks| - 1][..j] == toks[..j];
    }
  }

  /** The bytes of token j. */
  lemma TokenAt(packed: seq<byte>, n: nat, toks: seq<Token>, j: nat)
    requires n <= |packed| && packed[..n] == Flatten(toks) && j < |toks|
    ensures var p, t := |Flatten(toks[..j])|, toks[j];
            p + |Flat(t)| <= n && packed[p] == t.sym && (t.sym >= 16 ==> packed[p + 1] == t.extra) &&
            p + |Flat(t)| == |Flatten(toks[..j + 1])|
  {
    FlattenPrefix(toks, j + 1);
    FlattenSnoc(toks[..j], toks[j]);
    assert toks[..j + 1] == toks[..j] + [toks[j]];
    hide Flatten;
    Inside(packed, n, Flatten(toks), Flatten(toks[..j]), Flat(toks[j]));
  }

  lemma Inside(s: seq<nat>, n: nat, whole: seq<nat>, p: seq<nat>, f: seq<nat>)
    requires n <= |s| && s[..n] == whole && p + f <= whole
    ensures |p| + |f| <= n && (|f| > 0 ==> s[|p|] == f[0]) && (|f| > 1 ==> s[|p| + 1] == f[1])
  {
    if |f| > 0 { assert whole[|p|] == (p + f)[|p|]; }
    if |f| > 1 { assert whole[|p| + 1] == (p + f)[|p| + 1]; }
  }

  lemma MoreTokens(toks: seq<Token>, j: nat)
    requires j <= |toks|
    ensures |Flatten(toks[..j])| < |Flatten(toks)| <==> j < |toks|
  {
    FlattenPrefix(toks, j);
    if j == |toks| { assert toks[..j] == toks; }
  }

  /** Sends one token. */
  method PutToken(w: BitWriter, ghost a: Snapshot, ghost m: Bits, packed: array<byte>, p0: nat, cl: HuffTable,
                  ghost code: seq<nat>, ghost tok: Token) returns (p: nat)
    requires w.Valid() && Extends(a, w.State(), m) && Ready(cl, 19, code) && Clear(w.target, cl) && w.target != packed
    requires |code| == 19 && WellFormed(tok) && code[tok.sym] > 0 && p0 + |Flat(tok)| <= packed.Length
    requires packed[p0] == tok.sym && (tok.sym >= 16 ==> packed[p0 + 1] == tok.extra)
    modifies w, w.target
    ensures w.Valid() && w.target == old(w.target) && Ready(cl, 19, code) && packed[..] == old(packed[..])
    ensures p == p0 + |Flat(tok)| && Extends(a, w.State(), m + TokenBits(code, tok))
  {
    hide Extends, Ready, ToBits, Pow2, CodeBits;
    p := p0;
    var sym := packed[p];
    p := p + 1;
    PutCode(w, a, m, cl, 19, code, sym);
    if sym >= 16 {
      var extra := packed[p];
      p := p + 1;
      PutNumber(w, a, m + CodeBits(code, sym), extra, ExtraBits(sym));
    }
    TokenShape(code, tok, m);
  }

  lemma TokenShape(code: seq<nat>, tok: Token, m: Bits)
    requires |code| == 19 && WellFormed(tok)
    ensures tok.sym >= 16 ==>
              m + CodeBits(code, tok.sym) + ToBits(tok.extra, ExtraBits(tok.sym)) == m + TokenBits(code, tok)
    ensures tok.sym < 16 ==> m + CodeBits(code, tok.sym) == m + TokenBits(code, tok)
  {
    hide CodeBits;
    assert tok.sym < 16 ==> ToBits(tok.extra, 0) == [];
  }

  lemma NextToken(code: seq<nat>, toks: seq<Token>, j: nat, m: Bits)
    requires Coded(code, toks) && j < |toks|
    ensures |code| == 19 && AllWellFormed(toks) && WellFormed(toks[j]) && code[toks[j].sym] > 0
    ensures (m + TokenBits(code, toks[j])) + PackedFrom(code, toks, j + 1) == m + PackedFrom(code, toks, j)
  {
    hide TokenBits;
  }

  lemma TokensEnd(code: seq<nat>, toks: seq<Token>, m: Bits)
    requires |code| == 19 && AllWellFormed(toks)
    ensures m + PackedFrom(code, toks, |toks|) == m
  {
  }

  lemma TokensStart(packed: seq<byte>, n: nat, toks: seq<Token>)
    requires n <= |packed| && packed[..n] == Flatten(toks)
    ensures n == |Flatten(toks)| && |Flatten(toks[..0])| == 0
  {
    assert toks[..0] == [];
  }

  /** Sends the packed code lengths. */
  method PutPacked(w: BitWriter, ghost a: Snapshot, ghost m0: Bits, packed: array<byte>, n: nat, cl: HuffTable,
                   ghost code: seq<nat>, ghost toks: seq<Token>)
    requires w.Valid() && Extends(a, w.State(), m0) && Ready(cl, 19, code) && Clear(w.target, cl) && w.target != packed
    requires n <= packed.Length && packed[..n] == Flatten(toks) && Coded(code, toks)
    modifies w, w.target
    ensures w.Valid() && w.target == old(w.target) && Extends(a, w.State(), m0 + PackedFrom(code, toks, 0))
  {
    CodedGives(code, toks);
    hide *;
    ghost var m, j, bytes := m0, 0, packed[..];
    var p := 0;
    TokensStart(bytes, n, toks);
    while p < n
      invariant w.Valid() && w.target == old(w.target) && Ready(cl, 19, code) && packed[..] == bytes
      invariant 0 <= j <= |toks| && p == |Flatten(toks[..j])|
      invariant Extends(a, w.State(), m) && m + PackedFrom(code, toks, j) == m0 + PackedFrom(code, toks, 0)
      decreases n - p
    {
      MoreTokens(toks, j);
      TokenAt(bytes, n, toks, j);
      NextToken(code, toks, j, m);
      p := PutToken(w, a, m, packed, p, cl, code, toks[j]);
      m := m + TokenBits(code, toks[j]);
      j := j + 1;
    }
    MoreTokens(toks, j);
    TokensEnd(code, toks, m);
  }

  /** The codes cover the records and end where the format's alphabets end. */
  ghost predicate Serves(L: seq<nat>, D: seq<nat>, recs: seq<Lz>)
  {
    |L| == 288 && |D| == 32 && Valid(L) && Valid(D) && CoversAll(L, D, recs) && L[END_OF_BLOCK] > 0
  }

  lemma TablesCover(lits: seq<u16>, dists: seq<u16>, recs: seq<Lz>, L: seq<nat>, D: seq<nat>)
    requires Tallied(lits, dists, recs)
    requires Suits(lits[END_OF_BLOCK := 1], L, MAX_BITS) && Suits(dists[..32], D, MAX_BITS)
    ensures Serves(L, D, recs)
    ensures forall s :: 286 <= s < 288 ==> L[s] == 0
    ensures forall s :: 30 <= s < 32 ==> D[s] == 0
  {
    hide Sum, Acceptable;
    forall i | 0 <= i < |recs| ensures Covers(L, D, recs[i]) {
      assert CountedIn(lits, dists, recs[i]);
    }
    SuitsValid(lits[END_OF_BLOCK := 1], L);
    SuitsValid(dists[..32], D);
  }

  lemma SuitsValid(counts: seq<u16>, L: seq<nat>)
    requires Suits(counts, L, MAX_BITS)
    ensures Valid(L) && Acceptable(L) && forall s :: 0 <= s < |L| ==> L[s] < 16
  {
  }

  lemma {:induction false} SumPrefix(s: seq<nat>, n: nat)
    requires n <= |s|
    ensures Sum(s[..n]) <= Sum(s)
  {
    SumAppend(s[..n], s[n..]);
    assert s == s[..n] + s[n..];
  }

  lemma TalliesFit(lits: seq<u16>, dists: seq<u16>, recs: seq<Lz>)
    requires Tallied(lits, dists, recs) && |recs| < 65535
    ensures Sum(lits[END_OF_BLOCK := 1][..288]) < 65536 && Sum(dists[..32]) < 65536
    ensures lits[END_OF_BLOCK := 1][..288] == lits[END_OF_BLOCK := 1]
  {
    SumUpdate(lits, END_OF_BLOCK, 1);
    SumPrefix(dists, 32);
    assert lits[END_OF_BLOCK := 1][..288] == lits[END_OF_BLOCK := 1];
  }

  /** Hardly any other codes are cheaper for these counts and an end of block. */
  ghost predicate CheapCodes(lits: seq<u16>, dists: seq<u16>, L: seq<nat>, D: seq<nat>)
  {
    |lits| == |dists| == 288 && NearlyBest(lits[END_OF_BLOCK := 1], L) && NearlyBest(dists[..32], D)
  }

  lemma CheapTables(lits: seq<u16>, dists: seq<u16>, L: seq<nat>, D: seq<nat>)
    requires |lits| == |dists| == 288 && Cheap(lits[END_OF_BLOCK := 1], L, 15) && Cheap(dists[..32], D, 15)
    ensures CheapCodes(lits, dists, L, D)
  {
    hide Sum, Best, NearlyBest, Fib;
  }

  lemma ReadyNow(t: HuffTable, n: nat)
    requires t.Shaped() && n <= MAX_HUFF_SYMBOLS && HoldsCodes(t.sizes[..n], t.codes[..n]) && Valid(t.sizes[..n])
    ensures Ready(t, n, t.sizes[..n])
  {
  }

  lemma EnoughRoom()
    ensures 288 <= Pow2(MAX_BITS) && 19 <= Pow2(7)
  {
    Powers();
  }

  /** The tables of literals and distances, from their frequencies. */
  method BuildTables(lz: LzBuffer) returns (ghost L: seq<nat>, ghost D: seq<nat>)
    requires lz.Shaped() && Tallied(lz.lits.count[..], lz.dists.count[..], lz.recs) && |lz.recs| < 65535
    modifies lz.lits.count, lz.lits.codes, lz.lits.sizes, lz.dists.codes, lz.dists.sizes
    ensures Ready(lz.lits, 288, L) && Ready(lz.dists, 32, D) && Serves(L, D, lz.recs) && Acceptable(L) && Acceptable(D)
    ensures L == lz.lits.sizes[..] && forall s :: 286 <= s < 288 ==> lz.lits.sizes[s] == 0
    ensures D == lz.dists.sizes[..32] && forall s :: 30 <= s < 288 ==> lz.dists.sizes[s] == 0
    ensures (forall s :: 0 <= s < 288 ==> lz.lits.sizes[s] < 16) && forall s :: 0 <= s < 288 ==> lz.dists.sizes[s] < 16
    ensures CheapCodes(old(lz.lits.count[..]), old(lz.dists.count[..]), L, D)
  {
    hide *;
    ghost var lc, dc := lz.lits.count[..], lz.dists.count[..];
    EnoughRoom();
    TalliesFit(lc, dc, lz.recs);
    TablesShaped(lz);
    lz.lits.count[END_OF_BLOCK] := 1;
    assert lz.lits.count[..288] == lc[END_OF_BLOCK := 1];
    lz.lits.OptimizeHuffmanTable(288, 15, false);
    lz.dists.OptimizeHuffmanTable(32, 15, false);
    L, D := lz.lits.sizes[..288], lz.dists.sizes[..32];
    assert lz.dists.count[..32] == dc[..32];
    TablesCover(lc, dc, lz.recs, L, D);
    CheapTables(lc, dc, L, D);
    SuitsValid(lc[END_OF_BLOCK := 1], L);
    SuitsValid(dc[..32], D);
    ReadyNow(lz.lits, 288);
    ReadyNow(lz.dists, 32);
    assert lz.lits.sizes[..288] == lz.lits.sizes[..];
    SizesByTable(lz.lits.sizes[..], lz.dists.sizes[..], L, D);
  }

  lemma TablesShaped(lz: LzBuffer)
    requires lz.Shaped()
    ensures lz.lits.Shaped() && lz.dists.Shaped()
    ensures lz.lits.count.Length == lz.dists.count.Length == lz.lits.sizes.Length == lz.dists.sizes.Length == 288
    ensures lz.lits.count != lz.dists.count && lz.lits.codes != lz.dists.codes && lz.lits.sizes != lz.dists.sizes
    ensures lz.lits.count != lz.dists.codes && lz.lits.codes != lz.dists.count && lz.lits.count != lz.lits.codes
    ensures lz.dists.count != lz.dists.codes
    ensures END_OF_BLOCK == 256 && MAX_BITS == 15 && MAX_HUFF_SYMBOLS == 288
  {
  }

  /** No length in either table is above 15, and none is beyond the symbols there are. */
  lemma SizesByTable(l: seq<nat>, d: seq<nat>, L: seq<nat>, D: seq<nat>)
    requires |l| == |d| == 288 && L == l && D == d[..32] && forall s :: 32 <= s < 288 ==> d[s] == 0
    requires (forall s :: 0 <= s < 288 ==> L[s] < 16) && forall s :: 0 <= s < 32 ==> D[s] < 16
    requires (forall s :: 286 <= s < 288 ==> L[s] == 0) && forall s :: 30 <= s < 32 ==> D[s] == 0
    ensures (forall s :: 0 <= s < 288 ==> l[s] < 16 && d[s] < 16) && (forall s :: 286 <= s < 288 ==> l[s] == 0)
    ensures forall s :: 30 <= s < 288 ==> d[s] == 0
  {
    forall s | 0 <= s < 288 ensures d[s] < 16 { if s < 32 { assert D[s] < 16; } }
    forall s | 30 <= s < 288 ensures d[s] == 0 { if s < 32 { assert D[s] == 0; } }
  }

  lemma CodesTokens(counts: seq<u16>, toks: seq<Token>, packed: seq<byte>, n: nat, acc: seq<nat>, code: seq<nat>)
    requires Packed(packed, n, counts, toks, acc) && |acc| <= MAX_PACKED && Suits(counts[..19], code, 7)
    ensures Coded(code, toks) && Acceptable(code) && Valid(code) && forall s :: 0 <= s < 19 ==> code[s] < 8
  {
    hide Unpack, Flatten;
  }

  lemma CountsFit(counts: seq<u16>, toks: seq<Token>, packed: seq<byte>, n: nat, acc: seq<nat>)
    requires Packed(packed, n, counts, toks, acc) && |acc| <= MAX_PACKED
    ensures |counts| >= 19 && Sum(counts[..19]) < 65536
    ensures n <= |packed| && packed[..n] == Flatten(toks) && AllWellFormed(toks) && Unpack(toks) == Some(acc)
  {
  }

  /** Packs the lengths and makes the code they are sent in. */
  method PrepareHeader(code_sizes: array<byte>, total: nat, packed: array<byte>, cl: HuffTable)
    returns (n: nat, ghost toks: seq<Token>, ghost code: seq<nat>)
    requires cl.Shaped() && packed.Length == MAX_PACKED == code_sizes.Length && total <= MAX_PACKED
    requires packed != code_sizes
    requires cl.count as object != code_sizes && cl.count as object != packed && cl.codes as object != packed
    requires cl.sizes != packed
    requires cl.codes as object != code_sizes && cl.sizes != code_sizes
    requires forall k :: 0 <= k < total ==> code_sizes[k] < 16
    modifies packed, cl.count, cl.codes, cl.sizes
    ensures Ready(cl, 19, code) && Coded(code, toks) && Acceptable(code) && forall s :: 0 <= s < 19 ==> code[s] < 8
    ensures n <= packed.Length && packed[..n] == Flatten(toks)
    ensures AllWellFormed(toks) && Unpack(toks) == Some(old(code_sizes[..total])) && code == cl.sizes[..19]
  {
    ghost var sizes := code_sizes[..total];
    EnoughRoom();
    hide Packed, Suits, HoldsCodes, Ready, Coded, Sum, Acceptable, Valid, Pow2, AllWellFormed, Unpack, Flatten;
    n, toks := PackCodeSizes(code_sizes, total, packed, cl);
    ghost var counts, bytes := cl.count[..], packed[..];
    CountsFit(counts, toks, bytes, n, sizes);
    assert cl.count[..19] == counts[..19];
    cl.OptimizeHuffmanTable(19, 7, false);
    code := cl.sizes[..19];
    assert cl.count[..19] == counts[..19] && packed[..] == bytes && packed[..n] == bytes[..n];
    CodesTokens(counts, toks, bytes, n, sizes, code);
    ReadyNow(cl, 19);
  }

  /** The four numbers at the start of a dynamic block. */
  ghost function CountBits(num_lit_codes: nat, num_dist_codes: nat, nbl: nat): (r: Bits)
    requires num_lit_codes >= 257 && num_dist_codes >= 1 && nbl >= 4
  {
    ToBits(2, 2) + ToBits(num_lit_codes - 257, 5) + ToBits(num_dist_codes - 1, 5) + ToBits(nbl - 4, 4)
  }

  method PutCounts(w: BitWriter, num_lit_codes: nat, num_dist_codes: nat, num_bit_lengths: nat)
    requires w.Valid() && 257 <= num_lit_codes <= 286 && 1 <= num_dist_codes <= 30 && 4 <= num_bit_lengths <= 19
    modifies w, w.target
    ensures w.Valid() && w.target == old(w.target)
    ensures Extends(old(w.State()), w.State(), CountBits(num_lit_codes, num_dist_codes, num_bit_lengths))
  {
    hide Extends, ToBits, Pow2;
    ghost var a := w.State();
    Powers();
    w.PutBits(2, 2);
    PutNumber(w, a, ToBits(2, 2), num_lit_codes - 257, 5);
    PutNumber(w, a, ToBits(2, 2) + ToBits(num_lit_codes - 257, 5), num_dist_codes - 1, 5);
    PutNumber(w, a, ToBits(2, 2) + ToBits(num_lit_codes - 257, 5) + ToBits(num_dist_codes - 1, 5), num_bit_lengths - 4,
              4);
  }

  lemma JoinHeader(nlit: nat, ndist: nat, nbl: nat, code: seq<nat>, toks: seq<Token>)
    requires 257 <= nlit <= 288 && 1 <= ndist <= 32 && 4 <= nbl <= 19 && Coded(code, toks)
    ensures CountBits(nlit, ndist, nbl) + SwizzledFrom(code, nbl, 0) + PackedFrom(code, toks, 0)
            == ToBits(2, 2) + HeaderBits(nlit, ndist, nbl, code, toks)
  {
    hide ToBits, SwizzledFrom, PackedFrom;
    JoinHeaderParts(ToBits(2, 2), ToBits(nlit - 257, 5), ToBits(ndist - 1, 5), ToBits(nbl - 4, 4),
                    SwizzledFrom(code, nbl, 0),
          PackedFrom(code, toks, 0));
  }

  lemma JoinHeaderParts(a: Bits, b: Bits, c: Bits, d: Bits, e: Bits, f: Bits)
    ensures (((a + b) + c) + d) + e + f == a + (b + (c + (d + (e + f))))
  {
  }

  /** Sends the header. */
  method SendHeader(w: BitWriter, cl: HuffTable, packed: array<byte>, n: nat, num_lit_codes: nat, num_dist_codes: nat,
                    ghost code: seq<nat>, ghost toks: seq<Token>) returns (ghost nbl: nat)
    requires w.Valid() && Ready(cl, 19, code) && Clear(w.target, cl) && w.target != packed
    requires Coded(code, toks) && n <= packed.Length && packed[..n] == Flatten(toks)
    requires 257 <= num_lit_codes <= 286 && 1 <= num_dist_codes <= 30 && forall s :: 0 <= s < 19 ==> code[s] < 8
    modifies w, w.target
    ensures w.Valid() && w.target == old(w.target) && 4 <= nbl <= 19
    ensures forall k :: nbl <= k < 19 ==> SWIZZLE[k] < 19 && code[SWIZZLE[k]] == 0
    ensures Extends(old(w.State()), w.State(),
                    ToBits(2, 2) + HeaderBits(num_lit_codes, num_dist_codes, nbl, code, toks))
  {
    ReadySizes(cl, 19, code);
    hide Extends, Ready, ToBits, Pow2, Coded, Flatten, HeaderBits, CountBits;
    ghost var a, bytes := w.State(), packed[..];
    var num_bit_lengths := UsedSwizzled(cl.sizes);
    nbl := num_bit_lengths;
    PutCounts(w, num_lit_codes, num_dist_codes, num_bit_lengths);
    ghost var m := CountBits(num_lit_codes, num_dist_codes, nbl);
    PutSwizzled(w, a, m, cl.sizes, num_bit_lengths, code);
    m := m + SwizzledFrom(code, nbl, 0);
    assert packed[..] == bytes && packed[..n] == bytes[..n];
    PutPacked(w, a, m, packed, n, cl, code, toks);
    JoinHeader(num_lit_codes, num_dist_codes, nbl, code, toks);
  }

  lemma ReadySizes(t: HuffTable, n: nat, lens: seq<nat>)
    requires Ready(t, n, lens)
    ensures t.Shaped() && n <= MAX_HUFF_SYMBOLS && lens == t.sizes[..n] && |lens| == n
  {
  }
}
