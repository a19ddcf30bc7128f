/**
  The header of a dynamic block: code lengths packed into symbols, those symbols' own code, and
  the proof that the header reads back as the two sequences of code lengths (section 3.2.7 of RFC 1951).
 */
module CodeLengths {
  import opened Wrappers
  import opened Bits
  import opened CanonicalCode
  import opened Deflate
  import opened HuffTables
  import opened LzRecords

  /** A code length symbol and the number in its extra bits. */
  datatype Token = Token(sym: nat, extra: nat)

  ghost predicate WellFormed(t: Token)
  {
    t.sym < 19 && t.extra < Pow2(ExtraBits(t.sym))
  }

  ghost predicate AllWellFormed(toks: seq<Token>)
  {
    forall i :: 0 <= i < |toks| ==> WellFormed(toks[i])
  }

  /** The code lengths that tokens stand for. */
  ghost function Unpack(toks: seq<Token>): (r: Option<seq<nat>>)
    requires AllWellFormed(toks)
  {
    if toks == [] then Some([])
    else
      match Unpack(toks[..|toks| - 1])
      case None => None
      case Some(acc) => Expand(acc, toks[|toks| - 1].sym, toks[|toks| - 1].extra)
  }

  ghost function TokenBits(code: seq<nat>, t: Token): (r: Bits)
    requires |code| == 19 && WellFormed(t)
  {
    CodeBits(code, t.sym) + ToBits(t.extra, ExtraBits(t.sym))
  }

  /** The bits of the tokens from i on. */
  ghost function PackedFrom(code: seq<nat>, toks: seq<Token>, i: nat): (r: Bits)
    requires |code| == 19 && AllWellFormed(toks) && i <= |toks|
    decreases |toks| - i
  {
    if i == |toks| then [] else TokenBits(code, toks[i]) + PackedFrom(code, toks, i + 1)
  }

  ghost predicate Coded(code: seq<nat>, toks: seq<Token>)
  {
    |code| == 19 && AllWellFormed(toks) && forall i :: 0 <= i < |toks| ==> code[toks[i].sym] > 0
  }

  lemma {:induction false} UnpackPrefix(toks: seq<Token>, i: nat)
    requires AllWellFormed(toks) && i <= |toks| && Unpack(toks).Some?
    ensures Unpack(toks[..i]).Some?
    ensures |Unpack(toks[..i]).value| + (|toks| - i) <= |Unpack(toks).value|
    decreases |toks|
  {
    if i == |toks| {
      assert toks[..i] == toks;
    } else {
      UnpackPrefix(toks[..|toks| - 1], i);
      assert toks[..|toks| - 1][..i] == toks[..i];
    }
  }

  lemma ReadsToken(code: seq<nat>, t: Token, total: nat, acc: seq<nat>, post: Bits)
    requires |code| == 19 && Valid(code) && WellFormed(t) && code[t.sym] > 0 && |acc| < total
    requires Expand(acc, t.sym, t.extra).Some?
    ensures ReadLengths(code, total, TokenBits(code, t) + post, acc)
            == ReadLengths(code, total, post, Expand(acc, t.sym, t.extra).value)
  {
    var e := ToBits(t.extra, ExtraBits(t.sym));
    assert TokenBits(code, t) + post == CodeBits(code, t.sym) + (e + post);
    DecodeCode(code, t.sym, e + post);
    TakeNumber(t.extra, ExtraBits(t.sym), post);
    hide DecodeSym, CodeBits, Take, ToBits, Expand, Valid, TokenBits, Pow2;
  }

  lemma UnpackStep(toks: seq<Token>, i: nat)
    requires AllWellFormed(toks) && i < |toks| && Unpack(toks).Some?
    ensures AllWellFormed(toks[..i + 1]) && AllWellFormed(toks[..i]) && WellFormed(toks[i])
    ensures Unpack(toks[..i]).Some? && Unpack(toks[..i + 1]).Some?
    ensures Expand(Unpack(toks[..i]).value, toks[i].sym, toks[i].extra) == Unpack(toks[..i + 1])
    ensures |Unpack(toks[..i]).value| < |Unpack(toks).value|
  {
    UnpackPrefix(toks, i);
    UnpackPrefix(toks, i + 1);
    assert toks[..i + 1][..i] == toks[..i];
  }

  lemma PackedStep(code: seq<nat>, toks: seq<Token>, i: nat)
    requires Coded(code, toks) && i < |toks|
    ensures PackedFrom(code, toks, i) == TokenBits(code, toks[i]) + PackedFrom(code, toks, i + 1)
    ensures WellFormed(toks[i]) && code[toks[i].sym] > 0
  {
  }

  lemma PackedEnd(code: seq<nat>, toks: seq<Token>, post: Bits)
    requires |code| == 19 && AllWellFormed(toks)
    ensures PackedFrom(code, toks, |toks|) + post == post
  {
    assert [] + post == post;
  }

  lemma ReadsNoMore(code: seq<nat>, lens: seq<nat>, post: Bits)
    requires |code| == 19
    ensures ReadLengths(code, |lens|, post, lens) == Some((lens, post))
  {
  }

  lemma {:induction false} ReadsPacked(code: seq<nat>, toks: seq<Token>, i: nat, lens: seq<nat>, post: Bits)
    requires Valid(code) && Coded(code, toks) && i <= |toks| && Unpack(toks) == Some(lens)
    requires AllWellFormed(toks[..i]) && Unpack(toks[..i]).Some?
    ensures ReadLengths(code, |lens|, PackedFrom(code, toks, i) + post, Unpack(toks[..i]).value) == Some((lens, post))
    decreases |toks| - i
  {
    hide *;
    CodedGives(code, toks);
    if i == |toks| {
      PackedEnd(code, toks, post);
      assert toks[..i] == toks;
      ReadsNoMore(code, lens, post);
    } else {
      PackedStep(code, toks, i);
      UnpackStep(toks, i);
      ReadsPacked(code, toks, i + 1, lens, post);
      var here, later := TokenBits(code, toks[i]), PackedFrom(code, toks, i + 1);
      ReadsToken(code, toks[i], |lens|, Unpack(toks[..i]).value, later + post);
      assert (here + later) + post == here + (later + post);
    }
  }

  /** Where in the order of sending a symbol's length comes. */
  const RANK: seq<nat> := [3, 17, 15, 13, 11, 9, 7, 5, 4, 6, 8, 10, 12, 14, 16, 18, 0, 1, 2]

  lemma SwizzleInverse()
    ensures forall s :: 0 <= s < 19 ==> RANK[s] < 19 && SWIZZLE[RANK[s]] == s
    ensures forall k :: 0 <= k < 19 ==> SWIZZLE[k] < 19 && RANK[SWIZZLE[k]] == k
  {
  }

  /** The first i lengths in the order of sending, zero for the others. */
  ghost function Sent(code: seq<nat>, i: nat): (r: seq<nat>)
    requires |code| == 19
    ensures |r| == 19 && forall s :: 0 <= s < 19 ==> r[s] == if RANK[s] < i then code[s] else 0
  {
    seq(19, s requires 0 <= s < 19 => if RANK[s] < i then code[s] else 0)
  }

  ghost function SwizzledFrom(code: seq<nat>, n: nat, i: nat): (r: Bits)
    requires |code| == 19 && i <= n <= 19
    decreases n - i
  {
    if i == n then [] else ToBits(code[SWIZZLE[i]], 3) + SwizzledFrom(code, n, i + 1)
  }

  lemma SentStep(code: seq<nat>, i: nat)
    requires |code| == 19 && i < 19
    ensures Sent(code, i)[SWIZZLE[i] := code[SWIZZLE[i]]] == Sent(code, i + 1)
  {
    SwizzleInverse();
    var l, r := Sent(code, i)[SWIZZLE[i] := code[SWIZZLE[i]]], Sent(code, i + 1);
    forall s | 0 <= s < 19 ensures l[s] == r[s] {
      if s != SWIZZLE[i] { assert SWIZZLE[RANK[s]] == s; }
    }
  }

  lemma {:induction false} ReadsSwizzled(code: seq<nat>, n: nat, i: nat, post: Bits)
    requires |code| == 19 && i <= n <= 19 && forall s :: 0 <= s < 19 ==> code[s] < 8
    ensures ReadSwizzled(n, i, SwizzledFrom(code, n, i) + post, Sent(code, i)) == Some((Sent(code, n), post))
    decreases n - i
  {
    if i == n {
      assert SwizzledFrom(code, n, i) + post == post;
    } else {
      var here, later := ToBits(code[SWIZZLE[i]], 3), SwizzledFrom(code, n, i + 1);
      assert SwizzledFrom(code, n, i) + post == here + (later + post);
      SwizzleInverse();
      Powers();
      TakeNumber(code[SWIZZLE[i]], 3, later + post);
      SentStep(code, i);
      ReadsSwizzled(code, n, i + 1, post);
    }
  }

  lemma ReadsOrder(code: seq<nat>, n: nat, post: Bits)
    requires |code| == 19 && n <= 19 && forall s :: 0 <= s < 19 ==> code[s] < 8
    requires forall k :: n <= k < 19 ==> code[SWIZZLE[k]] == 0
    ensures ReadSwizzled(n, 0, SwizzledFrom(code, n, 0) + post, Repeat(0, 19)) == Some((code, post))
  {
    SwizzleInverse();
    assert Sent(code, 0) == Repeat(0, 19);
    forall s | 0 <= s < 19 ensures Sent(code, n)[s] == code[s] { assert SWIZZLE[RANK[s]] == s; }
    assert Sent(code, n) == code;
    ReadsSwizzled(code, n, 0, post);
  }

  /** The header's bits after the block type. */
  ghost function HeaderBits(nlit: nat, ndist: nat, nbl: nat, code: seq<nat>, toks: seq<Token>): (r: Bits)
    requires 257 <= nlit <= 288 && 1 <= ndist <= 32 && 4 <= nbl <= 19 && Coded(code, toks)
  {
    ToBits(nlit - 257, 5) + (ToBits(ndist - 1, 5) + (ToBits(nbl - 4, 4) +
    (SwizzledFrom(code, nbl, 0) + PackedFrom(code, toks, 0))))
  }

  lemma RegroupHeader(a: Bits, b: Bits, c: Bits, d: Bits, e: Bits, post: Bits)
    ensures (a + (b + (c + (d + e)))) + post == a + (b + (c + (d + (e + post))))
  {
  }

  /** Reading the parts of a header one after the other. */
  lemma ReadsParts(rest: Bits, nlit: nat, ndist: nat, nbl: nat, code: seq<nat>, r0: Bits, r1: Bits, r2: Bits, r3: Bits,
                   lits: seq<nat>, dists: seq<nat>, post: Bits)
    requires nlit >= 257 && ndist >= 1 && 4 <= nbl <= 19 && |code| == 19 && |lits| == nlit && |dists| == ndist
    requires Take(rest, 5) == Some((nlit - 257, r0)) && Take(r0, 5) == Some((ndist - 1, r1))
    requires Take(r1, 4) == Some((nbl - 4, r2))
    requires ReadSwizzled(nbl, 0, r2, Repeat(0, 19)) == Some((code, r3)) && Acceptable(code)
    requires ReadLengths(code, nlit + ndist, r3, []) == Some((lits + dists, post))
    requires Acceptable(lits) && Acceptable(dists)
    ensures ReadTables(rest) == Some((lits, dists, post))
  {
    hide Take, ReadSwizzled, ReadLengths, Acceptable, Repeat;
    assert (lits + dists)[..nlit] == lits && (lits + dists)[nlit..] == dists;
  }

  /** The header reads back as the code lengths. */
  lemma ReadsHeader(nbl: nat, code: seq<nat>, toks: seq<Token>, lits: seq<nat>, dists: seq<nat>, post: Bits)
    requires 257 <= |lits| <= 288 && 1 <= |dists| <= 32 && 4 <= nbl <= 19 && Coded(code, toks)
    requires Acceptable(code) && Acceptable(lits) && Acceptable(dists)
    requires forall s :: 0 <= s < 19 ==> code[s] < 8
    requires forall k :: nbl <= k < 19 ==> code[SWIZZLE[k]] == 0
    requires Unpack(toks) == Some(lits + dists)
    ensures ReadTables(HeaderBits(|lits|, |dists|, nbl, code, toks) + post) == Some((lits, dists, post))
  {
    hide *;
    var a, b, c := ToBits(|lits| - 257, 5), ToBits(|dists| - 1, 5), ToBits(nbl - 4, 4);
    CodedGives(code, toks);
    var d, e := SwizzledFrom(code, nbl, 0), PackedFrom(code, toks, 0);
    Powers();
    HeaderShape(|lits|, |dists|, nbl, code, toks, post);
    TakeNumber(|lits| - 257, 5, b + (c + (d + (e + post))));
    TakeNumber(|dists| - 1, 5, c + (d + (e + post)));
    TakeNumber(nbl - 4, 4, d + (e + post));
    ReadsOrder(code, nbl, e + post);
    ReadsPacked(code, toks, 0, lits + dists, post);
    ReadsParts(a + (b + (c + (d + (e + post)))), |lits|, |dists|, nbl, code, b + (c + (d + (e + post))),
               c + (d + (e + post)), d + (e + post), e + post, lits, dists, post);
  }

  lemma CodedGives(code: seq<nat>, toks: seq<Token>)
    requires Coded(code, toks)
    ensures |code| == 19 && AllWellFormed(toks)
    ensures AllWellFormed(toks[..0]) && Unpack(toks[..0]) == Some([])
    ensures Acceptable(code) ==> Valid(code)
  {
  }

  lemma HeaderShape(nlit: nat, ndist: nat, nbl: nat, code: seq<nat>, toks: seq<Token>, post: Bits)
    requires 257 <= nlit <= 288 && 1 <= ndist <= 32 && 4 <= nbl <= 19 && Coded(code, toks)
    ensures HeaderBits(nlit, ndist, nbl, code, toks) + post ==
            ToBits(nlit - 257, 5) + (ToBits(ndist - 1, 5) + (ToBits(nbl - 4, 4) +
            (SwizzledFrom(code, nbl, 0) + (PackedFrom(code, toks, 0) + post))))
  {
    hide SwizzledFrom, PackedFrom, ToBits;
    RegroupHeader(ToBits(nlit - 257, 5), ToBits(ndist - 1, 5), ToBits(nbl - 4, 4), SwizzledFrom(code, nbl, 0),
             PackedFrom(code, toks, 0), post);
  }

  /** Lengths of zero at the end change no code. */
  lemma {:induction false} TrimFilled(lens: seq<nat>, n: nat, b: nat)
    requires n <= |lens| && forall s :: n <= s < |lens| ==> lens[s] == 0
    ensures FilledBy(lens[..n], b) == FilledBy(lens, b)
  {
    if b > 0 {
      TrimFilled(lens, n, b - 1);
      CountZeros(lens, n, b);
    }
  }

  lemma TrimCode(lens: seq<nat>, n: nat, s: nat)
    requires n <= |lens| && forall i :: n <= i < |lens| ==> lens[i] == 0
    requires s < n && lens[s] > 0
    ensures CodeBits(lens[..n], s) == CodeBits(lens, s)
  {
    TrimFilled(lens, n, lens[s] - 1);
    assert lens[..n][..s] == lens[..s];
  }

  lemma TrimAcceptable(lens: seq<nat>, n: nat)
    requires n <= |lens| && forall i :: n <= i < |lens| ==> lens[i] == 0
    requires Acceptable(lens)
    ensures Acceptable(lens[..n])
  {
    TrimFilled(lens, n, MAX_BITS);
    CountZeros(lens, n, 0);
  }
}
