/**
  Canonical Huffman codes (section 3.2.2 of RFC 1951): the code of every symbol is
  fixed by the sequence of code lengths alone. A length of 0 means the symbol is unused.
 */
module CanonicalCode {
  import opened Wrappers
  import opened Bits

  const MAX_BITS: nat := 15

  /** How many entries of lens equal l. */
  function Count(lens: seq<nat>, l: nat): (r: nat)
    ensures r <= |lens|
  {
    if lens == [] then 0
    else Count(lens[..|lens| - 1], l) + (if lens[|lens| - 1] == l then 1 else 0)
  }

  /**
    How many of the Pow2(b) bit strings of length b begin with a code of length at most b,
    given the number h[i] of codes of every length i. The Kraft sum, scaled by Pow2(b).
   */
  function Filled(h: seq<int>, b: nat): (r: int)
    requires b < |h|
  {
    if b == 0 then 0 else 2 * Filled(h, b - 1) + h[b]
  }

  /** The same for the histogram of a sequence of code lengths. */
  function FilledBy(lens: seq<nat>, b: nat): (r: nat)
  {
    if b == 0 then 0 else 2 * FilledBy(lens, b - 1) + Count(lens, b)
  }

  /** The first code of length b: step 2 of the algorithm in section 3.2.2 of RFC 1951. */
  function NextCode(lens: seq<nat>, b: nat): (r: nat)
  {
    if b == 0 then 0 else 2 * FilledBy(lens, b - 1)
  }

  /** Step 3: codes of one length are consecutive, in symbol order. */
  function Code(lens: seq<nat>, s: nat): (r: nat)
    requires s < |lens|
  {
    NextCode(lens, lens[s]) + Count(lens[..s], lens[s])
  }

  function CodeBits(lens: seq<nat>, s: nat): (r: Bits)
    requires s < |lens|
    ensures |r| == lens[s]
  {
    MsbBits(Code(lens, s), lens[s])
  }

  /** No length is above the limit and the code is not over-subscribed. */
  ghost predicate Valid(lens: seq<nat>)
  {
    (forall s :: 0 <= s < |lens| ==> lens[s] <= MAX_BITS) &&
    FilledBy(lens, MAX_BITS) <= Pow2(MAX_BITS)
  }

  /** Every bit string of the maximal length begins with a code. */
  ghost predicate Complete(lens: seq<nat>)
  {
    Valid(lens) && FilledBy(lens, MAX_BITS) == Pow2(MAX_BITS)
  }

  /** A complete code, or one with at most one symbol: what a decoder accepts. */
  ghost predicate Acceptable(lens: seq<nat>)
  {
    Valid(lens) &&
    (FilledBy(lens, MAX_BITS) == Pow2(MAX_BITS) || |lens| <= Count(lens, 0) + 1)
  }

  ghost predicate Heads(lens: seq<nat>, s: nat, rest: Bits)
  {
    s < |lens| && lens[s] > 0 && CodeBits(lens, s) <= rest
  }

  /** Reads one symbol: the one whose code the bits begin with, and the bits after it. */
  ghost function DecodeSym(lens: seq<nat>, rest: Bits): (r: Option<(nat, Bits)>)
    ensures r.Some? ==> r.value.0 < |lens| && |r.value.1| < |rest|
  {
    if s: nat :| Heads(lens, s, rest) then Some((s, rest[lens[s]..])) else None
  }

  lemma {:induction false} CountPrefix(lens: seq<nat>, s: nat, l: nat)
    requires s <= |lens|
    ensures Count(lens[..s], l) <= Count(lens, l)
    ensures s < |lens| && lens[s] == l ==> Count(lens[..s], l) < Count(lens, l)
    decreases |lens|
  {
    if s < |lens| {
      var init := lens[..|lens| - 1];
      if s < |init| {
        assert init[..s] == lens[..s];
        CountPrefix(init, s, l);
      } else {
        assert lens[..s] == init;
      }
    } else {
      assert lens[..s] == lens;
    }
  }

  /** Codes of later lengths start after every extension of the codes of length b. */
  lemma {:induction false} FilledGrows(lens: seq<nat>, b: nat, k: nat)
    ensures FilledBy(lens, b) * Pow2(k) <= FilledBy(lens, b + k)
  {
    if k > 0 {
      FilledGrows(lens, b, k - 1);
      Pow2Half(FilledBy(lens, b), k);
    }
  }

  lemma FilledFits(lens: seq<nat>, b: nat)
    requires Valid(lens) && b <= MAX_BITS
    ensures FilledBy(lens, b) <= Pow2(b)
  {
    var k: nat := MAX_BITS - b;
    FilledGrows(lens, b, k);
    Pow2Add(b, k);
    MulCancel(FilledBy(lens, b), Pow2(b), Pow2(k));
  }

  /** A code fits in its own length. */
  lemma CodeFits(lens: seq<nat>, s: nat)
    requires Valid(lens) && s < |lens| && lens[s] > 0
    ensures Code(lens, s) < Pow2(lens[s])
  {
    CountPrefix(lens, s, lens[s]);
    FilledFits(lens, lens[s]);
  }

  /** A longer code is never an extension of a shorter one. */
  lemma CodeAfter(lens: seq<nat>, s: nat, t: nat)
    requires s < |lens| && t < |lens| && 0 < lens[s] < lens[t]
    ensures Code(lens, t) >= (Code(lens, s) + 1) * Pow2(lens[t] - lens[s])
  {
    var l, d := lens[s], lens[t] - lens[s];
    CountPrefix(lens, s, l);
    FilledGrows(lens, l, d - 1);
    MulMono(Code(lens, s) + 1, FilledBy(lens, l), Pow2(d - 1));
    Pow2Half(Code(lens, s) + 1, d);
    assert lens[t] - 1 == l + (d - 1);
  }

  lemma SameLength(lens: seq<nat>, s: nat, t: nat)
    requires s < t < |lens| && lens[s] == lens[t]
    ensures Code(lens, s) < Code(lens, t)
  {
    CountPrefix(lens[..t], s, lens[s]);
    assert lens[..t][..s] == lens[..s];
  }

  /** Canonical codes are prefix-free: at most one code begins any bit string. */
  lemma PrefixFree(lens: seq<nat>, s: nat, t: nat, rest: Bits)
    requires Valid(lens) && Heads(lens, s, rest) && Heads(lens, t, rest)
    ensures s == t
  {
    if s != t {
      if lens[s] == lens[t] {
        CodeFits(lens, s);
        CodeFits(lens, t);
        MsbInjective(Code(lens, s), Code(lens, t), lens[s]);
        if s < t { SameLength(lens, s, t); } else { SameLength(lens, t, s); }
      } else if lens[s] < lens[t] {
        NotExtended(lens, s, t, rest);
      } else {
        NotExtended(lens, t, s, rest);
      }
    }
  }

  lemma NotExtended(lens: seq<nat>, s: nat, t: nat, rest: Bits)
    requires Valid(lens) && s < |lens| && t < |lens| && 0 < lens[s] < lens[t]
    ensures !(Heads(lens, s, rest) && Heads(lens, t, rest))
  {
    hide *;
    if Heads(lens, s, rest) && Heads(lens, t, rest) {
      SameStart(lens, s, t, rest);
      CodeAfter(lens, s, t);
      CodeFits(lens, s);
      CodeFits(lens, t);
      PastIt(Code(lens, t), Code(lens, s), lens[s], lens[t] - lens[s]);
      assert false;
    }
  }

  lemma SameStart(lens: seq<nat>, s: nat, t: nat, rest: Bits)
    requires s < |lens| && t < |lens| && 0 < lens[s] < lens[t] && Heads(lens, s, rest) && Heads(lens, t, rest)
    ensures MsbBits(Code(lens, t), lens[t])[..lens[s]] == MsbBits(Code(lens, s), lens[s])
  {
    hide Code, MsbBits;
    assert CodeBits(lens, t)[..lens[s]] == rest[..lens[s]];
  }

  /** A longer code at or above the end of a shorter one does not begin with it. */
  lemma PastIt(c: nat, b: nat, l: nat, d: nat)
    requires c < Pow2(l + d) && b < Pow2(l) && c >= (b + 1) * Pow2(d)
    ensures MsbBits(c, l + d)[..l] != MsbBits(b, l)
  {
    MsbPrefix(c, l + d, l);
    hide Pow2, MsbBits;
    var q := Shr(c, d);
    ShrFits(c, d, l);
    if MsbBits(q, l) == MsbBits(b, l) {
      MsbInjective(q, b, l);
    }
  }

  lemma ShrFits(c: nat, d: nat, l: nat)
    requires c < Pow2(l + d)
    ensures Shr(c, d) < Pow2(l)
  {
    Pow2Add(l, d);
    MulCancelStrict(Shr(c, d), Pow2(l), Pow2(d));
  }

  /** Reading back a code gives its symbol and leaves exactly the bits after it. */
  lemma DecodeCode(lens: seq<nat>, s: nat, post: Bits)
    requires Valid(lens) && s < |lens| && lens[s] > 0
    ensures DecodeSym(lens, CodeBits(lens, s) + post) == Some((s, post))
  {
    var rest := CodeBits(lens, s) + post;
    assert Heads(lens, s, rest);
    forall t | Heads(lens, t, rest) ensures t == s {
      PrefixFree(lens, s, t, rest);
    }
    assert rest[lens[s]..] == post;
  }

  lemma {:induction false} FilledIsFilledBy(h: seq<int>, lens: seq<nat>, b: nat)
    requires b < |h|
    requires forall i :: 1 <= i <= b ==> h[i] == Count(lens, i)
    ensures Filled(h, b) == FilledBy(lens, b)
  {
    if b > 0 {
      FilledIsFilledBy(h, lens, b - 1);
    }
  }

  lemma {:induction false} FilledUpdate(h: seq<int>, i: nat, v: int, b: nat)
    requires 0 < i < |h| && b < |h|
    ensures Filled(h[i := v], b) == Filled(h, b) + (if i <= b then (v - h[i]) * Pow2(b - i) else 0)
  {
    if b > 0 {
      FilledUpdate(h, i, v, b - 1);
      if i < b {
        assert (v - h[i]) * Pow2(b - i) == 2 * ((v - h[i]) * Pow2(b - 1 - i));
      }
    }
  }
}
