/**
  A complete code leaves no bit string without a symbol, and has fewer inner nodes than symbols.
 */
module CompleteCode {
  import opened Wrappers
  import opened Bits
  import opened CanonicalCode

  /** The number whose most significant bit comes first. */
  function FromMsb(b: Bits): (r: nat)
  {
    if b == [] then 0 else 2 * FromMsb(b[..|b| - 1]) + (if b[|b| - 1] then 1 else 0)
  }

  lemma {:induction false} MsbBack(b: Bits)
    ensures MsbBits(FromMsb(b), |b|) == b && FromMsb(b) < Pow2(|b|)
  {
    if b != [] {
      MsbBack(b[..|b| - 1]);
      assert b == b[..|b| - 1] + [b[|b| - 1]];
    }
  }

  /** The first length at which the bits fall below the codes handed out. */
  lemma {:induction false} Crossing(lens: seq<nat>, rest: Bits, m: nat) returns (l: nat)
    requires 1 <= m <= |rest| && FromMsb(rest[..m]) < FilledBy(lens, m)
    ensures 1 <= l <= m && FromMsb(rest[..l - 1]) >= FilledBy(lens, l - 1) && FromMsb(rest[..l]) < FilledBy(lens, l)
    decreases m
  {
    hide FromMsb;
    if m > 1 && FromMsb(rest[..m - 1]) < FilledBy(lens, m - 1) {
      l := Crossing(lens, rest, m - 1);
    } else {
      l := m;
    }
  }

  /** The symbol that is number i of its length. */
  lemma {:induction false} NumberOf(lens: seq<nat>, l: nat, i: nat) returns (s: nat)
    requires i < Count(lens, l)
    ensures s < |lens| && lens[s] == l && Count(lens[..s], l) == i
    decreases |lens|
  {
    var m := |lens| - 1;
    var init := lens[..m];
    if i < Count(init, l) {
      s := NumberOf(init, l, i);
      assert lens[..s] == init[..s];
    } else {
      s := m;
    }
  }

  lemma BitsAt(rest: Bits, l: nat)
    requires 1 <= l <= |rest|
    ensures FromMsb(rest[..l]) >= 2 * FromMsb(rest[..l - 1])
  {
    assert rest[..l][..l - 1] == rest[..l - 1];
  }

  /** Every bit string long enough begins with a code. */
  lemma SomeCode(lens: seq<nat>, rest: Bits) returns (s: nat)
    requires Complete(lens) && |rest| >= MAX_BITS
    ensures Heads(lens, s, rest)
  {
    MsbBack(rest[..MAX_BITS]);
    hide FromMsb, Pow2, MsbBits, Count, FilledBy;
    var l := Crossing(lens, rest, MAX_BITS);
    var v := FromMsb(rest[..l]);
    BitsAt(rest, l);
    FilledStep(lens, l);
    s := NumberOf(lens, l, v - 2 * FilledBy(lens, l - 1));
    MsbBack(rest[..l]);
    CodeIs(lens, s, v);
  }

  lemma FilledStep(lens: seq<nat>, l: nat)
    requires l >= 1
    ensures FilledBy(lens, l) == 2 * FilledBy(lens, l - 1) + Count(lens, l)
  {
  }

  lemma CodeIs(lens: seq<nat>, s: nat, v: nat)
    requires s < |lens| && lens[s] > 0 && v >= 2 * FilledBy(lens, lens[s] - 1)
    requires Count(lens[..s], lens[s]) == v - 2 * FilledBy(lens, lens[s] - 1)
    ensures CodeBits(lens, s) == MsbBits(v, lens[s])
  {
    hide FilledBy, Count;
  }

  /** A complete code decodes anything. */
  lemma DecodesAll(lens: seq<nat>, rest: Bits)
    requires Complete(lens) && |rest| >= MAX_BITS
    ensures DecodeSym(lens, rest).Some?
  {
    var s := SomeCode(lens, rest);
  }

  /** A proper beginning of some code: the path to an inner node of the code tree. */
  ghost predicate Inner(lens: seq<nat>, p: Bits)
  {
    exists t: nat :: Leads(lens, t, p)
  }

  ghost predicate Leads(lens: seq<nat>, t: nat, p: Bits)
  {
    t < |lens| && |p| < lens[t] && p <= CodeBits(lens, t)
  }

  function Zeros(n: nat): (r: Bits)
    ensures |r| == n && forall i :: 0 <= i < n ==> !r[i]
  {
    seq(n, _ => false)
  }

  /** No code is a beginning of a path to an inner node. */
  lemma NoCodeAbove(lens: seq<nat>, s: nat, p: Bits)
    requires Valid(lens) && Inner(lens, p) && s < |lens| && lens[s] > 0
    ensures !(CodeBits(lens, s) <= p)
  {
    var t: nat :| Leads(lens, t, p);
    if CodeBits(lens, s) <= p {
      hide CodeBits, Valid;
      PrefixFree(lens, s, t, CodeBits(lens, t));
    }
  }

  /** To the right of an inner node, then always left: the symbol found there. */
  lemma RightThenLeft(lens: seq<nat>, p: Bits) returns (s: nat)
    requires Complete(lens) && Inner(lens, p)
    ensures s < |lens| && |p| < lens[s] && CodeBits(lens, s) == p + [true] + Zeros(lens[s] - |p| - 1)
  {
    s := SomeCode(lens, p + [true] + Zeros(MAX_BITS));
    NoCodeAbove(lens, s, p);
    hide CodeBits, Complete;
    var c := CodeBits(lens, s);
    assert p + [true] + Zeros(MAX_BITS) == p + ([true] + Zeros(MAX_BITS));
    if lens[s] <= |p| {
      WithinFirst(c, p, [true] + Zeros(MAX_BITS));
      assert false;
    }
    BeyondFirst(c, p, MAX_BITS);
  }

  lemma WithinFirst(c: Bits, p: Bits, tail: Bits)
    requires c <= p + tail && |c| <= |p|
    ensures c <= p
  {
    assert (p + tail)[..|c|] == p[..|c|];
  }

  lemma BeyondFirst(c: Bits, p: Bits, m: nat)
    requires c <= p + ([true] + Zeros(m)) && |c| > |p|
    ensures c == p + [true] + Zeros(|c| - |p| - 1)
  {
    var rest := p + ([true] + Zeros(m));
    assert rest[..|c|] == p + ([true] + Zeros(m)[..|c| - |p| - 1]);
    assert Zeros(m)[..|c| - |p| - 1] == Zeros(|c| - |p| - 1);
  }

  /** The way back is unique. */
  lemma WayBack(p: Bits, q: Bits, a: nat, b: nat)
    requires p + [true] + Zeros(a) == q + [true] + Zeros(b)
    ensures p == q
  {
    var c, d := p + [true] + Zeros(a), q + [true] + Zeros(b);
    assert c[|p|] && d[|q|];
    if |p| < |q| {
      assert false;
    }
    if |q| < |p| {
      assert false;
    }
    assert p == c[..|p|] && q == d[..|q|];
  }

  ghost predicate Distinct<T>(s: seq<T>)
  {
    forall i, j :: 0 <= i < j < |s| ==> s[i] != s[j]
  }

  /** As many different numbers below n as there can be. */
  lemma {:induction false} Pigeons(s: seq<nat>, n: nat)
    requires Distinct(s) && forall i :: 0 <= i < |s| ==> s[i] < n
    ensures |s| <= n
  {
    if |s| > 0 {
      assert s[0] < n;
      if n - 1 in s {
        var k: nat :| k < |s| && s[k] == n - 1;
        Pigeons(s[..k] + s[k + 1..], n - 1);
      } else {
        Pigeons(s, n - 1);
      }
    }
  }

  /** Symbols to the right of different inner nodes are different. */
  lemma {:induction false} Symbols(lens: seq<nat>, paths: seq<Bits>) returns (syms: seq<nat>)
    requires Complete(lens) && Distinct(paths) && forall i :: 0 <= i < |paths| ==> Inner(lens, paths[i])
    ensures |syms| == |paths| && Distinct(syms)
    ensures forall i :: 0 <= i < |paths| ==> RightOf(lens, paths[i], syms[i])
  {
    if paths == [] {
      syms := [];
    } else {
      var m := |paths| - 1;
      var init := Symbols(lens, paths[..m]);
      hide Complete;
      var s := RightThenLeft(lens, paths[m]);
      hide Inner, CodeBits;
      syms := init + [s];
      forall i | 0 <= i < m ensures init[i] != s && RightOf(lens, paths[i], init[i]) {
        assert RightOf(lens, paths[..m][i], init[i]);
        if init[i] == s { WayBack(paths[i], paths[m], lens[s] - |paths[i]| - 1, lens[s] - |paths[m]| - 1); }
      }
      assert RightOf(lens, paths[m], s);
      assert Distinct(syms);
    }
  }

  ghost predicate RightOf(lens: seq<nat>, p: Bits, s: nat)
  {
    s < |lens| && |p| < lens[s] && CodeBits(lens, s) == p + [true] + Zeros(lens[s] - |p| - 1)
  }

  /** A complete code has no more inner nodes than symbols. */
  lemma FewInner(lens: seq<nat>, paths: seq<Bits>)
    requires Complete(lens) && Distinct(paths) && forall i :: 0 <= i < |paths| ==> Inner(lens, paths[i])
    ensures |paths| <= |lens|
  {
    hide Complete, Inner;
    var syms := Symbols(lens, paths);
    forall i | 0 <= i < |syms| ensures syms[i] < |lens| { assert RightOf(lens, paths[i], syms[i]); }
    Pigeons(syms, |lens|);
  }
}
