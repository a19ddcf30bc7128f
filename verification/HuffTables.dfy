/**
  The tables of Huffman codes the compressor writes with: from symbol frequencies, or from
  given code lengths, to canonical codes stored with their bits reversed.
 */
module HuffTables {
  import opened Bits
  import opened CanonicalCode
  import opened HuffmanTree
  import opened MinimumRedundancy
  import opened RadixSort
  import opened LengthLimit
  import opened HuffmanOptimality
  import opened LimitedCost

  const MAX_HUFF_SYMBOLS: nat := 288

  /** The code of every used symbol is stored so that its first bit is the lowest. */
  ghost predicate HoldsCodes(lens: seq<nat>, codes: seq<nat>)
  {
    |codes| == |lens| &&
    forall s :: 0 <= s < |lens| && lens[s] > 0 ==>
      codes[s] < Pow2(lens[s]) && ToBits(codes[s], lens[s]) == CodeBits(lens, s)
  }

  /** The symbols with a frequency, in order. */
  ghost function Used(counts: seq<u16>): (r: Syms)
  {
    if counts == [] then []
    else
      var m := |counts| - 1;
      Used(counts[..m]) + (if counts[m] > 0 && m < 65536 then [SymFreq(counts[m], m)] else [])
  }

  ghost predicate DistinctSyms(s: Syms)
  {
    forall i, j :: 0 <= i < j < |s| ==> s[i].sym != s[j].sym
  }

  lemma {:induction false} UsedShape(counts: seq<u16>)
    requires |counts| <= 65536
    ensures |Used(counts)| <= |counts| && DistinctSyms(Used(counts))
    ensures forall i :: 0 <= i < |Used(counts)| ==>
              Used(counts)[i].sym < |counts| && counts[Used(counts)[i].sym] == Used(counts)[i].key > 0
  {
    if counts != [] { UsedShape(counts[..|counts| - 1]); }
  }

  lemma {:induction false} UsedAll(counts: seq<u16>, s: nat)
    requires s < |counts| <= 65536 && counts[s] > 0
    ensures SymFreq(counts[s], s) in Used(counts)
  {
    if s < |counts| - 1 { UsedAll(counts[..|counts| - 1], s); }
  }

  lemma {:induction false} SumAppend(s: seq<nat>, t: seq<nat>)
    ensures Sum(s + t) == Sum(s) + Sum(t)
  {
    if t == [] {
      assert s + t == s;
    } else {
      var m := |t| - 1;
      assert s + t == (s + t[..m]) + [t[m]] && t == t[..m] + [t[m]];
      SumSnoc(s + t[..m], t[m]);
      SumSnoc(t[..m], t[m]);
      SumAppend(s, t[..m]);
    }
  }

  lemma KeysSnoc(s: Syms, x: SymFreq)
    ensures Keys(s + [x]) == Keys(s) + [x.key]
  {
  }

  lemma {:induction false} UsedSum(counts: seq<u16>)
    requires |counts| <= 65536
    ensures Sum(Keys(Used(counts))) == Sum(counts)
  {
    if counts == [] {
    } else {
      var m := |counts| - 1;
      UsedSum(counts[..m]);
      assert counts == counts[..m] + [counts[m]];
      SumSnoc(counts[..m], counts[m]);
      if counts[m] > 0 {
        var u, x := Used(counts[..m]), SymFreq(counts[m], m);
        assert Used(counts) == u + [x];
        KeysSnoc(u, x);
        SumSnoc(Keys(u), x.key);
      } else {
        assert Used(counts) == Used(counts[..m]);
      }
    }
  }

  lemma Removed(s: Syms, j: nat)
    requires j < |s|
    ensures multiset(s[..j] + s[j + 1..]) == multiset(s) - multiset{s[j]}
  {
    assert s == s[..j] + [s[j]] + s[j + 1..];
  }

  function SumOf(s: Syms, f: SymFreq -> nat): (r: nat)
  {
    if s == [] then 0 else SumOf(s[..|s| - 1], f) + f(s[|s| - 1])
  }

  lemma {:induction false} SumOfJoin(s: Syms, t: Syms, f: SymFreq -> nat)
    ensures SumOf(s + t, f) == SumOf(s, f) + SumOf(t, f)
  {
    if t == [] {
      assert s + t == s;
    } else {
      assert (s + t)[..|s + t| - 1] == s + t[..|t| - 1];
      SumOfJoin(s, t[..|t| - 1], f);
    }
  }

  lemma SumOfAround(s: Syms, j: nat, f: SymFreq -> nat)
    requires j < |s|
    ensures SumOf(s, f) == SumOf(s[..j] + s[j + 1..], f) + f(s[j])
  {
    hide SumOf;
    var a, x, b := s[..j], s[j], s[j + 1..];
    assert s == (a + [x]) + b;
    SumOfJoin(a + [x], b, f);
    SumOfJoin(a, [x], f);
    SumOfJoin(a, b, f);
    SumOfOne(x, f);
  }

  lemma SumOfOne(x: SymFreq, f: SymFreq -> nat)
    ensures SumOf([x], f) == f(x)
  {
    assert [x][..0] == [];
  }

  lemma {:induction false} SumOfPermutes(s: Syms, t: Syms, f: SymFreq -> nat)
    requires multiset(s) == multiset(t)
    ensures SumOf(s, f) == SumOf(t, f)
    decreases |s|
  {
    hide SumOf;
    if s == [] {
      assert |multiset(t)| == 0;
    } else {
      var x := s[0];
      assert x in multiset(s);
      var j :| 0 <= j < |t| && t[j] == x;
      Removed(s, 0);
      Removed(t, j);
      SumOfAround(s, 0, f);
      SumOfAround(t, j, f);
      var s', t' := s[..0] + s[1..], t[..j] + t[j + 1..];
      assert multiset(s') == multiset(t');
      SumOfPermutes(s', t', f);
    }
  }

  lemma {:induction false} SumKeys(s: Syms)
    ensures Sum(Keys(s)) == SumOf(s, (x: SymFreq) => x.key)
  {
    if s != [] {
      var m := |s| - 1;
      SumKeys(s[..m]);
      assert s == s[..m] + [s[m]];
      KeysSnoc(s[..m], s[m]);
      SumSnoc(Keys(s[..m]), s[m].key);
    }
  }

  lemma {:induction false} DistinctOnce(s: Syms, x: SymFreq)
    requires DistinctSyms(s)
    ensures multiset(s)[x] <= 1
    ensures x in s ==> multiset(s)[x] == 1
  {
    if s != [] {
      var init, y := s[..|s| - 1], s[|s| - 1];
      DistinctOnce(init, x);
      assert s == init + [y];
      forall i | 0 <= i < |init| ensures init[i] != y { assert s[i].sym != s[|s| - 1].sym; }
      assert y !in init;
    }
  }

  lemma TwiceIn(t: Syms, i: nat, j: nat)
    requires i < j < |t| && t[i] == t[j]
    ensures multiset(t)[t[i]] >= 2
  {
    assert t == t[..j] + [t[j]] + t[j + 1..];
    assert t[i] in t[..j];
  }

  lemma PermuteDistinct(s: Syms, t: Syms)
    requires DistinctSyms(s) && multiset(s) == multiset(t)
    ensures DistinctSyms(t)
  {
    forall i, j | 0 <= i < j < |t| ensures t[i].sym != t[j].sym {
      assert t[i] in multiset(s) && t[j] in multiset(s);
      var a :| 0 <= a < |s| && s[a] == t[i];
      var b :| 0 <= b < |s| && s[b] == t[j];
      if t[i] == t[j] {
        TwiceIn(t, i, j);
        DistinctOnce(s, t[i]);
      }
    }
  }

  /** The symbols of a list. */
  ghost function SymSet(t: Syms): (r: set<nat>)
  {
    set x | x in t :: x.sym as nat
  }

  /** The sorted list of the used symbols. */
  ghost predicate SortedUsed(t: Syms, counts: seq<u16>)
  {
    |t| <= |counts| && Sorted(Keys(t)) && Positives(Keys(t)) && Sum(Keys(t)) == Sum(counts) && DistinctSyms(t) &&
    multiset(t) == multiset(Used(counts)) &&
    (forall i :: 0 <= i < |t| ==> t[i].sym < |counts| && counts[t[i].sym] == t[i].key) &&
    (forall s :: 0 <= s < |counts| && counts[s] > 0 ==> s in SymSet(t))
  }

  lemma SortsUsed(counts: seq<u16>, t: Syms)
    requires |counts| <= 65536 && StableSort(Used(counts), t)
    ensures SortedUsed(t, counts)
  {
    var u := Used(counts);
    UsedShape(counts);
    StableSortPermutes(u, t);
    PermuteDistinct(u, t);
    SortsSum(counts, t);
    SortsMembers(counts, t);
    hide Sum, Used;
    assert Positives(Keys(t));
  }

  lemma InBoth(s: Syms, t: Syms, x: SymFreq)
    requires multiset(s) == multiset(t) && x in s
    ensures x in t
  {
    assert x in multiset(s);
  }

  lemma InSymSet(t: Syms, x: SymFreq)
    requires x in t
    ensures x.sym in SymSet(t)
  {
  }

  lemma SortsMembers(counts: seq<u16>, t: Syms)
    requires |counts| <= 65536 && multiset(Used(counts)) == multiset(t)
    ensures forall i :: 0 <= i < |t| ==> t[i].sym < |counts| && counts[t[i].sym] == t[i].key > 0
    ensures forall s :: 0 <= s < |counts| && counts[s] > 0 ==> s in SymSet(t)
  {
    var u := Used(counts);
    hide Used, SymSet;
    forall i | 0 <= i < |t| ensures t[i].sym < |counts| && counts[t[i].sym] == t[i].key > 0 {
      InBoth(t, u, t[i]);
      var k :| 0 <= k < |u| && u[k] == t[i];
      UsedShape(counts);
    }
    forall s | 0 <= s < |counts| && counts[s] > 0 ensures s in SymSet(t) {
      UsedAll(counts, s);
      InBoth(u, t, SymFreq(counts[s], s));
      InSymSet(t, SymFreq(counts[s], s));
    }
  }

  lemma SortsSum(counts: seq<u16>, t: Syms)
    requires |counts| <= 65536 && multiset(Used(counts)) == multiset(t)
    ensures Sum(Keys(t)) == Sum(counts)
  {
    UsedSum(counts);
    SumKeys(Used(counts));
    SumKeys(t);
    SumOfPermutes(Used(counts), t, (x: SymFreq) => x.key);
  }

  /** Lists the used symbols. */
  method CollectUsed(count: array<u16>, table_len: nat, syms: array<SymFreq>) returns (n: nat)
    requires table_len <= count.Length && table_len <= syms.Length && table_len <= 65535
    modifies syms
    ensures n <= table_len && syms[..n] == Used(count[..table_len])
  {
    n := 0;
    var i := 0;
    while i < table_len
      invariant 0 <= i <= table_len && n <= i
      invariant syms[..n] == Used(count[..i])
    {
      assert count[..i + 1][..i] == count[..i];
      if count[i] > 0 {
        syms[n] := SymFreq(count[i], i);
        n := n + 1;
      }
      i := i + 1;
    }
  }

  lemma {:induction false} TotalCounts(h: seq<int>, keys: seq<nat>, b: nat)
    requires b < |h| && forall l :: 1 <= l <= b ==> h[l] == Count(keys, l)
    requires forall i :: 0 <= i < |keys| ==> 1 <= keys[i] <= b
    ensures Total(h, 0, b) == |keys|
    decreases |keys|
  {
    if keys == [] {
      NoCodes(h, b);
    } else {
      var m := |keys| - 1;
      var k := keys[m];
      var g := h[k := h[k] - 1];
      TotalCounts(g, keys[..m], b);
      TotalUpdate(h, k, h[k] - 1, 0, b);
    }
  }

  /** Counts how many lengths there are of every kind. */
  method CountLengths(A: array<SymFreq>, n: nat, num_codes: array<int>)
    requires n <= A.Length && num_codes.Length == MAX_SUPPORTED + 1
    requires forall i :: 0 <= i < n ==> A[i].key <= MAX_SUPPORTED
    requires forall l :: 0 <= l <= MAX_SUPPORTED ==> num_codes[l] == 0
    modifies num_codes
    ensures forall l :: 0 <= l <= MAX_SUPPORTED ==> num_codes[l] == Count(Keys(A[..n]), l)
  {
    var i := 0;
    while i < n
      invariant 0 <= i <= n
      invariant forall l :: 0 <= l <= MAX_SUPPORTED ==> num_codes[l] == Count(Keys(A[..i]), l)
    {
      assert Keys(A[..i + 1])[..i] == Keys(A[..i]);
      num_codes[A[i].key] := num_codes[A[i].key] + 1;
      i := i + 1;
    }
  }

  lemma HistogramComplete(h: seq<int>, keys: seq<nat>)
    requires |h| == MAX_SUPPORTED + 1 && forall l :: 0 <= l <= MAX_SUPPORTED ==> h[l] == Count(keys, l)
    requires Within(keys, LONGEST + 1) && FilledBy(keys, LONGEST) == Pow2(LONGEST)
    ensures KraftEqual(h, |keys|)
  {
    TotalCounts(h, keys, MAX_SUPPORTED);
    FilledAbove(keys, LONGEST, MAX_SUPPORTED);
    FilledIsFilledBy(h, keys, MAX_SUPPORTED);
  }

  lemma {:induction false} CountUpdate(lens: seq<nat>, s: nat, v: nat, l: nat)
    requires s < |lens|
    ensures Count(lens[s := v], l) == Count(lens, l) + (if v == l then 1 else 0) - (if lens[s] == l then 1 else 0)
    decreases |lens|
  {
    var m := |lens| - 1;
    if s == m {
      assert lens[s := v][..m] == lens[..m];
    } else {
      assert lens[s := v][..m] == lens[..m][s := v];
      CountUpdate(lens[..m], s, v, l);
    }
  }

  /** Symbols u have the lengths L, every other symbol none. */
  ghost predicate Given(lens: seq<nat>, u: Syms, L: seq<nat>)
  {
    |L| == |u| &&
    (forall i :: 0 <= i < |u| ==> u[i].sym < |lens| && lens[u[i].sym] == L[i]) &&
    (forall s :: 0 <= s < |lens| && lens[s] > 0 ==> s in SymSet(u)) &&
    (forall l :: l > 0 ==> Count(lens, l) == Count(L, l)) && Count(lens, 0) + |L| == |lens|
  }

  lemma GiveOne(lens: seq<nat>, x: SymFreq, u: Syms, L: seq<nat>, l: nat)
    requires Given(lens, u, L) && DistinctSyms([x] + u) && x.sym < |lens| && l > 0
    ensures Given(lens[x.sym := l], [x] + u, [l] + L)
  {
    var lens', v := lens[x.sym := l], [x] + u;
    forall i | 0 <= i < |u| ensures u[i].sym != x.sym { assert v[0].sym != v[i + 1].sym; }
    assert x.sym !in SymSet(u);
    GiveCounts(lens, L, x.sym, l);
    hide Count;
    forall s | 0 <= s < |lens'| && lens'[s] > 0 ensures s in SymSet(v) {
      if s == x.sym {
        assert x in v;
      } else {
        assert s in SymSet(u);
        var y :| y in u && y.sym == s;
        assert y in v;
      }
    }
  }

  lemma GiveCounts(lens: seq<nat>, L: seq<nat>, s: nat, l: nat)
    requires s < |lens| && lens[s] == 0 && l > 0
    requires (forall k :: k > 0 ==> Count(lens, k) == Count(L, k)) && Count(lens, 0) + |L| == |lens|
    ensures forall k :: k > 0 ==> Count(lens[s := l], k) == Count([l] + L, k)
    ensures Count(lens[s := l], 0) + |L| + 1 == |lens|
  {
    CountUpdate(lens, s, l, 0);
    forall k | k > 0 ensures Count(lens[s := l], k) == Count([l] + L, k) {
      CountUpdate(lens, s, l, k);
      CountCons(l, L, k);
    }
  }

  /** What is known when lengths below i have been handed out. */
  ghost predicate HandedOut(h: seq<int>, L: seq<nat>, i: nat)
  {
    0 < i <= |h| && Within(L, i) && NonIncreasing(L) && |L| == Total(h, 0, i - 1) &&
    forall l :: 0 < l < i ==> Count(L, l) == h[l]
  }

  lemma ConsOrder(L: seq<nat>, i: nat)
    requires Within(L, i + 1) && NonIncreasing(L) && i > 0
    ensures Within([i] + L, i + 1) && NonIncreasing([i] + L)
  {
    forall a, b | 0 <= a <= b < |[i] + L| ensures ([i] + L)[a] >= ([i] + L)[b] {
      if a > 0 { assert L[a - 1] >= L[b - 1]; }
    }
  }

  /** Gives length i to the k most frequent symbols without a length. */
  method GiveLength(sizes: array<byte>, pSyms: array<SymFreq>, j0: nat, k: nat, i: byte, ghost t: Syms,
                    ghost L0: seq<nat>)
    returns (j: nat, ghost L: seq<nat>)
    requires |t| <= pSyms.Length && k <= j0 <= |t| && 0 < i && DistinctSyms(t)
    requires forall r :: 0 <= r < |t| ==> pSyms[r].sym == t[r].sym < sizes.Length
    requires Given(sizes[..], t[j0..], L0) && Within(L0, i) && NonIncreasing(L0)
    modifies sizes
    ensures j == j0 - k && Given(sizes[..], t[j..], L) && Within(L, i + 1) && NonIncreasing(L)
    ensures |L| == |L0| + k && Count(L, i) == k && forall l :: 0 < l < i ==> Count(L, l) == Count(L0, l)
  {
    hide Given, NonIncreasing;
    j, L := j0, L0;
    AllCount(L0, i);
    var l := k;
    while l > 0
      invariant 0 <= l <= k && j == j0 - (k - l)
      invariant Given(sizes[..], t[j..], L) && Within(L, i + 1) && NonIncreasing(L)
      invariant |L| == |L0| + (k - l) && Count(L, i) == k - l
      invariant forall x :: 0 < x < i ==> Count(L, x) == Count(L0, x)
    {
      assert t[j - 1..] == [t[j - 1]] + t[j..];
      GiveOne(sizes[..], t[j - 1], t[j..], L, i);
      ConsOrder(L, i);
      forall x ensures Count([i] + L, x) == Count(L, x) + (if x == i then 1 else 0) { CountCons(i, L, x); }
      ghost var s0 := sizes[..];
      j := j - 1;
      L := [i] + L;
      sizes[pSyms[j].sym] := i;
      assert sizes[..] == s0[t[j].sym := i];
      l := l - 1;
    }
  }

  lemma NothingGiven(lens: seq<nat>)
    requires forall s :: 0 <= s < |lens| ==> lens[s] == 0
    ensures Given(lens, [], [])
  {
    forall l ensures Count(lens, l) == if l == 0 then |lens| else 0 { AllZero(lens, l); }
  }

  lemma {:induction false} AllZero(lens: seq<nat>, l: nat)
    requires forall s :: 0 <= s < |lens| ==> lens[s] == 0
    ensures Count(lens, l) == if l == 0 then |lens| else 0
  {
    if lens != [] { AllZero(lens[..|lens| - 1], l); }
  }

  /** Hands out the lengths, the shortest to the most frequent symbols. */
  method GiveLengths(sizes: array<byte>, pSyms: array<SymFreq>, n: nat, num_codes: array<int>, limit: nat,
                     ghost t: Syms)
    returns (ghost L: seq<nat>)
    requires n == |t| <= pSyms.Length && num_codes.Length == MAX_SUPPORTED + 1 && limit <= MAX_BITS && DistinctSyms(t)
    requires forall r :: 0 <= r < |t| ==> pSyms[r].sym == t[r].sym < sizes.Length
    requires forall s :: 0 <= s < sizes.Length ==> sizes[s] == 0
    requires NonNegative(num_codes[..]) && Total(num_codes[..], 0, limit) == |t|
    modifies sizes
    ensures Given(sizes[..], t, L) && HandedOut(num_codes[..], L, limit + 1)
  {
    hide Given, NonIncreasing;
    ghost var h := num_codes[..];
    var i, j := 1, n;
    L := [];
    NothingGiven(sizes[..]);
    assert t[j..] == [];
    assert HandedOut(h, L, 1) by { AnyOrder(L); }
    hide HandedOut;
    while i <= limit
      invariant 1 <= i <= limit + 1
      invariant 0 <= j <= |t| && j + Total(h, 0, i - 1) == |t|
      invariant Given(sizes[..], t[j..], L) && HandedOut(h, L, i)
    {
      HandedOutGives(h, L, i, limit);
      ghost var L0 := L;
      j, L := GiveLength(sizes, pSyms, j, num_codes[i], i, t, L);
      HandedOutStep(h, L0, L, i);
      i := i + 1;
    }
    assert t[0..] == t;
  }

  lemma AnyOrder(L: seq<nat>)
    requires L == []
    ensures NonIncreasing(L)
  {
  }

  lemma HandedOutGives(h: seq<int>, L: seq<nat>, i: nat, limit: nat)
    requires HandedOut(h, L, i) && i <= limit < |h| && NonNegative(h)
    ensures Within(L, i) && NonIncreasing(L) && |L| == Total(h, 0, i - 1)
    ensures 0 <= h[i] <= Total(h, 0, limit) - Total(h, 0, i - 1)
  {
    TotalSplit(h, 0, i - 1, i);
    TotalSplit(h, 0, i, limit);
    TotalNonNegative(h, i, limit);
  }

  lemma HandedOutStep(h: seq<int>, L0: seq<nat>, L: seq<nat>, i: nat)
    requires HandedOut(h, L0, i) && i < |h| && Within(L, i + 1) && NonIncreasing(L)
    requires |L| == |L0| + h[i] && Count(L, i) == h[i] && forall l :: 0 < l < i ==> Count(L, l) == Count(L0, l)
    ensures HandedOut(h, L, i + 1)
  {
  }

  /** What the frequencies ask of the lengths: used symbols only, rarer ones never shorter, nothing above the limit. */
  ghost predicate Suits(counts: seq<u16>, lens: seq<nat>, limit: nat)
  {
    |lens| == |counts| && Acceptable(lens) &&
    (forall s :: 0 <= s < |lens| ==> lens[s] <= limit && (lens[s] > 0 <==> counts[s] > 0)) &&
    (forall s, t :: 0 <= s < |lens| && 0 <= t < |lens| && counts[s] > counts[t] > 0 ==> lens[s] <= lens[t])
  }

  /** The lengths handed out make an acceptable code. */
  lemma GivenAcceptable(lens: seq<nat>, t: Syms, L: seq<nat>, h: seq<int>, limit: nat)
    requires |h| == MAX_SUPPORTED + 1 && 0 < limit <= MAX_BITS && Given(lens, t, L) && HandedOut(h, L, limit + 1)
    requires |t| >= 2 ==> Filled(h, limit) == Pow2(limit)
    ensures Acceptable(lens) && forall s :: 0 <= s < |lens| ==> lens[s] <= limit
  {
    forall s | 0 <= s < |lens| && lens[s] > 0 ensures lens[s] <= limit {
      var x :| x in t && x.sym == s;
      var i :| 0 <= i < |t| && t[i] == x;
      assert lens[s] == L[i];
    }
    if |t| >= 2 {
      FilledIsFilledBy(h, lens, limit);
      FilledAbove(lens, limit, MAX_BITS);
    } else {
      FewFilled(lens, L, MAX_BITS);
      Pow2Mono(0, MAX_BITS);
    }
  }

  /** At most one code cannot be too many. */
  lemma {:induction false} FewFilled(lens: seq<nat>, L: seq<nat>, b: nat)
    requires |L| <= 1 && (forall l :: l > 0 ==> Count(lens, l) == Count(L, l)) && forall i :: 0 <= i < |L| ==> L[i] >= 1
    ensures 2 * FilledBy(lens, b) <= Pow2(b)
    ensures L == [] || L[0] > b ==> FilledBy(lens, b) == 0
  {
    if b > 0 {
      FewFilled(lens, L, b - 1);
      if L != [] { assert L[..0] == []; assert L == [L[0]]; }
      assert Count(L, b) <= 1;
      if L == [] || L[0] != b { AllCount(L, b); }
    }
  }

  lemma GivenSuits(counts: seq<u16>, lens: seq<nat>, t: Syms, L: seq<nat>, limit: nat)
    requires SortedUsed(t, counts) && Given(lens, t, L) && NonIncreasing(L) && |lens| == |counts|
    requires forall i :: 0 <= i < |L| ==> L[i] > 0
    requires Acceptable(lens) && forall s :: 0 <= s < |lens| ==> lens[s] <= limit
    ensures Suits(counts, lens, limit)
  {
    hide Acceptable, Sum, Count;
    forall s | 0 <= s < |lens| ensures lens[s] > 0 <==> counts[s] > 0 {
      if lens[s] > 0 || counts[s] > 0 { var i := RankOf(t, s); }
    }
    forall a, b | 0 <= a < |lens| && 0 <= b < |lens| && counts[a] > counts[b] > 0 ensures lens[a] <= lens[b] {
      var i := RankOf(t, a);
      var j := RankOf(t, b);
      assert Keys(t)[i] > Keys(t)[j];
    }
  }

  lemma RankOf(t: Syms, s: nat) returns (i: nat)
    requires s in SymSet(t)
    ensures i < |t| && t[i].sym == s
  {
    var x :| x in t && x.sym == s;
    i :| 0 <= i < |t| && t[i] == x;
  }

  /** Reverses the low bits of a code. */
  method ReverseBits(code: nat, code_size: nat) returns (rev_code: nat)
    requires code < Pow2(code_size)
    ensures rev_code < Pow2(code_size) && ToBits(rev_code, code_size) == MsbBits(code, code_size)
  {
    rev_code := 0;
    var c, l := code, code_size;
    while l > 0
      invariant 0 <= l <= code_size
      invariant rev_code < Pow2(code_size - l)
      invariant MsbBits(code, code_size) == MsbBits(c, l) + ToBits(rev_code, code_size - l)
    {
      rev_code := rev_code * 2 + c % 2;
      l := l - 1;
      c := c / 2;
    }
  }

  /** The first code of every length. */
  method FirstCodes(num_codes: array<int>, limit: nat, ghost lens: seq<nat>, next_code: array<nat>)
    requires num_codes.Length == MAX_SUPPORTED + 1 == next_code.Length && 0 < limit <= MAX_BITS
    requires forall l :: 1 <= l <= limit ==> num_codes[l] == Count(lens, l)
    modifies next_code
    ensures forall l :: 1 <= l <= limit ==> next_code[l] == NextCode(lens, l)
  {
    next_code[1] := 0;
    assert FilledBy(lens, 0) == 0;
    var j, i := 0, 2;
    while i <= limit
      invariant 2 <= i <= limit + 1
      invariant j == NextCode(lens, i - 1)
      invariant forall l :: 1 <= l < i ==> next_code[l] == NextCode(lens, l)
    {
      j := (j + num_codes[i - 1]) * 2;
      next_code[i] := j;
      i := i + 1;
    }
  }

  /** The next code of one length goes to symbol i. */
  method AssignCode(codes: array<u16>, next_code: array<nat>, i: nat, code_size: nat)
    requires i < codes.Length && 0 < code_size <= MAX_BITS && next_code.Length == MAX_SUPPORTED + 1
    requires next_code[code_size] < Pow2(code_size) <= 32768
    modifies codes, next_code
    ensures next_code[..] == old(next_code[..])[code_size := old(next_code[code_size]) + 1]
    ensures codes[i] < Pow2(code_size) && ToBits(codes[i], code_size) == MsbBits(old(next_code[code_size]), code_size)
    ensures codes[..i] == old(codes[..i])
  {
    var code := next_code[code_size];
    next_code[code_size] := code + 1;
    var rev_code := ReverseBits(code, code_size);
    codes[i] := rev_code;
  }

  /** The next code of every length, when the first i symbols have theirs. */
  ghost predicate NextCodes(next_code: seq<nat>, lens: seq<nat>, i: nat, limit: nat)
  {
    i <= |lens| && limit < |next_code| &&
    forall l :: 1 <= l <= limit ==> next_code[l] == NextCode(lens, l) + Count(lens[..i], l)
  }

  lemma NextCodesStep(next_code: seq<nat>, lens: seq<nat>, i: nat, limit: nat)
    requires NextCodes(next_code, lens, i, limit) && i < |lens| && lens[i] <= limit
    ensures NextCodes(if lens[i] == 0 then next_code else next_code[lens[i] := next_code[lens[i]] + 1], lens, i + 1,
                      limit)
    ensures lens[i] > 0 ==>
              next_code[lens[i]] == Code(lens, i) && CodeBits(lens, i) == MsbBits(next_code[lens[i]], lens[i])
  {
    assert lens[..i + 1][..i] == lens[..i];
    hide FilledBy;
  }

  /** Canonical codes, bit-reversed, for the lengths in sizes. */
  method AssignCodes(sizes: array<byte>, codes: array<u16>, table_len: nat, num_codes: array<int>, limit: nat)
    requires table_len <= sizes.Length && table_len <= codes.Length
    requires num_codes.Length == MAX_SUPPORTED + 1 && 0 < limit <= MAX_BITS
    requires Valid(sizes[..table_len]) && forall s :: 0 <= s < table_len ==> sizes[s] <= limit
    requires forall l :: 1 <= l <= limit ==> num_codes[l] == Count(sizes[..table_len], l)
    modifies codes
    ensures HoldsCodes(sizes[..table_len], codes[..table_len])
  {
    ghost var lens := sizes[..table_len];
    var next_code := new nat[MAX_SUPPORTED + 1];
    FirstCodes(num_codes, limit, lens, next_code);
    assert lens[..0] == [];
    assert NextCodes(next_code[..], lens, 0, limit);
    hide Valid, NextCodes, HoldsCodes, HoldsSome, CodeBits, MsbBits, ToBits, Code, Pow2, Count;
    HoldsNone(lens, codes[..0]);
    var i := 0;
    while i < table_len
      invariant 0 <= i <= table_len
      invariant NextCodes(next_code[..], lens, i, limit)
      invariant HoldsSome(lens, codes[..i])
    {
      AssignNext(codes, next_code, i, sizes[i], lens, limit);
      i := i + 1;
    }
    HoldsAll(lens, codes[..table_len]);
  }

  /** The code of symbol i, if it has one. */
  method AssignNext(codes: array<u16>, next_code: array<nat>, i: nat, code_size: nat, ghost lens: seq<nat>,
                    ghost limit: nat)
    requires i < codes.Length && i < |lens| && code_size == lens[i] <= limit <= MAX_BITS
    requires next_code.Length == MAX_SUPPORTED + 1 && Valid(lens) && codes as object != next_code
    requires NextCodes(next_code[..], lens, i, limit) && HoldsSome(lens, codes[..i])
    modifies codes, next_code
    ensures NextCodes(next_code[..], lens, i + 1, limit) && HoldsSome(lens, codes[..i + 1])
  {
    hide Valid, NextCodes, HoldsSome, CodeBits, MsbBits, ToBits, Code, Pow2, Count;
    NextCodesStep(next_code[..], lens, i, limit);
    ghost var c0 := codes[..i];
    if code_size != 0 {
      CodeIsShort(lens, i);
      AssignCode(codes, next_code, i, code_size);
    }
    HoldsOneMore(lens, c0, codes[i]);
    assert codes[..i + 1] == c0 + [codes[i]];
  }

  /** The codes of the first symbols are stored. */
  ghost predicate HoldsSome(lens: seq<nat>, codes: seq<nat>)
  {
    |codes| <= |lens| &&
    forall s :: 0 <= s < |codes| && lens[s] > 0 ==>
      codes[s] < Pow2(lens[s]) && ToBits(codes[s], lens[s]) == CodeBits(lens, s)
  }

  lemma HoldsNone(lens: seq<nat>, codes: seq<nat>)
    requires codes == []
    ensures HoldsSome(lens, codes)
  {
  }

  lemma HoldsOneMore(lens: seq<nat>, codes: seq<nat>, code: nat)
    requires HoldsSome(lens, codes) && |codes| < |lens|
    requires lens[|codes|] > 0 ==> code < Pow2(lens[|codes|]) && ToBits(code, lens[|codes|]) == CodeBits(lens, |codes|)
    ensures HoldsSome(lens, codes + [code])
  {
  }

  lemma HoldsAll(lens: seq<nat>, codes: seq<nat>)
    requires HoldsSome(lens, codes) && |codes| == |lens|
    ensures HoldsCodes(lens, codes)
  {
  }

  lemma CodeIsShort(lens: seq<nat>, s: nat)
    requires Valid(lens) && s < |lens| && lens[s] > 0
    ensures lens[s] <= MAX_BITS && Code(lens, s) < Pow2(lens[s]) <= 32768
  {
    CodeFits(lens, s);
    Pow2Mono(lens[s], MAX_BITS);
    assert Pow2(MAX_BITS) == 32768;
  }

  /** As cheap as can be, unless a code had to be cut; and then nearly so. */
  ghost predicate Cheap(counts: seq<nat>, lens: seq<nat>, limit: nat)
  {
    (Sum(counts) < Fib(limit + 3) ==> Best(counts, lens)) && (limit == 15 ==> NearlyBest(counts, lens))
  }

  /** The length of a symbol, if there is one. */
  function At(lens: seq<nat>, s: nat): (r: nat)
  {
    if s < |lens| then lens[s] else 0
  }

  /** Lengths by rank, from those by symbol. */
  ghost function ByRank(t: Syms, lens: seq<nat>): (r: seq<nat>)
    ensures |r| == |t| && forall i :: 0 <= i < |t| ==> r[i] == At(lens, t[i].sym)
  {
    seq(|t|, i requires 0 <= i < |t| => At(lens, t[i].sym))
  }

  lemma {:induction false} PriceByRank(t: Syms, lens: seq<nat>)
    ensures Price(Keys(t), ByRank(t, lens)) == SumOf(t, (x: SymFreq) => x.key * At(lens, x.sym))
  {
    hide At;
    if t != [] {
      var m := |t| - 1;
      PriceByRank(t[..m], lens);
      assert Keys(t)[..m] == Keys(t[..m]) && ByRank(t, lens)[..m] == ByRank(t[..m], lens);
    }
  }

  /** The last symbol counts if it is used. */
  lemma UsedMore(counts: seq<u16>, f: SymFreq -> nat)
    requires 0 < |counts| <= 65536
    ensures var m := |counts| - 1;
            SumOf(Used(counts), f) == SumOf(Used(counts[..m]), f) + if counts[m] > 0 then f(SymFreq(counts[m], m))
              else 0
  {
    var m := |counts| - 1;
    var u := Used(counts[..m]);
    if counts[m] > 0 {
      assert Used(counts) == u + [SymFreq(counts[m], m)];
      hide Used, SumOf;
      SumOfJoin(u, [SymFreq(counts[m], m)], f);
      SumOfOne(SymFreq(counts[m], m), f);
    } else {
      assert Used(counts) == u;
    }
  }

  lemma {:induction false} PriceBySymbol(counts: seq<u16>, lens: seq<nat>)
    requires |counts| <= 65536 && |counts| <= |lens|
    ensures Price(counts, lens[..|counts|]) == SumOf(Used(counts), (x: SymFreq) => x.key * At(lens, x.sym))
  {
    if counts != [] {
      var m := |counts| - 1;
      PriceBySymbol(counts[..m], lens);
      assert lens[..|counts|][..m] == lens[..m];
      UsedMore(counts, (x: SymFreq) => x.key * At(lens, x.sym));
      hide Used, SumOf;
    }
  }

  lemma {:induction false} KraftByRank(t: Syms, lens: seq<nat>, m: nat, a: nat)
    requires a <= |t|
    ensures Kraft(Items(Keys(t), ByRank(t, lens))[a..], m) + SumOf(t[..a], (x: SymFreq) => Share(At(lens, x.sym), m))
            == SumOf(t, (x: SymFreq) => Share(At(lens, x.sym), m))
    decreases |t| - a
  {
    hide At, Share;
    if a < |t| {
      KraftByRank(t, lens, m, a + 1);
      assert Items(Keys(t), ByRank(t, lens))[a..][1..] == Items(Keys(t), ByRank(t, lens))[a + 1..];
      assert t[..a + 1][..a] == t[..a];
    } else {
      assert t[..a] == t;
    }
  }

  lemma {:induction false} KraftBySymbol(counts: seq<u16>, lens: seq<nat>, m: nat)
    requires |counts| <= 65536 && |counts| <= |lens| && forall s :: 0 <= s < |counts| && counts[s] > 0 ==> lens[s] > 0
    ensures SumOf(Used(counts), (x: SymFreq) => Share(At(lens, x.sym), m)) <= KraftSum(lens[..|counts|], m)
  {
    hide Share;
    if counts != [] {
      var k := |counts| - 1;
      KraftBySymbol(counts[..k], lens, m);
      assert lens[..|counts|][..k] == lens[..k];
      UsedMore(counts, (x: SymFreq) => Share(At(lens, x.sym), m));
      hide Used, SumOf;
    }
  }

  /** Prices and shares are the same by rank and by symbol. */
  lemma RankIsSymbol(counts: seq<u16>, t: Syms, lens: seq<nat>)
    requires |counts| <= 65536 && |lens| == |counts| && multiset(t) == multiset(Used(counts))
    ensures Price(Keys(t), ByRank(t, lens)) == Price(counts, lens)
  {
    hide Used, Price, SumOf, At, Keys, ByRank;
    var f := (x: SymFreq) => x.key * At(lens, x.sym);
    PriceByRank(t, lens);
    PriceBySymbol(counts, lens);
    SumOfPermutes(t, Used(counts), f);
    assert lens[..|counts|] == lens;
  }

  lemma RivalByRank(counts: seq<u16>, t: Syms, other: seq<nat>, m: nat)
    requires |counts| <= 65536 && multiset(t) == multiset(Used(counts)) && Rival(counts, other, m)
    requires forall i :: 0 <= i < |t| ==> t[i].sym < |counts|
    ensures KraftOk(Items(Keys(t), ByRank(t, other)), m)
  {
    hide Used, Kraft, SumOf, KraftSum, Share;
    var f := (x: SymFreq) => Share(At(other, x.sym), m);
    KraftByRank(t, other, m, 0);
    KraftBySymbol(counts, other, m);
    SumOfPermutes(t, Used(counts), f);
    assert other[..|counts|] == other;
    NoSum(t[..0], f);
    assert Items(Keys(t), ByRank(t, other))[0..] == Items(Keys(t), ByRank(t, other));
  }

  lemma NoSum(s: Syms, f: SymFreq -> nat)
    requires s == []
    ensures SumOf(s, f) == 0
  {
  }

  /** The lengths handed out are those of the Huffman code cut to the limit. */
  lemma SqueezedNow(w: seq<nat>, L0: seq<nat>, L: seq<nat>, h: seq<int>, limit: nat)
    requires Cut(w, L0, h, limit) && HandedOut(h, L, limit + 1) && |L| == |w| >= 2 && 0 < limit <= MAX_BITS
    requires |h| == MAX_SUPPORTED + 1
    requires Filled(h, limit) == Pow2(limit)
    ensures Squeezed(w, L0, L, limit)
  {
    var h0 :| CutFrom(h0, h, L0, limit);
    hide Optimal, WeightBounded, FibBounded, Sum, KraftEqual, Limited, Filled, NonIncreasing, Count, Fib, Total;
    hide FewLonger;
    if limit == 15 {
      var c := LimitedIsFew(h0, h, L0, L, |w|, 15);
    }
    if Sum(w) < Fib(limit + 3) { NothingIsCut(w, L0, L, h0, h, limit); }
  }

  /** With a small total, no code is too long. */
  lemma NothingIsCut(w: seq<nat>, L0: seq<nat>, L: seq<nat>, h0: seq<int>, h: seq<int>, limit: nat)
    requires CutFrom(h0, h, L0, limit) && HandedOut(h, L, limit + 1) && Sum(w) < Fib(limit + 3)
    requires FibBounded(L0, Sum(w))
    requires NonIncreasing(L0) && |L| == |L0| == |w| && 0 < limit <= MAX_BITS && |h| == MAX_SUPPORTED + 1
    ensures L == L0
  {
    hide Sum, KraftEqual, Limited, Count, Fib;
    forall p | 0 <= p < |L0| ensures L0[p] <= limit {
      if L0[p] > limit { FibMono(limit + 3, L0[p] + 2); }
    }
    forall i | limit < i <= MAX_SUPPORTED ensures h0[i] == 0 { CountNone(L0, i); }
    hide FibBounded;
    forall p | 0 <= p < |L0| ensures L[p] == L0[p] {
      forall l | 0 <= l <= limit ensures UpTo(L, l) == UpTo(L0, l) {
        UpToCounted(h, L, l);
        UpToCounted(h, L0, l);
      }
      AllUpTo(L, limit);
      SameTail(L0, L, limit, p);
    }
  }

  lemma {:induction false} CountNone(L: seq<nat>, l: nat)
    requires forall p :: 0 <= p < |L| ==> L[p] != l
    ensures Count(L, l) == 0
  {
    if L != [] { CountNone(L[..|L| - 1], l); }
  }

  lemma CheapNow(counts: seq<u16>, lens: seq<nat>, t: Syms, L0: seq<nat>, L: seq<nat>, h: seq<int>, limit: nat)
    requires SortedUsed(t, counts) && |counts| == |lens| <= MAX_HUFF_SYMBOLS && Given(lens, t, L)
    requires HandedOut(h, L, limit + 1)
    requires 0 < limit <= MAX_BITS && |h| == MAX_SUPPORTED + 1
    requires |t| >= 2 ==> Filled(h, limit) == Pow2(limit) && Cut(Keys(t), L0, h, limit)
    requires |t| == 1 ==> h[1] == 1
    ensures Cheap(counts, lens, limit)
  {
    hide *;
    GivenByRank(lens, t, L, h, limit);
    HuffSymbols();
    if |t| == 1 { OneCode(h, L, limit); }
    if |t| >= 2 { SqueezedNow(Keys(t), L0, L, h, limit); }
    forall other, m | Rival(counts, other, m) ensures CheapAgainst(counts, lens, other, limit) {
      RivalCosts(counts, lens, t, L0, L, limit, other, m);
    }
    CheapSo(counts, lens, limit);
  }

  lemma HuffSymbols()
    ensures MAX_HUFF_SYMBOLS == 288 && MAX_SUPPORTED == 32 && MAX_BITS == 15
  {
  }

  lemma GivenByRank(lens: seq<nat>, t: Syms, L: seq<nat>, h: seq<int>, limit: nat)
    requires Given(lens, t, L)
    ensures L == ByRank(t, lens) && |L| == |t| == |Keys(t)|
  {
  }

  lemma CheapSo(counts: seq<nat>, lens: seq<nat>, limit: nat)
    requires |lens| == |counts|
    requires forall other, m :: Rival(counts, other, m) ==> CheapAgainst(counts, lens, other, limit)
    ensures Cheap(counts, lens, limit)
  {
    hide Price, Sum, Fib, Rival;
  }

  lemma OneCode(h: seq<int>, L: seq<nat>, limit: nat)
    requires HandedOut(h, L, limit + 1) && 0 < limit && |L| == 1 && |h| > limit && h[1] == 1
    ensures L[0] == 1
  {
    assert L[..0] == [];
    assert Count(L, 1) == if L[0] == 1 then 1 else 0;
  }

  ghost predicate CheapAgainst(counts: seq<nat>, lens: seq<nat>, other: seq<nat>, limit: nat)
  {
    |other| == |lens| == |counts| && (Sum(counts) < Fib(limit + 3) ==> Price(counts, lens) <= Price(counts, other)) &&
    (limit == 15 ==> 270 * Price(counts, lens) <= 270 * Price(counts, other) + Sum(counts) * |counts|)
  }

  lemma RivalCosts(counts: seq<u16>, lens: seq<nat>, t: Syms, L0: seq<nat>, L: seq<nat>, limit: nat, other: seq<nat>,
                   m: nat)
    requires SortedUsed(t, counts) && |counts| == |lens| <= 65536 && L == ByRank(t, lens) && Rival(counts, other, m)
    requires |t| >= 2 ==> Squeezed(Keys(t), L0, L, limit)
    requires |t| == 1 ==> L[0] == 1
    ensures CheapAgainst(counts, lens, other, limit)
  {
    hide *;
    SumIs(t, counts);
    RivalIs(counts, other, m);
    RankIsSymbol(counts, t, lens);
    RankIsSymbol(counts, t, other);
    Swap(Sum(counts), |t|, |counts|);
    var w, o := Keys(t), ByRank(t, other);
    if |t| >= 2 {
      RivalByRank(counts, t, other, m);
      SqueezedCosts(w, L0, L, limit, o, m);
    } else {
      FewCosts(counts, t, L, other);
    }
    AgainstNow(counts, lens, other, limit, Sum(counts) * |t|);
  }

  lemma AgainstNow(counts: seq<nat>, lens: seq<nat>, other: seq<nat>, limit: nat, x: nat)
    requires |other| == |lens| == |counts| && x <= Sum(counts) * |counts|
    requires Sum(counts) < Fib(limit + 3) ==> Price(counts, lens) <= Price(counts, other)
    requires limit == 15 ==> 270 * Price(counts, lens) <= 270 * Price(counts, other) + x
    ensures CheapAgainst(counts, lens, other, limit)
  {
    hide Price, Sum, Fib;
  }

  /** No symbol, or one with the shortest code there is. */
  lemma FewCosts(counts: seq<u16>, t: Syms, L: seq<nat>, other: seq<nat>)
    requires |t| < 2 && |L| == |t| && (|t| == 1 ==> L[0] == 1) && |other| == |counts|
    requires forall i :: 0 <= i < |t| ==> t[i].sym < |counts| && counts[t[i].sym] > 0
    requires forall s :: 0 <= s < |other| && counts[s] > 0 ==> other[s] > 0
    ensures Price(Keys(t), L) <= Price(Keys(t), ByRank(t, other))
  {
    var w, o := Keys(t), ByRank(t, other);
    if |t| == 1 {
      assert w[..0] == [] && o[..0] == [] && L[..0] == [];
      assert o[0] >= 1;
      MulMono(1, o[0], w[0]);
    }
  }

  lemma SumIs(t: Syms, counts: seq<u16>)
    requires SortedUsed(t, counts)
    ensures Sum(Keys(t)) == Sum(counts) && |t| <= |counts| && |Keys(t)| == |t| && multiset(t) == multiset(Used(counts))
    ensures forall i :: 0 <= i < |t| ==> t[i].sym < |counts| && counts[t[i].sym] > 0
  {
  }

  lemma Swap(s: nat, a: nat, b: nat)
    requires a <= b
    ensures s * a <= s * b && s * b >= 0
  {
    MulMono(a, b, s);
  }

  lemma RivalIs(counts: seq<nat>, other: seq<nat>, m: nat)
    requires Rival(counts, other, m)
    ensures |other| == |counts| && forall s :: 0 <= s < |other| && counts[s] > 0 ==> other[s] > 0
  {
  }

  /** A table of frequencies, code lengths and codes. */
  class HuffTable {
    const count: array<u16>
    const codes: array<u16>
    const sizes: array<byte>

    constructor ()
      ensures Shaped() && fresh(count) && fresh(codes) && fresh(sizes)
      ensures forall s :: 0 <= s < MAX_HUFF_SYMBOLS ==> count[s] == 0
    {
      count := new u16[MAX_HUFF_SYMBOLS](_ => 0);
      codes := new u16[MAX_HUFF_SYMBOLS](_ => 0);
      sizes := new byte[MAX_HUFF_SYMBOLS](_ => 0);
    }

    ghost predicate Shaped()
    {
      count.Length == codes.Length == sizes.Length == MAX_HUFF_SYMBOLS && count != codes
    }

    /** From frequencies to lengths; the histogram of lengths is left in num_codes. */
    method LengthsFromCounts(table_len: nat, limit: nat, num_codes: array<int>)
      requires Shaped() && table_len <= MAX_HUFF_SYMBOLS && 0 < limit <= MAX_BITS && table_len <= Pow2(limit)
      requires num_codes.Length == MAX_SUPPORTED + 1 && forall l :: 0 <= l <= MAX_SUPPORTED ==> num_codes[l] == 0
      requires num_codes as object != sizes && num_codes as object != codes && num_codes as object != count
      requires Sum(count[..table_len]) < 65536
      modifies num_codes, codes, sizes
      ensures Suits(count[..table_len], sizes[..table_len], limit)
      ensures forall s :: table_len <= s < MAX_HUFF_SYMBOLS ==> sizes[s] == 0
      ensures forall l :: 1 <= l <= limit ==> num_codes[l] == Count(sizes[..table_len], l)
      ensures Cheap(count[..table_len], sizes[..table_len], limit)
    {
      hide Suits, SortedUsed, Sum, Cut, Given, HandedOut, Cheap;
      ghost var counts := count[..table_len];
      var syms0 := new SymFreq[MAX_HUFF_SYMBOLS](_ => SymFreq(0, 0));
      var syms1 := new SymFreq[MAX_HUFF_SYMBOLS](_ => SymFreq(0, 0));
      var pSyms, num_used_syms := RankSymbols(count, table_len, syms0, syms1);
      ghost var t := pSyms[..num_used_syms];
      ghost var L0 := LengthHistogram(pSyms, num_used_syms, counts, num_codes, limit);
      ghost var L := SpreadLengths(sizes, codes, pSyms, num_used_syms, num_codes, table_len, limit, counts, t);
      CheapNow(counts, sizes[..table_len], t, L0, L, num_codes[..], limit);
    }

    /** Makes the codes of a table, from its frequencies or, for a static table, from the lengths in it. */
    method OptimizeHuffmanTable(table_len: nat, limit: nat, static_table: bool)
      requires Shaped() && table_len <= MAX_HUFF_SYMBOLS && 0 < limit <= MAX_BITS && table_len <= Pow2(limit)
      requires static_table ==> Valid(sizes[..table_len]) && forall s :: 0 <= s < table_len ==> sizes[s] <= limit
      requires !static_table ==> Sum(count[..table_len]) < 65536
      modifies codes, sizes
      ensures HoldsCodes(sizes[..table_len], codes[..table_len])
      ensures static_table ==> sizes[..] == old(sizes[..])
      ensures !static_table ==> Suits(count[..table_len], sizes[..table_len], limit)
      ensures !static_table ==> forall s :: table_len <= s < MAX_HUFF_SYMBOLS ==> sizes[s] == 0
      ensures !static_table ==> Cheap(count[..table_len], sizes[..table_len], limit)
    {
      hide Sum, HoldsCodes, Count, Cheap;
      var num_codes := new int[MAX_SUPPORTED + 1](_ => 0);
      if static_table {
        CountSizes(sizes, table_len, num_codes);
      } else {
        LengthsFromCounts(table_len, limit, num_codes);
      }
      AssignCodes(sizes, codes, table_len, num_codes, limit);
    }
  }

  /** Counts the lengths of a given code. */
  method CountSizes(sizes: array<byte>, table_len: nat, num_codes: array<int>)
    requires table_len <= sizes.Length && num_codes.Length == MAX_SUPPORTED + 1
    requires forall s :: 0 <= s < table_len ==> sizes[s] <= MAX_BITS
    requires forall l :: 0 <= l <= MAX_SUPPORTED ==> num_codes[l] == 0
    modifies num_codes
    ensures forall l :: 0 <= l <= MAX_SUPPORTED ==> num_codes[l] == Count(sizes[..table_len], l)
  {
    var i := 0;
    while i < table_len
      invariant 0 <= i <= table_len
      invariant forall l :: 0 <= l <= MAX_SUPPORTED ==> num_codes[l] == Count(sizes[..i], l)
    {
      assert sizes[..i + 1][..i] == sizes[..i];
      num_codes[sizes[i]] := num_codes[sizes[i]] + 1;
      i := i + 1;
    }
  }

  /** The used symbols, the rarest first. */
  method RankSymbols(count: array<u16>, table_len: nat, syms0: array<SymFreq>, syms1: array<SymFreq>)
    returns (pSyms: array<SymFreq>, n: nat)
    requires table_len <= count.Length && table_len <= MAX_HUFF_SYMBOLS == syms0.Length == syms1.Length
    requires syms0 != syms1
    modifies syms0, syms1
    ensures pSyms == syms0 || pSyms == syms1
    ensures n <= table_len && SortedUsed(pSyms[..n], count[..table_len])
  {
    hide SortedUsed, StableSort, Used;
    n := CollectUsed(count, table_len, syms0);
    pSyms := RadixSortSyms(n, syms0, syms1);
    SortsUsed(count[..table_len], pSyms[..n]);
  }

  /** How many codes of every length the used symbols get. */
  method LengthHistogram(pSyms: array<SymFreq>, n: nat, ghost counts: seq<u16>, num_codes: array<int>, limit: nat)
    returns (ghost L0: seq<nat>)
    requires n <= pSyms.Length && n <= MAX_HUFF_SYMBOLS && 0 < limit <= MAX_BITS && n <= Pow2(limit)
    requires SortedUsed(pSyms[..n], counts) && Sum(counts) < 65536
    requires num_codes.Length == MAX_SUPPORTED + 1 && forall l :: 0 <= l <= MAX_SUPPORTED ==> num_codes[l] == 0
    modifies pSyms, num_codes
    ensures forall r :: 0 <= r < n ==> pSyms[r].sym == old(pSyms[r].sym)
    ensures NonNegative(num_codes[..]) && Total(num_codes[..], 0, limit) == n
    ensures n >= 2 ==> Filled(num_codes[..], limit) == Pow2(limit)
    ensures n >= 2 ==> Cut(old(Keys(pSyms[..n])), L0, num_codes[..], limit)
    ensures n == 1 ==> num_codes[1] == 1
  {
    SortedUsedGives(pSyms[..n], counts);
    ghost var w := Keys(pSyms[..n]);
    hide SortedUsed, Sum, KraftEqual, Huffman, Counts, Limited;
    L0 := RawHistogram(pSyms, n, num_codes, limit);
    ghost var h0 := num_codes[..];
    EnforceMaxCodeSize(num_codes, n, limit);
    if n >= 2 { CutNow(w, L0, h0, num_codes[..], n, limit); }
  }

  lemma CutNow(w: seq<nat>, L0: seq<nat>, h0: seq<int>, h: seq<int>, n: nat, limit: nat)
    requires Huffman(w, L0) && KraftEqual(h0, n) && Counts(h0, L0, MAX_SUPPORTED) && |L0| == n == |w|
    requires Limited(h0, h, n, limit)
    requires |h0| == MAX_SUPPORTED + 1 && ((forall i :: limit < i <= MAX_SUPPORTED ==> h0[i] == 0) ==> h == h0)
    ensures Cut(w, L0, h, limit)
  {
    hide Huffman, KraftEqual, Counts, Limited;
    assert CutFrom(h0, h, L0, limit);
  }

  /** How many codes of every length a code of minimum redundancy has. */
  method RawHistogram(pSyms: array<SymFreq>, n: nat, num_codes: array<int>, limit: nat) returns (ghost L0: seq<nat>)
    requires n <= pSyms.Length && n <= MAX_HUFF_SYMBOLS && 0 < limit <= MAX_BITS
    requires Sorted(Keys(pSyms[..n])) && Positives(Keys(pSyms[..n])) && Sum(Keys(pSyms[..n])) < 65536
    requires num_codes.Length == MAX_SUPPORTED + 1 && forall l :: 0 <= l <= MAX_SUPPORTED ==> num_codes[l] == 0
    modifies pSyms, num_codes
    ensures forall r :: 0 <= r < n ==> pSyms[r].sym == old(pSyms[r].sym)
    ensures n >= 2 ==> KraftEqual(num_codes[..], n) && Counts(num_codes[..], L0, MAX_SUPPORTED) && |L0| == n
    ensures n >= 2 ==> Huffman(old(Keys(pSyms[..n])), L0)
    ensures n == 1 ==> num_codes[1] == 1
    ensures n <= 1 ==> NonNegative(num_codes[..]) && Total(num_codes[..], 0, limit) == n
  {
    hide Sum, Sorted, Optimal, FibBounded, WeightBounded, NonIncreasing, KraftEqual, FilledBy, Count, Positives, Total;
    CalculateMinimumRedundancy(pSyms, n);
    ghost var keys := Keys(pSyms[..n]);
    L0 := keys;
    CountLengths(pSyms, n, num_codes);
    if n >= 2 {
      HistogramComplete(num_codes[..], keys);
    } else {
      HistogramTrivial(num_codes[..], keys, limit);
    }
  }

  /** Lengths of a Huffman code for the weights. */
  ghost predicate Huffman(w: seq<nat>, L0: seq<nat>)
  {
    |L0| == |w| && Optimal(w, L0) && WeightBounded(w, L0, Sum(w)) && FibBounded(L0, Sum(w)) && NonIncreasing(L0)
  }

  /** Histogram of a Huffman code, cut to the limit. */
  ghost predicate Cut(w: seq<nat>, L0: seq<nat>, h: seq<int>, limit: nat)
  {
    |L0| == |w| && Huffman(w, L0) && exists h0 :: CutFrom(h0, h, L0, limit)
  }

  ghost predicate CutFrom(h0: seq<int>, h: seq<int>, L0: seq<nat>, limit: nat)
  {
    KraftEqual(h0, |L0|) && Counts(h0, L0, MAX_SUPPORTED) && Limited(h0, h, |L0|, limit) &&
    ((forall i :: limit < i <= MAX_SUPPORTED ==> h0[i] == 0) ==> h == h0)
  }

  lemma SortedUsedGives(t: Syms, counts: seq<u16>)
    requires SortedUsed(t, counts)
    ensures Sorted(Keys(t)) && Positives(Keys(t)) && Sum(Keys(t)) == Sum(counts) && DistinctSyms(t)
    ensures forall i :: 0 <= i < |t| ==> t[i].sym < |counts|
  {
  }

  lemma HistogramTrivial(h: seq<int>, keys: seq<nat>, limit: nat)
    requires |h| == MAX_SUPPORTED + 1 && 0 < limit <= MAX_BITS && |keys| <= 1
    requires forall l :: 0 <= l <= MAX_SUPPORTED ==> h[l] == Count(keys, l)
    requires |keys| == 1 ==> keys[0] == 1
    ensures NonNegative(h) && Total(h, 0, limit) == |keys|
    ensures |keys| == 1 ==> h[1] == 1
  {
    TotalCounts(h, keys, limit);
    if |keys| == 1 { assert keys[..0] == []; }
  }

  /** Hands the lengths to the symbols. */
  method SpreadLengths(sizes: array<byte>, codes: array<u16>, pSyms: array<SymFreq>, n: nat, num_codes: array<int>,
                       table_len: nat, limit: nat, ghost counts: seq<u16>, ghost t: Syms) returns (ghost L: seq<nat>)
    requires sizes.Length == codes.Length == MAX_HUFF_SYMBOLS && table_len <= MAX_HUFF_SYMBOLS && |counts| == table_len
    requires n == |t| <= pSyms.Length && num_codes.Length == MAX_SUPPORTED + 1 && 0 < limit <= MAX_BITS
    requires num_codes as object != sizes && num_codes as object != codes
    requires SortedUsed(t, counts) && forall r :: 0 <= r < n ==> pSyms[r].sym == t[r].sym
    requires NonNegative(num_codes[..]) && Total(num_codes[..], 0, limit) == n
    requires n >= 2 ==> Filled(num_codes[..], limit) == Pow2(limit)
    modifies sizes, codes
    ensures Suits(counts, sizes[..table_len], limit)
    ensures forall s :: table_len <= s < MAX_HUFF_SYMBOLS ==> sizes[s] == 0
    ensures forall l :: 1 <= l <= limit ==> num_codes[l] == Count(sizes[..table_len], l)
    ensures Given(sizes[..table_len], t, L) && HandedOut(num_codes[..], L, limit + 1)
  {
    SortedUsedGives(t, counts);
    hide *;
    HuffSymbols();
    ghost var h := num_codes[..];
    ClearAll(sizes, codes);
    assert num_codes[..] == h;
    L := GiveLengths(sizes, pSyms, n, num_codes, limit, t);
    SpreadDone(sizes[..], table_len, counts, t, L, num_codes[..], limit);
  }

  method ClearAll(sizes: array<byte>, codes: array<u16>)
    requires sizes.Length == codes.Length == MAX_HUFF_SYMBOLS
    modifies sizes, codes
    ensures forall s :: 0 <= s < sizes.Length ==> sizes[s] == 0
  {
    forall i | 0 <= i < MAX_HUFF_SYMBOLS { codes[i] := 0; }
    forall i | 0 <= i < MAX_HUFF_SYMBOLS { sizes[i] := 0; }
  }

  lemma SpreadDone(sizes: seq<nat>, table_len: nat, counts: seq<u16>, t: Syms, L: seq<nat>, h: seq<int>, limit: nat)
    requires table_len == |counts| <= |sizes| && |h| == MAX_SUPPORTED + 1 && 0 < limit <= MAX_BITS
    requires SortedUsed(t, counts) && Given(sizes, t, L) && HandedOut(h, L, limit + 1)
    requires |t| >= 2 ==> Filled(h, limit) == Pow2(limit)
    ensures Suits(counts, sizes[..table_len], limit)
    ensures forall s :: table_len <= s < |sizes| ==> sizes[s] == 0
    ensures forall l :: 1 <= l <= limit ==> h[l] == Count(sizes[..table_len], l)
    ensures Given(sizes[..table_len], t, L)
  {
    var lens := sizes[..table_len];
    GivenPrefix(sizes, table_len, counts, t, L);
    GivenAcceptable(lens, t, L, h, limit);
    GivenSuits(counts, lens, t, L, limit);
  }

  /** Symbols beyond the table have no length. */
  lemma GivenPrefix(sizes: seq<nat>, n: nat, counts: seq<u16>, t: Syms, L: seq<nat>)
    requires SortedUsed(t, counts) && n == |counts| <= |sizes| && Given(sizes, t, L)
    ensures Given(sizes[..n], t, L)
    ensures forall s :: n <= s < |sizes| ==> sizes[s] == 0
  {
    hide Sum, Sorted, Positives;
    assert forall x :: x in t ==> x.sym < n;
    forall s | n <= s < |sizes| ensures sizes[s] == 0 { assert s !in SymSet(t); }
    forall l ensures Count(sizes, l) == Count(sizes[..n], l) + (if l == 0 then |sizes| - n else 0) {
      CountZeros(sizes, n, l);
    }
  }

  lemma {:induction false} CountZeros(sizes: seq<nat>, n: nat, l: nat)
    requires n <= |sizes| && forall s :: n <= s < |sizes| ==> sizes[s] == 0
    ensures Count(sizes, l) == Count(sizes[..n], l) + (if l == 0 then |sizes| - n else 0)
    decreases |sizes|
  {
    if n < |sizes| {
      var init := sizes[..|sizes| - 1];
      CountZeros(init, n, l);
      assert init[..n] == sizes[..n];
    } else {
      assert sizes[..n] == sizes;
    }
  }
}
