/**
  What the limit on the length of codes costs. The repair lengthens codes only where few repairs
  are needed, and codes that are long already have small weights, so that on average a code does
  not get much longer.
 */
module LimitedCost {
  import opened Bits
  import opened CanonicalCode
  import opened HuffmanTree
  import opened HuffmanOptimality
  import opened LengthLimit

  /** h counts the lengths up to the limit. */
  ghost predicate Counts(h: seq<int>, L: seq<nat>, limit: nat)
  {
    limit < |h| && (forall l :: 1 <= l <= limit ==> h[l] == Count(L, l)) && forall p :: 0 <= p < |L| ==> L[p] >= 1
  }

  /** Units of the codes longer than j. */
  function UnitsOf(L: seq<nat>, j: nat, limit: nat): (r: nat)
  {
    if L == [] then 0
    else UnitsOf(L[..|L| - 1], j, limit) + if j < L[|L| - 1] <= limit then Unit(L[|L| - 1], limit) else 0
  }

  /** How many codes are at most l bits long. */
  function UpTo(L: seq<nat>, l: nat): (r: nat)
    ensures r <= |L|
  {
    if L == [] then 0 else UpTo(L[..|L| - 1], l) + if L[|L| - 1] <= l then 1 else 0
  }

  lemma {:induction false} UnitsOfJoin(a: seq<nat>, b: seq<nat>, j: nat, limit: nat)
    ensures UnitsOf(a + b, j, limit) == UnitsOf(a, j, limit) + UnitsOf(b, j, limit)
  {
    hide Unit;
    if b == [] {
      assert a + b == a;
    } else {
      assert (a + b)[..|a + b| - 1] == a + b[..|b| - 1];
      UnitsOfJoin(a, b[..|b| - 1], j, limit);
    }
  }

  lemma {:induction false} NoUnits(h: seq<int>, a: nat, b: nat, limit: nat)
    requires a <= b < |h| && b <= limit && forall l :: a < l <= b ==> h[l] == 0
    ensures Units(h, a, b, limit) == 0
  {
    if a < b {
      NoUnits(h, a, b - 1, limit);
      assert 0 * Unit(b, limit) == 0;
    }
  }

  /** Units by codes are units by lengths. */
  lemma {:induction false} UnitsCounted(h: seq<int>, L: seq<nat>, j: nat, limit: nat)
    requires j <= limit < |h| && forall l :: j < l <= limit ==> h[l] == Count(L, l)
    ensures UnitsOf(L, j, limit) == Units(h, j, limit, limit)
    decreases |L|
  {
    hide Unit, Units;
    if L == [] {
      NoUnits(h, j, limit, limit);
    } else {
      var m := |L| - 1;
      var k := L[m];
      if j < k <= limit {
        var g := h[k := h[k] - 1];
        UnitsCounted(g, L[..m], j, limit);
        UnitsUpdate(h, k, h[k] - 1, j, limit, limit);
        MinusOne(h[k], Unit(k, limit));
      } else {
        UnitsCounted(h, L[..m], j, limit);
      }
    }
  }

  lemma MinusOne(x: int, u: int)
    ensures (x - 1 - x) * u == -u
  {
  }

  lemma {:induction false} UpToCounted(h: seq<int>, L: seq<nat>, b: nat)
    requires b < |h| && (forall l :: 1 <= l <= b ==> h[l] == Count(L, l)) && forall p :: 0 <= p < |L| ==> L[p] >= 1
    ensures Total(h, 0, b) == UpTo(L, b)
    decreases |L|
  {
    hide Total;
    if L == [] {
      NoCodes(h, b);
    } else {
      var m := |L| - 1;
      var k := L[m];
      if k <= b {
        var g := h[k := h[k] - 1];
        UpToCounted(g, L[..m], b);
        TotalUpdate(h, k, h[k] - 1, 0, b);
      } else {
        UpToCounted(h, L[..m], b);
      }
    }
  }

  /** In a list that does not increase, the codes of at most l bits come last. */
  lemma {:induction false} AtRank(L: seq<nat>, l: nat, p: nat)
    requires NonIncreasing(L) && p < |L|
    ensures L[p] <= l <==> p >= |L| - UpTo(L, l)
  {
    var m := |L| - 1;
    if L[m] > l {
      NoneUpTo(L, l);
    } else if p < m {
      assert NonIncreasing(L[..m]);
      AtRank(L[..m], l, p);
    }
  }

  lemma {:induction false} NoneUpTo(L: seq<nat>, l: nat)
    requires forall p :: 0 <= p < |L| ==> L[p] > l
    ensures UpTo(L, l) == 0
  {
    if L != [] { NoneUpTo(L[..|L| - 1], l); }
  }

  /** From position c on two lists are the same, if they have the same number of codes of every length below j. */
  lemma SameTail(L0: seq<nat>, L: seq<nat>, j: nat, p: nat)
    requires NonIncreasing(L0) && NonIncreasing(L) && |L0| == |L| && j >= 1
    requires (forall l :: 0 <= l < j ==> UpTo(L, l) == UpTo(L0, l)) && UpTo(L, j) <= UpTo(L0, j)
    requires |L| - UpTo(L, j) <= p < |L|
    ensures L[p] == L0[p] <= j
  {
    AtRank(L, j, p);
    AtRank(L0, j, p);
    if L[p] < L0[p] {
      AtRank(L, L[p], p);
      AtRank(L0, L[p], p);
    } else if L0[p] < L[p] {
      AtRank(L, L0[p], p);
      AtRank(L0, L0[p], p);
    }
  }

  /** No code before position c gets longer than the limit, none after it changes, and those before it had few units. */
  ghost predicate FewLonger(L0: seq<nat>, L: seq<nat>, c: nat, limit: nat)
  {
    c <= |L0| == |L| && (forall p :: c <= p < |L| ==> L[p] == L0[p]) && (forall p :: 0 <= p < c ==> L[p] <= limit) &&
    UnitsOf(L0[..c], 0, limit) <= 2 * |L|
  }

  lemma {:induction false} TotalsSame(h0: seq<int>, h: seq<int>, j: nat, l: nat)
    requires l < j <= |h0| && j <= |h| && forall x :: 1 <= x < j ==> h[x] == h0[x]
    ensures Total(h, 0, l) == Total(h0, 0, l)
  {
    if l > 0 { TotalsSame(h0, h, j, l - 1); }
  }

  /** Before position c all codes are longer than j, behind it none. */
  lemma UnitsBefore(L: seq<nat>, j: nat, c: nat, limit: nat)
    requires c <= |L| && (forall p :: 0 <= p < c ==> L[p] > j) && forall p :: c <= p < |L| ==> L[p] <= j
    ensures UnitsOf(L[..c], 0, limit) == UnitsOf(L, j, limit)
  {
    assert L == L[..c] + L[c..];
    UnitsOfJoin(L[..c], L[c..], j, limit);
    AllAbove(L[..c], j, limit);
    NoneAbove(L[c..], j, limit);
  }

  lemma {:induction false} AllAbove(L: seq<nat>, j: nat, limit: nat)
    requires forall p :: 0 <= p < |L| ==> L[p] > j
    ensures UnitsOf(L, 0, limit) == UnitsOf(L, j, limit)
  {
    hide Unit;
    if L != [] { AllAbove(L[..|L| - 1], j, limit); }
  }

  lemma {:induction false} NoneAbove(L: seq<nat>, j: nat, limit: nat)
    requires forall p :: 0 <= p < |L| ==> L[p] <= j
    ensures UnitsOf(L, j, limit) == 0
  {
    hide Unit;
    if L != [] { NoneAbove(L[..|L| - 1], j, limit); }
  }

  /** Filling a level takes the units of the codes up to it and one for each of them. */
  lemma {:induction false} FilledUnits(h: seq<int>, b: nat, limit: nat)
    requires b <= limit < |h|
    ensures Filled(h, b) * Pow2(limit - b) == Units(h, 0, b, limit) + Total(h, 0, b)
  {
    if b == 0 {
      assert 0 * Pow2(limit) == 0;
    } else {
      FilledUnits(h, b - 1, limit);
      var x, p := Filled(h, b - 1), Pow2(limit - b);
      Pow2Half(x, limit - b + 1);
      AddLevel(x, h[b], p);
    }
  }

  lemma AddLevel(x: int, k: int, p: int)
    ensures (2 * x + k) * p == 2 * (x * p) + k * (p - 1) + k
  {
    assert (2 * x + k) * p == 2 * (x * p) + k * p && k * (p - 1) == k * p - k;
  }

  /** All the repairs together are no more than the codes. */
  lemma FewRepairs(h0: seq<int>, h: seq<int>, n: nat, limit: nat)
    requires KraftEqual(h0, n) && limit <= MAX_SUPPORTED && limit < |h|
    requires Total(h, 0, limit) == n && Filled(h, limit) == Pow2(limit)
    ensures Units(h0, 0, limit, limit) - Units(h, 0, limit, limit) <= n
  {
    FilledUnits(h0, limit, limit);
    FilledUnits(h, limit, limit);
    KraftAt(h0, n, limit);
    KraftParts(h0, n);
    TotalNonNegative(h0, 0, limit);
    assert Pow2(0) == 1;
    hide Filled, Units, Total, KraftEqual;
    TimesOne(Filled(h0, limit));
    TimesOne(Filled(h, limit));
  }

  lemma TimesOne(x: int)
    ensures x * Pow2(0) == x
  {
  }

  /** From histograms to codes. */
  lemma LimitedIsFew(h0: seq<int>, h: seq<int>, L0: seq<nat>, L: seq<nat>, n: nat, limit: nat) returns (c: nat)
    requires KraftEqual(h0, n) && 1 < limit <= MAX_BITS && Limited(h0, h, n, limit) && Counts(h0, L0, limit)
    requires Counts(h, L, limit)
    requires NonIncreasing(L0) && NonIncreasing(L) && |L0| == |L| == n && (forall p :: 0 <= p < n ==> L[p] <= limit)
    requires Total(h, 0, limit) == n && Filled(h, limit) == Pow2(limit)
    ensures FewLonger(L0, L, c, limit)
  {
    hide KraftEqual, Limited, Pushed, Filled, Units, UnitsOf, NonIncreasing, Count, Total, Pow2;
    var j := LimitedWhere(h0, h, n, limit);
    c := n - UpTo(L, j);
    UpTosSame(h0, h, L0, L, j, limit);
    forall p | c <= p < n ensures L[p] == L0[p] <= j { SameTail(L0, L, j, p); }
    forall p | 0 <= p < c ensures L[p] > j { AtRank(L, j, p); }
    UnitsBefore(L, j, c, limit);
    UnitsCounted(h, L, j, limit);
    UnitsCounted(h, L, 0, limit);
    UnitsCounted(h0, L0, 0, limit);
    assert L == L[..c] + L[c..] && L0 == L0[..c] + L0[c..] && L[c..] == L0[c..];
    UnitsOfJoin(L[..c], L[c..], 0, limit);
    UnitsOfJoin(L0[..c], L0[c..], 0, limit);
    FewRepairs(h0, h, n, limit);
    FewLongerNow(L0, L, c, limit);
  }

  lemma FewLongerNow(L0: seq<nat>, L: seq<nat>, c: nat, limit: nat)
    requires c <= |L0| == |L| && (forall p :: c <= p < |L| ==> L[p] == L0[p])
    requires forall p :: 0 <= p < |L| ==> L[p] <= limit
    requires UnitsOf(L0[..c], 0, limit) <= 2 * |L|
    ensures FewLonger(L0, L, c, limit)
  {
    hide UnitsOf;
  }

  lemma LimitedWhere(h0: seq<int>, h: seq<int>, n: nat, limit: nat) returns (j: nat)
    requires KraftEqual(h0, n) && 1 < limit && Limited(h0, h, n, limit)
    ensures 1 <= j < limit < |h| && |h| == |h0| && (forall l :: 1 <= l < j ==> h[l] == h0[l])
    ensures Units(h, j, limit, limit) <= n
    ensures h[j] <= h0[j]
  {
    hide KraftEqual, Filled, Units, Pow2;
    if forall l :: 1 <= l < limit ==> h[l] == h0[l] {
      j := limit - 1;
      LastUnits(h, limit);
    } else {
      j :| Pushed(h0, h, n, limit, j);
    }
  }

  lemma LastUnits(h: seq<int>, limit: nat)
    requires 1 < limit < |h|
    ensures Units(h, limit - 1, limit, limit) == 0
  {
    assert h[limit] * 0 == 0;
  }

  lemma UpTosSame(h0: seq<int>, h: seq<int>, L0: seq<nat>, L: seq<nat>, j: nat, limit: nat)
    requires 1 <= j < limit < |h| && |h| == |h0| && (forall l :: 1 <= l < j ==> h[l] == h0[l]) && h[j] <= h0[j]
    requires Counts(h0, L0, limit) && Counts(h, L, limit)
    ensures forall l :: 0 <= l < j ==> UpTo(L, l) == UpTo(L0, l)
    ensures UpTo(L, j) <= UpTo(L0, j)
  {
    hide Count, UpTo;
    forall l | 0 <= l < j ensures UpTo(L, l) == UpTo(L0, l) {
      UpToCounted(h, L, l);
      UpToCounted(h0, L0, l);
      TotalsSame(h0, h, j, l);
    }
    UpToCounted(h, L, j);
    UpToCounted(h0, L0, j);
    TotalsSame(h0, h, j, j - 1);
  }

  lemma {:induction false} AllUpTo(L: seq<nat>, l: nat)
    requires forall p :: 0 <= p < |L| ==> L[p] <= l
    ensures UpTo(L, l) == |L|
  {
    if L != [] { AllUpTo(L[..|L| - 1], l); }
  }

  // ------------------------------------------------------------------------------ what it costs

  /** A code of l bits takes at least 540 times fewer bits more than its units, Fibonacci numbers apart. */
  lemma FibUnit(l: nat)
    requires 1 <= l <= 14
    ensures 540 * (15 - l) <= Unit(l, 15) * Fib(l + 1)
  {
    SmallFibs();
    SmallUnits();
    hide Fib, Unit;
  }

  lemma SmallFibs()
    ensures Fib(2) == 1 && Fib(3) == 2 && Fib(4) == 3 && Fib(5) == 5 && Fib(6) == 8 && Fib(7) == 13 && Fib(8) == 21
    ensures Fib(9) == 34 && Fib(10) == 55 && Fib(11) == 89 && Fib(12) == 144 && Fib(13) == 233 && Fib(14) == 377
    ensures Fib(15) == 610
  {
    assert Fib(2) == 1 && Fib(3) == 2;
    assert Fib(4) == 3 && Fib(5) == 5;
    assert Fib(6) == 8 && Fib(7) == 13;
    assert Fib(8) == 21 && Fib(9) == 34;
    assert Fib(10) == 55 && Fib(11) == 89;
    assert Fib(12) == 144 && Fib(13) == 233;
    assert Fib(14) == 377 && Fib(15) == 610;
  }

  lemma SmallUnits()
    ensures Unit(14, 15) == 1 && Unit(13, 15) == 3 && Unit(12, 15) == 7 && Unit(11, 15) == 15 && Unit(10, 15) == 31
    ensures Unit(9, 15) == 63 && Unit(8, 15) == 127 && Unit(7, 15) == 255 && Unit(6, 15) == 511 && Unit(5, 15) == 1023
    ensures Unit(4, 15) == 2047 && Unit(3, 15) == 4095 && Unit(2, 15) == 8191 && Unit(1, 15) == 16383
  {
    assert Unit(14, 15) == 1;
    UnitHalf(13, 15);
    UnitHalf(12, 15);
    UnitHalf(11, 15);
    UnitHalf(10, 15);
    UnitHalf(9, 15);
    UnitHalf(8, 15);
    UnitHalf(7, 15);
    UnitHalf(6, 15);
    UnitHalf(5, 15);
    UnitHalf(4, 15);
    UnitHalf(3, 15);
    UnitHalf(2, 15);
    UnitHalf(1, 15);
    hide Unit;
  }

  /** One code: if it gets longer, its units and the total weight pay for it. */
  lemma OneLonger(w: nat, l0: nat, l: nat, total: nat)
    requires 1 <= l0 && l <= 15 && w * Fib(l0 + 1) <= total
    ensures 540 * (w * l) <= 540 * (w * l0) + total * (if l0 <= 15 then Unit(l0, 15) else 0)
  {
    hide Fib, Unit;
    if l0 >= 15 {
      MulMono(l, l0, w);
      Positive(total, if l0 <= 15 then Unit(l0, 15) else 0);
    } else {
      var u, f := Unit(l0, 15), Fib(l0 + 1);
      FibUnit(l0);
      MulMono(540 * (15 - l0), u * f, w);
      MulMono(w * f, total, u);
      MulMono(l, 15, w);
      Regroup(w, l0, u, f);
    }
  }

  lemma Positive(a: nat, b: nat)
    ensures a * b >= 0
  {
  }

  lemma Regroup(w: nat, l0: nat, u: nat, f: nat)
    requires l0 <= 15
    ensures w * (540 * (15 - l0)) == 540 * (w * 15) - 540 * (w * l0) && w * (u * f) == u * (w * f)
  {
    assert w * (u * f) == (w * u) * f == (u * w) * f == u * (w * f);
  }

  /** Sum of w[i] * x[i], from the back. */
  function Price(w: seq<nat>, x: seq<nat>): (r: nat)
    requires |w| == |x|
  {
    if w == [] then 0 else Price(w[..|w| - 1], x[..|x| - 1]) + w[|w| - 1] * x[|x| - 1]
  }

  /** The codes before position c. */
  lemma {:induction false} LongerBefore(w: seq<nat>, L0: seq<nat>, L: seq<nat>, total: nat)
    requires |w| == |L0| == |L| && WeightBounded(w, L0, total)
    requires forall p :: 0 <= p < |L| ==> L[p] <= 15 && L0[p] >= 1
    ensures 540 * Price(w, L) <= 540 * Price(w, L0) + total * UnitsOf(L0, 0, 15)
  {
    hide Unit, Fib;
    if w != [] {
      var m := |w| - 1;
      LongerBefore(w[..m], L0[..m], L[..m], total);
      OneLonger(w[m], L0[m], L[m], total);
      Spread(total, UnitsOf(L0[..m], 0, 15), if L0[m] <= 15 then Unit(L0[m], 15) else 0);
    }
  }

  lemma Spread(t: nat, a: nat, b: nat)
    ensures t * (a + b) == t * a + t * b
  {
  }

  lemma {:induction false} PriceJoin(w: seq<nat>, x: seq<nat>, v: seq<nat>, y: seq<nat>)
    requires |w| == |x| && |v| == |y|
    ensures Price(w + v, x + y) == Price(w, x) + Price(v, y)
  {
    if v == [] {
      assert w + v == w && x + y == x;
    } else {
      var m := |v| - 1;
      assert (w + v)[..|w + v| - 1] == w + v[..m] && (x + y)[..|x + y| - 1] == x + y[..m];
      PriceJoin(w, x, v[..m], y[..m]);
    }
  }

  /** On the average, a code gets longer by at most one 270th of a bit for every code there is. */
  lemma {:induction false} LimitCosts(w: seq<nat>, L0: seq<nat>, L: seq<nat>, c: nat, total: nat)
    requires |w| == |L0| == |L| && WeightBounded(w, L0, total) && FewLonger(L0, L, c, 15)
    requires forall p :: 0 <= p < |L| ==> L0[p] >= 1
    ensures 270 * Price(w, L) <= 270 * Price(w, L0) + total * |L|
  {
    hide Unit, Fib, UnitsOf, Price;
    assert w == w[..c] + w[c..] && L0 == L0[..c] + L0[c..] && L == L[..c] + L[c..] && L[c..] == L0[c..];
    assert WeightBounded(w[..c], L0[..c], total);
    hide WeightBounded;
    FrontCosts(w[..c], w[c..], L0[..c], L[..c], L[c..], total, |L|);
  }

  lemma FrontCosts(w1: seq<nat>, w2: seq<nat>, L0: seq<nat>, L1: seq<nat>, L2: seq<nat>, total: nat, n: nat)
    requires |w1| == |L0| == |L1| && |w2| == |L2| && WeightBounded(w1, L0, total) && UnitsOf(L0, 0, 15) <= 2 * n
    requires forall p :: 0 <= p < |L1| ==> L1[p] <= 15 && L0[p] >= 1
    ensures 270 * Price(w1 + w2, L1 + L2) <= 270 * Price(w1 + w2, L0 + L2) + total * n
  {
    hide *;
    PriceJoin(w1, L1, w2, L2);
    PriceJoin(w1, L0, w2, L2);
    LongerBefore(w1, L0, L1, total);
    HalfUnits(Price(w1, L1), Price(w1, L0), total, UnitsOf(L0, 0, 15), n);
    AddBoth(Price(w1, L1), Price(w1, L0), Price(w2, L2), total * n);
  }

  lemma AddBoth(x: nat, y: nat, z: nat, t: nat)
    requires 270 * x <= 270 * y + t
    ensures 270 * (x + z) <= 270 * (y + z) + t
  {
  }

  lemma HalfUnits(x: nat, y: nat, t: nat, u: nat, n: nat)
    requires 540 * x <= 540 * y + t * u && u <= 2 * n
    ensures 270 * x <= 270 * y + t * n
  {
    MulMono(u, 2 * n, t);
    assert t * u <= t * (2 * n) == 2 * (t * n);
  }

  lemma {:induction false} PriceIsDot(w: seq<nat>, x: seq<nat>, a: nat)
    requires |w| == |x| && a <= |w|
    ensures Price(w[..a], x[..a]) + Dot(w, x, a, |w|) == Dot(w, x, 0, |w|)
  {
    if a > 0 {
      PriceIsDot(w, x, a - 1);
      assert w[..a][..a - 1] == w[..a - 1] && x[..a][..a - 1] == x[..a - 1];
    }
  }

  // ------------------------------------------------------------------------------ compared with any other code

  /** Share of all strings that the codes take up. */
  function KraftSum(lens: seq<nat>, m: nat): (r: nat)
  {
    if lens == [] then 0
    else KraftSum(lens[..|lens| - 1], m) + if lens[|lens| - 1] > 0 then Share(lens[|lens| - 1], m) else 0
  }

  /** Lengths of some prefix code with a code for every symbol that is counted. */
  ghost predicate Rival(counts: seq<nat>, other: seq<nat>, m: nat)
  {
    |other| == |counts| && (forall s :: 0 <= s < |other| ==> other[s] <= m && (counts[s] > 0 ==> other[s] > 0)) &&
    KraftSum(other, m) <= Pow2(m)
  }

  /** No other code is cheaper. */
  ghost predicate Best(counts: seq<nat>, lens: seq<nat>)
  {
    |lens| == |counts| && forall other, m :: Rival(counts, other, m) ==> Price(counts, lens) <= Price(counts, other)
  }

  /** No other code is cheaper by more than one 270th of a bit for every symbol counted and every code. */
  ghost predicate NearlyBest(counts: seq<nat>, lens: seq<nat>)
  {
    |lens| == |counts| &&
    forall other, m :: Rival(counts, other, m) ==>
      270 * Price(counts, lens) <= 270 * Price(counts, other) + Sum(counts) * |counts|
  }

  /** Lengths in order of rank, the rarest symbol first: those of a Huffman code, cut to a limit. */
  ghost predicate Squeezed(w: seq<nat>, L0: seq<nat>, L: seq<nat>, limit: nat)
  {
    |L0| == |L| == |w| && Optimal(w, L0) && WeightBounded(w, L0, Sum(w)) &&
    (forall p :: 0 <= p < |L0| ==> L0[p] >= 1) &&
    (limit == 15 ==> exists c :: FewLonger(L0, L, c, 15)) && (Sum(w) < Fib(limit + 3) ==> L == L0)
  }

  /** By rank, other codes are at most so much cheaper. */
  lemma {:induction false} SqueezedCosts(w: seq<nat>, L0: seq<nat>, L: seq<nat>, limit: nat, other: seq<nat>, m: nat)
    requires Squeezed(w, L0, L, limit) && |other| == |w| && KraftOk(Items(w, other), m)
    ensures Sum(w) < Fib(limit + 3) ==> Price(w, L) <= Price(w, other)
    ensures limit == 15 ==> 270 * Price(w, L) <= 270 * Price(w, other) + Sum(w) * |w|
  {
    CostIsPrice(w, L0);
    CostIsPrice(w, other);
    hide Fib, Sum, Cost, Items, KraftOk, Price, FewLonger, WeightBounded;
    assert Price(w, L0) <= Price(w, other);
    if limit == 15 {
      var c :| FewLonger(L0, L, c, 15);
      LimitCosts(w, L0, L, c, Sum(w));
    }
  }

  lemma CostIsPrice(w: seq<nat>, x: seq<nat>)
    requires |w| == |x|
    ensures Cost(Items(w, x)) == Price(w, x)
  {
    ItemsSums(w, x, 0);
    PriceIsDot(w, x, |w|);
    assert Items(w, x)[0..] == Items(w, x) && w[..|w|] == w && x[..|x|] == x;
    hide Cost, Price;
  }
}
