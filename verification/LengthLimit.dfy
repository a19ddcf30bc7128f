/**
  Limiting the longest code: codes that are too long are cut to the limit, then shorter codes
  are lengthened until the Kraft sum is exact again.
 */
module LengthLimit {
  import opened Bits
  import opened CanonicalCode

  const MAX_SUPPORTED: nat := 32

  /** Number of codes of lengths a + 1 .. b. */
  function Total(h: seq<int>, a: nat, b: nat): (r: int)
    requires a <= b < |h|
  {
    if a == b then 0 else Total(h, a, b - 1) + h[b]
  }

  ghost predicate NonNegative(h: seq<int>)
  {
    forall i :: 0 <= i < |h| ==> h[i] >= 0
  }

  /** A histogram of n code lengths of a complete code. */
  ghost predicate KraftEqual(h: seq<int>, n: nat)
  {
    |h| == MAX_SUPPORTED + 1 && NonNegative(h) && Total(h, 0, MAX_SUPPORTED) == n &&
    Filled(h, MAX_SUPPORTED) == Pow2(MAX_SUPPORTED)
  }

  /** The histogram while lengths up to the limit are being repaired. */
  ghost predicate Repairing(h: seq<int>, n: nat, limit: nat)
  {
    0 < limit < |h| && NonNegative(h) && Total(h, 0, limit) == n <= Pow2(limit) &&
    Filled(h, limit - 1) <= Pow2(limit - 1) && Pow2(limit) <= Filled(h, limit)
  }

  lemma {:induction false} TotalSplit(h: seq<int>, a: nat, b: nat, c: nat)
    requires a <= b <= c < |h|
    ensures Total(h, a, c) == Total(h, a, b) + Total(h, b, c)
  {
    if b < c { TotalSplit(h, a, b, c - 1); }
  }

  lemma {:induction false} TotalNonNegative(h: seq<int>, a: nat, b: nat)
    requires a <= b < |h| && NonNegative(h)
    ensures Total(h, a, b) >= 0
    ensures Total(h, a, b) == 0 ==> forall i :: a < i <= b ==> h[i] == 0
  {
    if a < b { TotalNonNegative(h, a, b - 1); }
  }

  lemma {:induction false} TotalUpdate(h: seq<int>, i: nat, v: int, a: nat, b: nat)
    requires i < |h| && a <= b < |h|
    ensures Total(h[i := v], a, b) == Total(h, a, b) + (if a < i <= b then v - h[i] else 0)
  {
    if a < b { TotalUpdate(h, i, v, a, b - 1); }
  }

  /** A code longer than b bits takes up less room than one of b bits, but some. */
  lemma {:induction false} FilledTail(h: seq<int>, b: nat, k: nat)
    requires b + k < |h| && NonNegative(h)
    ensures Filled(h, b) * Pow2(k) <= Filled(h, b + k) <= (Filled(h, b) + Total(h, b, b + k)) * Pow2(k)
  {
    if k > 0 {
      FilledTail(h, b, k - 1);
      var x, y := Filled(h, b), Filled(h, b) + Total(h, b, b + k - 1);
      Pow2Half(x, k);
      Pow2Half(y, k);
      TotalNonNegative(h, b, b + k - 1);
      assert (y + h[b + k]) * Pow2(k) == y * Pow2(k) + h[b + k] * Pow2(k);
      MulMono(1, Pow2(k), h[b + k]);
    }
  }

  lemma {:induction false} FilledNonNegative(h: seq<int>, b: nat)
    requires b < |h| && NonNegative(h)
    ensures Filled(h, b) >= 0
  {
    if b > 0 { FilledNonNegative(h, b - 1); }
  }

  lemma {:induction false} SamePrefix(h: seq<int>, g: seq<int>, a: nat, b: nat)
    requires a <= b < |h| && b < |g| && forall i :: 1 <= i <= b ==> h[i] == g[i]
    ensures Total(h, a, b) == Total(g, a, b) && Filled(h, b) == Filled(g, b)
  {
    if a < b {
      SamePrefix(h, g, a, b - 1);
    } else if b > 0 {
      SamePrefix(h, g, b - 1, b - 1);
    }
  }

  /** In a complete code the codes of at most b bits do not fill b bits, but all cut to b bits would. */
  lemma KraftAt(h: seq<int>, n: nat, b: nat)
    requires KraftEqual(h, n) && b <= MAX_SUPPORTED
    ensures 0 <= Filled(h, b) <= Pow2(b) <= Filled(h, b) + Total(h, b, MAX_SUPPORTED)
  {
    var k := MAX_SUPPORTED - b;
    TotalNonNegative(h, b, MAX_SUPPORTED);
    FilledNonNegative(h, b);
    FilledTail(h, b, k);
    Pow2Add(b, k);
    MulCancel(Pow2(b), Filled(h, b) + Total(h, b, MAX_SUPPORTED), Pow2(k));
    MulCancel(Filled(h, b), Pow2(b), Pow2(k));
  }

  /** Cutting the long codes to the limit leaves a sum that is too big, never too small. */
  lemma CutStarts(h: seq<int>, n: nat, limit: nat)
    requires KraftEqual(h, n) && 0 < limit <= MAX_SUPPORTED && n <= Pow2(limit)
    ensures Repairing(h[limit := h[limit] + Total(h, limit, MAX_SUPPORTED)], n, limit)
    ensures Filled(h[limit := h[limit] + Total(h, limit, MAX_SUPPORTED)], limit) ==
              Filled(h, limit) + Total(h, limit, MAX_SUPPORTED)
  {
    KraftParts(h, n);
    var t := Total(h, limit, MAX_SUPPORTED);
    var g := h[limit := h[limit] + t];
    hide Pow2, KraftEqual, Filled, Total;
    TotalNonNegative(h, limit, MAX_SUPPORTED);
    KraftAt(h, n, limit - 1);
    KraftAt(h, n, limit);
    SamePrefix(h, g, limit - 1, limit - 1);
    SamePrefix(h, g, 0, limit - 1);
    AtLimit(h, limit);
    AtLimit(g, limit);
    TotalSplit(h, 0, limit, MAX_SUPPORTED);
  }

  lemma KraftParts(h: seq<int>, n: nat)
    requires KraftEqual(h, n)
    ensures MAX_SUPPORTED < |h| && NonNegative(h) && Total(h, 0, MAX_SUPPORTED) == n
  {
  }

  lemma AtLimit(h: seq<int>, limit: nat)
    requires 0 < limit < |h|
    ensures Filled(h, limit) == 2 * Filled(h, limit - 1) + h[limit]
    ensures Total(h, 0, limit) == Total(h, 0, limit - 1) + h[limit]
  {
  }

  lemma {:induction false} NoCodes(h: seq<int>, b: nat)
    requires b < |h| && forall i :: 1 <= i <= b ==> h[i] == 0
    ensures Filled(h, b) == 0 && Total(h, 0, b) == 0
  {
    if b > 0 { NoCodes(h, b - 1); }
  }

  /** While the sum is too big there is a code at the limit to drop and a shorter one to split. */
  lemma CanRepair(h: seq<int>, n: nat, limit: nat)
    requires Repairing(h, n, limit) && Filled(h, limit) != Pow2(limit)
    ensures h[limit] > 0
    ensures exists i :: 1 <= i < limit && h[i] > 0
  {
    if forall i :: 1 <= i < limit ==> h[i] == 0 {
      NoCodes(h, limit - 1);
      assert false;
    }
  }

  /** Dropping a code at the limit and splitting one of i bits keeps the count and lowers the sum by one. */
  lemma RepairStep(h: seq<int>, n: nat, limit: nat, i: nat, g: seq<int>)
    requires Repairing(h, n, limit) && Filled(h, limit) != Pow2(limit) && 1 <= i < limit && h[i] > 0 && h[limit] > 0
    requires g == h[limit := h[limit] - 1][i := h[i] - 1][i + 1 := h[limit := h[limit] - 1][i + 1] + 2]
    ensures Repairing(g, n, limit) && Filled(g, limit) == Filled(h, limit) - 1
  {
    var h1 := h[limit := h[limit] - 1];
    var h2 := h1[i := h1[i] - 1];
    TotalUpdate(h, limit, h[limit] - 1, 0, limit);
    TotalUpdate(h1, i, h1[i] - 1, 0, limit);
    TotalUpdate(h2, i + 1, h2[i + 1] + 2, 0, limit);
    RepairFilled(h, limit, i, limit);
    RepairFilled(h, limit, i, limit - 1);
  }

  lemma RepairFilled(h: seq<int>, limit: nat, i: nat, b: nat)
    requires 1 <= i < limit < |h| && i <= b <= limit
    ensures var h1 := h[limit := h[limit] - 1];
            var g := h1[i := h1[i] - 1][i + 1 := h1[i + 1] + 2];
            Filled(g, b) == Filled(h, b) - (if b == limit then 1 else 0) - (if i == b then 1 else 0)
  {
    var h1 := h[limit := h[limit] - 1];
    var h2 := h1[i := h1[i] - 1];
    FilledUpdate(h, limit, h[limit] - 1, b);
    FilledUpdate(h1, i, h1[i] - 1, b);
    FilledUpdate(h2, i + 1, h2[i + 1] + 2, b);
  }

  lemma {:induction false} FilledBound(h: seq<int>, b: nat)
    requires b < |h| && NonNegative(h)
    ensures Filled(h, b) <= Total(h, 0, b) * Pow2(b)
  {
    FilledTail(h, 0, b);
  }

  /** Adds up the Kraft sum, scaled by Pow2(limit), in 32-bit arithmetic. */
  method KraftTotal(num_codes: array<int>, limit: nat) returns (total: nat)
    requires limit < num_codes.Length && NonNegative(num_codes[..])
    requires Total(num_codes[..], 0, limit) * Pow2(limit) < U32
    ensures total == Filled(num_codes[..], limit)
  {
    ghost var h := num_codes[..];
    total := 0;
    var i := limit;
    assert Filled(h, limit) * Pow2(0) == Filled(h, limit);
    while i > 0
      invariant 0 <= i <= limit
      invariant total + Filled(h, i) * Pow2(limit - i) == Filled(h, limit)
    {
      FilledBound(h, limit);
      FilledNonNegative(h, i - 1);
      KraftStep(h, i, limit);
      total := (total + num_codes[i] * Pow2(limit - i)) % U32;
      i := i - 1;
    }
    assert 0 * Pow2(limit) == 0;
  }

  lemma KraftStep(h: seq<int>, i: nat, limit: nat)
    requires 0 < i <= limit < |h| && NonNegative(h)
    ensures Filled(h, i) * Pow2(limit - i) == Filled(h, i - 1) * Pow2(limit - (i - 1)) + h[i] * Pow2(limit - i)
    ensures Filled(h, i - 1) * Pow2(limit - (i - 1)) >= 0 && h[i] * Pow2(limit - i) >= 0
  {
    var p, x := Pow2(limit - i), Filled(h, i - 1);
    FilledNonNegative(h, i - 1);
    Pow2Half(x, limit - i + 1);
    assert (2 * x + h[i]) * p == 2 * (x * p) + h[i] * p;
  }

  /** The codes longer than the limit are counted as codes of the limit. */
  method CutLong(num_codes: array<int>, limit: nat)
    requires num_codes.Length == MAX_SUPPORTED + 1 && limit <= MAX_SUPPORTED
    modifies num_codes
    ensures num_codes[..] ==
              old(num_codes[..])[limit := old(num_codes[limit] + Total(num_codes[..], limit, MAX_SUPPORTED))]
  {
    ghost var h := num_codes[..];
    var i := limit + 1;
    while i <= MAX_SUPPORTED
      invariant limit < i <= MAX_SUPPORTED + 1
      invariant num_codes[..] == h[limit := h[limit] + Total(h, limit, i - 1)]
    {
      num_codes[limit] := num_codes[limit] + num_codes[i];
      i := i + 1;
    }
  }

  /** Finds the longest code shorter than the limit and splits it. */
  method SplitShorter(num_codes: array<int>, limit: nat) returns (i: nat)
    requires 1 < limit < num_codes.Length && NonNegative(num_codes[..])
    requires exists k :: 1 <= k < limit && num_codes[k] > 0
    modifies num_codes
    ensures 1 <= i < limit && old(num_codes[i]) > 0 && forall l :: i < l < limit ==> old(num_codes[l]) == 0
    ensures num_codes[..] == old(num_codes[..])[i := old(num_codes[i]) - 1][i + 1 := old(num_codes[i + 1]) + 2]
  {
    ghost var k :| 1 <= k < limit && num_codes[k] > 0;
    i := limit - 1;
    while i > 0
      invariant k <= i < limit && num_codes[..] == old(num_codes[..])
      invariant forall l :: i < l < limit ==> num_codes[l] == 0
    {
      if num_codes[i] != 0 {
        num_codes[i] := num_codes[i] - 1;
        num_codes[i + 1] := num_codes[i + 1] + 2;
        return;
      }
      i := i - 1;
    }
  }

  /** One round of the repair. */
  method RepairOne(num_codes: array<int>, ghost n: nat, limit: nat, ghost h0: seq<int>, ghost j0: nat)
    returns (ghost j: nat)
    requires Pushing(h0, num_codes[..], n, limit, j0)
    requires Repairing(num_codes[..], n, limit) && Filled(num_codes[..], limit) != Pow2(limit)
    modifies num_codes
    ensures Repairing(num_codes[..], n, limit)
    ensures Filled(num_codes[..], limit) == old(Filled(num_codes[..], limit)) - 1
    ensures Pushing(h0, num_codes[..], n, limit, j)
  {
    ghost var h := num_codes[..];
    CanRepair(h, n, limit);
    ghost var k :| 1 <= k < limit && h[k] > 0;
    num_codes[limit] := num_codes[limit] - 1;
    assert num_codes[..] == h[limit := h[limit] - 1];
    assert num_codes[k] > 0;
    ghost var h1 := num_codes[..];
    var i := SplitShorter(num_codes, limit);
    forall l | i < l < limit ensures h[l] == 0 { assert h1[l] == 0; }
    RepairStep(h, n, limit, i, num_codes[..]);
    PushStep(h0, h, num_codes[..], n, limit, i, j0);
    j := if j0 != 0 && i > j0 then j0 else i;
  }

  method EnforceMaxCodeSize(num_codes: array<int>, code_list_len: nat, limit: nat)
    requires num_codes.Length == MAX_SUPPORTED + 1 && 0 < limit <= MAX_BITS
    requires code_list_len > 1 ==> KraftEqual(num_codes[..], code_list_len) && code_list_len <= Pow2(limit)
    modifies num_codes
    ensures code_list_len <= 1 ==> num_codes[..] == old(num_codes[..])
    ensures code_list_len > 1 ==> NonNegative(num_codes[..]) && Total(num_codes[..], 0, limit) == code_list_len
    ensures code_list_len > 1 ==> Filled(num_codes[..], limit) == Pow2(limit)
    ensures code_list_len > 1 && (forall i :: limit < i <= MAX_SUPPORTED ==> old(num_codes[i]) == 0) ==>
              num_codes[..] == old(num_codes[..])
    ensures code_list_len > 1 ==> Limited(old(num_codes[..]), num_codes[..], code_list_len, limit)
  {
    if code_list_len <= 1 {
      return;
    }
    ghost var h, n := num_codes[..], code_list_len;
    hide KraftEqual, Repairing, Pushing, Limited;
    assert NonNegative(h) by { KraftIsNonNegative(h, n); }
    CutLong(num_codes, limit);
    CutStarts(h, n, limit);
    if forall i :: limit < i <= MAX_SUPPORTED ==> h[i] == 0 {
      NothingCut(h, n, limit);
    }
    PushStart(h, num_codes[..], n, limit);
    RepairFits(num_codes[..], n, limit);
    ghost var j := Repair(num_codes, n, limit, h);
    PushEnds(h, num_codes[..], n, limit, j);
  }

  /** Repairs until the Kraft sum is exact. */
  method Repair(num_codes: array<int>, ghost n: nat, limit: nat, ghost h0: seq<int>) returns (ghost j: nat)
    requires limit <= MAX_BITS && Repairing(num_codes[..], n, limit) && Pushing(h0, num_codes[..], n, limit, 0)
    requires limit < num_codes.Length && NonNegative(num_codes[..])
    requires Total(num_codes[..], 0, limit) * Pow2(limit) < U32
    modifies num_codes
    ensures Pushing(h0, num_codes[..], n, limit, j) && NonNegative(num_codes[..]) && Total(num_codes[..], 0, limit) == n
    ensures Filled(num_codes[..], limit) == Pow2(limit)
    ensures old(Filled(num_codes[..], limit)) == Pow2(limit) ==> num_codes[..] == old(num_codes[..])
  {
    hide Repairing, Pushing;
    ghost var h := num_codes[..];
    j := 0;
    RepairFits(h, n, limit);
    var total := KraftTotal(num_codes, limit);
    while total != Pow2(limit)
      invariant Repairing(num_codes[..], n, limit) && Pushing(h0, num_codes[..], n, limit, j)
      invariant Pow2(limit) <= total == Filled(num_codes[..], limit)
      invariant Filled(h, limit) == Pow2(limit) ==> total == Pow2(limit) && num_codes[..] == h
      decreases total
    {
      j := RepairOne(num_codes, n, limit, h0, j);
      RepairFits(num_codes[..], n, limit);
      total := total - 1;
    }
    RepairFits(num_codes[..], n, limit);
  }

  // ------------------------------------------------------------------------------ what is lengthened

  /** Repairs it takes to turn a code of l bits into codes of the limit. */
  function Unit(l: nat, limit: nat): (r: nat)
    requires l <= limit
  {
    Pow2(limit - l) - 1
  }

  /** Those for all codes of lengths a + 1 .. b. */
  function Units(h: seq<int>, a: nat, b: nat, limit: nat): (r: int)
    requires a <= b < |h| && b <= limit
  {
    if a == b then 0 else Units(h, a, b - 1, limit) + h[b] * Unit(b, limit)
  }

  /** Codes shorter than j are as before, some of j bits have been lengthened, and the longer ones take few repairs. */
  ghost predicate Pushed(h0: seq<int>, h: seq<int>, n: nat, limit: nat, j: nat)
  {
    limit < |h| == |h0| && 1 <= j < limit && (forall l :: 1 <= l < j ==> h[l] == h0[l]) && 0 <= h[j] < h0[j] &&
    Units(h, j, limit, limit) <= Pow2(limit - j) - 2 && Pow2(limit - j) <= n
  }

  /** What the repair has done: so far codes of j bits and longer have been changed, or none if j is zero. */
  ghost predicate Pushing(h0: seq<int>, h: seq<int>, n: nat, limit: nat, j: nat)
  {
    0 < limit < |h| == |h0| &&
    ((exists l :: limit < l < |h0| && h0[l] > 0) ==> Filled(h, limit - 1) < Pow2(limit - 1)) &&
    ((forall l :: limit < l < |h0| ==> h0[l] <= 0) ==> Filled(h, limit) <= Pow2(limit)) &&
    if j == 0 then forall l :: 1 <= l < limit ==> h[l] == h0[l] else Pushed(h0, h, n, limit, j)
  }

  /** And in the end. */
  ghost predicate Limited(h0: seq<int>, h: seq<int>, n: nat, limit: nat)
  {
    limit < |h| == |h0| && ((forall l :: 1 <= l < limit ==> h[l] == h0[l]) || exists j :: Pushed(h0, h, n, limit, j))
  }

  lemma PushEnds(h0: seq<int>, h: seq<int>, n: nat, limit: nat, j: nat)
    requires Pushing(h0, h, n, limit, j)
    ensures Limited(h0, h, n, limit)
  {
    hide Pushed;
  }

  lemma {:induction false} FilledTailStrict(h: seq<int>, b: nat, k: nat)
    requires b + k < |h| && NonNegative(h) && exists l :: b < l <= b + k && h[l] > 0
    ensures Filled(h, b) * Pow2(k) < Filled(h, b + k)
  {
    var l :| b < l <= b + k && h[l] > 0;
    if l == b + k {
      FilledTail(h, b, k - 1);
      Pow2Half(Filled(h, b), k);
    } else {
      FilledTailStrict(h, b, k - 1);
      Pow2Half(Filled(h, b), k);
    }
  }

  lemma PushStart(h0: seq<int>, h: seq<int>, n: nat, limit: nat)
    requires KraftEqual(h0, n) && 0 < limit <= MAX_BITS && n <= Pow2(limit)
    requires h == h0[limit := h0[limit] + Total(h0, limit, MAX_SUPPORTED)]
    ensures Pushing(h0, h, n, limit, 0)
  {
    hide Pow2;
    SamePrefix(h0, h, limit - 1, limit - 1);
    if exists l :: limit < l < |h0| && h0[l] > 0 {
      StrictAt(h0, n, limit - 1);
    } else {
      NoneLonger(h0, limit, MAX_SUPPORTED);
      assert h == h0;
      KraftAt(h0, n, limit);
    }
  }

  lemma StrictAt(h: seq<int>, n: nat, b: nat)
    requires KraftEqual(h, n) && b < MAX_SUPPORTED && exists l :: b < l < |h| && h[l] > 0
    ensures Filled(h, b) < Pow2(b)
  {
    var k := MAX_SUPPORTED - b;
    FilledTailStrict(h, b, k);
    Pow2Add(b, k);
    MulCancelStrict(Filled(h, b), Pow2(b), Pow2(k));
  }

  lemma {:induction false} UnitsUpdate(h: seq<int>, i: nat, v: int, a: nat, b: nat, limit: nat)
    requires i < |h| && a <= b < |h| && b <= limit
    ensures Units(h[i := v], a, b, limit) ==
              Units(h, a, b, limit) + (if a < i <= b then (v - h[i]) * Unit(i, limit) else 0)
  {
    if a < b {
      UnitsUpdate(h, i, v, a, b - 1, limit);
      if i == b { assert v * Unit(b, limit) == h[b] * Unit(b, limit) + (v - h[b]) * Unit(b, limit); }
    }
  }

  lemma {:induction false} UnitsZero(h: seq<int>, a: nat, b: nat, limit: nat)
    requires a <= b < |h| && b <= limit && forall l :: a < l <= b && l < limit ==> h[l] == 0
    ensures Units(h, a, b, limit) == 0
  {
    if a < b {
      UnitsZero(h, a, b - 1, limit);
      if b == limit { assert Unit(b, limit) == 0; }
      assert h[b] * Unit(b, limit) == 0;
    }
  }

  lemma UnitHalf(i: nat, limit: nat)
    requires i < limit
    ensures Unit(i, limit) == 2 * Unit(i + 1, limit) + 1
  {
  }

  /** A repair takes one unit away, above whatever level it starts from. */
  lemma UnitsStep(h: seq<int>, limit: nat, i: nat, a: nat)
    requires 1 <= i < limit < |h| && a <= i
    ensures var h1 := h[limit := h[limit] - 1];
            var g := h1[i := h1[i] - 1][i + 1 := h1[i + 1] + 2];
            Units(g, a, limit, limit) == Units(h, a, limit, limit) - (if a < i then 1 else -2 * Unit(i + 1, limit))
  {
    var h1 := h[limit := h[limit] - 1];
    var h2 := h1[i := h1[i] - 1];
    UnitsUpdate(h, limit, h[limit] - 1, a, limit, limit);
    UnitsUpdate(h1, i, h1[i] - 1, a, limit, limit);
    UnitsUpdate(h2, i + 1, h2[i + 1] + 2, a, limit, limit);
    UnitHalf(i, limit);
    assert Unit(limit, limit) == 0;
  }

  /**
    Where the codes between i and the limit are all gone, those of the limit outnumber the strings
    one code of i bits begins.
   */
  lemma ManyAtLimit(h: seq<int>, n: nat, limit: nat, i: nat)
    requires Repairing(h, n, limit) && Filled(h, limit - 1) < Pow2(limit - 1) && Filled(h, limit) > Pow2(limit)
    requires 1 <= i < limit && forall l :: i < l < limit ==> h[l] == 0
    ensures Pow2(limit - i) <= n
  {
    hide Pow2;
    var k: nat := limit - 1 - i;
    EmptyLevels(h, i, k);
    Pow2Add(i, k);
    FilledNonNegative(h, i);
    MulCancelStrict(Filled(h, i), Pow2(i), Pow2(k));
    MulMono(Filled(h, i) + 1, Pow2(i), Pow2(k));
    NextPow(Filled(h, i), Pow2(k));
    Doubles(limit - 1);
    Doubles(k);
    TotalNonNegative(h, 0, limit - 1);
    LastLevel(h, limit);
  }

  lemma LastLevel(h: seq<int>, limit: nat)
    requires 0 < limit < |h|
    ensures Filled(h, limit) == 2 * Filled(h, limit - 1) + h[limit]
    ensures Total(h, 0, limit) == Total(h, 0, limit - 1) + h[limit]
  {
  }

  lemma Doubles(k: nat)
    ensures Pow2(k + 1) == 2 * Pow2(k)
  {
  }

  lemma NextPow(f: int, p: int)
    ensures (f + 1) * p == f * p + p
  {
  }

  lemma {:induction false} EmptyLevels(h: seq<int>, i: nat, k: nat)
    requires i + k < |h| && forall l :: i < l <= i + k ==> h[l] == 0
    ensures Filled(h, i + k) == Filled(h, i) * Pow2(k)
  {
    if k > 0 {
      EmptyLevels(h, i, k - 1);
      Pow2Half(Filled(h, i), k);
    }
  }

  lemma PushStep(h0: seq<int>, h: seq<int>, g: seq<int>, n: nat, limit: nat, i: nat, j: nat)
    requires Repairing(h, n, limit) && Filled(h, limit) > Pow2(limit) && Pushing(h0, h, n, limit, j)
    requires 1 <= i < limit && h[i] > 0 && h[limit] > 0 && forall l :: i < l < limit ==> h[l] == 0
    requires g == h[limit := h[limit] - 1][i := h[i] - 1][i + 1 := h[limit := h[limit] - 1][i + 1] + 2]
    ensures Pushing(h0, g, n, limit, if j != 0 && i > j then j else i)
  {
    hide Filled, Units, Repairing;
    RepairingGives(h, n, limit);
    PushLevels(h0, h, g, n, limit, i, j);
    RepairFilled(h, limit, i, limit - 1);
    RepairFilled(h, limit, i, limit);
    ManyAtLimit(h, n, limit, i);
    UnitsStep(h, limit, i, i);
    UnitsZero(h, i, limit, limit);
    UnitHalf(i, limit);
    if j != 0 && i > j {
      UnitsStep(h, limit, i, j);
    }
  }

  lemma RepairingGives(h: seq<int>, n: nat, limit: nat)
    requires Repairing(h, n, limit)
    ensures 0 < limit < |h| && NonNegative(h)
  {
  }

  lemma PushLevels(h0: seq<int>, h: seq<int>, g: seq<int>, n: nat, limit: nat, i: nat, j: nat)
    requires Pushing(h0, h, n, limit, j) && NonNegative(h) && 1 <= i < limit && h[i] > 0
    requires g == h[limit := h[limit] - 1][i := h[i] - 1][i + 1 := h[limit := h[limit] - 1][i + 1] + 2]
    ensures var j' := if j != 0 && i > j then j else i;
            |g| == |h0| && (forall l :: 1 <= l < j' ==> g[l] == h0[l]) && 0 <= g[j'] < h0[j']
  {
    hide Filled, Units;
  }

  lemma KraftIsNonNegative(h: seq<int>, n: nat)
    requires KraftEqual(h, n)
    ensures NonNegative(h)
  {
  }

  lemma RepairFits(h: seq<int>, n: nat, limit: nat)
    requires Repairing(h, n, limit) && limit <= MAX_BITS
    ensures NonNegative(h) && Total(h, 0, limit) == n && Total(h, 0, limit) * Pow2(limit) < U32
    ensures Pow2(limit) <= Filled(h, limit)
  {
    Pow2Mono(limit, MAX_BITS);
    assert Pow2(MAX_BITS) == 32768;
    MulMono(n, 32768, Pow2(limit));
    MulMono(Pow2(limit), 32768, 32768);
  }

  lemma NothingCut(h: seq<int>, n: nat, limit: nat)
    requires KraftEqual(h, n) && 0 < limit <= MAX_SUPPORTED && n <= Pow2(limit)
    requires forall i :: limit < i <= MAX_SUPPORTED ==> h[i] == 0
    ensures Total(h, limit, MAX_SUPPORTED) == 0 && Filled(h, limit) == Pow2(limit)
  {
    NoneLonger(h, limit, MAX_SUPPORTED);
    KraftAt(h, n, limit);
  }

  lemma {:induction false} NoneLonger(h: seq<int>, a: nat, b: nat)
    requires a <= b < |h| && forall i :: a < i <= b ==> h[i] == 0
    ensures Total(h, a, b) == 0
  {
    if a < b { NoneLonger(h, a, b - 1); }
  }
}
