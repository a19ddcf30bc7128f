/**
  The two-pass radix sort of used symbols by their 16-bit frequency.
 */
module RadixSort {
  import opened Bits
  import opened HuffmanTree
  import opened MinimumRedundancy

  type Syms = seq<SymFreq>

  /** The byte of the key that a pass sorts by. */
  function Digit(x: SymFreq, pass: nat): (d: nat)
    ensures d < 256
  {
    if pass == 0 then x.key % 256 else x.key / 256
  }

  /** The symbols whose digit is b, in order. */
  function Bucket(s: Syms, pass: nat, b: nat): (r: Syms)
  {
    if s == [] then []
    else
      var x := s[|s| - 1];
      Bucket(s[..|s| - 1], pass, b) + (if Digit(x, pass) == b then [x] else [])
  }

  /** All buckets below b, one after the other: what one pass produces when b is 256. */
  function Gather(s: Syms, pass: nat, b: nat): (r: Syms)
  {
    if b == 0 then [] else Gather(s, pass, b - 1) + Bucket(s, pass, b - 1)
  }

  /** The symbols of one frequency, in order. */
  ghost function OfKey(s: Syms, k: nat): (r: Syms)
  {
    if s == [] then []
    else
      var x := s[|s| - 1];
      OfKey(s[..|s| - 1], k) + (if x.key == k then [x] else [])
  }

  /** t is s sorted, symbols of equal frequency staying in order. */
  ghost predicate StableSort(s: Syms, t: Syms)
  {
    Sorted(Keys(t)) && forall k :: OfKey(t, k) == OfKey(s, k)
  }

  ghost predicate SortedByDigit(s: Syms, pass: nat)
  {
    forall i, j :: 0 <= i <= j < |s| ==> Digit(s[i], pass) <= Digit(s[j], pass)
  }

  lemma {:induction false} OfKeyAppend(s: Syms, t: Syms, k: nat)
    ensures OfKey(s + t, k) == OfKey(s, k) + OfKey(t, k)
  {
    if t == [] {
      assert s + t == s;
    } else {
      assert (s + t)[..|s + t| - 1] == s + t[..|t| - 1];
      OfKeyAppend(s, t[..|t| - 1], k);
    }
  }

  /** A bucket holds all the symbols of a frequency or none. */
  lemma {:induction false} OfKeyBucket(s: Syms, pass: nat, b: nat, k: u16)
    ensures OfKey(Bucket(s, pass, b), k) == if Digit(SymFreq(k, 0), pass) == b then OfKey(s, k) else []
  {
    if s != [] {
      var x := s[|s| - 1];
      var init := s[..|s| - 1];
      OfKeyBucket(init, pass, b, k);
      OfKeyAppend(Bucket(init, pass, b), if Digit(x, pass) == b then [x] else [], k);
      assert [x][..0] == [];
    }
  }

  lemma {:induction false} OfKeyGather(s: Syms, pass: nat, b: nat, k: u16)
    ensures OfKey(Gather(s, pass, b), k) == if Digit(SymFreq(k, 0), pass) < b then OfKey(s, k) else []
  {
    hide *;
    if b == 0 {
      NoneOfKey(s, pass, k);
    } else {
      OfKeyGather(s, pass, b - 1, k);
      OfKeyBucket(s, pass, b - 1, k);
      OfKeyAppend(Gather(s, pass, b - 1), Bucket(s, pass, b - 1), k);
      GatherStep(s, pass, b);
      var d, o := Digit(SymFreq(k, 0), pass), OfKey(s, k);
      NothingJoined(o);
      if d == b - 1 {
        assert OfKey(Gather(s, pass, b), k) == [] + o;
      } else {
        assert OfKey(Gather(s, pass, b), k) == OfKey(Gather(s, pass, b - 1), k) + [];
        NothingJoined(OfKey(Gather(s, pass, b - 1), k));
      }
    }
  }

  lemma NoneOfKey(s: Syms, pass: nat, k: u16)
    ensures OfKey(Gather(s, pass, 0), k) == []
  {
  }

  lemma GatherStep(s: Syms, pass: nat, b: nat)
    requires b > 0
    ensures Gather(s, pass, b) == Gather(s, pass, b - 1) + Bucket(s, pass, b - 1)
  {
  }

  lemma NothingJoined(s: Syms)
    ensures s + [] == s && [] + s == s
  {
  }

  lemma {:induction false} OfNoKey(s: Syms, k: nat)
    requires k >= 65536
    ensures OfKey(s, k) == []
  {
    if s != [] { OfNoKey(s[..|s| - 1], k); }
  }

  lemma {:induction false} BucketMembers(s: Syms, pass: nat, b: nat)
    ensures forall i :: 0 <= i < |Bucket(s, pass, b)| ==> Digit(Bucket(s, pass, b)[i], pass) == b
    ensures SortedByDigit(s, 0) ==> SortedByDigit(Bucket(s, pass, b), 0)
    ensures s != [] ==> forall i :: 0 <= i < |Bucket(s, pass, b)| ==> Bucket(s, pass, b)[i] in s
  {
    if s != [] {
      BucketMembers(s[..|s| - 1], pass, b);
      var r := Bucket(s[..|s| - 1], pass, b);
      if SortedByDigit(s, 0) {
        forall i | 0 <= i < |r| ensures Digit(r[i], 0) <= Digit(s[|s| - 1], 0) {
          assert r[i] in s[..|s| - 1];
        }
      }
    }
  }

  ghost predicate Ordered(s: Syms, pass: nat, b: nat)
  {
    SortedByDigit(s, pass) && forall i :: 0 <= i < |s| ==> Digit(s[i], pass) < b
  }

  lemma {:induction false} GatherOrdered(s: Syms, pass: nat, b: nat)
    ensures Ordered(Gather(s, pass, b), pass, b)
  {
    if b > 0 {
      GatherOrdered(s, pass, b - 1);
      BucketMembers(s, pass, b - 1);
      hide Digit, Bucket;
    }
  }

  /** The second pass keeps the order of low bytes within equal high bytes. */
  lemma {:induction false} GatherSorted(s: Syms, b: nat)
    requires SortedByDigit(s, 0)
    ensures Sorted(Keys(Gather(s, 1, b)))
    ensures forall i :: 0 <= i < |Gather(s, 1, b)| ==> Digit(Gather(s, 1, b)[i], 1) < b
  {
    if b > 0 {
      GatherSorted(s, b - 1);
      BucketMembers(s, 1, b - 1);
      var l, r := Gather(s, 1, b - 1), Bucket(s, 1, b - 1);
      forall i, j | 0 <= i <= j < |l + r| ensures Keys(l + r)[i] <= Keys(l + r)[j] {
        if j < |l| {
          assert Keys(l)[i] <= Keys(l)[j];
        } else if i < |l| {
          assert Digit(l[i], 1) < b - 1 && Digit(r[j - |l|], 1) == b - 1;
        } else {
          assert Digit(r[i - |l|], 0) <= Digit(r[j - |l|], 0);
        }
      }
    }
  }

  lemma PassOfKey(s: Syms, pass: nat, k: nat)
    ensures OfKey(Gather(s, pass, 256), k) == OfKey(s, k)
  {
    if k < 65536 {
      OfKeyGather(s, pass, 256, k);
    } else {
      OfNoKey(s, k);
      OfNoKey(Gather(s, pass, 256), k);
    }
  }

  /** Both passes. */
  lemma TwoPasses(s: Syms)
    ensures StableSort(s, Gather(Gather(s, 0, 256), 1, 256))
  {
    var t := Gather(s, 0, 256);
    GatherOrdered(s, 0, 256);
    GatherSorted(t, 256);
    forall k: nat ensures OfKey(Gather(t, 1, 256), k) == OfKey(s, k) {
      PassOfKey(s, 0, k);
      PassOfKey(t, 1, k);
    }
  }

  /** The low pass alone will do when every high byte is zero. */
  lemma OnePass(s: Syms)
    requires |Bucket(s, 1, 0)| == |s|
    ensures StableSort(s, Gather(s, 0, 256))
  {
    var t := Gather(s, 0, 256);
    GatherOrdered(s, 0, 256);
    AllInBucket(s);
    SameMembers(s, 0, 256);
    forall i, j | 0 <= i <= j < |t| ensures Keys(t)[i] <= Keys(t)[j] {
      assert t[i] in s && t[j] in s;
      assert Digit(t[i], 0) <= Digit(t[j], 0);
    }
    forall k: nat ensures OfKey(t, k) == OfKey(s, k) { PassOfKey(s, 0, k); }
  }

  lemma {:induction false} BucketLength(s: Syms, pass: nat, b: nat)
    ensures |Bucket(s, pass, b)| <= |s|
  {
    if s != [] { BucketLength(s[..|s| - 1], pass, b); }
  }

  lemma {:induction false} AllInBucket(s: Syms)
    requires |Bucket(s, 1, 0)| == |s|
    ensures forall x :: x in s ==> Digit(x, 1) == 0
  {
    if s != [] {
      var init := s[..|s| - 1];
      BucketLength(init, 1, 0);
      AllInBucket(init);
      assert s == init + [s[|s| - 1]];
    }
  }

  lemma {:induction false} SameMembers(s: Syms, pass: nat, b: nat)
    ensures forall x :: x in Gather(s, pass, b) ==> x in s
  {
    if b > 0 {
      SameMembers(s, pass, b - 1);
      BucketMembers(s, pass, b - 1);
      if s == [] { assert Bucket(s, pass, b - 1) == []; }
    }
  }

  lemma {:induction false} OfKeyCount(s: Syms, x: SymFreq)
    ensures multiset(s)[x] == multiset(OfKey(s, x.key))[x]
  {
    if s != [] {
      var init := s[..|s| - 1];
      OfKeyCount(init, x);
      assert s == init + [s[|s| - 1]];
    }
  }

  /** A stable sort is a permutation. */
  lemma StableSortPermutes(s: Syms, t: Syms)
    requires StableSort(s, t)
    ensures multiset(s) == multiset(t) && |s| == |t|
  {
    forall x ensures multiset(s)[x] == multiset(t)[x] {
      OfKeyCount(s, x);
      OfKeyCount(t, x);
    }
    assert multiset(s) == multiset(t);
    assert |multiset(s)| == |s| && |multiset(t)| == |t|;
  }

  /** Where bucket b begins. */
  ghost function Offset(s: Syms, pass: nat, b: nat): (r: nat)
  {
    |Gather(s, pass, b)|
  }

  lemma {:induction false} OffsetMono(s: Syms, pass: nat, a: nat, b: nat)
    requires a <= b
    ensures Offset(s, pass, a) <= Offset(s, pass, b)
    ensures a < b ==> Offset(s, pass, a) + |Bucket(s, pass, a)| <= Offset(s, pass, b)
    decreases b - a
  {
    if a < b { OffsetMono(s, pass, a, b - 1); }
  }

  lemma BucketSnoc(s: Syms, x: SymFreq, pass: nat, b: nat)
    ensures Bucket(s + [x], pass, b) == Bucket(s, pass, b) + (if Digit(x, pass) == b then [x] else [])
  {
    hide Digit;
    assert (s + [x])[..|s|] == s;
  }

  lemma {:induction false} GatherSnoc(s: Syms, x: SymFreq, pass: nat, b: nat)
    ensures multiset(Gather(s + [x], pass, b)) ==
            multiset(Gather(s, pass, b)) + (if Digit(x, pass) < b then multiset{x} else multiset{})
  {
    if b > 0 {
      GatherSnoc(s, x, pass, b - 1);
      BucketSnoc(s, x, pass, b - 1);
      hide Digit, Bucket;
    }
  }

  lemma {:induction false} GatherPermutes(s: Syms, pass: nat)
    ensures multiset(Gather(s, pass, 256)) == multiset(s)
    ensures Offset(s, pass, 256) == |s|
  {
    if s == [] {
      NothingGathered(pass, 256);
    } else {
      var init, x := s[..|s| - 1], s[|s| - 1];
      GatherPermutes(init, pass);
      GatherSnoc(init, x, pass, 256);
      assert s == init + [x];
    }
    assert |multiset(s)| == |s|;
    assert |multiset(Gather(s, pass, 256))| == Offset(s, pass, 256);
  }

  lemma {:induction false} NothingGathered(pass: nat, b: nat)
    ensures Gather([], pass, b) == []
  {
    if b > 0 { NothingGathered(pass, b - 1); }
  }

  lemma {:induction false} BucketPrefix(s: Syms, pass: nat, b: nat, i: nat)
    requires i <= |s|
    ensures |Bucket(s[..i], pass, b)| <= |Bucket(s, pass, b)|
    decreases |s|
  {
    if i < |s| {
      BucketPrefix(s[..|s| - 1], pass, b, i);
      assert s[..|s| - 1][..i] == s[..i];
    } else {
      assert s[..i] == s;
    }
  }

  lemma {:induction false} BucketRemove(s: Syms, i: nat, pass: nat, b: nat)
    requires i < |s|
    ensures |Bucket(s, pass, b)| == |Bucket(s[..i] + s[i + 1..], pass, b)| + (if Digit(s[i], pass) == b then 1 else 0)
    decreases |s|
  {
    var m := |s| - 1;
    if i == m {
      assert s[..i] + s[i + 1..] == s[..m];
    } else {
      var init := s[..m];
      BucketRemove(init, i, pass, b);
      var r := s[..i] + s[i + 1..];
      assert r[..|r| - 1] == init[..i] + init[i + 1..];
      assert r[|r| - 1] == s[m];
    }
  }

  /** Bucket sizes do not depend on the order. */
  lemma {:induction false} BucketPermutes(s: Syms, t: Syms, pass: nat, b: nat)
    requires multiset(s) == multiset(t)
    ensures |Bucket(s, pass, b)| == |Bucket(t, pass, b)|
    decreases |s|
  {
    if s == [] {
      assert |multiset(t)| == 0;
    } else {
      var m := |s| - 1;
      var x := s[m];
      assert x in multiset(s);
      var j :| 0 <= j < |t| && t[j] == x;
      var t' := t[..j] + t[j + 1..];
      assert t == t[..j] + [x] + t[j + 1..];
      assert s == s[..m] + [x];
      assert multiset(s[..m]) == multiset(s) - multiset{x};
      assert multiset(t') == multiset(t) - multiset{x};
      BucketPermutes(s[..m], t', pass, b);
      BucketRemove(t, j, pass, b);
    }
  }

  /** The histogram of both digits; hist has 256 entries for each. */
  method CountDigits(syms: array<SymFreq>, n: nat, hist: array<nat>)
    requires n <= syms.Length && hist.Length == 512
    requires forall b :: 0 <= b < 512 ==> hist[b] == 0
    modifies hist
    ensures forall b :: 0 <= b < 256 ==> hist[b] == |Bucket(syms[..n], 0, b)|
    ensures forall b :: 256 <= b < 512 ==> hist[b] == |Bucket(syms[..n], 1, b - 256)|
  {
    var i := 0;
    while i < n
      invariant 0 <= i <= n
      invariant forall b :: 0 <= b < 256 ==> hist[b] == |Bucket(syms[..i], 0, b)|
      invariant forall b :: 256 <= b < 512 ==> hist[b] == |Bucket(syms[..i], 1, b - 256)|
    {
      var freq := syms[i].key;
      assert syms[..i + 1][..i] == syms[..i];
      hist[freq % 256] := hist[freq % 256] + 1;
      hist[256 + freq / 256] := hist[256 + freq / 256] + 1;
      i := i + 1;
    }
  }

  /** Bucket b of the first i symbols is in place from its offset on. */
  ghost predicate Placed(out: Syms, s: Syms, pass: nat, i: nat, offsets: seq<nat>)
  {
    i <= |s| <= |out| && |offsets| == 256 &&
    forall b :: 0 <= b < 256 ==>
      offsets[b] == Offset(s, pass, b) + |Bucket(s[..i], pass, b)| <= |out| &&
      out[Offset(s, pass, b)..offsets[b]] == Bucket(s[..i], pass, b)
  }

  lemma PlaceRoom(out: Syms, s: Syms, pass: nat, i: nat, offsets: seq<nat>)
    requires Placed(out, s, pass, i, offsets) && i < |s|
    ensures var d := Digit(s[i], pass); offsets[d] < Offset(s, pass, d + 1) <= |s|
    ensures s[..i + 1][..i] == s[..i]
  {
    var d := Digit(s[i], pass);
    assert s[..i + 1][..i] == s[..i];
    BucketPrefix(s, pass, d, i + 1);
    OffsetMono(s, pass, d + 1, 256);
    GatherPermutes(s, pass);
  }

  lemma PlaceOne(out: Syms, s: Syms, pass: nat, i: nat, offsets: seq<nat>, out': Syms, offsets': seq<nat>)
    requires Placed(out, s, pass, i, offsets) && i < |s|
    requires var d := Digit(s[i], pass);
             offsets[d] < |out| && out' == out[offsets[d] := s[i]] && offsets' == offsets[d := offsets[d] + 1]
    ensures Placed(out', s, pass, i + 1, offsets')
  {
    var d := Digit(s[i], pass);
    PlaceRoom(out, s, pass, i, offsets);
    hide Digit;
    forall b | 0 <= b < 256
      ensures offsets'[b] == Offset(s, pass, b) + |Bucket(s[..i + 1], pass, b)| <= |out|
      ensures out'[Offset(s, pass, b)..offsets'[b]] == Bucket(s[..i + 1], pass, b)
    {
      PlaceBucket(out, s, pass, i, offsets, b);
    }
  }

  lemma PlaceBucket(out: Syms, s: Syms, pass: nat, i: nat, offsets: seq<nat>, b: nat)
    requires Placed(out, s, pass, i, offsets) && i < |s| && b < 256
    requires offsets[Digit(s[i], pass)] < Offset(s, pass, Digit(s[i], pass) + 1) <= |s|
    requires s[..i + 1][..i] == s[..i]
    ensures var d := Digit(s[i], pass);
            var o := (if b == d then offsets[b] + 1 else offsets[b]);
            o == Offset(s, pass, b) + |Bucket(s[..i + 1], pass, b)| <= |out| &&
            out[offsets[d] := s[i]][Offset(s, pass, b)..o] == Bucket(s[..i + 1], pass, b)
  {
    var d := Digit(s[i], pass);
    PlacedAt(out, s, pass, i, offsets, b);
    PlacedAt(out, s, pass, i, offsets, d);
    BucketStep(s, pass, i, b);
    BucketPrefix(s, pass, b, i);
    if b < d { OffsetMono(s, pass, b, d); } else if b > d { OffsetMono(s, pass, d + 1, b); }
    hide *;
    PutIn(out, Offset(s, pass, b), offsets[b], offsets[d], s[i]);
  }

  lemma PlacedAt(out: Syms, s: Syms, pass: nat, i: nat, offsets: seq<nat>, b: nat)
    requires Placed(out, s, pass, i, offsets) && b < 256
    ensures offsets[b] == Offset(s, pass, b) + |Bucket(s[..i], pass, b)| <= |out|
    ensures out[Offset(s, pass, b)..offsets[b]] == Bucket(s[..i], pass, b)
  {
    hide Digit, Offset, Bucket;
  }

  lemma BucketStep(s: Syms, pass: nat, i: nat, b: nat)
    requires i < |s| && s[..i + 1][..i] == s[..i]
    ensures Bucket(s[..i + 1], pass, b) == if Digit(s[i], pass) == b then Bucket(s[..i], pass, b) + [s[i]]
            else Bucket(s[..i], pass, b)
  {
  }

  /** A symbol put at p extends the stretch that ends there, and leaves other stretches alone. */
  lemma PutIn(out: Syms, lo: nat, hi: nat, p: nat, x: SymFreq)
    requires lo <= hi <= |out| && p < |out|
    ensures p == hi ==> out[p := x][lo..hi + 1] == out[lo..hi] + [x]
    ensures p < lo || p >= hi ==> out[p := x][lo..hi] == out[lo..hi]
  {
  }

  lemma OffsetStep(s: Syms, pass: nat, b: nat)
    requires b > 0
    ensures Offset(s, pass, b) == Offset(s, pass, b - 1) + |Bucket(s, pass, b - 1)|
  {
  }

  lemma Stretches(out: Syms, a: nat, b: nat)
    requires a <= b <= |out|
    ensures out[..b] == out[..a] + out[a..b]
  {
  }

  lemma {:induction false} AllPlaced(out: Syms, s: Syms, pass: nat, offsets: seq<nat>, b: nat)
    requires Placed(out, s, pass, |s|, offsets) && b <= 256 && Offset(s, pass, b) <= |out|
    ensures out[..Offset(s, pass, b)] == Gather(s, pass, b)
  {
    if b > 0 {
      hide *;
      assert s[..|s|] == s;
      OffsetMono(s, pass, b - 1, b);
      PlacedAt(out, s, pass, |s|, offsets, b - 1);
      PlacedSize(out, s, pass, |s|, offsets);
      GatherStep(s, pass, b);
      OffsetStep(s, pass, b);
      AllPlaced(out, s, pass, offsets, b - 1);
      Stretches(out, Offset(s, pass, b - 1), Offset(s, pass, b));
    }
  }

  /** Where the buckets of a pass begin. */
  method StartOffsets(hist: array<nat>, pass: nat, ghost s: Syms, offsets: array<nat>)
    requires hist.Length == 512 && pass < 2 && offsets.Length == 256 && offsets != hist
    requires forall b :: 0 <= b < 256 ==> hist[256 * pass + b] == |Bucket(s, pass, b)|
    modifies offsets
    ensures forall b :: 0 <= b < 256 ==> offsets[b] == Offset(s, pass, b)
  {
    var cur_ofs, i := 0, 0;
    while i < 256
      invariant 0 <= i <= 256
      invariant cur_ofs == Offset(s, pass, i)
      invariant forall b :: 0 <= b < i ==> offsets[b] == Offset(s, pass, b)
    {
      offsets[i] := cur_ofs;
      cur_ofs := cur_ofs + hist[256 * pass + i];
      i := i + 1;
    }
  }

  /** x goes to the next free place of bucket d. */
  method PutNext(new_syms: array<SymFreq>, offsets: array<nat>, d: nat, x: SymFreq)
    requires d < offsets.Length && offsets[d] < new_syms.Length
    modifies new_syms, offsets
    ensures new_syms[..] == old(new_syms[..])[old(offsets[d]) := x]
    ensures offsets[..] == old(offsets[..])[d := old(offsets[d]) + 1]
  {
    new_syms[offsets[d]] := x;
    offsets[d] := offsets[d] + 1;
  }

  /** The next symbol goes to its bucket. */
  method PlaceNext(cur: array<SymFreq>, new_syms: array<SymFreq>, i: nat, offsets: array<nat>, pass: nat, ghost s: Syms)
    requires cur != new_syms && |s| <= cur.Length && cur[..|s|] == s && i < |s|
    requires Placed(new_syms[..], s, pass, i, offsets[..])
    modifies new_syms, offsets
    ensures Placed(new_syms[..], s, pass, i + 1, offsets[..])
  {
    ghost var out0, ofs0 := new_syms[..], offsets[..];
    assert cur[i] == s[i];
    PlaceRoom(out0, s, pass, i, ofs0);
    PlacedSize(out0, s, pass, i, ofs0);
    hide *;
    var d := Digit(cur[i], pass);
    PutNext(new_syms, offsets, d, cur[i]);
    PlaceOne(out0, s, pass, i, ofs0, new_syms[..], offsets[..]);
  }

  lemma PlacedSize(out: Syms, s: Syms, pass: nat, i: nat, offsets: seq<nat>)
    requires Placed(out, s, pass, i, offsets)
    ensures |s| <= |out| && |offsets| == 256
  {
  }

  /** One pass: every symbol goes to the next free place of its bucket. */
  method Scatter(cur: array<SymFreq>, new_syms: array<SymFreq>, n: nat, hist: array<nat>, pass: nat)
    requires cur != new_syms && n <= cur.Length && n <= new_syms.Length && hist.Length == 512 && pass < 2
    requires forall b :: 0 <= b < 256 ==> hist[256 * pass + b] == |Bucket(cur[..n], pass, b)|
    modifies new_syms
    ensures new_syms[..n] == Gather(old(cur[..n]), pass, 256)
  {
    ghost var s := cur[..n];
    var offsets := new nat[256];
    StartOffsets(hist, pass, s, offsets);
    NothingPlaced(new_syms[..], s, pass, offsets[..]);
    hide Bucket, Gather, Digit, Placed;
    var i := 0;
    while i < n
      invariant 0 <= i <= n
      invariant cur[..n] == s
      invariant Placed(new_syms[..], s, pass, i, offsets[..])
    {
      PlaceNext(cur, new_syms, i, offsets, pass, s);
      i := i + 1;
    }
    Scattered(new_syms[..], s, pass, offsets[..]);
  }

  lemma Scattered(out: Syms, s: Syms, pass: nat, offsets: seq<nat>)
    requires Placed(out, s, pass, |s|, offsets)
    ensures out[..|s|] == Gather(s, pass, 256)
  {
    GatherPermutes(s, pass);
    AllPlaced(out, s, pass, offsets, 256);
  }

  lemma NothingPlaced(out: Syms, s: Syms, pass: nat, offsets: seq<nat>)
    requires |s| <= |out| && |offsets| == 256
    requires forall b :: 0 <= b < 256 ==> offsets[b] == Offset(s, pass, b)
    ensures Placed(out, s, pass, 0, offsets)
  {
    GatherPermutes(s, pass);
    forall b | 0 <= b < 256 ensures offsets[b] <= |out| && out[Offset(s, pass, b)..offsets[b]] == [] {
      OffsetMono(s, pass, b, 256);
    }
  }

  /**
    The whole sort, between two arrays; the result is in one of them. The pass over the
    high byte is skipped when all high bytes are zero.
   */
  method RadixSortSyms(num_syms: nat, syms0: array<SymFreq>, syms1: array<SymFreq>) returns (sorted: array<SymFreq>)
    requires syms0 != syms1 && num_syms <= syms0.Length && num_syms <= syms1.Length
    modifies syms0, syms1
    ensures sorted == syms0 || sorted == syms1
    ensures StableSort(old(syms0[..num_syms]), sorted[..num_syms])
  {
    ghost var s := syms0[..num_syms];
    hide Bucket, Gather, StableSort;
    var total_passes := 2;
    var hist := new nat[512](_ => 0);
    CountDigits(syms0, num_syms, hist);
    assert hist[256] == |Bucket(s, 1, 0)|;
    while total_passes > 1 && num_syms == hist[(total_passes - 1) * 256]
      invariant 1 <= total_passes <= 2
      invariant total_passes == 1 ==> |Bucket(s, 1, 0)| == num_syms
    {
      total_passes := total_passes - 1;
    }
    Scatter(syms0, syms1, num_syms, hist, 0);
    if total_passes == 1 {
      OnePass(s);
      return syms1;
    }
    ghost var t := syms1[..num_syms];
    GatherPermutes(s, 0);
    forall b | 0 <= b < 256 ensures hist[256 * 1 + b] == |Bucket(t, 1, b)| {
      BucketPermutes(s, t, 1, b);
    }
    Scatter(syms1, syms0, num_syms, hist, 1);
    TwoPasses(s);
    sorted := syms0;
  }
}
