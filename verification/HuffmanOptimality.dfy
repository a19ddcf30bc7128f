/**
  Merging the two lightest items first is optimal: no prefix code, that is no assignment of
  lengths within the Kraft inequality, costs less than the total weight of the nodes formed.
 */
module HuffmanOptimality {
  import opened Bits
  import opened HuffmanTree

  datatype Item = Item(weight: nat, len: nat)

  function Cost(s: seq<Item>): (r: nat)
  {
    if s == [] then 0 else s[0].weight * s[0].len + Cost(s[1..])
  }

  /** The part of the Pow2(m) strings of length m that begin with a code of the given length. */
  function Share(len: nat, m: nat): (r: nat)
  {
    if len <= m then Pow2(m - len) else 0
  }

  function Kraft(s: seq<Item>, m: nat): (r: nat)
  {
    if s == [] then 0 else Share(s[0].len, m) + Kraft(s[1..], m)
  }

  ghost predicate LensWithin(s: seq<Item>, m: nat)
  {
    forall i :: 0 <= i < |s| ==> s[i].len <= m
  }

  /** The lengths are those of some prefix code. */
  ghost predicate KraftOk(s: seq<Item>, m: nat)
  {
    LensWithin(s, m) && Kraft(s, m) <= Pow2(m)
  }

  ghost function Weights(s: seq<Item>): (r: multiset<nat>)
  {
    if s == [] then multiset{} else multiset{s[0].weight} + Weights(s[1..])
  }

  ghost function Without(s: seq<Item>, i: nat): (r: seq<Item>)
    requires i < |s|
  {
    s[..i] + s[i + 1..]
  }

  /** Sums over items do not depend on their order. */
  lemma {:induction false} Pick(s: seq<Item>, i: nat, m: nat)
    requires i < |s|
    ensures Cost(s) == s[i].weight * s[i].len + Cost(Without(s, i))
    ensures Kraft(s, m) == Share(s[i].len, m) + Kraft(Without(s, i), m)
    ensures Weights(s) == multiset{s[i].weight} + Weights(Without(s, i))
  {
    if i == 0 {
      assert Without(s, 0) == s[1..];
    } else {
      hide Share;
      WithoutRest(s, i);
      hide Without;
      Pick(s[1..], i - 1, m);
    }
  }

  lemma WithoutRest(s: seq<Item>, i: nat)
    requires 0 < i < |s|
    ensures var r := Without(s, i); r != [] && r[0] == s[0] && r[1..] == Without(s[1..], i - 1)
  {
    assert Without(s, i) == [s[0]] + Without(s[1..], i - 1);
  }

  lemma {:induction false} FindWeight(s: seq<Item>, w: nat) returns (i: nat)
    requires w in Weights(s)
    ensures i < |s| && s[i].weight == w
  {
    if s[0].weight == w {
      i := 0;
    } else {
      i := FindWeight(s[1..], w);
      i := i + 1;
    }
  }

  lemma {:induction false} WeightIn(s: seq<Item>, i: nat)
    requires i < |s|
    ensures s[i].weight in Weights(s)
  {
    if i > 0 { WeightIn(s[1..], i - 1); }
  }

  lemma {:induction false} Longest(s: seq<Item>) returns (i: nat)
    requires s != []
    ensures i < |s| && LensWithin(s, s[i].len)
  {
    if |s| == 1 {
      i := 0;
    } else {
      var j := Longest(s[1..]);
      i := if s[1..][j].len >= s[0].len then j + 1 else 0;
      assert forall k :: 1 <= k < |s| ==> s[k] == s[1..][k - 1];
    }
  }

  ghost predicate Lightest(w: nat, m: multiset<nat>)
  {
    forall x :: x in m ==> w <= x
  }

  /** A light item may trade its length for the longest one without loss. */
  lemma Raise(x: Item, r: seq<Item>, m: nat) returns (x': Item, r': seq<Item>)
    requires Lightest(x.weight, Weights(r))
    ensures x'.weight == x.weight && |r'| == |r| && Weights(r') == Weights(r)
    ensures LensWithin(r', x'.len)
    ensures Cost([x'] + r') <= Cost([x] + r)
    ensures Kraft([x'] + r', m) == Kraft([x] + r, m)
    ensures forall b :: LensWithin(r, b) ==> LensWithin(r', b)
    ensures LensWithin([x] + r, m) ==> x'.len <= m
  {
    if r == [] {
      return x, r;
    }
    var i := Longest(r);
    if r[i].len <= x.len {
      return x, r;
    }
    x' := Item(x.weight, r[i].len);
    r' := r[i := Item(r[i].weight, x.len)];
    Pick(r, i, m);
    Pick(r', i, m);
    assert Without(r', i) == Without(r, i);
    WeightIn(r, i);
    assert ([x] + r)[1..] == r && ([x'] + r')[1..] == r';
    Exchange(x.weight, r[i].weight, x.len, r[i].len);
    assert ([x] + r)[i + 1] == r[i];
  }

  lemma Exchange(a: nat, b: nat, k: nat, l: nat)
    requires a <= b && k <= l
    ensures a * l + b * k <= a * k + b * l
  {
    MulMono(a, b, l - k);
    assert (l - k) * a + k * a == l * a;
    assert (l - k) * b + k * b == l * b;
  }

  /** Changing the scale of the Kraft sum. */
  lemma {:induction false} Rescale(s: seq<Item>, l: nat, m: nat)
    requires LensWithin(s, l) && l <= m
    ensures Kraft(s, m) == Pow2(m - l) * Kraft(s, l)
  {
    if s != [] {
      Rescale(s[1..], l, m);
      Pow2Add(m - l, l - s[0].len);
      Distribute(Pow2(m - l), Pow2(l - s[0].len), Kraft(s[1..], l));
    } else {
      assert Pow2(m - l) * 0 == 0;
    }
  }

  lemma Distribute(p: nat, q: nat, k: nat)
    ensures p * (q + k) == p * q + p * k
  {
  }

  /** Two items at least as long as all others leave room for two items of the shorter length. */
  lemma {:induction false} RoomForTwo(x: Item, y: Item, r: seq<Item>, m: nat)
    requires LensWithin(r, x.len) && LensWithin(r, y.len) && x.len <= m && y.len <= m
    requires Share(x.len, m) + Share(y.len, m) + Kraft(r, m) <= Pow2(m)
    ensures var l := if x.len <= y.len then x.len else y.len; Kraft(r, l) + 2 <= Pow2(l)
  {
    var l := if x.len <= y.len then x.len else y.len;
    Rescale(r, l, m);
    Pow2Add(m - l, l);
    Room(Pow2(m - l), Kraft(r, l), Pow2(l));
  }

  lemma Room(q: nat, k: nat, p: nat)
    requires q * k + q < q * p
    ensures k + 2 <= p
  {
    MulCancelStrict(k + 1, p, q);
  }

  lemma Cancel(a: nat, x: multiset<nat>, y: multiset<nat>)
    requires multiset{a} + x == y + multiset{a}
    ensures x == y
  {
    assert x == (multiset{a} + x) - multiset{a};
    assert y == (y + multiset{a}) - multiset{a};
  }

  /** Two items of given weights and the others, in whatever order they were. */
  lemma TakeOut(s: seq<Item>, m: nat, rest: multiset<nat>, a: nat, b: nat) returns (x: Item, y: Item, r: seq<Item>)
    requires LensWithin(s, m) && Weights(s) == rest + multiset{a} + multiset{b}
    ensures x.weight == a && y.weight == b && Weights(r) == rest
    ensures LensWithin(r, m) && x.len <= m && y.len <= m
    ensures Cost(s) == x.weight * x.len + y.weight * y.len + Cost(r)
    ensures Kraft(s, m) == Share(x.len, m) + Share(y.len, m) + Kraft(r, m)
  {
    hide Cost, Kraft, Share, Weights;
    var i := FindWeight(s, a);
    Pick(s, i, m);
    var r1 := Without(s, i);
    assert rest + multiset{a} + multiset{b} == (rest + multiset{b}) + multiset{a};
    Cancel(a, Weights(r1), rest + multiset{b});
    var j := FindWeight(r1, b);
    Pick(r1, j, m);
    x, y, r := s[i], r1[j], Without(r1, j);
    Cancel(b, Weights(r), rest);
  }

  /** The longest two items become one, one bit shorter. */
  lemma MergeFront(x: Item, y: Item, r: seq<Item>, m: nat) returns (t: seq<Item>, l: nat)
    requires LensWithin(r, x.len) && LensWithin(r, y.len) && x.len <= m && y.len <= m
    requires Share(x.len, m) + Share(y.len, m) + Kraft(r, m) <= Pow2(m)
    ensures KraftOk(t, l) && Weights(t) == multiset{x.weight + y.weight} + Weights(r)
    ensures Cost(t) + x.weight + y.weight <= x.weight * x.len + y.weight * y.len + Cost(r)
  {
    RoomForTwo(x, y, r, m);
    l := if x.len <= y.len then x.len else y.len;
    t := [Item(x.weight + y.weight, l - 1)] + r;
    assert t[1..] == r;
    Shorter(x.weight, y.weight, x.len, y.len, l);
  }

  /** The two lightest items may be merged: a code for the rest and their sum, cheaper by that sum. */
  lemma Reduce(s: seq<Item>, m: nat, rest: multiset<nat>, a: nat, b: nat) returns (t: seq<Item>, l: nat)
    requires KraftOk(s, m) && Weights(s) == rest + multiset{a} + multiset{b}
    requires Lightest(a, rest) && Lightest(b, rest)
    ensures KraftOk(t, l) && Weights(t) == rest + multiset{a + b}
    ensures Cost(t) + a + b <= Cost(s)
  {
    hide Kraft, Cost, Weights, Share, Pow2, Lightest;
    var x, y, r := TakeOut(s, m, rest, a, b);
    var x', r' := Raise(x, r, m);
    var y', r'' := Raise(y, r', m);
    TwoInFront(x, y, r, x', r', y', r'', m);
    t, l := MergeFront(x', y', r'', m);
  }

  lemma TwoInFront(x: Item, y: Item, r2: seq<Item>, x': Item, r3: seq<Item>, y': Item, r4: seq<Item>, m: nat)
    requires Cost([x'] + r3) <= Cost([x] + r2) && Cost([y'] + r4) <= Cost([y] + r3)
    requires Kraft([x'] + r3, m) == Kraft([x] + r2, m) && Kraft([y'] + r4, m) == Kraft([y] + r3, m)
    ensures x'.weight * x'.len + y'.weight * y'.len + Cost(r4) <= x.weight * x.len + y.weight * y.len + Cost(r2)
    ensures Share(x'.len, m) + Share(y'.len, m) + Kraft(r4, m) == Share(x.len, m) + Share(y.len, m) + Kraft(r2, m)
  {
    assert ([x] + r2)[1..] == r2 && ([x'] + r3)[1..] == r3 && ([y] + r3)[1..] == r3 && ([y'] + r4)[1..] == r4;
  }

  lemma Shorter(a: nat, b: nat, k: nat, n: nat, l: nat)
    requires 1 <= l <= k && l <= n
    ensures (a + b) * (l - 1) + a + b <= a * k + b * n
  {
    MulMono(l, k, a);
    MulMono(l, n, b);
    assert (a + b) * (l - 1) == a * l + b * l - a - b;
  }

  /** Every prefix code for items of these weights costs at least c. */
  ghost predicate LowerBound(m: multiset<nat>, c: nat)
  {
    forall s, k :: Weights(s) == m && KraftOk(s, k) ==> c <= Cost(s)
  }

  lemma MergeBound(rest: multiset<nat>, a: nat, b: nat, c: nat)
    requires LowerBound(rest + multiset{a + b}, c)
    requires Lightest(a, rest) && Lightest(b, rest)
    ensures LowerBound(rest + multiset{a} + multiset{b}, c + a + b)
  {
    forall s, k | Weights(s) == rest + multiset{a} + multiset{b} && KraftOk(s, k)
      ensures c + a + b <= Cost(s)
    {
      var t, l := Reduce(s, k, rest, a, b);
    }
  }

  /** What is in the queues after k steps. */
  ghost function Queued(w: seq<nat>, t: Merges, k: nat): (r: multiset<nat>)
    requires Tree(w, t) && k < |w|
  {
    Bounds(w, t, k);
    multiset(t.W[t.R[k]..k]) + multiset(w[LeafAt(t.R, k)..])
  }

  /** What step k leaves behind. */
  ghost function LeftBehind(w: seq<nat>, t: Merges, k: nat): (r: multiset<nat>)
    requires Tree(w, t) && k < |w| - 1
  {
    Bounds(w, t, k + 1);
    assert StepShape(|w|, t.R, k);
    multiset(t.W[t.R[k + 1]..k]) + multiset(w[LeafAt(t.R, k + 1)..])
  }

  lemma Bounds(w: seq<nat>, t: Merges, k: nat)
    requires Tree(w, t) && k < |w|
    ensures t.R[k] <= k <= |t.W| && 0 <= LeafAt(t.R, k) <= |w|
  {
    if k > 0 { assert StepShape(|w|, t.R, k - 1); }
  }

  ghost function Taken(v: seq<nat>, i: nat, j: nat): (r: multiset<nat>)
    requires i <= j <= |v|
  {
    multiset(v[i..j])
  }

  lemma TakeFront(s: seq<nat>, i: nat, j: nat, b: nat)
    requires i <= j <= b <= |s|
    ensures multiset(s[i..b]) == multiset(s[j..b]) + Taken(s, i, j)
  {
    assert s[i..b] == s[i..j] + s[j..b];
  }

  lemma TakenTwo(v: seq<nat>, i: nat)
    requires i + 2 <= |v|
    ensures Taken(v, i, i + 2) == multiset{v[i]} + multiset{v[i + 1]}
    ensures Taken(v, i, i + 1) == multiset{v[i]}
    ensures Taken(v, i, i) == multiset{}
  {
    assert v[i..i + 2] == [v[i], v[i + 1]] && v[i..i + 1] == [v[i]] && v[i..i] == [];
  }

  lemma TakenOne(v: seq<nat>, i: nat)
    requires i + 1 <= |v|
    ensures Taken(v, i, i + 1) == multiset{v[i]}
  {
    assert v[i..i + 1] == [v[i]];
  }

  lemma StepIs(w: seq<nat>, t: Merges, k: nat)
    requires Tree(w, t) && k < |w| - 1
    ensures k + 1 < |t.R| && k < |t.hi| && k < |t.W|
    ensures var r, r', l, l' := t.R[k], t.R[k + 1], LeafAt(t.R, k), LeafAt(t.R, k + 1);
            r <= r' <= r + 2 && r' <= k && 0 <= l <= l' <= |w| && l' - l == 2 - (r' - r) &&
            (r' == r ==> t.W[k] == w[l] + w[l + 1] && w[l] <= t.hi[k] && w[l + 1] <= t.hi[k]) &&
            (r' == r + 1 ==> t.W[k] == t.W[r] + w[l] && t.W[r] <= t.hi[k] && w[l] <= t.hi[k]) &&
            (r' == r + 2 ==> t.W[k] == t.W[r] + t.W[r + 1] && t.W[r] <= t.hi[k] && t.W[r + 1] <= t.hi[k])
  {
    hide Sorted, StepGreedy;
    assert StepShape(|w|, t.R, k) && StepWeight(w, t, k);
  }

  /** The two items of step k. */
  lemma StepTakes(w: seq<nat>, t: Merges, k: nat) returns (x: nat, y: nat)
    requires Tree(w, t) && k < |w| - 1
    ensures t.R[k] <= t.R[k + 1] <= k && 0 <= LeafAt(t.R, k) <= LeafAt(t.R, k + 1) <= |w|
    ensures Taken(t.W, t.R[k], t.R[k + 1]) + Taken(w, LeafAt(t.R, k), LeafAt(t.R, k + 1)) == multiset{x} + multiset{y}
    ensures k < |t.hi| && t.W[k] == x + y && x <= t.hi[k] && y <= t.hi[k]
  {
    hide *;
    StepIs(w, t, k);
    var r, r', l, l' := t.R[k], t.R[k + 1], LeafAt(t.R, k), LeafAt(t.R, k + 1);
    if r' == r {
      x, y := w[l], w[l + 1];
      TakenTwo(w, l);
      TakenNone(t.W, r);
      NothingMore(multiset{x} + multiset{y});
    } else if r' == r + 1 {
      x, y := t.W[r], w[l];
      TakenOne(w, l);
      TakenOne(t.W, r);
    } else {
      x, y := t.W[r], t.W[r + 1];
      TakenTwo(t.W, r);
      TakenNone(w, l);
      NothingMore(multiset{x} + multiset{y});
    }
  }

  lemma TakenNone(v: seq<nat>, i: nat)
    requires i <= |v|
    ensures Taken(v, i, i) == multiset{}
  {
    assert v[i..i] == [];
  }

  lemma NothingMore(m: multiset<nat>)
    ensures m + multiset{} == m && multiset{} + m == m
  {
  }

  lemma Regroup(a: multiset<nat>, b: multiset<nat>, c: multiset<nat>, d: multiset<nat>, x: nat, y: nat)
    requires c + d == multiset{x} + multiset{y}
    ensures (a + c) + (b + d) == (a + b) + multiset{x} + multiset{y}
  {
    assert (a + c) + (b + d) == (a + b) + (c + d);
  }

  lemma SwapLastTwo(a: multiset<nat>, b: multiset<nat>, c: multiset<nat>)
    ensures (a + c) + b == (a + b) + c
  {
  }

  /** Step k takes two items, x and y, and puts back their sum. */
  lemma {:induction false} StepItems(w: seq<nat>, t: Merges, k: nat) returns (x: nat, y: nat)
    requires Tree(w, t) && k < |w| - 1
    ensures Queued(w, t, k) == LeftBehind(w, t, k) + multiset{x} + multiset{y}
    ensures Queued(w, t, k + 1) == LeftBehind(w, t, k) + multiset{x + y}
    ensures k < |t.hi| && t.W[k] == x + y && x <= t.hi[k] && y <= t.hi[k]
  {
    hide Merging, Taken;
    x, y := StepTakes(w, t, k);
    Bounds(w, t, k);
    Bounds(w, t, k + 1);
    var n, r, r', l, l' := |w|, t.R[k], t.R[k + 1], LeafAt(t.R, k), LeafAt(t.R, k + 1);
    assert w[l..] == w[l..n] && w[l'..] == w[l'..n];
    TakeFront(t.W, r, r', k);
    TakeFront(w, l, l', n);
    var a, b := multiset(t.W[r'..k]), multiset(w[l'..n]);
    Regroup(a, b, Taken(t.W, r, r'), Taken(w, l, l'), x, y);
    assert t.W[r'..k + 1] == t.W[r'..k] + [t.W[k]];
    SwapLastTwo(a, b, multiset{t.W[k]});
  }

  lemma LeftHeavier(w: seq<nat>, t: Merges, k: nat)
    requires Tree(w, t) && k < |w| - 1
    ensures Lightest(t.hi[k], LeftBehind(w, t, k))
  {
    Bounds(w, t, k + 1);
    assert StepShape(|w|, t.R, k) && StepGreedy(w, t, k);
    var r, l := t.R[k + 1], LeafAt(t.R, k + 1);
    forall x | x in LeftBehind(w, t, k) ensures t.hi[k] <= x {
      if x in t.W[r..k] {
        assert exists i :: r <= i < k && x == t.W[i];
      } else {
        assert x in w[l..];
        assert exists j :: l <= j < |w| && x == w[j];
      }
    }
  }

  lemma LighterStill(a: nat, b: nat, m: multiset<nat>)
    requires a <= b && Lightest(b, m)
    ensures Lightest(a, m)
  {
  }

  /** The nodes still to be formed are a lower bound on the cost of what is queued. */
  lemma {:induction false} TreeLowerBound(w: seq<nat>, t: Merges, k: nat)
    requires Tree(w, t) && k < |w|
    ensures LowerBound(Queued(w, t, k), Sum(t.W[k..]))
    decreases |w| - k
  {
    hide LowerBound, Merging;
    if k == |w| - 1 {
      assert t.W[k..] == [];
      AtLeastZero(Queued(w, t, k));
    } else {
      TreeLowerBound(w, t, k + 1);
      var x, y := StepItems(w, t, k);
      LeftHeavier(w, t, k);
      LighterStill(x, t.hi[k], LeftBehind(w, t, k));
      LighterStill(y, t.hi[k], LeftBehind(w, t, k));
      MergeBound(LeftBehind(w, t, k), x, y, Sum(t.W[k + 1..]));
      SumSplit(t.W, k);
    }
  }

  lemma AtLeastZero(m: multiset<nat>)
    ensures LowerBound(m, 0)
  {
  }

  /** Sum of s[i] * x[i] for a <= i < b. */
  function Dot(s: seq<nat>, x: seq<nat>, a: nat, b: nat): (r: nat)
    requires a <= b <= |s| && b <= |x|
    decreases b - a
  {
    if a == b then 0 else s[a] * x[a] + Dot(s, x, a + 1, b)
  }

  lemma {:induction false} DotSnoc(s: seq<nat>, x: seq<nat>, a: nat, b: nat)
    requires a <= b < |s| && b < |x|
    ensures Dot(s, x, a, b + 1) == Dot(s, x, a, b) + s[b] * x[b]
    decreases b - a
  {
    if a < b { DotSnoc(s, x, a + 1, b); }
  }

  /** Cost of the queued items at their depths in the finished tree. */
  ghost function QueuedCost(w: seq<nat>, t: Merges, D: seq<nat>, lens: seq<nat>, k: nat): (r: nat)
    requires Tree(w, t) && k < |w| && |D| == |w| - 1 && |lens| == |w|
  {
    Bounds(w, t, k);
    Dot(t.W, D, t.R[k], k) + Dot(w, lens, LeafAt(t.R, k), |w|)
  }

  lemma CostStep(w: seq<nat>, t: Merges, par: seq<nat>, D: seq<nat>, lens: seq<nat>, k: nat)
    requires Tree(w, t) && Parents(t, par) && Depths(par, D) && |lens| == |w| && LeafDepths(t, D, lens) && k < |w| - 1
    ensures QueuedCost(w, t, D, lens, k) == QueuedCost(w, t, D, lens, k + 1) + t.W[k]
  {
    hide Sorted, StepGreedy, Dot;
    Bounds(w, t, k);
    Bounds(w, t, k + 1);
    assert StepShape(|w|, t.R, k) && StepWeight(w, t, k);
    var r, r', l, l', d := t.R[k], t.R[k + 1], LeafAt(t.R, k), LeafAt(t.R, k + 1), D[k];
    forall i | r <= i < r' ensures D[i] == d + 1 {
      UniqueParent(w, t, par, i, k);
    }
    forall j | l <= j < l' ensures lens[j] == d + 1 {
      assert IsLeafParent(t.R, j, k);
    }
    DotSnoc(t.W, D, r', k);
    DotFront(t.W, D, r, r', k, d + 1);
    DotFront(w, lens, l, l', |w|, d + 1);
    if r' == r {
      TwoAtDepth(w[l], w[l + 1], d);
    } else if r' == r + 1 {
      TwoAtDepth(t.W[r], w[l], d);
    } else {
      TwoAtDepth(t.W[r], t.W[r + 1], d);
    }
  }

  lemma DotFront(s: seq<nat>, x: seq<nat>, i: nat, j: nat, b: nat, c: nat)
    requires i <= j <= b <= |s| && b <= |x| && j <= i + 2
    requires forall k :: i <= k < j ==> x[k] == c
    ensures Dot(s, x, i, b) ==
              Dot(s, x, j, b) + (if i < j then s[i] * c else 0) + (if i + 1 < j then s[i + 1] * c else 0)
  {
  }

  lemma TwoAtDepth(x: nat, y: nat, d: nat)
    ensures x * (d + 1) + y * (d + 1) == (x + y) * d + x + y
  {
  }

  lemma UniqueParent(w: seq<nat>, t: Merges, par: seq<nat>, i: nat, k: nat)
    requires Tree(w, t) && Parents(t, par) && IsParent(t.R, i, k)
    ensures i < |par| && par[i] == k
  {
    Monotone(w, t, k + 1, |t.R| - 1);
    assert IsParent(t.R, i, par[i]);
    if par[i] < k { Monotone(w, t, par[i] + 1, k); }
    if par[i] > k { Monotone(w, t, k + 1, par[i]); }
  }

  /** The cost of the tree is the total weight of its internal nodes. */
  lemma {:induction false} TreeCost(w: seq<nat>, t: Merges, par: seq<nat>, D: seq<nat>, lens: seq<nat>, k: nat)
    requires Tree(w, t) && Parents(t, par) && Depths(par, D) && |lens| == |w| && LeafDepths(t, D, lens) && k < |w|
    ensures QueuedCost(w, t, D, lens, k) == Sum(t.W[k..])
    decreases |w| - k
  {
    hide Merging;
    if k == |w| - 1 {
      Bounds(w, t, k);
      assert t.W[k..] == [];
      DotSnoc(t.W, D, k - 1, k - 1);
      assert t.W[k - 1] * 0 == 0;
    } else {
      TreeCost(w, t, par, D, lens, k + 1);
      CostStep(w, t, par, D, lens, k);
      SumSplit(t.W, k);
    }
  }

  ghost function Items(w: seq<nat>, lens: seq<nat>): (r: seq<Item>)
    requires |lens| == |w|
    ensures |r| == |w|
    ensures forall i :: 0 <= i < |w| ==> r[i] == Item(w[i], lens[i])
  {
    seq(|w|, i requires 0 <= i < |w| => Item(w[i], lens[i]))
  }

  lemma {:induction false} ItemsSums(w: seq<nat>, lens: seq<nat>, a: nat)
    requires |lens| == |w| && a <= |w|
    ensures Cost(Items(w, lens)[a..]) == Dot(w, lens, a, |w|)
    ensures Weights(Items(w, lens)[a..]) == multiset(w[a..])
    decreases |w| - a
  {
    if a < |w| {
      ItemsSums(w, lens, a + 1);
      assert Items(w, lens)[a..][1..] == Items(w, lens)[a + 1..];
      assert w[a..] == [w[a]] + w[a + 1..];
    }
  }

  /** No code lengths within the Kraft inequality are cheaper than lens for the weights w. */
  ghost predicate Optimal(w: seq<nat>, lens: seq<nat>)
  {
    |lens| == |w| &&
    forall other, m :: |other| == |w| && KraftOk(Items(w, other), m) ==> Cost(Items(w, lens)) <= Cost(Items(w, other))
  }

  lemma TreeOptimal(w: seq<nat>, t: Merges, par: seq<nat>, D: seq<nat>, lens: seq<nat>)
    requires Tree(w, t) && Parents(t, par) && Depths(par, D) && |lens| == |w| && LeafDepths(t, D, lens)
    ensures Optimal(w, lens)
  {
    TreeCost(w, t, par, D, lens, 0);
    TreeLowerBound(w, t, 0);
    Bounds(w, t, 0);
    ItemsSums(w, lens, 0);
    assert t.W[0..0] == [] && w[0..] == w && Items(w, lens)[0..] == Items(w, lens);
    assert Queued(w, t, 0) == multiset(w);
    hide Merging, Depths, Parents, LeafDepths;
    forall other, m | |other| == |w| && KraftOk(Items(w, other), m)
      ensures Cost(Items(w, lens)) <= Cost(Items(w, other))
    {
      ItemsSums(w, other, 0);
      assert Items(w, other)[0..] == Items(w, other);
    }
  }
}
