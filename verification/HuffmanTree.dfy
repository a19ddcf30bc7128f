/**
  How a Huffman tree is formed by taking the two lightest items off two queues, one of leaf
  weights and one of the weights of nodes already formed; depths of its nodes and the code
  lengths they give.
 */
module HuffmanTree {
  import opened Bits
  import opened CanonicalCode

  function Sum(s: seq<nat>): (r: nat)
  {
    if s == [] then 0 else s[0] + Sum(s[1..])
  }

  ghost predicate Sorted(s: seq<nat>)
  {
    forall i, j :: 0 <= i <= j < |s| ==> s[i] <= s[j]
  }

  function Fib(n: nat): (r: nat)
  {
    if n < 2 then n else Fib(n - 1) + Fib(n - 2)
  }

  /**
    How the first |W| internal nodes were formed from the leaf weights w. Step k takes two
    items off the two queues: internal nodes R[k] .. R[k+1] and leaves LeafAt(R,k) .. LeafAt(R,k+1).
    W[k] is the weight of the node formed and hi[k] the heavier of its two items.
   */
  datatype Merges = Merges(W: seq<nat>, R: seq<nat>, hi: seq<nat>)

  function LeafAt(R: seq<nat>, k: nat): (r: int)
    requires k < |R|
  {
    2 * k - R[k]
  }

  /** Step k takes items already formed, one or two of each kind. */
  ghost predicate StepShape(n: nat, R: seq<nat>, k: nat)
    requires k + 1 < |R|
  {
    R[k] <= R[k + 1] <= R[k] + 2 && R[k + 1] <= k && 0 <= LeafAt(R, k) && LeafAt(R, k + 1) <= n
  }

  /** Step k adds up the two items it takes; none of them is heavier than hi. */
  ghost predicate StepWeight(w: seq<nat>, t: Merges, k: nat)
    requires k < |t.W| == |t.hi| && |t.R| == |t.W| + 1 && StepShape(|w|, t.R, k)
  {
    var r, l, h := t.R[k], LeafAt(t.R, k), t.hi[k];
    if t.R[k + 1] == r then
      t.W[k] == w[l] + w[l + 1] && w[l] <= h && w[l + 1] <= h && (h == w[l] || h == w[l + 1])
    else if t.R[k + 1] == r + 1 then
      t.W[k] == t.W[r] + w[l] && t.W[r] <= h && w[l] <= h && (h == t.W[r] || h == w[l])
    else
      t.W[k] == t.W[r] + t.W[r + 1] && t.W[r] <= h && t.W[r + 1] <= h && (h == t.W[r] || h == t.W[r + 1])
  }

  /** Everything left in the queues after step k is at least as heavy as what it took. */
  ghost predicate StepGreedy(w: seq<nat>, t: Merges, k: nat)
    requires k < |t.W| == |t.hi| && |t.R| == |t.W| + 1 && StepShape(|w|, t.R, k)
  {
    t.hi[k] <= t.W[t.R[k + 1]] && (LeafAt(t.R, k + 1) < |w| ==> t.hi[k] <= w[LeafAt(t.R, k + 1)])
  }

  ghost predicate Merging(w: seq<nat>, t: Merges)
  {
    Sorted(w) && Sorted(t.W) && |t.hi| == |t.W| && |t.R| == |t.W| + 1 && t.R[0] == 0 &&
    (forall k :: 0 <= k < |t.W| ==> StepShape(|w|, t.R, k)) &&
    (forall k :: 0 <= k < |t.W| ==> StepWeight(w, t, k) && StepGreedy(w, t, k))
  }

  /** A complete tree over all the leaves. */
  ghost predicate Tree(w: seq<nat>, t: Merges)
  {
    Merging(w, t) && |w| >= 2 && |t.W| == |t.hi| == |w| - 1 && |t.R| == |w| && t.R[|w| - 1] == |w| - 2
  }

  /** Weights left in the queues after m steps. */
  ghost function Pending(w: seq<nat>, t: Merges): (r: nat)
    requires |t.R| == |t.W| + 1 && t.R[|t.W|] <= |t.W| && 0 <= LeafAt(t.R, |t.W|) <= |w|
  {
    Sum(t.W[t.R[|t.W|]..]) + Sum(w[LeafAt(t.R, |t.W|)..])
  }

  /** Internal node i hangs below internal node k. */
  ghost predicate IsParent(R: seq<nat>, i: nat, k: nat)
  {
    k + 1 < |R| && R[k] <= i < R[k + 1]
  }

  lemma {:induction false} SumSplit(s: seq<nat>, i: nat)
    requires i < |s|
    ensures Sum(s[i..]) == s[i] + Sum(s[i + 1..])
  {
    assert s[i..][1..] == s[i + 1..];
  }

  lemma {:induction false} SumSnoc(s: seq<nat>, x: nat)
    ensures Sum(s + [x]) == Sum(s) + x
  {
    if s == [] {
      assert s + [x] == [x];
    } else {
      assert (s + [x])[1..] == s[1..] + [x];
      SumSnoc(s[1..], x);
    }
  }

  /** Appending one greedy step keeps the history of merges consistent. */
  lemma Extend(w: seq<nat>, t: Merges, r: nat, x: nat, h: nat)
    requires Merging(w, t)
    requires StepShape(|w|, t.R + [r], |t.W|)
    requires StepWeight(w, Merges(t.W + [x], t.R + [r], t.hi + [h]), |t.W|)
    requires StepGreedy(w, Merges(t.W + [x], t.R + [r], t.hi + [h]), |t.W|)
    requires |t.W| > 0 ==> t.W[|t.W| - 1] <= x
    ensures Merging(w, Merges(t.W + [x], t.R + [r], t.hi + [h]))
  {
    var m := |t.W|;
    var t' := Merges(t.W + [x], t.R + [r], t.hi + [h]);
    forall k | 0 <= k < |t'.W| ensures StepShape(|w|, t'.R, k) {
      if k < m { StepsKept(w, t, r, x, h, k); }
    }
    forall k | 0 <= k < |t'.W| ensures StepWeight(w, t', k) && StepGreedy(w, t', k) {
      if k < m { StepsKept(w, t, r, x, h, k); }
    }
    hide StepShape, StepWeight, StepGreedy;
  }

  lemma StepsKept(w: seq<nat>, t: Merges, r: nat, x: nat, h: nat, k: nat)
    requires Merging(w, t) && k < |t.W|
    ensures StepShape(|w|, t.R + [r], k)
    ensures StepWeight(w, Merges(t.W + [x], t.R + [r], t.hi + [h]), k)
    ensures StepGreedy(w, Merges(t.W + [x], t.R + [r], t.hi + [h]), k)
  {
    assert StepShape(|w|, t.R, k) && StepWeight(w, t, k) && StepGreedy(w, t, k);
  }

  /** The next step can take two items. */
  ghost predicate CanMerge(w: seq<nat>, t: Merges)
  {
    Merging(w, t) && |t.W| < |w| - 1 && t.R[|t.W|] <= |t.W| && 0 <= LeafAt(t.R, |t.W|) <= |w| &&
    (|t.W| > 0 ==> t.R[|t.W|] < |t.W|)
  }

  /** Whether a step takes its first item from the internal queue, and then its second. */
  ghost predicate FirstInternal(w: seq<nat>, t: Merges)
    requires CanMerge(w, t)
  {
    var r, l := t.R[|t.W|], LeafAt(t.R, |t.W|);
    l >= |w| || (r < |t.W| && t.W[r] < w[l])
  }

  ghost predicate SecondInternal(w: seq<nat>, t: Merges)
    requires CanMerge(w, t)
  {
    var f := FirstInternal(w, t);
    var r, l := t.R[|t.W|] + (if f then 1 else 0), LeafAt(t.R, |t.W|) + (if f then 0 else 1);
    l >= |w| || (r < |t.W| && t.W[r] < w[l])
  }

  lemma QueueShape(w: seq<nat>, t: Merges)
    requires CanMerge(w, t)
    ensures var m := |t.W|; t.R[m] <= m <= LeafAt(t.R, m) && (m > 0 ==> t.R[m] < m < LeafAt(t.R, m))
    ensures FirstInternal(w, t) && SecondInternal(w, t) ==> t.R[|t.W|] + 1 < |t.W|
    ensures FirstInternal(w, t) || SecondInternal(w, t) || LeafAt(t.R, |t.W|) + 1 < |w|
  {
  }

  /** The weights of the two items of the next step. */
  ghost function Item1(w: seq<nat>, t: Merges): (x: nat)
    requires CanMerge(w, t)
  {
    QueueShape(w, t);
    if FirstInternal(w, t) then t.W[t.R[|t.W|]] else w[LeafAt(t.R, |t.W|)]
  }

  ghost function Item2(w: seq<nat>, t: Merges): (x: nat)
    requires CanMerge(w, t)
  {
    QueueShape(w, t);
    var r, l := t.R[|t.W|], LeafAt(t.R, |t.W|);
    if SecondInternal(w, t) then (if FirstInternal(w, t) then t.W[r + 1] else t.W[r])
    else (if FirstInternal(w, t) then w[l] else w[l + 1])
  }

  ghost function Merged(w: seq<nat>, t: Merges): (t': Merges)
    requires CanMerge(w, t)
  {
    var r' := t.R[|t.W|] + (if FirstInternal(w, t) then 1 else 0) + (if SecondInternal(w, t) then 1 else 0);
    Merges(t.W + [Item1(w, t) + Item2(w, t)], t.R + [r'], t.hi + [Item2(w, t)])
  }

  lemma MergedShape(w: seq<nat>, t: Merges)
    requires CanMerge(w, t)
    ensures StepShape(|w|, Merged(w, t).R, |t.W|)
  {
    QueueShape(w, t);
  }

  /** The greedy step: the second item is the heavier one, both at least as heavy as any before. */
  lemma MergedOrder(w: seq<nat>, t: Merges)
    requires CanMerge(w, t)
    ensures Item1(w, t) <= Item2(w, t)
    ensures |t.W| > 0 ==> t.W[|t.W| - 1] <= Item1(w, t) + Item2(w, t)
  {
    QueueShape(w, t);
    var m := |t.W|;
    if m > 0 {
      assert StepShape(|w|, t.R, m - 1) && StepWeight(w, t, m - 1) && StepGreedy(w, t, m - 1);
      assert t.hi[m - 1] <= Item1(w, t);
    }
  }

  lemma MergedWeight(w: seq<nat>, t: Merges)
    requires CanMerge(w, t) && StepShape(|w|, Merged(w, t).R, |t.W|)
    requires Item1(w, t) <= Item2(w, t)
    ensures StepWeight(w, Merged(w, t), |t.W|)
  {
    QueueShape(w, t);
  }

  lemma MergedGreedy(w: seq<nat>, t: Merges)
    requires CanMerge(w, t) && StepShape(|w|, Merged(w, t).R, |t.W|)
    requires Item1(w, t) <= Item2(w, t)
    ensures StepGreedy(w, Merged(w, t), |t.W|)
  {
    QueueShape(w, t);
    var m := |t.W|;
    var t' := Merged(w, t);
    var r', l', y := t'.R[m + 1], LeafAt(t'.R, m + 1), Item2(w, t);
    assert y <= t'.W[m];
    assert r' < m ==> y <= t.W[r'];
    assert l' < |w| ==> y <= w[l'];
  }

  lemma MergedIsMerging(w: seq<nat>, t: Merges)
    requires CanMerge(w, t)
    ensures Merging(w, Merged(w, t))
  {
    MergedShape(w, t);
    MergedOrder(w, t);
    MergedWeight(w, t);
    MergedGreedy(w, t);
    Extend(w, t, Merged(w, t).R[|t.W| + 1], Item1(w, t) + Item2(w, t), Item2(w, t));
  }

  lemma MergedPending(w: seq<nat>, t: Merges)
    requires CanMerge(w, t)
    ensures StepShape(|w|, Merged(w, t).R, |t.W|)
    ensures Pending(w, Merged(w, t)) == Pending(w, t)
    ensures Item1(w, t) + Item2(w, t) <= Pending(w, t)
  {
    QueueShape(w, t);
    MergedShape(w, t);
    hide Sorted;
    var m := |t.W|;
    var r, l := t.R[m], LeafAt(t.R, m);
    var t' := Merged(w, t);
    var r', l' := t'.R[m + 1], LeafAt(t'.R, m + 1);
    assert Sum(t'.W[r'..]) == Sum(t.W[r'..]) + t'.W[m] by {
      assert t'.W[r'..] == t.W[r'..] + [t'.W[m]];
      SumSnoc(t.W[r'..], t'.W[m]);
    }
    SumTake(t.W, r, r');
    SumTake(w, l, l');
  }

  /** Taking up to two items off the front of a queue. */
  lemma SumTake(s: seq<nat>, i: nat, j: nat)
    requires i <= j <= |s| && j <= i + 2
    ensures Sum(s[i..]) == Sum(s[j..]) + (if i < j then s[i] else 0) + (if i + 1 < j then s[i + 1] else 0)
  {
    if i < j { SumSplit(s, i); }
    if i + 1 < j { SumSplit(s, i + 1); }
  }

  lemma NothingMerged(w: seq<nat>)
    requires |w| >= 2 && Sorted(w)
    ensures CanMerge(w, Merges([], [0], [])) && Pending(w, Merges([], [0], [])) == Sum(w)
  {
    assert w[0..] == w;
  }

  /** par gives the parent of every internal node but the root, D the distance from the root. */
  ghost predicate Parents(t: Merges, par: seq<nat>)
  {
    |t.W| == |par| + 1 && forall i :: 0 <= i < |par| ==> IsParent(t.R, i, par[i])
  }

  ghost predicate Depths(par: seq<nat>, D: seq<nat>)
  {
    |D| == |par| + 1 && D[|par|] == 0 &&
    forall i {:trigger par[i]} :: 0 <= i < |par| ==> i < par[i] <= |par| && D[i] == D[par[i]] + 1
  }

  lemma {:induction false} Monotone(w: seq<nat>, t: Merges, a: nat, b: nat)
    requires Merging(w, t) && a <= b < |t.R|
    ensures t.R[a] <= t.R[b] && LeafAt(t.R, a) <= LeafAt(t.R, b) && t.R[b] <= t.R[a] + 2 * (b - a)
    decreases b - a
  {
    if a < b {
      Monotone(w, t, a, b - 1);
      assert StepShape(|w|, t.R, b - 1);
    }
  }

  lemma ParentLater(w: seq<nat>, t: Merges, par: seq<nat>, i: nat)
    requires Tree(w, t) && Parents(t, par) && i < |par|
    ensures i < par[i] <= |par|
  {
    assert IsParent(t.R, i, par[i]);
    assert StepShape(|w|, t.R, par[i]);
  }

  /** A node weighs at least as much as a child and that child's heavier child together. */
  lemma ChildWeights(w: seq<nat>, t: Merges, i: nat, k: nat)
    requires Tree(w, t) && k < |t.W| && IsParent(t.R, i, k)
    ensures i < k && t.W[i] <= t.hi[k] && t.W[i] + t.hi[i] <= t.W[k]
  {
    assert StepShape(|w|, t.R, k) && StepWeight(w, t, k);
    assert StepShape(|w|, t.R, i) && StepGreedy(w, t, i);
    Monotone(w, t, i + 1, k);
    Monotone(w, t, i + 1, k + 1);
    var r, l := t.R[k], LeafAt(t.R, k);
    assert t.hi[i] <= t.W[r];
    assert l < |w| ==> t.hi[i] <= w[l];
  }

  lemma FibStep(d: nat, total: nat, wk: nat, hk: nat, wi: nat, hi: nat)
    requires d > 0 && total >= Fib(d) * wk + Fib(d - 1) * hk && wk >= wi + hi && hk >= wi
    ensures total >= Fib(d + 1) * wi + Fib(d) * hi
  {
    Combine(Fib(d), Fib(d - 1), wk, hk, wi, hi);
  }

  lemma Combine(f: nat, g: nat, wk: nat, hk: nat, wi: nat, hi: nat)
    requires wk >= wi + hi && hk >= wi
    ensures f * wk + g * hk >= (f + g) * wi + f * hi
  {
    MulMono(wi + hi, wk, f);
    MulMono(wi, hk, g);
  }

  /** Weights grow from a node to the root at least as fast as the Fibonacci numbers. */
  lemma {:induction false} FibDepth(w: seq<nat>, t: Merges, par: seq<nat>, D: seq<nat>, i: nat)
    requires Tree(w, t) && Parents(t, par) && Depths(par, D) && i < |t.W|
    ensures t.W[|t.W| - 1] >= Fib(D[i] + 1) * t.W[i] + Fib(D[i]) * t.hi[i]
    decreases |t.W| - i
  {
    if i < |par| {
      var k := par[i];
      FibDepth(w, t, par, D, k);
      ChildWeights(w, t, i, k);
      FibStep(D[i], t.W[|t.W| - 1], t.W[k], t.hi[k], t.W[i], t.hi[i]);
    }
  }

  /** Leaf weights being positive, a leaf at depth d makes the total at least Fib(d + 2). */
  lemma DepthBound(w: seq<nat>, t: Merges, par: seq<nat>, D: seq<nat>, i: nat)
    requires Tree(w, t) && Parents(t, par) && Depths(par, D) && i < |t.W|
    requires forall j :: 0 <= j < |w| ==> w[j] >= 1
    ensures Fib(D[i] + 3) <= t.W[|t.W| - 1]
  {
    assert i < |D|;
    hide Fib, Merging, Depths, Parents;
    FibDepth(w, t, par, D, i);
    Positive(w, t, i);
    FibTwice(D[i]);
    AtLeastTwoOne(Fib(D[i] + 1), Fib(D[i]), t.W[i], t.hi[i]);
  }

  lemma FibTwice(d: nat)
    ensures Fib(d + 3) == 2 * Fib(d + 1) + Fib(d)
  {
    assert Fib(d + 3) == Fib(d + 2) + Fib(d + 1) && Fib(d + 2) == Fib(d + 1) + Fib(d);
  }

  lemma AtLeastTwoOne(f: nat, g: nat, x: nat, y: nat)
    requires x >= 2 && y >= 1
    ensures 2 * f + g <= f * x + g * y
  {
    MulMono(2, x, f);
    MulMono(1, y, g);
  }

  lemma {:induction false} Positive(w: seq<nat>, t: Merges, i: nat)
    requires Merging(w, t) && i < |t.W|
    requires forall j :: 0 <= j < |w| ==> w[j] >= 1
    ensures t.W[i] >= 2 && t.hi[i] >= 1
  {
    assert StepShape(|w|, t.R, i) && StepWeight(w, t, i);
    if t.R[i] < t.R[i + 1] {
      Positive(w, t, t.R[i]);
    }
    if t.R[i] + 1 < t.R[i + 1] {
      Positive(w, t, t.R[i] + 1);
    }
  }

  /** Nodes R[s] .. s are those at depth d; nodes before them are deeper. */
  ghost predicate AtLevel(t: Merges, D: seq<nat>, s: nat, d: nat)
  {
    s < |t.R| && t.R[s] <= s <= |D| &&
    (forall i :: t.R[s] <= i < s ==> D[i] == d) && (forall i :: 0 <= i < t.R[s] ==> D[i] > d)
  }

  lemma NextLevel(w: seq<nat>, t: Merges, par: seq<nat>, D: seq<nat>, s: nat, d: nat)
    requires Tree(w, t) && Parents(t, par) && Depths(par, D) && AtLevel(t, D, s, d)
    ensures AtLevel(t, D, t.R[s], d + 1)
    ensures t.R[s] - t.R[t.R[s]] <= 2 * (s - t.R[s])
  {
    var e := t.R[s];
    Below(w, t, e);
    forall i | 0 <= i < e
      ensures i >= t.R[e] ==> D[i] == d + 1
      ensures i < t.R[e] ==> D[i] > d + 1
    {
      var k := par[i];
      assert IsParent(t.R, i, k);
      if s <= k { Monotone(w, t, s, k); }
      if i >= t.R[e] && k < e { Monotone(w, t, k + 1, e); }
      if i < t.R[e] && k >= e { Monotone(w, t, e, k); }
    }
    Monotone(w, t, e, s);
  }

  lemma FirstLevel(w: seq<nat>, t: Merges, par: seq<nat>, D: seq<nat>)
    requires Tree(w, t) && Parents(t, par) && Depths(par, D)
    ensures AtLevel(t, D, |w| - 1, 0)
  {
    forall i | 0 <= i < |w| - 2 ensures D[i] > 0 {
      assert D[i] == D[par[i]] + 1;
    }
  }

  lemma Below(w: seq<nat>, t: Merges, s: nat)
    requires Tree(w, t) && s < |w|
    ensures t.R[s] <= s && (s > 0 ==> t.R[s] < s)
  {
    if s > 0 { assert StepShape(|w|, t.R, s - 1); }
  }

  lemma {:induction false} CountCons(x: nat, s: seq<nat>, l: nat)
    ensures Count([x] + s, l) == Count(s, l) + (if x == l then 1 else 0)
  {
    if s == [] {
      assert [x] + s == [x] && [x][..0] == [];
    } else {
      var m := |s| - 1;
      assert ([x] + s)[..m + 1] == [x] + s[..m];
      CountCons(x, s[..m], l);
    }
  }

  lemma {:induction false} FilledCons(x: nat, s: seq<nat>, b: nat)
    requires b < x
    ensures FilledBy([x] + s, b) == FilledBy(s, b)
  {
    if b > 0 {
      CountCons(x, s, b);
      FilledCons(x, s, b - 1);
    }
  }

  lemma {:induction false} AllCount(s: seq<nat>, x: nat)
    requires forall i :: 0 <= i < |s| ==> s[i] != x
    ensures Count(s, x) == 0
  {
    if s != [] {
      AllCount(s[..|s| - 1], x);
    }
  }

  /** k copies of d in front of s. */
  ghost function Prepend(d: nat, k: nat, s: seq<nat>): (r: seq<nat>)
    ensures |r| == k + |s|
    ensures forall i :: 0 <= i < |r| ==> r[i] == if i < k then d else s[i - k]
  {
    if k == 0 then s else [d] + Prepend(d, k - 1, s)
  }

  lemma {:induction false} PrependCount(d: nat, k: nat, s: seq<nat>)
    requires d > 0
    ensures Count(Prepend(d, k, s), d) == Count(s, d) + k
    ensures FilledBy(Prepend(d, k, s), d - 1) == FilledBy(s, d - 1)
  {
    hide Count, FilledBy;
    if k > 0 {
      PrependCount(d, k - 1, s);
      CountCons(d, Prepend(d, k - 1, s), d);
      FilledCons(d, Prepend(d, k - 1, s), d - 1);
    }
  }

  ghost predicate NonIncreasing(s: seq<nat>)
  {
    forall i, j :: 0 <= i <= j < |s| ==> s[i] >= s[j]
  }

  ghost predicate Within(s: seq<nat>, d: nat)
  {
    forall i :: 0 <= i < |s| ==> 1 <= s[i] < d
  }

  /** Lengths assigned so far, deepest first, while avbl nodes of depth d are still open. */
  ghost predicate Assigned(s: seq<nat>, d: nat, avbl: nat)
  {
    Within(s, d) && NonIncreasing(s) && NextCode(s, d) + avbl == Pow2(d)
  }

  lemma PrependOrder(s: seq<nat>, d: nat, k: nat)
    requires Within(s, d) && NonIncreasing(s) && (d == 0 ==> k == 0)
    ensures Within(Prepend(d, k, s), d + 1) && NonIncreasing(Prepend(d, k, s))
  {
    var r := Prepend(d, k, s);
    forall i, j | 0 <= i <= j < |r| ensures r[i] >= r[j] {
      if i >= k { assert s[i - k] >= s[j - k]; }
    }
  }

  lemma AssignedStep(s: seq<nat>, d: nat, avbl: nat, used: nat)
    requires Assigned(s, d, avbl) && used <= avbl && (d == 0 ==> used == avbl)
    ensures Assigned(Prepend(d, avbl - used, s), d + 1, 2 * used)
  {
    PrependOrder(s, d, avbl - used);
    if d > 0 {
      PrependCount(d, avbl - used, s);
      AllCount(s, d);
    }
  }

  lemma NothingAssigned(s: seq<nat>)
    requires s == []
    ensures Assigned(s, 0, 1)
  {
  }

  lemma AllAssigned(s: seq<nat>, d: nat, top: nat)
    requires Assigned(s, d, 0) && d <= top + 2 && s != []
    ensures Within(s, top + 2) && NonIncreasing(s) && FilledBy(s, top + 1) == Pow2(top + 1)
  {
    assert 1 <= s[0] < d;
    FilledAbove(s, d - 1, top + 1);
  }

  lemma {:induction false} FilledAbove(s: seq<nat>, a: nat, b: nat)
    requires a <= b && FilledBy(s, a) == Pow2(a)
    requires forall i :: 0 <= i < |s| ==> s[i] <= a
    ensures FilledBy(s, b) == Pow2(b)
  {
    if a < b {
      FilledAbove(s, a, b - 1);
      AllCount(s, b);
    }
  }

  lemma {:induction false} FibMono(a: nat, b: nat)
    requires a <= b
    ensures Fib(a) <= Fib(b)
  {
    if a < b {
      FibMono(a, b - 1);
      if b >= 2 { assert Fib(b) == Fib(b - 1) + Fib(b - 2); }
    }
  }

  lemma {:induction false} Deepest(D: seq<nat>) returns (m: nat)
    requires D != []
    ensures m < |D| && forall i :: 0 <= i < |D| ==> D[i] <= D[m]
  {
    if |D| == 1 {
      m := 0;
    } else {
      m := Deepest(D[..|D| - 1]);
      assert forall i :: 0 <= i < |D| - 1 ==> D[i] == D[..|D| - 1][i];
      if D[m] < D[|D| - 1] { m := |D| - 1; }
    }
  }

  /** No code is longer than the Fibonacci growth of the weights allows. */
  ghost predicate FibBounded(lens: seq<nat>, total: nat)
  {
    forall i :: 0 <= i < |lens| ==> Fib(lens[i] + 2) <= total
  }

  lemma LengthBounds(lens: seq<nat>, total: nat, top: nat)
    requires Within(lens, top + 2) && Fib(top + 3) <= total
    ensures FibBounded(lens, total)
  {
    forall i | 0 <= i < |lens| ensures Fib(lens[i] + 2) <= total {
      FibMono(lens[i] + 2, top + 3);
    }
  }

  lemma FibBeyondWeights()
    ensures Fib(25) == 75025
  {
    assert Fib(12) == 144 && Fib(13) == 233;
    assert Fib(18) == 2584 && Fib(19) == 4181;
  }

  lemma TopBound(top: nat)
    requires Fib(top + 3) < 65536
    ensures top <= 21
  {
    FibBeyondWeights();
    hide Fib;
    if top >= 22 {
      FibMono(25, top + 3);
    }
  }

  ghost predicate Positives(w: seq<nat>)
  {
    forall j :: 0 <= j < |w| ==> w[j] >= 1
  }

  /** Longest code the 16-bit weights allow. */
  const LONGEST: nat := 22

  /** Leaf j hangs below internal node k. */
  ghost predicate IsLeafParent(R: seq<nat>, j: nat, k: nat)
  {
    k + 1 < |R| && LeafAt(R, k) <= j < LeafAt(R, k + 1)
  }

  /** Every leaf is one level below its parent. */
  ghost predicate LeafDepths(t: Merges, D: seq<nat>, lens: seq<nat>)
  {
    |t.R| == |D| + 1 &&
    forall j, k: nat :: 0 <= j < |lens| && IsLeafParent(t.R, j, k) ==> lens[j] == D[k] + 1
  }

  /**
    A long code means a small weight: the total is at least as many times the weight as the
    Fibonacci number of its length.
   */
  ghost predicate WeightBounded(w: seq<nat>, lens: seq<nat>, total: nat)
  {
    |lens| == |w| && forall i :: 0 <= i < |w| ==> w[i] * Fib(lens[i] + 1) <= total
  }

  /** The step that takes leaf j. */
  lemma {:induction false} LeafParent(w: seq<nat>, t: Merges, j: nat, m: nat) returns (k: nat)
    requires Tree(w, t) && m <= |t.W| && m < |t.R| && j < LeafAt(t.R, m)
    ensures k < |t.W| && IsLeafParent(t.R, j, k)
    decreases m
  {
    if m > 0 && j < LeafAt(t.R, m - 1) {
      k := LeafParent(w, t, j, m - 1);
    } else {
      k := m - 1;
    }
  }

  lemma LeafWeight(w: seq<nat>, t: Merges, par: seq<nat>, D: seq<nat>, lens: seq<nat>, j: nat)
    requires Tree(w, t) && Parents(t, par) && Depths(par, D) && LeafDepths(t, D, lens) && |lens| == |w| && j < |w|
    ensures w[j] * Fib(lens[j] + 1) <= t.W[|t.W| - 1]
  {
    var k := LeafParent(w, t, j, |t.W|);
    assert IsLeafParent(t.R, j, k);
    assert lens[j] == D[k] + 1;
    TakenWeight(w, t, j, k);
    FibDepth(w, t, par, D, k);
    FibNext(D[k]);
    hide Fib, Merging, Depths, Parents, LeafDepths;
    TwoFibs(Fib(D[k] + 1), Fib(D[k]), t.W[k], t.hi[k], w[j]);
  }

  lemma FibNext(d: nat)
    ensures Fib(d + 2) == Fib(d + 1) + Fib(d)
  {
  }

  lemma TakenWeight(w: seq<nat>, t: Merges, j: nat, k: nat)
    requires Tree(w, t) && k < |t.W| && IsLeafParent(t.R, j, k) && j < |w|
    ensures w[j] <= t.hi[k] <= t.W[k]
  {
    assert StepShape(|w|, t.R, k) && StepWeight(w, t, k);
    hide Sorted;
  }

  lemma TwoFibs(f: nat, g: nat, x: nat, h: nat, w: nat)
    requires w <= x && w <= h
    ensures w * (f + g) <= f * x + g * h
  {
    MulMono(w, x, f);
    MulMono(w, h, g);
    assert w * (f + g) == w * f + w * g;
  }

  lemma LeafWeights(w: seq<nat>, t: Merges, par: seq<nat>, D: seq<nat>, lens: seq<nat>)
    requires Tree(w, t) && Parents(t, par) && Depths(par, D) && LeafDepths(t, D, lens) && |lens| == |w|
    ensures WeightBounded(w, lens, t.W[|t.W| - 1])
  {
    hide Fib;
    forall j | 0 <= j < |w| ensures w[j] * Fib(lens[j] + 1) <= t.W[|t.W| - 1] {
      LeafWeight(w, t, par, D, lens, j);
    }
  }
}
