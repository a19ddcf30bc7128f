/**
  The in-place algorithm of Moffat and Katajainen: code lengths of a Huffman code, computed
  inside the array that holds the weights.
 */
module MinimumRedundancy {
  import opened Bits
  import opened CanonicalCode
  import opened HuffmanTree
  import opened HuffmanOptimality

  /** An entry of the table of used symbols: a weight (later a code length) and its symbol. */
  datatype SymFreq = SymFreq(key: u16, sym: u16)

  /** Keys of the first n entries. */
  ghost function Keys(s: seq<SymFreq>): (r: seq<nat>)
    ensures |r| == |s|
    ensures forall i :: 0 <= i < |s| ==> r[i] == s[i].key
  {
    seq(|s|, i requires 0 <= i < |s| => s[i].key)
  }

  /** No symbol has moved and entries from n on are untouched. */
  ghost predicate Kept(s: seq<SymFreq>, t: seq<SymFreq>, n: nat)
  {
    |s| == |t| && (forall i :: 0 <= i < |s| ==> s[i].sym == t[i].sym) && (forall i :: n <= i < |s| ==> s[i] == t[i])
  }

  /** What the array holds while the tree is being built. */
  ghost predicate Building(a: seq<SymFreq>, w: seq<nat>, t: Merges, root: nat, leaf: nat, next: nat)
  {
    |w| <= |a| && Merging(w, t) && |t.W| == next && t.R[next] == root && LeafAt(t.R, next) == leaf &&
    root < next < leaf <= |w| &&
    (forall i :: 0 <= i < root ==> IsParent(t.R, i, a[i].key)) &&
    (forall i :: root <= i < next ==> a[i].key == t.W[i]) &&
    (forall j :: leaf <= j < |w| ==> a[j].key == w[j]) &&
    Pending(w, t) == Sum(w)
  }

  /** The array after a step: the items taken now point to the node formed, its weight is stored. */
  ghost predicate StepDone(a: seq<SymFreq>, a': seq<SymFreq>, root: nat, root': nat, next: nat, x: nat)
  {
    |a'| == |a| && next < |a| && a'[next].key == x &&
    (forall i :: 0 <= i < |a| ==> a'[i].sym == a[i].sym) &&
    (forall i :: 0 <= i < |a| && i != next && !(root <= i < root') ==> a'[i].key == a[i].key) &&
    (forall i :: root <= i < root' && i < |a| ==> a'[i].key == next)
  }

  /** Whether the code takes the first item, and then the second, from the internal queue. */
  ghost predicate TakesFirst(a: seq<SymFreq>, n: nat, root: nat, leaf: nat)
    requires root < |a| && n <= |a|
  {
    leaf >= n || a[root].key < a[leaf].key
  }

  ghost predicate TakesSecond(a: seq<SymFreq>, n: nat, root: nat, leaf: nat, next: nat)
    requires root < |a| && n <= |a| && next <= |a|
  {
    var f := TakesFirst(a, n, root, leaf);
    var r, l := if f then root + 1 else root, if f then leaf else leaf + 1;
    l >= n || (r < next && a[r].key < a[l].key)
  }

  ghost function TakenWeight(a: seq<SymFreq>, n: nat, root: nat, leaf: nat, next: nat): (x: nat)
    requires root < next < leaf <= n <= |a| && next < n - 1 && root + leaf == 2 * next
  {
    var f, g := TakesFirst(a, n, root, leaf), TakesSecond(a, n, root, leaf, next);
    (if f then a[root].key else a[leaf].key) +
    (if g then (if f then a[root + 1].key else a[root].key) else (if f then a[leaf].key else a[leaf + 1].key))
  }

  /** One step of the first phase, on the array. */
  method MergeTwo(A: array<SymFreq>, n: nat, root0: nat, leaf0: nat, next: nat) returns (root: nat, leaf: nat)
    requires root0 < next < leaf0 <= n <= A.Length && next < n - 1 < 65536 && root0 + leaf0 == 2 * next
    modifies A
    ensures root == root0 + (if old(TakesFirst(A[..], n, root0, leaf0)) then 1 else 0)
                          + (if old(TakesSecond(A[..], n, root0, leaf0, next)) then 1 else 0)
    ensures root + leaf == root0 + leaf0 + 2
    ensures StepDone(old(A[..]), A[..], root0, root, next, old(TakenWeight(A[..], n, root0, leaf0, next)) % 65536)
  {
    root, leaf := TakeOne(A, n, root0, leaf0, next);
    root, leaf := AddOne(A, n, root, leaf, next);
  }

  /** And what is then in front. */
  method AddOne(A: array<SymFreq>, n: nat, root0: nat, leaf0: nat, next: nat) returns (root: nat, leaf: nat)
    requires root0 <= next < leaf0 <= n + 1 && n <= A.Length && next < 65536 && (leaf0 >= n ==> root0 < next)
    requires next < n
    modifies A
    ensures var g := leaf0 >= n || (root0 < next && old(A[root0].key) < old(A[leaf0].key));
            root == root0 + (if g then 1 else 0) && leaf == leaf0 + (if g then 0 else 1) &&
            A[next] == old(A[next]).(key := (old(A[next].key) + old(A[if g then root0 else leaf0].key)) % 65536) &&
            (g ==> A[root0] == old(A[root0]).(key := next)) &&
            forall i :: 0 <= i < A.Length && i != next && !(g && i == root0) ==> A[i] == old(A[i])
  {
    root, leaf := root0, leaf0;
    if leaf >= n || (root < next && A[root].key < A[leaf].key) {
      A[next] := A[next].(key := (A[next].key + A[root].key) % 65536);
      A[root] := A[root].(key := next % 65536);
      root := root + 1;
    } else {
      A[next] := A[next].(key := (A[next].key + A[leaf].key) % 65536);
      leaf := leaf + 1;
    }
  }

  /** The lighter of the two items in front. */
  method TakeOne(A: array<SymFreq>, n: nat, root0: nat, leaf0: nat, next: nat) returns (root: nat, leaf: nat)
    requires root0 < next < leaf0 <= n <= A.Length && next < 65536
    modifies A
    ensures var f := old(TakesFirst(A[..], n, root0, leaf0));
            root == root0 + (if f then 1 else 0) && leaf == leaf0 + (if f then 0 else 1) &&
            A[next] == old(A[next]).(key := old(A[if f then root0 else leaf0].key)) &&
            (f ==> A[root0] == old(A[root0]).(key := next)) &&
            forall i :: 0 <= i < A.Length && i != next && !(f && i == root0) ==> A[i] == old(A[i])
  {
    root, leaf := root0, leaf0;
    if leaf >= n || A[root].key < A[leaf].key {
      A[next] := A[next].(key := A[root].key);
      A[root] := A[root].(key := next % 65536);
      root := root + 1;
    } else {
      A[next] := A[next].(key := A[leaf].key);
      leaf := leaf + 1;
    }
  }

  /** What the array says about the queues is what the history of merges says. */
  lemma TakenIsMerged(a: seq<SymFreq>, w: seq<nat>, t: Merges, root: nat, leaf: nat, next: nat)
    requires CanMerge(w, t) && Building(a, w, t, root, leaf, next)
    ensures root + leaf == 2 * next
    ensures TakesFirst(a, |w|, root, leaf) == FirstInternal(w, t)
    ensures TakesSecond(a, |w|, root, leaf, next) == SecondInternal(w, t)
    ensures TakenWeight(a, |w|, root, leaf, next) == Item1(w, t) + Item2(w, t)
  {
    QueueShape(w, t);
  }

  lemma BuildingStep(a: seq<SymFreq>, a': seq<SymFreq>, w: seq<nat>, t: Merges, root: nat, leaf: nat, next: nat)
    requires CanMerge(w, t) && Building(a, w, t, root, leaf, next)
    requires StepDone(a, a', root, Merged(w, t).R[next + 1], next, Item1(w, t) + Item2(w, t))
    ensures Building(a', w, Merged(w, t), Merged(w, t).R[next + 1], LeafAt(Merged(w, t).R, next + 1), next + 1)
  {
    MergedIsMerging(w, t);
    MergedPending(w, t);
    var t' := Merged(w, t);
    assert StepShape(|w|, t'.R, next);
    forall i | 0 <= i < t'.R[next + 1] ensures IsParent(t'.R, i, a'[i].key) {
      if i < root {
        assert IsParent(t.R, i, a[i].key);
      }
    }
  }

  lemma {:induction false} BuildingKept(a: seq<SymFreq>, a': seq<SymFreq>, w: seq<nat>, t: Merges,
                      root: nat, leaf: nat, next: nat, root': nat, leaf': nat)
    requires next < |w| - 1 && Building(a, w, t, root, leaf, next) && Sum(w) < 65536
    requires root + leaf == 2 * next
    requires root' == root + (if TakesFirst(a, |w|, root, leaf) then 1 else 0)
                           + (if TakesSecond(a, |w|, root, leaf, next) then 1 else 0)
    requires root' + leaf' == root + leaf + 2
    requires StepDone(a, a', root, root', next, TakenWeight(a, |w|, root, leaf, next) % 65536)
    ensures CanMerge(w, t) && Building(a', w, Merged(w, t), root', leaf', next + 1)
  {
    hide Sorted, Pending;
    TakenIsMerged(a, w, t, root, leaf, next);
    MergedPending(w, t);
    assert StepDone(a, a', root, Merged(w, t).R[next + 1], next, Item1(w, t) + Item2(w, t));
    BuildingStep(a, a', w, t, root, leaf, next);
  }

  lemma BuildingFirst(a: seq<SymFreq>, w: seq<nat>) returns (t: Merges)
    requires |w| >= 2 && |w| <= |a| && Sorted(w) && Sum(w) < 65536
    requires a[0].key == (w[0] + w[1]) % 65536
    requires forall j :: 2 <= j < |w| ==> a[j].key == w[j]
    ensures Building(a, w, t, 0, 2, 1)
  {
    hide Merging, Pending;
    var t0 := Merges([], [0], []);
    NothingMerged(w);
    MergedIsMerging(w, t0);
    MergedPending(w, t0);
    t := Merged(w, t0);
  }

  /**
    First phase: the queue of leaf weights is at the right end of the array, the queue of
    internal weights in the middle, parent indices at the left end. No pending entry is overwritten.
   */
  method BuildTree(A: array<SymFreq>, n: nat) returns (ghost t: Merges)
    requires 2 <= n <= A.Length && n < 65536
    requires Sorted(Keys(A[..n])) && Sum(Keys(A[..n])) < 65536
    modifies A
    ensures Tree(old(Keys(A[..n])), t)
    ensures forall i :: 0 <= i < n - 2 ==> IsParent(t.R, i, A[i].key)
    ensures t.W[n - 2] == Sum(old(Keys(A[..n])))
    ensures Kept(A[..], old(A[..]), n)
  {
    hide Merging, Pending, Merged;
    ghost var w := Keys(A[..n]);
    A[0] := A[0].(key := (A[0].key + A[1].key) % 65536);
    var root, leaf, next := 0, 2, 1;
    t := BuildingFirst(A[..], w);
    while next < n - 1
      invariant Building(A[..], w, t, root, leaf, next)
      invariant next <= n - 1
      invariant Kept(A[..], old(A[..]), n)
    {
      ghost var a0, t0, root0, leaf0 := A[..], t, root, leaf;
      root, leaf := MergeTwo(A, n, root, leaf, next);
      BuildingKept(a0, A[..], w, t0, root0, leaf0, next, root, leaf);
      t := Merged(w, t0);
      next := next + 1;
    }
    TreeDone(A[..], w, t, root, leaf);
  }

  /** When one node is left, it weighs as much as all the leaves. */
  lemma TreeDone(a: seq<SymFreq>, w: seq<nat>, t: Merges, root: nat, leaf: nat)
    requires |w| >= 2 && Building(a, w, t, root, leaf, |w| - 1)
    ensures root == |w| - 2 && Tree(w, t) && t.W[|w| - 2] == Sum(w)
  {
    assert t.W[root..] == [t.W[root]];
    assert [t.W[root]][1..] == [];
    assert w[leaf..] == [];
  }

  /** A node is one level below its parent. */
  method Deepen(A: array<SymFreq>, next: nat, ghost up: nat)
    requires next < up < A.Length && A[next].key == up && A[up].key < 65535
    modifies A
    ensures A[next].key == A[up].key + 1 && A[next].sym == old(A[next].sym)
    ensures forall i :: 0 <= i < A.Length && i != next ==> A[i] == old(A[i])
  {
    A[next] := A[next].(key := A[A[next].key].key + 1);
  }

  /** Second phase: parent indices become depths, from the root down. */
  method ToDepths(A: array<SymFreq>, n: nat, ghost par: seq<nat>)
    requires 2 <= n <= A.Length && n < 65536 && |par| == n - 2
    requires forall i :: 0 <= i < n - 2 ==> A[i].key == par[i] && i < par[i] <= n - 2
    modifies A
    ensures Depths(par, Keys(A[..n - 1]))
    ensures Kept(A[..], old(A[..]), n - 1)
  {
    A[n - 2] := A[n - 2].(key := 0);
    var next := n - 3;
    while next >= 0
      invariant -1 <= next <= n - 3
      invariant forall i :: 0 <= i <= next ==> A[i].key == par[i]
      invariant forall i :: next < i < n - 1 ==> A[i].key <= n - 2 - i
      invariant A[n - 2].key == 0
      invariant forall i {:trigger par[i]} :: next < i < n - 2 ==> A[i].key == A[par[i]].key + 1
      invariant forall i :: 0 <= i < A.Length ==> A[i].sym == old(A[i].sym)
      invariant forall i :: n - 1 <= i < A.Length ==> A[i] == old(A[i])
    {
      Deepen(A, next, par[next]);
      next := next - 1;
    }
  }

  /** Counts the internal nodes of depth dpth at the right end of those not yet counted. */
  method CountLevel(A: array<SymFreq>, root0: int, dpth: nat, ghost e: nat) returns (root: int, used: nat)
    requires 0 <= e <= root0 + 1 <= A.Length
    requires forall i :: e <= i <= root0 ==> A[i].key == dpth
    requires e > 0 ==> A[e - 1].key != dpth
    ensures root == e - 1 && used == root0 + 1 - e
  {
    root, used := root0, 0;
    while root >= 0 && A[root].key == dpth
      invariant e - 1 <= root <= root0 && used == root0 - root
    {
      used := used + 1;
      root := root - 1;
    }
  }

  /** Gives depth dpth to the next avbl - used leaves. */
  method WriteLeaves(A: array<SymFreq>, n: nat, next0: nat, avbl0: nat, used: nat, dpth: nat)
    returns (next: int, avbl: nat)
    requires used <= avbl0 <= next0 + 1 + used && next0 < n <= A.Length && dpth < 65536
    modifies A
    ensures avbl == used && next == next0 - (avbl0 - used)
    ensures forall i :: 0 <= i < A.Length ==> A[i].sym == old(A[i].sym)
    ensures forall i :: 0 <= i < A.Length ==> A[i].key == if next < i <= next0 then dpth else old(A[i].key)
  {
    next, avbl := next0, avbl0;
    while avbl > used
      invariant used <= avbl <= avbl0 && next == next0 - (avbl0 - avbl)
      invariant forall i :: 0 <= i < A.Length ==> A[i].sym == old(A[i].sym)
      invariant forall i :: 0 <= i < A.Length ==> A[i].key == if next < i <= next0 then dpth else old(A[i].key)
    {
      A[next] := A[next].(key := dpth);
      next := next - 1;
      avbl := avbl - 1;
    }
  }

  /** State of the third phase at the start of a level. */
  ghost predicate Level(a: seq<SymFreq>, n: nat, t: Merges, D: seq<nat>, root: int, next: int, avbl: nat, dpth: nat,
                        top: nat)
  {
    n <= |a| && |D| == n - 1 && -1 <= root <= n - 2 && next == root + avbl && next < n &&
    AtLevel(t, D, root + 1, dpth) && root + 1 - t.R[root + 1] <= avbl &&
    (forall i :: 0 <= i <= root ==> a[i].key == D[i]) &&
    Assigned(Keys(a[next + 1..n]), dpth, avbl) &&
    (avbl == 0 ==> root == -1) && dpth <= top + 2 && (avbl > 0 ==> dpth <= top + 1) &&
    (dpth == 0 ==> root == n - 2 && avbl == 1)
  }

  lemma KeysPrepend(a: seq<SymFreq>, a': seq<SymFreq>, lo: nat, hi: nat, n: nat, d: nat)
    requires lo <= hi <= n <= |a| == |a'|
    requires forall i :: 0 <= i < |a| ==> a'[i].key == if lo <= i < hi then d else a[i].key
    ensures Keys(a'[lo..n]) == Prepend(d, hi - lo, Keys(a[hi..n]))
  {
    var l, r := Keys(a'[lo..n]), Prepend(d, hi - lo, Keys(a[hi..n]));
    forall i | 0 <= i < n - lo ensures l[i] == r[i] {
      assert l[i] == a'[lo + i].key;
      if i >= hi - lo { assert r[i] == a[hi..n][i - (hi - lo)].key == a[lo + i].key; }
    }
  }

  lemma LevelAssigned(a: seq<SymFreq>, a': seq<SymFreq>, lo: nat, hi: nat, n: nat, d: nat, avbl: nat, used: nat)
    requires lo <= hi <= n <= |a| == |a'| && hi - lo == avbl - used && (d == 0 ==> used == avbl)
    requires forall i :: 0 <= i < |a| ==> a'[i].key == if lo <= i < hi then d else a[i].key
    requires Assigned(Keys(a[hi..n]), d, avbl)
    ensures Assigned(Keys(a'[lo..n]), d + 1, 2 * used)
  {
    KeysPrepend(a, a', lo, hi, n, d);
    AssignedStep(Keys(a[hi..n]), d, avbl, used);
  }

  lemma LevelStep(a: seq<SymFreq>, a': seq<SymFreq>, w: seq<nat>, t: Merges, par: seq<nat>, D: seq<nat>,
                  root: int, next: int, avbl: nat, dpth: nat, top: nat)
    requires Tree(w, t) && Parents(t, par) && Depths(par, D) && |a'| == |a|
    requires Level(a, |w|, t, D, root, next, avbl, dpth, top) && avbl > 0
    requires forall i :: 0 <= i < |D| ==> D[i] <= top
    requires var used := root + 1 - t.R[root + 1];
             forall i :: 0 <= i < |a| ==>
               a'[i].key == if next - (avbl - used) < i <= next then dpth else a[i].key
    ensures var used := root + 1 - t.R[root + 1];
            Level(a', |w|, t, D, root - used, next - (avbl - used), 2 * used, dpth + 1, top)
  {
    hide Merging, Depths, Parents, Assigned;
    var s := root + 1;
    var e := t.R[s];
    var used := s - e;
    var next' := next - (avbl - used);
    NextLevel(w, t, par, D, s, dpth);
    Below(w, t, s);
    LevelAssigned(a, a', next' + 1, next + 1, |w|, dpth, avbl, used);
    if used > 0 { assert D[e] == dpth; }
  }

  /** Leaves given a length so far have the length their place in the tree gives them. */
  ghost predicate Leafed(a: seq<SymFreq>, n: nat, t: Merges, D: seq<nat>, root: int, next: int, dpth: nat, up: nat)
  {
    n <= |a| && |t.R| == n && |D| == n - 1 && -1 <= next && 0 <= root + 1 <= up < n && next + 1 == LeafAt(t.R, up) &&
    (forall i :: root + 1 <= i < up ==> D[i] + 1 == dpth) &&
    (forall j, k: nat :: next < j < n && IsLeafParent(t.R, j, k) ==> a[j].key == D[k] + 1)
  }

  lemma LeafedStep(a: seq<SymFreq>, a': seq<SymFreq>, w: seq<nat>, t: Merges, D: seq<nat>,
                   root: int, next: int, avbl: nat, dpth: nat, up: nat)
    requires Tree(w, t) && |a'| == |a| && -1 <= root && AtLevel(t, D, root + 1, dpth)
    requires Leafed(a, |w|, t, D, root, next, dpth, up) && next == root + avbl && avbl >= root + 1 - t.R[root + 1]
    requires var used := root + 1 - t.R[root + 1];
             forall i :: 0 <= i < |a| ==>
               a'[i].key == if next - (avbl - used) < i <= next then dpth else a[i].key
    ensures var used := root + 1 - t.R[root + 1];
            Leafed(a', |w|, t, D, root - used, next - (avbl - used), dpth + 1, root + 1)
  {
    hide Merging;
    var s := root + 1;
    Bounds(w, t, s);
    var next' := next - (avbl - (s - t.R[s]));
    assert next' + 1 == LeafAt(t.R, s);
    forall j, k: nat | next' < j < |w| && IsLeafParent(t.R, j, k) ensures a'[j].key == D[k] + 1 {
      if j <= next {
        if k < s { Monotone(w, t, k + 1, s); }
        if k >= up { Monotone(w, t, up, k); }
      }
    }
  }

  lemma LeafedDone(a: seq<SymFreq>, n: nat, t: Merges, D: seq<nat>, root: int, dpth: nat, up: nat)
    requires Leafed(a, n, t, D, root, -1, dpth, up)
    ensures LeafDepths(t, D, Keys(a[..n]))
  {
  }

  /** Third phase: from the depths of internal nodes to those of leaves, level by level. */
  method AssignLengths(A: array<SymFreq>, n: nat, ghost w: seq<nat>, ghost t: Merges, ghost par: seq<nat>,
                       ghost top: nat)
    requires |w| == n <= A.Length && Tree(w, t) && Parents(t, par) && Depths(par, Keys(A[..n - 1]))
    requires forall i :: 0 <= i < n - 1 ==> A[i].key <= top
    requires top < 65000
    modifies A
    ensures NonIncreasing(Keys(A[..n])) && Within(Keys(A[..n]), top + 2)
    ensures FilledBy(Keys(A[..n]), top + 1) == Pow2(top + 1)
    ensures LeafDepths(t, old(Keys(A[..n - 1])), Keys(A[..n]))
    ensures Kept(A[..], old(A[..]), n)
  {
    hide Merging, Level, Depths, Parents, FilledBy;
    ghost var D := Keys(A[..n - 1]);
    var avbl, used, dpth, root, next := 1, 0, 0, n - 2, n - 1;
    LevelStart(A[..], w, t, par, D, top);
    ghost var up: nat := n - 1;
    assert Leafed(A[..], n, t, D, root, next, dpth, up);
    hide Leafed;
    while avbl > 0
      invariant Level(A[..], n, t, D, root, next, avbl, dpth, top)
      invariant Leafed(A[..], n, t, D, root, next, dpth, up)
      invariant -1 <= root && -1 <= next && (avbl == 0 ==> next == -1)
      invariant Kept(A[..], old(A[..]), n)
      decreases root + next + 2
    {
      ghost var a0, root0, next0, avbl0 := A[..], root, next, avbl;
      ghost var e := LevelGives(A[..], w, t, D, root, next, avbl, dpth, top);
      root, used := CountLevel(A, root, dpth, e);
      next, avbl := WriteLeaves(A, n, next, avbl, used, dpth);
      LevelStep(a0, A[..], w, t, par, D, root0, next0, avbl0, dpth, top);
      LeafedStep(a0, A[..], w, t, D, root0, next0, avbl0, dpth, up);
      up := root0 + 1;
      avbl := 2 * used;
      dpth := dpth + 1;
      used := 0;
    }
    LevelDone(A[..], w, t, D, root, next, dpth, top);
    LeafedDone(A[..], n, t, D, root, dpth, up);
    assert A[..][..n] == A[..n];
  }

  lemma LevelStart(a: seq<SymFreq>, w: seq<nat>, t: Merges, par: seq<nat>, D: seq<nat>, top: nat)
    requires Tree(w, t) && Parents(t, par) && Depths(par, D) && |w| <= |a|
    requires forall i :: 0 <= i < |w| - 1 ==> a[i].key == D[i]
    ensures Level(a, |w|, t, D, |w| - 2, |w| - 1, 1, 0, top)
  {
    FirstLevel(w, t, par, D);
    NothingAssigned(Keys(a[|w|..|w|]));
  }

  /** What a level asks of the two inner loops. */
  lemma LevelGives(a: seq<SymFreq>, w: seq<nat>, t: Merges, D: seq<nat>,
                   root: int, next: int, avbl: nat, dpth: nat, top: nat) returns (e: nat)
    requires Tree(w, t) && Level(a, |w|, t, D, root, next, avbl, dpth, top) && avbl > 0
    ensures -1 <= root <= |w| - 2 && e == t.R[root + 1] && e <= root + 1 && root + 1 - e <= avbl <= next + 1
    ensures avbl == next - root && next < |w| && dpth <= top + 1 && (root >= 0 ==> e <= root)
    ensures forall i :: e <= i <= root ==> a[i].key == dpth
    ensures e > 0 ==> a[e - 1].key != dpth
    ensures AtLevel(t, D, root + 1, dpth) && (root == -1 ==> e == 0)
  {
    hide Merging, Assigned;
    e := t.R[root + 1];
    Below(w, t, root + 1);
    if e > 0 { assert a[e - 1].key == D[e - 1] > dpth; }
  }

  lemma LevelDone(a: seq<SymFreq>, w: seq<nat>, t: Merges, D: seq<nat>, root: int, next: int, dpth: nat, top: nat)
    requires Level(a, |w|, t, D, root, next, 0, dpth, top) && |w| > 0
    ensures Within(Keys(a[..|w|]), top + 2) && NonIncreasing(Keys(a[..|w|]))
    ensures FilledBy(Keys(a[..|w|]), top + 1) == Pow2(top + 1)
  {
    assert a[next + 1..|w|] == a[..|w|];
    AllAssigned(Keys(a[..|w|]), dpth, top);
  }

  /** What is known of the depths once the tree is complete. */
  lemma DepthsBounded(w: seq<nat>, t: Merges, par: seq<nat>, D: seq<nat>) returns (top: nat)
    requires Tree(w, t) && Parents(t, par) && Depths(par, D) && Positives(w)
    requires t.W[|w| - 2] == Sum(w) < 65536
    ensures forall i :: 0 <= i < |D| ==> D[i] <= top
    ensures top + 1 <= LONGEST && Fib(top + 3) <= Sum(w)
  {
    var m := Deepest(D);
    top := D[m];
    DepthBound(w, t, par, D, m);
    TopBound(top);
  }

  /** Second and third phase. */
  method TreeToLengths(A: array<SymFreq>, n: nat, ghost w: seq<nat>, ghost t: Merges)
    requires 2 <= n == |w| <= A.Length && n < 65536
    requires Tree(w, t) && Positives(w) && t.W[n - 2] == Sum(w) < 65536
    requires forall i :: 0 <= i < n - 2 ==> IsParent(t.R, i, A[i].key)
    modifies A
    ensures Kept(A[..], old(A[..]), n)
    ensures NonIncreasing(Keys(A[..n])) && Within(Keys(A[..n]), LONGEST + 1)
    ensures FilledBy(Keys(A[..n]), LONGEST) == Pow2(LONGEST)
    ensures FibBounded(Keys(A[..n]), Sum(w)) && Optimal(w, Keys(A[..n])) && WeightBounded(w, Keys(A[..n]), Sum(w))
  {
    hide Merging, FilledBy, Fib, Optimal, LeafDepths, WeightBounded, FibBounded, NonIncreasing, Sum, Positives;
    ghost var par := Keys(A[..n - 2]);
    forall i | 0 <= i < n - 2 ensures i < par[i] <= n - 2 { ParentLater(w, t, par, i); }
    ToDepths(A, n, par);
    ghost var D := Keys(A[..n - 1]);
    ghost var top := DepthsBounded(w, t, par, D);
    AssignLengths(A, n, w, t, par, top);
    GoodLengths(w, t, par, D, Keys(A[..n]), top);
  }

  /** The depths of the leaves of a greedy tree make the best code. */
  lemma GoodLengths(w: seq<nat>, t: Merges, par: seq<nat>, D: seq<nat>, lens: seq<nat>, top: nat)
    requires Tree(w, t) && |w| >= 2 && |t.W| == |w| - 1 && t.W[|w| - 2] == Sum(w) && Parents(t, par) && Depths(par, D)
    requires LeafDepths(t, D, lens) && |lens| == |w| && Within(lens, top + 2)
    requires FilledBy(lens, top + 1) == Pow2(top + 1) && top + 1 <= LONGEST
    requires Fib(top + 3) <= Sum(w)
    ensures Within(lens, LONGEST + 1) && FilledBy(lens, LONGEST) == Pow2(LONGEST)
    ensures FibBounded(lens, Sum(w)) && Optimal(w, lens) && WeightBounded(w, lens, Sum(w))
  {
    hide Tree, FilledBy, Fib, Optimal, LeafDepths, WeightBounded, FibBounded, Sum, Pow2, Parents, Depths;
    TreeOptimal(w, t, par, D, lens);
    LeafWeights(w, t, par, D, lens);
    LengthBounds(lens, Sum(w), top);
    FilledAbove(lens, top + 1, LONGEST);
  }

  /** The whole algorithm, from sorted weights to code lengths. */
  method CalculateMinimumRedundancy(A: array<SymFreq>, n: nat)
    requires n <= A.Length && n < 65536
    requires Sorted(Keys(A[..n])) && Positives(Keys(A[..n])) && Sum(Keys(A[..n])) < 65536
    modifies A
    ensures Kept(A[..], old(A[..]), n)
    ensures n == 1 ==> A[0].key == 1
    ensures n >= 2 ==> NonIncreasing(Keys(A[..n])) && Within(Keys(A[..n]), LONGEST + 1)
    ensures n >= 2 ==> FilledBy(Keys(A[..n]), LONGEST) == Pow2(LONGEST)
    ensures n >= 2 ==> FibBounded(Keys(A[..n]), Sum(old(Keys(A[..n]))))
    ensures n >= 2 ==> Optimal(old(Keys(A[..n])), Keys(A[..n]))
    ensures n >= 2 ==> WeightBounded(old(Keys(A[..n])), Keys(A[..n]), Sum(old(Keys(A[..n]))))
  {
    hide Tree, FilledBy, Fib, Optimal, WeightBounded, FibBounded, NonIncreasing, Sum;
    if n == 0 {
      return;
    } else if n == 1 {
      A[0] := A[0].(key := 1);
      return;
    }
    ghost var w := Keys(A[..n]);
    ghost var t := BuildTree(A, n);
    TreeToLengths(A, n, w, t);
  }
}
