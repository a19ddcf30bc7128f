/**
  The decoding tables of inflate: a look-up by the next ten bits and an overflow tree for longer
  codes. What they hold after every symbol, and that they decode every code to its symbol.
 */
module InflateTables {
  import opened Wrappers
  import opened Bits
  import opened CanonicalCode
  import opened CompleteCode
  import opened HuffTables

  const FAST_LOOKUP_BITS: nat := 10
  const FAST_LOOKUP_SIZE: nat := 1024

  /** Symbol s has a code and is among the first k. */
  ghost predicate Entered(lens: seq<nat>, k: nat, s: nat)
  {
    s < k <= |lens| && lens[s] > 0
  }

  /** e stands for the tree node reached by p: node j has its two slots at 2j and 2j + 1. */
  ghost predicate PointsTo(paths: seq<Bits>, e: int, p: Bits)
  {
    exists j :: 0 <= j < |paths| && paths[j] == p && e == -2 * j - 1
  }

  /** A slot that bits p lead to holds a node exactly if there is a node for p. */
  ghost predicate NodeSlot(paths: seq<Bits>, e: int, p: Bits)
  {
    (p in paths ==> PointsTo(paths, e, p)) && (p !in paths ==> e >= 0)
  }

  /** An entry of the look-up: a node, the length and symbol of a short code, or nothing. */
  ghost predicate LookSlot(lens: seq<nat>, k: nat, paths: seq<Bits>, e: int, p: Bits)
  {
    NodeSlot(paths, e, p) &&
    (e > 0 ==> exists s: nat :: Entered(lens, k, s) && CodeBits(lens, s) <= p && e == 512 * lens[s] + s) &&
    (e == 0 ==> forall s: nat :: Entered(lens, k, s) ==> !(CodeBits(lens, s) <= p) && !(p <= CodeBits(lens, s)))
  }

  /** A slot of the tree: a node, the symbol whose code ends here, or 0, which may be symbol 0. */
  ghost predicate TreeSlot(lens: seq<nat>, k: nat, paths: seq<Bits>, e: int, p: Bits)
  {
    NodeSlot(paths, e, p) &&
    (e > 0 ==> Entered(lens, k, e) && CodeBits(lens, e) == p) &&
    (e == 0 ==> forall s: nat :: Entered(lens, k, s) && p <= CodeBits(lens, s) ==> s == 0 && CodeBits(lens, s) == p)
  }

  /** A node is an inner node of the code, ten bits deep or more, below a node of its own if deeper. */
  ghost predicate GoodPath(lens: seq<nat>, paths: seq<Bits>, p: Bits)
  {
    Inner(lens, p) && |p| >= FAST_LOOKUP_BITS && (|p| > FAST_LOOKUP_BITS ==> p[..|p| - 1] in paths)
  }

  ghost predicate GoodPaths(lens: seq<nat>, paths: seq<Bits>)
  {
    Distinct(paths) && forall j :: 0 <= j < |paths| ==> GoodPath(lens, paths, paths[j])
  }

  ghost predicate LookAll(lens: seq<nat>, k: nat, paths: seq<Bits>, look: seq<int>)
  {
    |look| == FAST_LOOKUP_SIZE && forall x :: 0 <= x < FAST_LOOKUP_SIZE ==>
      LookSlot(lens, k, paths, look[x], ToBits(x, FAST_LOOKUP_BITS))
  }

  ghost predicate NodeOk(lens: seq<nat>, k: nat, paths: seq<Bits>, tree: seq<int>, j: nat)
  {
    j < |paths| && 2 * j + 1 < |tree| && TreeSlot(lens, k, paths, tree[2 * j], paths[j] + [false]) &&
    TreeSlot(lens, k, paths, tree[2 * j + 1], paths[j] + [true])
  }

  ghost predicate TreeAll(lens: seq<nat>, k: nat, paths: seq<Bits>, tree: seq<int>)
  {
    2 * |paths| <= |tree| && (forall j :: 0 <= j < |paths| ==> NodeOk(lens, k, paths, tree, j)) &&
    forall i :: 2 * |paths| <= i < |tree| ==> tree[i] == 0
  }

  /** The tables after the first k symbols. */
  ghost predicate Built(lens: seq<nat>, k: nat, paths: seq<Bits>, look: seq<int>, tree: seq<int>)
  {
    k <= |lens| && GoodPaths(lens, paths) && LookAll(lens, k, paths, look) && TreeAll(lens, k, paths, tree)
  }

  lemma BuiltNothing(lens: seq<nat>, look: seq<int>, tree: seq<int>)
    requires |look| == FAST_LOOKUP_SIZE && (forall x :: 0 <= x < |look| ==> look[x] == 0)
    requires forall i :: 0 <= i < |tree| ==> tree[i] == 0
    ensures Built(lens, 0, [], look, tree)
  {
  }

  lemma {:induction false} ToBitsSame(x: nat, y: nat, n: nat)
    requires x < Pow2(n) && y < Pow2(n) && ToBits(x, n) == ToBits(y, n)
    ensures x == y
  {
    FromToBits(x, n);
    FromToBits(y, n);
  }

  lemma TenBits(x: nat, y: nat)
    requires x < FAST_LOOKUP_SIZE && y < FAST_LOOKUP_SIZE && ToBits(x, FAST_LOOKUP_BITS) == ToBits(y, FAST_LOOKUP_BITS)
    ensures x == y
  {
    Powers();
    hide ToBits;
    ToBitsSame(x, y, FAST_LOOKUP_BITS);
  }

  // ---------------------------------------------------------------- short codes

  /** The entries a short code fills. */
  ghost predicate ShortFill(lens: seq<nat>, k: nat, look: seq<int>, look': seq<int>)
    requires k < |lens|
  {
    |look| == |look'| == FAST_LOOKUP_SIZE &&
    forall x :: 0 <= x < FAST_LOOKUP_SIZE ==>
      look'[x] == if CodeBits(lens, k) <= ToBits(x, FAST_LOOKUP_BITS) then 512 * lens[k] + k else look[x]
  }

  lemma ShortHit(lens: seq<nat>, k: nat, paths: seq<Bits>, p: Bits)
    requires Valid(lens) && k < |lens| && 0 < lens[k] && GoodPaths(lens, paths) && CodeBits(lens, k) <= p
    ensures LookSlot(lens, k + 1, paths, 512 * lens[k] + k, p)
  {
    hide CodeBits, Valid;
    if p in paths {
      var j :| 0 <= j < |paths| && paths[j] == p;
      assert GoodPath(lens, paths, paths[j]);
      NoCodeAbove(lens, k, p);
      assert false;
    }
    assert Entered(lens, k + 1, k);
  }

  lemma ShortMiss(lens: seq<nat>, k: nat, paths: seq<Bits>, e: int, p: Bits)
    requires k < |lens| && 0 < lens[k] <= |p| && LookSlot(lens, k, paths, e, p) && !(CodeBits(lens, k) <= p)
    ensures LookSlot(lens, k + 1, paths, e, p)
  {
    hide CodeBits, NodeSlot;
    if e > 0 {
      var s: nat :| Entered(lens, k, s) && CodeBits(lens, s) <= p && e == 512 * lens[s] + s;
      assert Entered(lens, k + 1, s);
    }
    if e == 0 {
      forall s: nat | Entered(lens, k + 1, s) ensures !(CodeBits(lens, s) <= p) && !(p <= CodeBits(lens, s)) {
        if s < k { assert Entered(lens, k, s); } else if p <= CodeBits(lens, k) { SameIfLong(p, CodeBits(lens, k)); }
      }
    }
  }

  lemma SameIfLong(p: Bits, c: Bits)
    requires |c| <= |p| && p <= c
    ensures c <= p
  {
  }

  /** A symbol too short for the tree leaves it alone. */
  lemma TreeShort(lens: seq<nat>, k: nat, paths: seq<Bits>, e: int, p: Bits)
    requires k < |lens| && lens[k] < |p| && TreeSlot(lens, k, paths, e, p)
    ensures TreeSlot(lens, k + 1, paths, e, p)
  {
    hide CodeBits, NodeSlot;
    if e == 0 {
      forall s: nat | Entered(lens, k + 1, s) && p <= CodeBits(lens, s) ensures s == 0 && CodeBits(lens, s) == p {
        if s < k { assert Entered(lens, k, s); }
      }
    }
  }

  /** After a short code, or a symbol without one. */
  lemma BuiltShort(lens: seq<nat>, k: nat, paths: seq<Bits>, look: seq<int>, look': seq<int>, tree: seq<int>)
    requires Valid(lens) && k < |lens| && 0 < lens[k] <= FAST_LOOKUP_BITS && Built(lens, k, paths, look, tree)
    requires ShortFill(lens, k, look, look')
    ensures Built(lens, k + 1, paths, look', tree)
  {
    hide LookSlot, TreeSlot, CodeBits, GoodPaths, Valid;
    forall x | 0 <= x < FAST_LOOKUP_SIZE ensures LookSlot(lens, k + 1, paths, look'[x], ToBits(x, FAST_LOOKUP_BITS)) {
      var p := ToBits(x, FAST_LOOKUP_BITS);
      if CodeBits(lens, k) <= p { ShortHit(lens, k, paths, p); } else { ShortMiss(lens, k, paths, look[x], p); }
    }
    var k' := k + 1;
    forall j | 0 <= j < |paths| ensures NodeOk(lens, k', paths, tree, j) {
      assert NodeOk(lens, k, paths, tree, j);
      PathLong(lens, paths, j);
      TreeShort(lens, k, paths, tree[2 * j], paths[j] + [false]);
      TreeShort(lens, k, paths, tree[2 * j + 1], paths[j] + [true]);
    }
  }

  lemma PathLong(lens: seq<nat>, paths: seq<Bits>, j: nat)
    requires GoodPaths(lens, paths) && j < |paths|
    ensures |paths[j]| >= FAST_LOOKUP_BITS && Inner(lens, paths[j])
  {
    assert GoodPath(lens, paths, paths[j]);
  }

  lemma BuiltSkip(lens: seq<nat>, k: nat, paths: seq<Bits>, look: seq<int>, tree: seq<int>)
    requires k < |lens| && lens[k] == 0 && Built(lens, k, paths, look, tree)
    ensures Built(lens, k + 1, paths, look, tree)
  {
    hide CodeBits, NodeSlot, GoodPaths;
    forall s: nat ensures Entered(lens, k + 1, s) <==> Entered(lens, k, s) { }
    forall x | 0 <= x < FAST_LOOKUP_SIZE ensures LookSlot(lens, k + 1, paths, look[x], ToBits(x, FAST_LOOKUP_BITS)) {
      assert LookSlot(lens, k, paths, look[x], ToBits(x, FAST_LOOKUP_BITS));
    }
    var k' := k + 1;
    forall j | 0 <= j < |paths| ensures NodeOk(lens, k', paths, tree, j) { assert NodeOk(lens, k, paths, tree, j); }
  }

  // ---------------------------------------------------------------- new nodes

  lemma MoreNodes(paths: seq<Bits>, q: Bits, e: int, p: Bits)
    requires NodeSlot(paths, e, p) && p != q
    ensures NodeSlot(paths + [q], e, p)
  {
    var paths' := paths + [q];
    assert p in paths' <==> p in paths;
    if p in paths {
      var j :| 0 <= j < |paths| && paths[j] == p && e == -2 * j - 1;
      assert paths'[j] == p;
    }
  }

  lemma NewNode(paths: seq<Bits>, q: Bits)
    ensures NodeSlot(paths + [q], -2 * |paths| - 1, q)
  {
    assert (paths + [q])[|paths|] == q;
  }

  /** The slots of a new node below p are empty as nothing was below p. */
  lemma EmptySlot(lens: seq<nat>, k: nat, paths: seq<Bits>, q: Bits, b: bool)
    requires GoodPaths(lens, paths) && q !in paths && |q| >= FAST_LOOKUP_BITS && k <= |lens|
    requires forall s: nat :: Entered(lens, k, s) && q <= CodeBits(lens, s) ==> CodeBits(lens, s) == q
    ensures TreeSlot(lens, k, paths + [q], 0, q + [b])
  {
    hide CodeBits;
    var p := q + [b];
    assert p[..|p| - 1] == q;
  }

  /** The paths with one more, below one that is there. */
  lemma GoodMore(lens: seq<nat>, paths: seq<Bits>, q: Bits)
    requires GoodPaths(lens, paths) && q !in paths && Inner(lens, q) && |q| >= FAST_LOOKUP_BITS
    requires |q| > FAST_LOOKUP_BITS ==> q[..|q| - 1] in paths
    ensures GoodPaths(lens, paths + [q])
  {
    hide Inner;
    var paths' := paths + [q];
    forall j | 0 <= j < |paths'| ensures GoodPath(lens, paths', paths'[j]) {
      if j < |paths| { assert GoodPath(lens, paths, paths[j]); }
    }
  }

  lemma LookMore(lens: seq<nat>, k: nat, paths: seq<Bits>, q: Bits, e: int, p: Bits)
    requires LookSlot(lens, k, paths, e, p) && p != q
    ensures LookSlot(lens, k, paths + [q], e, p)
  {
    hide CodeBits, NodeSlot;
    MoreNodes(paths, q, e, p);
  }

  lemma TreeMore(lens: seq<nat>, k: nat, paths: seq<Bits>, q: Bits, e: int, p: Bits)
    requires TreeSlot(lens, k, paths, e, p) && p != q
    ensures TreeSlot(lens, k, paths + [q], e, p)
  {
    hide CodeBits, NodeSlot;
    MoreNodes(paths, q, e, p);
  }

  /** Node j still has its slots when q becomes a node, if q is not one of them. */
  lemma NodeMore(lens: seq<nat>, k: nat, paths: seq<Bits>, q: Bits, tree: seq<int>, tree': seq<int>, j: nat)
    requires NodeOk(lens, k, paths, tree, j) && |tree'| == |tree| && q != paths[j] + [false] && q != paths[j] + [true]
    requires tree'[2 * j] == tree[2 * j] && tree'[2 * j + 1] == tree[2 * j + 1]
    ensures NodeOk(lens, k, paths + [q], tree', j)
  {
    hide TreeSlot;
    TreeMore(lens, k, paths, q, tree[2 * j], paths[j] + [false]);
    TreeMore(lens, k, paths, q, tree[2 * j + 1], paths[j] + [true]);
    assert (paths + [q])[j] == paths[j];
  }

  lemma LookEmpty(lens: seq<nat>, k: nat, paths: seq<Bits>, p: Bits)
    requires LookSlot(lens, k, paths, 0, p)
    ensures p !in paths
    ensures forall s: nat :: Entered(lens, k, s) && p <= CodeBits(lens, s) ==> CodeBits(lens, s) == p
  {
    hide CodeBits;
  }

  lemma TreeEmpty(lens: seq<nat>, k: nat, paths: seq<Bits>, p: Bits)
    requires TreeSlot(lens, k, paths, 0, p)
    ensures p !in paths
    ensures forall s: nat :: Entered(lens, k, s) && p <= CodeBits(lens, s) ==> CodeBits(lens, s) == p
  {
    hide CodeBits;
  }

  /** A node of its own for an empty entry of the look-up. */
  lemma BuiltRoot(lens: seq<nat>, k: nat, paths: seq<Bits>, look: seq<int>, tree: seq<int>, x: nat)
    requires Built(lens, k, paths, look, tree) && x < FAST_LOOKUP_SIZE && look[x] == 0 && 2 * |paths| + 2 <= |tree|
    requires Inner(lens, ToBits(x, FAST_LOOKUP_BITS))
    ensures Built(lens, k, paths + [ToBits(x, FAST_LOOKUP_BITS)], look[x := -2 * |paths| - 1], tree)
    ensures ToBits(x, FAST_LOOKUP_BITS) !in paths
  {
    var q, m := ToBits(x, FAST_LOOKUP_BITS), |paths|;
    var paths', look' := paths + [q], look[x := -2 * m - 1];
    assert LookSlot(lens, k, paths, look[x], q);
    LookEmpty(lens, k, paths, q);
    GoodMore(lens, paths, q);
    NewNode(paths, q);
    EmptySlot(lens, k, paths, q, false);
    EmptySlot(lens, k, paths, q, true);
    hide TreeSlot, CodeBits, GoodPaths, Inner;
    forall y | 0 <= y < FAST_LOOKUP_SIZE ensures LookSlot(lens, k, paths', look'[y], ToBits(y, FAST_LOOKUP_BITS)) {
      if y != x {
        if ToBits(y, FAST_LOOKUP_BITS) == q { TenBits(x, y); }
        LookMore(lens, k, paths, q, look[y], ToBits(y, FAST_LOOKUP_BITS));
      }
    }
    forall j | 0 <= j < |paths'| ensures NodeOk(lens, k, paths', tree, j) {
      if j < m {
        assert NodeOk(lens, k, paths, tree, j);
        PathLong(lens, paths, j);
        NodeMore(lens, k, paths, q, tree, tree, j);
      }
    }
  }

  /** A slot number: the node and the bit. */
  function Slot(j: nat, b: bool): (r: nat)
  {
    2 * j + (if b then 1 else 0)
  }

  /** A node of its own for an empty slot of the tree. */
  lemma BuiltNode(lens: seq<nat>, k: nat, paths: seq<Bits>, look: seq<int>, tree: seq<int>, j0: nat, b: bool)
    requires Built(lens, k, paths, look, tree) && j0 < |paths| && Slot(j0, b) < |tree| && tree[Slot(j0, b)] == 0
    requires 2 * |paths| + 2 <= |tree|
    requires Inner(lens, paths[j0] + [b])
    ensures Built(lens, k, paths + [paths[j0] + [b]], look, tree[Slot(j0, b) := -2 * |paths| - 1])
    ensures paths[j0] + [b] !in paths
  {
    var q, m := paths[j0] + [b], |paths|;
    var paths', tree' := paths + [q], tree[Slot(j0, b) := -2 * m - 1];
    assert NodeOk(lens, k, paths, tree, j0);
    assert TreeSlot(lens, k, paths, tree[Slot(j0, b)], q);
    hide CodeBits, Inner, NodeSlot, TreeSlot, LookSlot, GoodPath;
    TreeEmpty(lens, k, paths, q);
    PathLong(lens, paths, j0);
    assert q[..|q| - 1] == paths[j0];
    GoodMore(lens, paths, q);
    NewNode(paths, q);
    EmptySlot(lens, k, paths, q, false);
    EmptySlot(lens, k, paths, q, true);
    LookAllMore(lens, k, paths, q, look);
    hide LookAll, GoodPaths;
    forall j | 0 <= j < m ensures NodeOk(lens, k, paths', tree', j) { NodeKept(lens, k, paths, tree, tree', j, j0, b); }
    assert NodeOk(lens, k, paths', tree', m);
  }

  /** The nodes there were, when an empty slot of node j0 becomes a node. */
  lemma NodeKept(lens: seq<nat>, k: nat, paths: seq<Bits>, tree: seq<int>, tree': seq<int>, j: nat, j0: nat, b: bool)
    requires GoodPaths(lens, paths) && TreeAll(lens, k, paths, tree) && j < |paths| && j0 < |paths|
    requires Slot(j0, b) < |tree|
    requires tree' == tree[Slot(j0, b) := -2 * |paths| - 1]
    ensures NodeOk(lens, k, paths + [paths[j0] + [b]], tree', j)
  {
    hide GoodPaths, TreeSlot;
    assert NodeOk(lens, k, paths, tree, j);
    if j == j0 {
      SiblingOk(lens, k, paths, tree, tree', j0, b);
    } else {
      OtherNode(lens, paths, j, j0, b);
      NodeMore(lens, k, paths, paths[j0] + [b], tree, tree', j);
    }
  }

  lemma LookAllMore(lens: seq<nat>, k: nat, paths: seq<Bits>, q: Bits, look: seq<int>)
    requires LookAll(lens, k, paths, look) && |q| > FAST_LOOKUP_BITS
    ensures LookAll(lens, k, paths + [q], look)
  {
    hide LookSlot;
    forall x | 0 <= x < FAST_LOOKUP_SIZE ensures LookSlot(lens, k, paths + [q], look[x], ToBits(x, FAST_LOOKUP_BITS)) {
      LookMore(lens, k, paths, q, look[x], ToBits(x, FAST_LOOKUP_BITS));
    }
  }

  lemma OtherNode(lens: seq<nat>, paths: seq<Bits>, j: nat, j0: nat, b: bool)
    requires GoodPaths(lens, paths) && j < |paths| && j0 < |paths| && j != j0
    ensures paths[j0] + [b] != paths[j] + [false] && paths[j0] + [b] != paths[j] + [true]
  {
    var p, q := paths[j], paths[j0];
    assert p != q;
    assert (q + [b])[..|q|] == q && (p + [false])[..|p|] == p && (p + [true])[..|p|] == p;
  }

  lemma SiblingOk(lens: seq<nat>, k: nat, paths: seq<Bits>, tree: seq<int>, tree': seq<int>, j0: nat, b: bool)
    requires NodeOk(lens, k, paths, tree, j0) && |tree'| == |tree|
    requires tree'[Slot(j0, b)] == -2 * |paths| - 1 && tree'[Slot(j0, !b)] == tree[Slot(j0, !b)]
    ensures NodeOk(lens, k, paths + [paths[j0] + [b]], tree', j0)
  {
    var q := paths[j0] + [b];
    hide CodeBits, NodeSlot;
    NewNode(paths, q);
    assert q[|q| - 1] == b && (paths[j0] + [!b])[|q| - 1] == !b;
    TreeMore(lens, k, paths, q, tree[Slot(j0, !b)], paths[j0] + [!b]);
    assert (paths + [q])[j0] == paths[j0];
  }

  // ---------------------------------------------------------------- the leaf of a long code

  /** Every node on the way to the code of symbol k is there. */
  ghost predicate WayMade(lens: seq<nat>, k: nat, paths: seq<Bits>)
    requires k < |lens|
  {
    lens[k] > FAST_LOOKUP_BITS && forall n :: FAST_LOOKUP_BITS <= n < lens[k] ==> CodeBits(lens, k)[..n] in paths
  }

  /** Where the way leads, there is a node and not nothing. */
  lemma OnTheWay(lens: seq<nat>, k: nat, paths: seq<Bits>, e: int, p: Bits)
    requires k < |lens| && WayMade(lens, k, paths) && NodeSlot(paths, e, p)
    requires |p| >= FAST_LOOKUP_BITS && p <= CodeBits(lens, k) && p != CodeBits(lens, k)
    ensures e < 0
  {
    hide CodeBits;
    assert p == CodeBits(lens, k)[..|p|];
  }

  lemma LookLong(lens: seq<nat>, k: nat, paths: seq<Bits>, e: int, p: Bits)
    requires k < |lens| && WayMade(lens, k, paths) && LookSlot(lens, k, paths, e, p) && |p| == FAST_LOOKUP_BITS
    ensures LookSlot(lens, k + 1, paths, e, p)
  {
    hide CodeBits, NodeSlot;
    if e > 0 {
      var s: nat :| Entered(lens, k, s) && CodeBits(lens, s) <= p && e == 512 * lens[s] + s;
      assert Entered(lens, k + 1, s);
    }
    if e == 0 {
      forall s: nat | Entered(lens, k + 1, s) ensures !(CodeBits(lens, s) <= p) && !(p <= CodeBits(lens, s)) {
        if s < k { assert Entered(lens, k, s); } else if p <= CodeBits(lens, k) { OnTheWay(lens, k, paths, e, p); }
      }
    }
  }

  lemma TreeLong(lens: seq<nat>, k: nat, paths: seq<Bits>, e: int, p: Bits)
    requires k < |lens| && WayMade(lens, k, paths) && TreeSlot(lens, k, paths, e, p) && |p| >= FAST_LOOKUP_BITS
    requires p != CodeBits(lens, k)
    ensures TreeSlot(lens, k + 1, paths, e, p)
  {
    hide CodeBits, NodeSlot;
    if e == 0 {
      forall s: nat | Entered(lens, k + 1, s) && p <= CodeBits(lens, s) ensures s == 0 && CodeBits(lens, s) == p {
        if s < k { assert Entered(lens, k, s); } else { OnTheWay(lens, k, paths, e, p); }
      }
    }
  }

  /** The slot that becomes the leaf. */
  lemma LeafSlot(lens: seq<nat>, k: nat, paths: seq<Bits>, e: int, p: Bits)
    requires Valid(lens) && k < |lens| && lens[k] > 0 && GoodPaths(lens, paths) && TreeSlot(lens, k, paths, e, p)
    requires p == CodeBits(lens, k)
    ensures TreeSlot(lens, k + 1, paths, k, p)
  {
    hide CodeBits, Valid;
    if p in paths {
      var j :| 0 <= j < |paths| && paths[j] == p;
      assert GoodPath(lens, paths, paths[j]);
      NoCodeAbove(lens, k, p);
      assert false;
    }
    assert Entered(lens, k + 1, k);
  }

  lemma NodeLong(lens: seq<nat>, k: nat, paths: seq<Bits>, tree: seq<int>, tree': seq<int>, j: nat)
    requires k < |lens| && WayMade(lens, k, paths) && NodeOk(lens, k, paths, tree, j) && GoodPaths(lens, paths)
    requires |tree'| == |tree|
    requires paths[j] + [false] != CodeBits(lens, k) && paths[j] + [true] != CodeBits(lens, k)
    requires tree'[2 * j] == tree[2 * j] && tree'[2 * j + 1] == tree[2 * j + 1]
    ensures NodeOk(lens, k + 1, paths, tree', j)
  {
    PathLong(lens, paths, j);
    hide TreeSlot, WayMade, CodeBits, GoodPaths;
    TreeLong(lens, k, paths, tree[2 * j], paths[j] + [false]);
    TreeLong(lens, k, paths, tree[2 * j + 1], paths[j] + [true]);
  }

  lemma LeafNode(lens: seq<nat>, k: nat, paths: seq<Bits>, tree: seq<int>, tree': seq<int>, j: nat, b: bool)
    requires Valid(lens) && k < |lens| && WayMade(lens, k, paths) && NodeOk(lens, k, paths, tree, j)
    requires GoodPaths(lens, paths)
    requires |tree'| == |tree| && paths[j] + [b] == CodeBits(lens, k)
    requires tree'[Slot(j, b)] == k && tree'[Slot(j, !b)] == tree[Slot(j, !b)]
    ensures NodeOk(lens, k + 1, paths, tree', j)
  {
    PathLong(lens, paths, j);
    NodeGives(lens, k, paths, tree, j, b);
    WayGives(lens, k, paths);
    hide NodeOk, TreeSlot, WayMade, CodeBits, GoodPaths, Valid, Inner;
    var p := paths[j];
    LastBit(p, b);
    LeafSlot(lens, k, paths, tree[Slot(j, b)], p + [b]);
    TreeLong(lens, k, paths, tree[Slot(j, !b)], p + [!b]);
    NodeNow(lens, k + 1, paths, tree', j, b);
  }

  lemma LastBit(p: Bits, b: bool)
    ensures p + [b] != p + [!b]
  {
    assert (p + [b])[|p|] == b && (p + [!b])[|p|] == !b;
  }

  lemma NodeGives(lens: seq<nat>, k: nat, paths: seq<Bits>, tree: seq<int>, j: nat, b: bool)
    requires NodeOk(lens, k, paths, tree, j)
    ensures j < |paths| && Slot(j, true) < |tree| && Slot(j, b) < |tree| && Slot(j, !b) < |tree|
    ensures TreeSlot(lens, k, paths, tree[Slot(j, b)], paths[j] + [b])
    ensures TreeSlot(lens, k, paths, tree[Slot(j, !b)], paths[j] + [!b])
  {
    hide TreeSlot;
  }

  lemma NodeNow(lens: seq<nat>, k: nat, paths: seq<Bits>, tree: seq<int>, j: nat, b: bool)
    requires j < |paths| && Slot(j, true) < |tree| && Slot(j, b) < |tree| && Slot(j, !b) < |tree|
    requires TreeSlot(lens, k, paths, tree[Slot(j, b)], paths[j] + [b])
    requires TreeSlot(lens, k, paths, tree[Slot(j, !b)], paths[j] + [!b])
    ensures NodeOk(lens, k, paths, tree, j)
  {
    hide TreeSlot;
  }

  lemma WayGives(lens: seq<nat>, k: nat, paths: seq<Bits>)
    requires k < |lens| && WayMade(lens, k, paths)
    ensures lens[k] > FAST_LOOKUP_BITS
  {
  }

  /** After a long code. */
  lemma BuiltLong(lens: seq<nat>, k: nat, paths: seq<Bits>, look: seq<int>, tree: seq<int>, j0: nat, b: bool)
    requires Valid(lens) && k < |lens| && WayMade(lens, k, paths) && Built(lens, k, paths, look, tree)
    requires j0 < |paths| && Slot(j0, b) < |tree| && paths[j0] + [b] == CodeBits(lens, k)
    ensures Built(lens, k + 1, paths, look, tree[Slot(j0, b) := k])
  {
    var tree' := tree[Slot(j0, b) := k];
    var k' := k + 1;
    hide TreeSlot, LookSlot, WayMade, CodeBits, GoodPaths, Valid;
    forall x | 0 <= x < FAST_LOOKUP_SIZE ensures LookSlot(lens, k + 1, paths, look[x], ToBits(x, FAST_LOOKUP_BITS)) {
      LookLong(lens, k, paths, look[x], ToBits(x, FAST_LOOKUP_BITS));
    }
    forall j | 0 <= j < |paths| ensures NodeOk(lens, k', paths, tree', j) {
      assert NodeOk(lens, k, paths, tree, j);
      if j == j0 {
        LeafNode(lens, k, paths, tree, tree', j, b);
      } else {
        OtherNode(lens, paths, j, j0, b);
        NodeLong(lens, k, paths, tree, tree', j);
      }
    }
  }

  // ---------------------------------------------------------------- decoding

  /** From node e on, one bit of rest after the other, up to a symbol; and where the bits after it begin. */
  function Walk(tree: seq<int>, e: int, rest: Bits, n: nat): (r: Option<(nat, nat)>)
    decreases |rest| - n
  {
    if e >= 0 then Some((e, n))
    else if n >= |rest| || -e - 1 + 1 >= |tree| then None
    else Walk(tree, tree[-e - 1 + (if rest[n] then 1 else 0)], rest, n + 1)
  }

  /** How a symbol is decoded: the next ten bits are looked up, then the tree is followed. */
  function Lookup(look: seq<int>, tree: seq<int>, rest: Bits): (r: Option<(nat, nat)>)
    requires |look| == FAST_LOOKUP_SIZE && |rest| >= FAST_LOOKUP_BITS
  {
    var e := look[FromBits(rest[..FAST_LOOKUP_BITS]) % FAST_LOOKUP_SIZE];
    if e >= 0 then Some((e % 512, e / 512)) else Walk(tree, e, rest, FAST_LOOKUP_BITS)
  }

  /** Below a node on the way to a code, the walk ends at its symbol. */
  lemma {:induction false} WalkFinds(lens: seq<nat>, paths: seq<Bits>, look: seq<int>, tree: seq<int>, s: nat,
                                     rest: Bits, j: nat, n: nat)
    requires Valid(lens) && Built(lens, |lens|, paths, look, tree) && Heads(lens, s, rest)
    requires j < |paths| && n < lens[s] <= |rest| && paths[j] == rest[..n]
    ensures Walk(tree, -2 * j - 1, rest, n) == Some((s, lens[s]))
    decreases lens[s] - n
  {
    hide *;
    HeadsGives(lens, s, rest, n + 1);
    TreeRoom(lens, paths, look, tree, j);
    var p, b := rest[..n + 1], rest[n];
    assert p == paths[j] + [b];
    var e := tree[Slot(j, b)];
    SlotIs(lens, paths, look, tree, j, b);
    WalkStep(tree, j, rest, n);
    if n + 1 == lens[s] {
      LeafIs(lens, paths, look, tree, s, e, p);
      WalkEnds(tree, e, rest, n + 1);
    } else {
      var j' := StepDown(lens, paths, look, tree, s, e, p);
      WalkFinds(lens, paths, look, tree, s, rest, j', n + 1);
    }
  }

  lemma TreeRoom(lens: seq<nat>, paths: seq<Bits>, look: seq<int>, tree: seq<int>, j: nat)
    requires Built(lens, |lens|, paths, look, tree) && j < |paths|
    ensures Slot(j, true) < |tree| && Slot(j, false) < |tree|
  {
  }

  lemma SlotIs(lens: seq<nat>, paths: seq<Bits>, look: seq<int>, tree: seq<int>, j: nat, b: bool)
    requires Built(lens, |lens|, paths, look, tree) && j < |paths| && Slot(j, b) < |tree|
    ensures TreeSlot(lens, |lens|, paths, tree[Slot(j, b)], paths[j] + [b])
  {
    hide TreeSlot, LookSlot, GoodPaths;
    assert NodeOk(lens, |lens|, paths, tree, j);
  }

  lemma HeadsGives(lens: seq<nat>, s: nat, rest: Bits, n: nat)
    requires Heads(lens, s, rest) && n <= lens[s]
    ensures s < |lens| && 0 < lens[s] <= |rest| && rest[..n] <= CodeBits(lens, s)
    ensures n == lens[s] ==> rest[..n] == CodeBits(lens, s)
  {
    PrefixOf(CodeBits(lens, s), rest, n);
  }

  lemma WalkStep(tree: seq<int>, j: nat, rest: Bits, n: nat)
    requires n < |rest| && Slot(j, true) < |tree| && Slot(j, rest[n]) < |tree|
    ensures Walk(tree, -2 * j - 1, rest, n) == Walk(tree, tree[Slot(j, rest[n])], rest, n + 1)
  {
  }

  lemma WalkEnds(tree: seq<int>, e: int, rest: Bits, n: nat)
    requires e >= 0
    ensures Walk(tree, e, rest, n) == Some((e, n))
  {
  }

  lemma PrefixOf(c: Bits, rest: Bits, n: nat)
    requires c <= rest && n <= |c|
    ensures rest[..n] == c[..n]
  {
  }

  lemma LeafIs(lens: seq<nat>, paths: seq<Bits>, look: seq<int>, tree: seq<int>, s: nat, e: int, p: Bits)
    requires Valid(lens) && Built(lens, |lens|, paths, look, tree) && s < |lens| && lens[s] > 0
    requires TreeSlot(lens, |lens|, paths, e, p) && p == CodeBits(lens, s)
    ensures e == s
  {
    hide CodeBits, LookAll, TreeAll, Valid;
    if p in paths {
      var j :| 0 <= j < |paths| && paths[j] == p;
      PathLong(lens, paths, j);
      NoCodeAbove(lens, s, p);
      assert false;
    }
    if e > 0 {
      PrefixFree(lens, s, e, p);
    } else {
      assert Entered(lens, |lens|, s);
    }
  }

  /** A beginning of a code that is not all of it leads to a node. */
  lemma StepDown(lens: seq<nat>, paths: seq<Bits>, look: seq<int>, tree: seq<int>, s: nat, e: int, p: Bits)
    returns (j: nat)
    requires Valid(lens) && Built(lens, |lens|, paths, look, tree) && s < |lens| && |p| < lens[s]
    requires p <= CodeBits(lens, s)
    requires TreeSlot(lens, |lens|, paths, e, p)
    ensures j < |paths| && paths[j] == p && e == -2 * j - 1
  {
    hide CodeBits, LookAll, TreeAll, Valid;
    assert Inner(lens, p) by { assert Leads(lens, s, p); }
    assert Entered(lens, |lens|, s);
    if e > 0 {
      NoCodeAbove(lens, e, p);
      assert false;
    }
    j :| 0 <= j < |paths| && paths[j] == p && e == -2 * j - 1;
  }

  lemma LookIs(look: seq<int>, rest: Bits)
    requires |look| == FAST_LOOKUP_SIZE && |rest| >= FAST_LOOKUP_BITS
    ensures var x := FromBits(rest[..FAST_LOOKUP_BITS]);
            x < FAST_LOOKUP_SIZE && x % FAST_LOOKUP_SIZE == x && ToBits(x, FAST_LOOKUP_BITS) == rest[..FAST_LOOKUP_BITS]
  {
    hide FromBits, ToBits;
    ToFromBits(rest[..FAST_LOOKUP_BITS]);
    Powers();
  }

  /** The entry of the look-up for a short code. */
  lemma ShortIs(lens: seq<nat>, paths: seq<Bits>, look: seq<int>, tree: seq<int>, s: nat, e: int, p: Bits)
    requires Valid(lens) && Built(lens, |lens|, paths, look, tree) && s < |lens| <= 512 && lens[s] > 0
    requires LookSlot(lens, |lens|, paths, e, p)
    requires CodeBits(lens, s) <= p
    ensures e == 512 * lens[s] + s && e % 512 == s && e / 512 == lens[s]
  {
    hide CodeBits, LookAll, TreeAll, Valid;
    if p in paths {
      var j :| 0 <= j < |paths| && paths[j] == p;
      PathLong(lens, paths, j);
      NoCodeAbove(lens, s, p);
      assert false;
    }
    assert Entered(lens, |lens|, s);
    var t: nat :| Entered(lens, |lens|, t) && CodeBits(lens, t) <= p && e == 512 * lens[t] + t;
    PrefixFree(lens, s, t, p);
  }

  /** The entry of the look-up for a long code. */
  lemma RootIs(lens: seq<nat>, paths: seq<Bits>, look: seq<int>, tree: seq<int>, s: nat, e: int, p: Bits)
    returns (j: nat)
    requires Valid(lens) && Built(lens, |lens|, paths, look, tree) && s < |lens| && |p| < lens[s]
    requires p <= CodeBits(lens, s)
    requires LookSlot(lens, |lens|, paths, e, p)
    ensures j < |paths| && paths[j] == p && e == -2 * j - 1
  {
    hide CodeBits, LookAll, TreeAll, Valid;
    assert Inner(lens, p) by { assert Leads(lens, s, p); }
    assert Entered(lens, |lens|, s);
    if e > 0 {
      var t: nat :| Entered(lens, |lens|, t) && CodeBits(lens, t) <= p && e == 512 * lens[t] + t;
      NoCodeAbove(lens, t, p);
      assert false;
    }
    j :| 0 <= j < |paths| && paths[j] == p && e == -2 * j - 1;
  }

  /** The tables decode any bits that begin with a code to its symbol, and use up exactly the code. */
  lemma LookupDecodes(lens: seq<nat>, paths: seq<Bits>, look: seq<int>, tree: seq<int>, s: nat, rest: Bits)
    requires Valid(lens) && |lens| <= 512 && Built(lens, |lens|, paths, look, tree) && Heads(lens, s, rest)
    requires |rest| >= FAST_LOOKUP_BITS
    ensures |look| == FAST_LOOKUP_SIZE && Lookup(look, tree, rest) == Some((s, lens[s]))
  {
    hide *;
    BuiltSize(lens, paths, look, tree);
    HeadsRange(lens, s, rest);
    TenFit(rest);
    var p, c := rest[..FAST_LOOKUP_BITS], CodeBits(lens, s);
    LookIs(look, rest);
    var x := FromBits(p);
    LookAt(lens, paths, look, tree, x);
    LookupIs(look, tree, rest, look[x]);
    if lens[s] <= FAST_LOOKUP_BITS {
      HeadsShort(lens, s, rest);
      ShortIs(lens, paths, look, tree, s, look[x], p);
    } else {
      HeadsGives(lens, s, rest, FAST_LOOKUP_BITS);
      var j := RootIs(lens, paths, look, tree, s, look[x], p);
      WalkFinds(lens, paths, look, tree, s, rest, j, FAST_LOOKUP_BITS);
    }
  }

  lemma BuiltSize(lens: seq<nat>, paths: seq<Bits>, look: seq<int>, tree: seq<int>)
    requires Built(lens, |lens|, paths, look, tree)
    ensures |look| == FAST_LOOKUP_SIZE && FAST_LOOKUP_SIZE > 0
  {
  }

  lemma TenFit(rest: Bits)
    requires |rest| >= FAST_LOOKUP_BITS
    ensures |rest[..FAST_LOOKUP_BITS]| == FAST_LOOKUP_BITS && FAST_LOOKUP_BITS >= 0
  {
  }

  lemma LookAt(lens: seq<nat>, paths: seq<Bits>, look: seq<int>, tree: seq<int>, x: nat)
    requires Built(lens, |lens|, paths, look, tree) && x < FAST_LOOKUP_SIZE
    ensures x < |look| && LookSlot(lens, |lens|, paths, look[x], ToBits(x, FAST_LOOKUP_BITS))
  {
    hide LookSlot, TreeAll;
  }

  lemma HeadsRange(lens: seq<nat>, s: nat, rest: Bits)
    requires Heads(lens, s, rest)
    ensures s < |lens| && 0 < lens[s] <= |rest|
  {
  }

  lemma HeadsShort(lens: seq<nat>, s: nat, rest: Bits)
    requires Heads(lens, s, rest) && lens[s] <= FAST_LOOKUP_BITS <= |rest|
    ensures CodeBits(lens, s) <= rest[..FAST_LOOKUP_BITS]
  {
  }

  lemma LookupIs(look: seq<int>, tree: seq<int>, rest: Bits, e: int)
    requires |look| == FAST_LOOKUP_SIZE && |rest| >= FAST_LOOKUP_BITS
    requires FromBits(rest[..FAST_LOOKUP_BITS]) % FAST_LOOKUP_SIZE < |look|
    requires e == look[FromBits(rest[..FAST_LOOKUP_BITS]) % FAST_LOOKUP_SIZE]
    ensures Lookup(look, tree, rest) == if e >= 0 then Some((e % 512, e / 512))
            else Walk(tree, e, rest, FAST_LOOKUP_BITS)
  {
  }

  /** With a complete code the tables decode anything, to the one symbol whose code comes first. */
  lemma LookupDecodesAll(lens: seq<nat>, paths: seq<Bits>, look: seq<int>, tree: seq<int>, rest: Bits)
    requires Complete(lens) && |lens| <= 512 && Built(lens, |lens|, paths, look, tree) && |rest| >= MAX_BITS
    ensures |look| == FAST_LOOKUP_SIZE
    ensures var r := Lookup(look, tree, rest);
            r.Some? && r.value.1 <= |rest| && DecodeSym(lens, rest) == Some((r.value.0, rest[r.value.1..]))
  {
    var s := SomeCode(lens, rest);
    hide Built, CodeBits, Complete, Lookup;
    LookupDecodes(lens, paths, look, tree, s, rest);
    var t: nat :| Heads(lens, t, rest) && DecodeSym(lens, rest) == Some((t, rest[lens[t]..]));
    PrefixFree(lens, s, t, rest);
  }

  // ---------------------------------------------------------------- building the tables

  /** A tree of twice as many slots as symbols has room for one more node, whatever code is accepted. */
  lemma RoomForNode(lens: seq<nat>, paths: seq<Bits>, q: Bits, slots: nat)
    requires Acceptable(lens) && GoodPaths(lens, paths) && q !in paths && Inner(lens, q) && |q| >= FAST_LOOKUP_BITS
    requires slots >= 2 * |lens| && slots >= 10
    ensures 2 * |paths| + 2 <= slots
  {
    var all := paths + [q];
    forall i | 0 <= i < |all| ensures Inner(lens, all[i]) && |all[i]| >= FAST_LOOKUP_BITS {
      if i < |paths| { PathLong(lens, paths, i); }
    }
    if FilledBy(lens, MAX_BITS) == Pow2(MAX_BITS) {
      FewInner(lens, all);
    } else {
      hide Inner, GoodPath, Valid;
      OneCodeInner(lens, all);
    }
  }

  /** Two symbols with codes mean two that do not have length 0. */
  lemma {:induction false} TwoUsed(lens: seq<nat>, s: nat, t: nat)
    requires s < t < |lens| && lens[s] > 0 && lens[t] > 0
    ensures Count(lens, 0) + 2 <= |lens|
  {
    var m := |lens| - 1;
    if t < m {
      TwoUsed(lens[..m], s, t);
    } else {
      OneUsed(lens[..m], s);
    }
  }

  lemma {:induction false} OneUsed(lens: seq<nat>, s: nat)
    requires s < |lens| && lens[s] > 0
    ensures Count(lens, 0) + 1 <= |lens|
  {
    var m := |lens| - 1;
    if s < m { OneUsed(lens[..m], s); }
  }

  /** The inner nodes of a single code are its beginnings. */
  lemma OneCodeInner(lens: seq<nat>, paths: seq<Bits>)
    requires (forall s :: 0 <= s < |lens| ==> lens[s] <= MAX_BITS) && |lens| <= Count(lens, 0) + 1 && Distinct(paths)
    requires forall i :: 0 <= i < |paths| ==> Inner(lens, paths[i]) && |paths[i]| >= FAST_LOOKUP_BITS
    ensures |paths| <= 5
  {
    hide Count, CodeBits;
    var sizes := seq(|paths|, i requires 0 <= i < |paths| => |paths[i]| - FAST_LOOKUP_BITS);
    forall i, j | 0 <= i < j < |sizes| ensures sizes[i] != sizes[j] {
      var s: nat :| Leads(lens, s, paths[i]);
      var t: nat :| Leads(lens, t, paths[j]);
      if s < t { TwoUsed(lens, s, t); } else if t < s { TwoUsed(lens, t, s); }
      assert paths[i] == CodeBits(lens, s)[..|paths[i]|] && paths[j] == CodeBits(lens, s)[..|paths[j]|];
    }
    forall i | 0 <= i < |sizes| ensures sizes[i] < 5 { var s: nat :| Leads(lens, s, paths[i]); }
    Pigeons(sizes, 5);
  }

  /** The low bits of x begin its ten bits. */
  lemma TenBitsBegin(x: nat, l: nat, c: Bits, rev: nat)
    requires l <= FAST_LOOKUP_BITS && |c| == l && rev < Pow2(l) && ToBits(rev, l) == c
    ensures c <= ToBits(x, FAST_LOOKUP_BITS) <==> x % Pow2(l) == rev
  {
    DivMod(x, Pow2(l));
    LowBits(x, l, x % Pow2(l), x / Pow2(l), c, rev);
  }

  lemma DivMod(x: nat, p: nat)
    requires p > 0
    ensures x == x % p + x / p * p && 0 <= x % p < p && x / p >= 0
  {
  }

  lemma LowBits(x: nat, l: nat, lo: nat, hi: nat, c: Bits, rev: nat)
    requires l <= FAST_LOOKUP_BITS && |c| == l && rev < Pow2(l) && ToBits(rev, l) == c && lo < Pow2(l)
    requires x == lo + hi * Pow2(l)
    ensures c <= ToBits(x, FAST_LOOKUP_BITS) <==> lo == rev
  {
    hide *;
    ToBitsAppend(lo, l, hi, FAST_LOOKUP_BITS - l);
    assert ToBits(x, FAST_LOOKUP_BITS)[..l] == ToBits(lo, l);
    if ToBits(lo, l) == ToBits(rev, l) { ToBitsSame(lo, rev, l); }
  }

  lemma NothingBetween(a: nat, x: nat, p: nat, rev: nat)
    requires p > 0 && a % p == rev && a < x < a + p
    ensures x % p != rev
  {
    if x % p == rev {
      assert a == a / p * p + rev && x == x / p * p + rev;
      MulCancelStrict(a / p, x / p, p);
      MulMono(a / p + 1, x / p, p);
    }
  }

  lemma NextOne(a: nat, p: nat)
    requires p > 0
    ensures (a + p) % p == a % p
  {
    assert a + p == (a / p + 1) * p + a % p;
    RemIs(a + p, p, a / p + 1, a % p);
  }

  /** Entries for a short code: at its bits, and at every place that begins with them. */
  method FillShort(look_up: array<int>, rev_code: nat, code_size: nat, sym: nat, ghost lens: seq<nat>)
    requires look_up.Length == FAST_LOOKUP_SIZE && sym < |lens| && code_size == lens[sym]
    requires 0 < code_size <= FAST_LOOKUP_BITS
    requires rev_code < Pow2(code_size) && ToBits(rev_code, code_size) == CodeBits(lens, sym)
    modifies look_up
    ensures ShortFill(lens, sym, old(look_up[..]), look_up[..])
  {
    hide *;
    HashSize();
    var step := Pow2(code_size);
    var r: nat, k := rev_code, 512 * code_size + sym;
    ghost var look0 := look_up[..];
    RevHits(lens, sym, rev_code);
    NoneFilled(look0, r, step, rev_code, k);
    while r < FAST_LOOKUP_SIZE
      invariant Rem(r, step) == rev_code && Filling(look0, look_up[..], r, step, rev_code, k)
      decreases FAST_LOOKUP_SIZE - r
    {
      FillNext(look0, look_up[..], r, step, rev_code, k);
      look_up[r] := k;
      Gap(r, step, rev_code);
      r := r + step;
    }
    FilledAll(look0, look_up[..], r, step, rev_code, k);
    ShortFilled(lens, sym, rev_code, step, look0, look_up[..]);
  }

  lemma HashSize()
    ensures FAST_LOOKUP_SIZE >= 0
  {
  }

  /** The places below r that begin with the code hold its entry. */
  ghost predicate Filling(look0: seq<int>, look: seq<int>, r: nat, step: nat, rev_code: nat, k: int)
    requires step > 0
  {
    |look0| == |look| == FAST_LOOKUP_SIZE &&
    forall x :: 0 <= x < FAST_LOOKUP_SIZE ==> look[x] == if x < r && Rem(x, step) == rev_code then k else look0[x]
  }

  lemma NoneFilled(look0: seq<int>, r: nat, step: nat, rev_code: nat, k: int)
    requires step > 0 && r == rev_code < step && |look0| == FAST_LOOKUP_SIZE
    ensures Filling(look0, look0, r, step, rev_code, k)
  {
    hide Rem;
    forall x | 0 <= x < FAST_LOOKUP_SIZE && x < r ensures Rem(x, step) != rev_code { Small(x, step); }
  }

  lemma Small(x: nat, p: nat)
    requires x < p
    ensures Rem(x, p) == x
  {
    RemIs(x, p, 0, x);
  }

  lemma FillNext(look0: seq<int>, look: seq<int>, r: nat, step: nat, rev_code: nat, k: int)
    requires step > 0 && r < FAST_LOOKUP_SIZE && Rem(r, step) == rev_code && Filling(look0, look, r, step, rev_code, k)
    ensures Filling(look0, look[r := k], r + step, step, rev_code, k)
  {
    Gap(r, step, rev_code);
    hide Rem;
  }

  lemma FilledAll(look0: seq<int>, look: seq<int>, r: nat, step: nat, rev_code: nat, k: int)
    requires step > 0 && r >= FAST_LOOKUP_SIZE && Filling(look0, look, r, step, rev_code, k)
    ensures |look| == |look0| == FAST_LOOKUP_SIZE
    ensures forall x :: 0 <= x < FAST_LOOKUP_SIZE ==> look[x] == if Rem(x, step) == rev_code then k else look0[x]
  {
    hide Rem;
  }

  lemma Gap(r: nat, step: nat, rev_code: nat)
    requires step > 0 && Rem(r, step) == rev_code
    ensures forall x: nat :: r < x < r + step ==> Rem(x, step) != rev_code
    ensures Rem(r + step, step) == rev_code
  {
    NextOne(r, step);
    forall x: nat | r < x < r + step ensures Rem(x, step) != rev_code { NothingBetween(r, x, step, rev_code); }
  }

  function Rem(x: nat, p: nat): (r: nat)
    requires p > 0
  {
    x % p
  }

  lemma RevHits(lens: seq<nat>, sym: nat, rev_code: nat)
    requires sym < |lens| && lens[sym] <= FAST_LOOKUP_BITS && rev_code < Pow2(lens[sym])
    requires ToBits(rev_code, lens[sym]) == CodeBits(lens, sym)
    ensures Pow2(lens[sym]) > 0 && Rem(rev_code, Pow2(lens[sym])) == rev_code
  {
    RemIs(rev_code, Pow2(lens[sym]), 0, rev_code);
  }

  lemma ShortFilled(lens: seq<nat>, sym: nat, rev_code: nat, step: nat, look: seq<int>, look': seq<int>)
    requires sym < |lens| && 0 < lens[sym] <= FAST_LOOKUP_BITS && step == Pow2(lens[sym])
    requires rev_code < Pow2(lens[sym]) && ToBits(rev_code, lens[sym]) == CodeBits(lens, sym)
    requires |look| == |look'| == FAST_LOOKUP_SIZE
    requires forall x :: 0 <= x < FAST_LOOKUP_SIZE ==>
               look'[x] == if Rem(x, step) == rev_code then 512 * lens[sym] + sym else look[x]
    ensures ShortFill(lens, sym, look, look')
  {
    hide Pow2, ToBits, CodeBits;
    forall x | 0 <= x < FAST_LOOKUP_SIZE
      ensures look'[x] == if CodeBits(lens, sym) <= ToBits(x, FAST_LOOKUP_BITS) then 512 * lens[sym] + sym else look[x]
    {
      TenBitsBegin(x, lens[sym], CodeBits(lens, sym), rev_code);
    }
  }

  /** A slot on the way to a code holds a node if it holds anything. */
  lemma SlotToNode(lens: seq<nat>, k: nat, paths: seq<Bits>, e: int, p: Bits) returns (j: nat)
    requires Valid(lens) && TreeSlot(lens, k, paths, e, p) && Inner(lens, p) && e != 0
    ensures j < |paths| && paths[j] == p && e == -2 * j - 1
  {
    hide CodeBits, Valid;
    if e > 0 {
      NoCodeAbove(lens, e, p);
      assert false;
    }
    j :| 0 <= j < |paths| && paths[j] == p && e == -2 * j - 1;
  }

  lemma EntryToNode(lens: seq<nat>, k: nat, paths: seq<Bits>, e: int, p: Bits) returns (j: nat)
    requires Valid(lens) && LookSlot(lens, k, paths, e, p) && Inner(lens, p) && e != 0
    ensures j < |paths| && paths[j] == p && e == -2 * j - 1
  {
    hide CodeBits, Valid;
    if e > 0 {
      var t: nat :| Entered(lens, k, t) && CodeBits(lens, t) <= p && e == 512 * lens[t] + t;
      NoCodeAbove(lens, t, p);
      assert false;
    }
    j :| 0 <= j < |paths| && paths[j] == p && e == -2 * j - 1;
  }

  lemma BeginningInner(lens: seq<nat>, s: nat, n: nat)
    requires s < |lens| && n < lens[s]
    ensures Inner(lens, CodeBits(lens, s)[..n])
  {
    hide CodeBits;
    assert Leads(lens, s, CodeBits(lens, s)[..n]);
  }

  /** The low ten bits of a reversed code are its first ten. */
  lemma FirstTen(rev_code: nat, l: nat, c: Bits)
    requires l > FAST_LOOKUP_BITS && rev_code < Pow2(l) && ToBits(rev_code, l) == c
    ensures ToBits(rev_code % FAST_LOOKUP_SIZE, FAST_LOOKUP_BITS) == c[..FAST_LOOKUP_BITS]
  {
    Powers();
    hide ToBits, Pow2;
    ToBitsAppend(rev_code % FAST_LOOKUP_SIZE, FAST_LOOKUP_BITS, rev_code / FAST_LOOKUP_SIZE, l - FAST_LOOKUP_BITS);
  }

  /** Without its low nine bits, a reversed code holds the bits from the tenth on. */
  lemma FromTenth(rev_code: nat, l: nat, c: Bits)
    requires l > FAST_LOOKUP_BITS && rev_code < Pow2(l) && ToBits(rev_code, l) == c
    ensures ToBits(rev_code / 512, l - 9) == c[9..]
  {
    Powers();
    hide ToBits, Pow2;
    ToBitsAppend(rev_code % 512, 9, rev_code / 512, l - 9);
  }

  lemma NextBit(r: nat, m: nat, c: Bits)
    requires m > 0 && ToBits(r, m) == c
    ensures ToBits(r / 2, m - 1) == c[1..] && |c| == m && (r % 2 == 1) == c[0]
  {
  }

  lemma LookParts(lens: seq<nat>, k: nat, paths: seq<Bits>, look: seq<int>, tree: seq<int>, x: nat)
    requires Built(lens, k, paths, look, tree) && x < FAST_LOOKUP_SIZE
    ensures x < |look| == FAST_LOOKUP_SIZE && LookSlot(lens, k, paths, look[x], ToBits(x, FAST_LOOKUP_BITS))
    ensures GoodPaths(lens, paths)
  {
    hide LookSlot, TreeAll, GoodPaths;
  }

  lemma TreeParts(lens: seq<nat>, k: nat, paths: seq<Bits>, look: seq<int>, tree: seq<int>, j: nat, b: bool)
    requires Built(lens, k, paths, look, tree) && j < |paths|
    ensures Slot(j, b) < |tree| && TreeSlot(lens, k, paths, tree[Slot(j, b)], paths[j] + [b]) && GoodPaths(lens, paths)
  {
    hide LookAll, TreeSlot, GoodPaths;
    assert NodeOk(lens, k, paths, tree, j);
  }

  lemma AcceptableValid(lens: seq<nat>)
    requires Acceptable(lens)
    ensures Valid(lens)
  {
  }

  /** The node for the first ten bits of a long code. */
  method Root(look_up: array<int>, tree: array<int>, tree_next0: int, rev_code: nat, sym: nat, ghost lens: seq<nat>,
              ghost paths0: seq<Bits>)
    returns (tree_cur: int, tree_next: int, ghost paths: seq<Bits>, ghost j: nat)
    requires look_up != tree && look_up.Length == FAST_LOOKUP_SIZE && Acceptable(lens) && sym < |lens|
    requires lens[sym] > FAST_LOOKUP_BITS
    requires rev_code < Pow2(lens[sym]) && ToBits(rev_code, lens[sym]) == CodeBits(lens, sym)
    requires Built(lens, sym, paths0, look_up[..], tree[..]) && tree_next0 == -2 * |paths0| - 1
    requires tree.Length >= 2 * |lens| && tree.Length >= 10
    modifies look_up
    ensures Built(lens, sym, paths, look_up[..], tree[..]) && tree_next == -2 * |paths| - 1
    ensures j < |paths| && tree_cur == -2 * j - 1 && paths[j] == CodeBits(lens, sym)[..FAST_LOOKUP_BITS]
  {
    AcceptableValid(lens);
    FirstTen(rev_code, lens[sym], CodeBits(lens, sym));
    BeginningInner(lens, sym, FAST_LOOKUP_BITS);
    var x: nat := rev_code % FAST_LOOKUP_SIZE;
    hide *;
    ghost var q, tr, lk := ToBits(x, FAST_LOOKUP_BITS), tree[..], look_up[..];
    LookParts(lens, sym, paths0, lk, tr, x);
    tree_cur, tree_next, paths := look_up[x], tree_next0, paths0;
    if tree_cur == 0 {
      EmptyEntry(lens, sym, paths0, lk[x], q);
      RoomForNode(lens, paths0, q, tree.Length);
      BuiltRoot(lens, sym, paths0, lk, tr, x);
      look_up[x] := tree_next;
      assert tree[..] == tr && look_up[..] == lk[x := -2 * |paths0| - 1];
      paths, j := paths0 + [q], |paths0|;
      tree_cur := tree_next;
      tree_next := tree_next - 2;
    } else {
      j := EntryToNode(lens, sym, paths0, tree_cur, q);
    }
  }

  lemma EmptyEntry(lens: seq<nat>, k: nat, paths: seq<Bits>, e: int, p: Bits)
    requires LookSlot(lens, k, paths, e, p) && e == 0
    ensures p !in paths && |p| >= 0
  {
    LookEmpty(lens, k, paths, p);
  }

  /** One bit further down towards a long code, to a node that is there or a new one. */
  method Down(look_up: array<int>, tree: array<int>, tree_cur0: int, tree_next0: int, bit: nat, sym: nat, n: nat,
              ghost lens: seq<nat>, ghost paths0: seq<Bits>, ghost j0: nat)
    returns (tree_cur: int, tree_next: int, ghost paths: seq<Bits>, ghost j: nat)
    requires look_up != tree && Acceptable(lens) && sym < |lens| && FAST_LOOKUP_BITS <= n && n + 1 < lens[sym]
    requires Built(lens, sym, paths0, look_up[..], tree[..]) && tree_next0 == -2 * |paths0| - 1
    requires tree.Length >= 2 * |lens| && tree.Length >= 10
    requires j0 < |paths0| && tree_cur0 == -2 * j0 - 1 && paths0[j0] == CodeBits(lens, sym)[..n] && bit < 2
    requires (bit == 1) == CodeBits(lens, sym)[n]
    modifies tree
    ensures Built(lens, sym, paths, look_up[..], tree[..]) && tree_next == -2 * |paths| - 1 && paths0 <= paths
    ensures j < |paths| && tree_cur == -2 * j - 1 && paths[j] == CodeBits(lens, sym)[..n + 1]
  {
    hide *;
    AcceptableValid(lens);
    BeginningInner(lens, sym, n + 1);
    ghost var c, b, tr, lk := CodeBits(lens, sym), bit == 1, tree[..], look_up[..];
    ghost var q := paths0[j0] + [b];
    assert q == c[..n + 1];
    TreeParts(lens, sym, paths0, lk, tr, j0, b);
    SlotOf(j0, bit);
    var t := tree_cur0 - bit;
    tree_next, paths := tree_next0, paths0;
    if tree[-t - 1] == 0 {
      EmptySlotGives(lens, sym, paths0, tr[Slot(j0, b)], q);
      RoomForNode(lens, paths0, q, tree.Length);
      BuiltNode(lens, sym, paths0, lk, tr, j0, b);
      tree[-t - 1] := tree_next;
      assert look_up[..] == lk && tree[..] == tr[Slot(j0, b) := -2 * |paths0| - 1];
      paths, j := paths0 + [q], |paths0|;
      tree_cur := tree_next;
      tree_next := tree_next - 2;
    } else {
      tree_cur := tree[-t - 1];
      j := SlotToNode(lens, sym, paths0, tree_cur, q);
    }
  }

  lemma EmptySlotGives(lens: seq<nat>, k: nat, paths: seq<Bits>, e: int, p: Bits)
    requires TreeSlot(lens, k, paths, e, p) && e == 0
    ensures p !in paths
  {
    TreeEmpty(lens, k, paths, p);
  }

  lemma SlotOf(j: nat, bit: nat)
    requires bit < 2
    ensures -(-2 * j - 1 - bit) - 1 == Slot(j, bit == 1)
  {
  }

  /** The beginnings of c from ten bits up to n all have nodes. */
  ghost predicate WayTo(paths: seq<Bits>, c: Bits, n: nat)
  {
    n <= |c| && forall m :: FAST_LOOKUP_BITS <= m <= n ==> c[..m] in paths
  }

  lemma WayStarts(paths: seq<Bits>, c: Bits, j: nat)
    requires |c| > FAST_LOOKUP_BITS && j < |paths| && paths[j] == c[..FAST_LOOKUP_BITS]
    ensures WayTo(paths, c, FAST_LOOKUP_BITS)
  {
  }

  lemma WayOn(paths: seq<Bits>, paths': seq<Bits>, c: Bits, n: nat, j: nat)
    requires WayTo(paths, c, n) && n < |c| && paths <= paths' && j < |paths'| && paths'[j] == c[..n + 1]
    ensures WayTo(paths', c, n + 1)
  {
    forall m | FAST_LOOKUP_BITS <= m <= n + 1 ensures c[..m] in paths' {
      if m <= n {
        assert c[..m] in paths;
        var i :| 0 <= i < |paths| && paths[i] == c[..m];
        assert paths'[i] == c[..m];
      }
    }
  }

  lemma WayDone(lens: seq<nat>, k: nat, paths: seq<Bits>)
    requires k < |lens| && lens[k] > FAST_LOOKUP_BITS && WayTo(paths, CodeBits(lens, k), lens[k] - 1)
    ensures WayMade(lens, k, paths)
  {
    hide CodeBits;
  }

  /** r holds the bits of c from the one before bit n on. */
  ghost predicate Ahead(r: nat, c: Bits, n: nat)
  {
    1 <= n <= |c| && ToBits(r, |c| - n + 1) == c[n - 1..]
  }

  lemma AheadStarts(rev_code: nat, c: Bits)
    requires |c| > FAST_LOOKUP_BITS && rev_code < Pow2(|c|) && ToBits(rev_code, |c|) == c
    ensures Ahead(rev_code / 512, c, FAST_LOOKUP_BITS)
  {
    FromTenth(rev_code, |c|, c);
  }

  lemma AheadStep(r: nat, c: Bits, n: nat)
    requires Ahead(r, c, n) && n < |c|
    ensures Ahead(r / 2, c, n + 1) && 0 <= r / 2 % 2 < 2 && (r / 2 % 2 == 1) == c[n]
  {
    NextBit(r, |c| - n + 1, c[n - 1..]);
    assert c[n - 1..][1..] == c[n..];
    NextBit(r / 2, |c| - n, c[n..]);
  }

  /** Where the loop of EnterLong stands. */
  ghost predicate AtNode(lens: seq<nat>, sym: nat, paths: seq<Bits>, tree_cur: int, tree_next: int, j: nat, n: nat)
    requires sym < |lens|
  {
    var c := CodeBits(lens, sym);
    n <= |c| && WayTo(paths, c, n) && j < |paths| && paths[j] == c[..n] && tree_cur == -2 * j - 1 &&
    tree_next == -2 * |paths| - 1
  }

  lemma AtNodeGives(lens: seq<nat>, sym: nat, paths: seq<Bits>, tree_cur: int, tree_next: int, j: nat, n: nat)
    requires sym < |lens| && AtNode(lens, sym, paths, tree_cur, tree_next, j, n)
    ensures n <= |CodeBits(lens, sym)| == lens[sym] && j < |paths| && paths[j] == CodeBits(lens, sym)[..n]
    ensures WayTo(paths, CodeBits(lens, sym), n) && tree_cur == -2 * j - 1 && tree_next == -2 * |paths| - 1
  {
  }

  lemma AtNodeNow(lens: seq<nat>, sym: nat, paths: seq<Bits>, tree_cur: int, tree_next: int, j: nat, n: nat)
    requires sym < |lens| && n <= |CodeBits(lens, sym)| && j < |paths| && paths[j] == CodeBits(lens, sym)[..n]
    requires WayTo(paths, CodeBits(lens, sym), n) && tree_cur == -2 * j - 1 && tree_next == -2 * |paths| - 1
    ensures AtNode(lens, sym, paths, tree_cur, tree_next, j, n)
  {
  }

  /** One turn of the loop. */
  method Step(look_up: array<int>, tree: array<int>, tree_cur0: int, tree_next0: int, bit: nat, sym: nat, n: nat,
              ghost lens: seq<nat>, ghost paths0: seq<Bits>, ghost j0: nat)
    returns (tree_cur: int, tree_next: int, ghost paths: seq<Bits>, ghost j: nat)
    requires look_up != tree && Acceptable(lens) && sym < |lens| && FAST_LOOKUP_BITS <= n && n + 1 < lens[sym]
    requires Built(lens, sym, paths0, look_up[..], tree[..]) && tree.Length >= 2 * |lens| && tree.Length >= 10
    requires AtNode(lens, sym, paths0, tree_cur0, tree_next0, j0, n)
    requires bit < 2 && (bit == 1) == CodeBits(lens, sym)[n]
    modifies tree
    ensures Built(lens, sym, paths, look_up[..], tree[..]) && AtNode(lens, sym, paths, tree_cur, tree_next, j, n + 1)
  {
    hide *;
    AtNodeGives(lens, sym, paths0, tree_cur0, tree_next0, j0, n);
    tree_cur, tree_next, paths, j := Down(look_up, tree, tree_cur0, tree_next0, bit, sym, n, lens, paths0, j0);
    WayOn(paths0, paths, CodeBits(lens, sym), n, j);
    AtNodeNow(lens, sym, paths, tree_cur, tree_next, j, n + 1);
  }

  /** The symbol goes to the slot its last bit leads to. */
  method Leaf(look_up: array<int>, tree: array<int>, tree_cur: int, bit: nat, sym: nat, ghost lens: seq<nat>,
              ghost paths: seq<Bits>,
              ghost tree_next: int, ghost j: nat)
    requires look_up != tree && Valid(lens) && sym < |lens| && lens[sym] > FAST_LOOKUP_BITS
    requires Built(lens, sym, paths, look_up[..], tree[..])
    requires AtNode(lens, sym, paths, tree_cur, tree_next, j, lens[sym] - 1) && bit < 2
    requires (bit == 1) == CodeBits(lens, sym)[lens[sym] - 1]
    modifies tree
    ensures Built(lens, sym + 1, paths, look_up[..], tree[..])
  {
    hide *;
    AtNodeGives(lens, sym, paths, tree_cur, tree_next, j, lens[sym] - 1);
    WayDone(lens, sym, paths);
    ghost var tr, lk, b := tree[..], look_up[..], bit == 1;
    TreeParts(lens, sym, paths, lk, tr, j, b);
    SlotOf(j, bit);
    var t := tree_cur - bit;
    tree[-t - 1] := sym;
    assert tree[..] == tr[Slot(j, b) := sym] && look_up[..] == lk;
    assert paths[j] + [b] == CodeBits(lens, sym);
    BuiltLong(lens, sym, paths, lk, tr, j, b);
  }

  /** Entries and nodes for a long code. */
  method EnterLong(look_up: array<int>, tree: array<int>, tree_next0: int, rev_code: nat, code_size: nat, sym: nat,
                   ghost lens: seq<nat>, ghost paths0: seq<Bits>)
    returns (tree_next: int, ghost paths: seq<Bits>)
    requires look_up != tree && look_up.Length == FAST_LOOKUP_SIZE && Acceptable(lens) && sym < |lens|
    requires code_size == lens[sym] > FAST_LOOKUP_BITS
    requires rev_code < Pow2(code_size) && ToBits(rev_code, code_size) == CodeBits(lens, sym)
    requires Built(lens, sym, paths0, look_up[..], tree[..]) && tree_next0 == -2 * |paths0| - 1
    requires tree.Length >= 2 * |lens| && tree.Length >= 10
    modifies look_up, tree
    ensures Built(lens, sym + 1, paths, look_up[..], tree[..]) && tree_next == -2 * |paths| - 1
  {
    hide *;
    TenIs();
    AcceptableValid(lens);
    ghost var c := CodeBits(lens, sym);
    SizeOf(lens, sym);
    AheadStarts(rev_code, c);
    var tree_cur;
    ghost var j;
    tree_cur, tree_next, paths, j := Root(look_up, tree, tree_next0, rev_code, sym, lens, paths0);
    WayStarts(paths, c, j);
    AtNodeNow(lens, sym, paths, tree_cur, tree_next, j, FAST_LOOKUP_BITS);
    var r: nat, i := rev_code / 512, code_size;
    ghost var n: nat := FAST_LOOKUP_BITS;
    while i > FAST_LOOKUP_BITS + 1
      invariant FAST_LOOKUP_BITS + 1 <= i <= code_size && n == FAST_LOOKUP_BITS + (code_size - i) && Ahead(r, c, n)
      invariant Built(lens, sym, paths, look_up[..], tree[..]) && AtNode(lens, sym, paths, tree_cur, tree_next, j, n)
    {
      AheadStep(r, c, n);
      r := r / 2;
      tree_cur, tree_next, paths, j :=
        Step(look_up, tree, tree_cur, tree_next, r % 2, sym, FAST_LOOKUP_BITS + (code_size - i), lens, paths, j);
      n := n + 1;
      i := i - 1;
    }
    AheadStep(r, c, n);
    r := r / 2;
    Leaf(look_up, tree, tree_cur, r % 2, sym, lens, paths, tree_next, j);
    AtNodeGives(lens, sym, paths, tree_cur, tree_next, j, n);
  }

  lemma SizeOf(lens: seq<nat>, sym: nat)
    requires sym < |lens|
    ensures |CodeBits(lens, sym)| == lens[sym]
  {
  }

  lemma TenIs()
    ensures FAST_LOOKUP_BITS == 10
  {
  }

  // ---------------------------------------------------------------- a whole table

  /** How many symbols have lengths from 1 to b. */
  function UsedUpTo(lens: seq<nat>, b: nat): (r: nat)
  {
    if b == 0 then 0 else UsedUpTo(lens, b - 1) + Count(lens, b)
  }

  lemma {:induction false} UsedSnoc(lens: seq<nat>, b: nat)
    requires lens != []
    ensures UsedUpTo(lens, b) == UsedUpTo(lens[..|lens| - 1], b) + (if 1 <= lens[|lens| - 1] <= b then 1 else 0)
  {
    if b > 0 { UsedSnoc(lens, b - 1); }
  }

  lemma {:induction false} UsedAll(lens: seq<nat>)
    requires forall s :: 0 <= s < |lens| ==> lens[s] <= MAX_BITS
    ensures UsedUpTo(lens, MAX_BITS) + Count(lens, 0) == |lens|
  {
    if lens == [] {
      UsedNone(MAX_BITS);
    } else {
      UsedAll(lens[..|lens| - 1]);
      UsedSnoc(lens, MAX_BITS);
    }
  }

  lemma {:induction false} UsedNone(b: nat)
    ensures UsedUpTo([], b) == 0
  {
    if b > 0 { UsedNone(b - 1); }
  }

  /** The sum of the check does not overflow 32 bits. */
  lemma {:induction false} FilledSmall(lens: seq<nat>, b: nat)
    ensures FilledBy(lens, b) <= |lens| * (Pow2(b) - 1)
  {
    if b > 0 {
      FilledSmall(lens, b - 1);
      var p := Pow2(b - 1);
      assert |lens| * (2 * p - 1) == 2 * (|lens| * (p - 1)) + |lens|;
    }
  }

  /** The check made is the one the format asks for. */
  lemma CheckIs(lens: seq<nat>)
    requires forall s :: 0 <= s < |lens| ==> lens[s] <= MAX_BITS
    ensures Acceptable(lens) <==> 2 * FilledBy(lens, MAX_BITS) == 65536 || UsedUpTo(lens, MAX_BITS) <= 1
  {
    Powers();
    UsedAll(lens);
    if UsedUpTo(lens, MAX_BITS) <= 1 { OneFits(lens, MAX_BITS); }
    hide FilledBy, UsedUpTo, Count, Pow2;
  }

  lemma {:induction false} OneFits(lens: seq<nat>, b: nat)
    requires UsedUpTo(lens, b) <= 1
    ensures FilledBy(lens, b) <= (if UsedUpTo(lens, b) == 0 then 0 else Pow2(b))
  {
    if b > 0 {
      OneFits(lens, b - 1);
      Pow2Mono(0, b - 1);
    }
  }

  /** Counts the code lengths. */
  method CountLengths(code_size: array<byte>, table_size: nat, total_syms: array<nat>)
    requires table_size <= code_size.Length && total_syms.Length == MAX_BITS + 1 && total_syms as object != code_size
    requires forall s :: 0 <= s < table_size ==> code_size[s] <= MAX_BITS
    modifies total_syms
    ensures forall l :: 0 <= l <= MAX_BITS ==> total_syms[l] == Count(code_size[..table_size], l)
  {
    forall l | 0 <= l <= MAX_BITS { total_syms[l] := 0; }
    var i := 0;
    while i < table_size
      invariant 0 <= i <= table_size
      invariant forall l :: 0 <= l <= MAX_BITS ==> total_syms[l] == Count(code_size[..i], l)
    {
      assert code_size[..i + 1][..i] == code_size[..i];
      total_syms[code_size[i]] := total_syms[code_size[i]] + 1;
      i := i + 1;
    }
  }

  /** The first codes, and whether the lengths make a code to be accepted. */
  method CheckLengths(total_syms: array<nat>, next_code: array<nat>, ghost lens: seq<nat>) returns (ok: bool)
    requires total_syms.Length == MAX_BITS + 1 && next_code.Length == MAX_BITS + 2 && total_syms != next_code
    requires (forall s :: 0 <= s < |lens| ==> lens[s] <= MAX_BITS) && |lens| <= 288
    requires forall l :: 0 <= l <= MAX_BITS ==> total_syms[l] == Count(lens, l)
    modifies next_code
    ensures ok <==> Acceptable(lens)
    ensures NextCodes(next_code[..], lens, 0, MAX_BITS)
  {
    var used_syms, total := 0, 0;
    next_code[0], next_code[1] := 0, 0;
    var i := 1;
    hide Count;
    while i <= MAX_BITS
      invariant 1 <= i <= MAX_BITS + 1
      invariant used_syms == UsedUpTo(lens, i - 1) && total == 2 * FilledBy(lens, i - 1) < 0x1_0000_0000
      invariant forall l :: 1 <= l <= i ==> next_code[l] == NextCode(lens, l)
    {
      used_syms := used_syms + total_syms[i];
      total := (total + total_syms[i]) * 2;
      next_code[i + 1] := total;
      TotalFits(lens, i);
      i := i + 1;
    }
    CheckIs(lens);
    NoneCounted(lens);
    ok := !(total != 65536 && used_syms > 1);
  }

  lemma TotalFits(lens: seq<nat>, i: nat)
    requires |lens| <= 288 && i <= MAX_BITS
    ensures 2 * FilledBy(lens, i) < 0x1_0000_0000
  {
    FilledSmall(lens, i);
    Pow2Mono(i, MAX_BITS);
    Powers();
    MulMono(|lens|, 288, Pow2(i) - 1);
    hide FilledBy, Pow2;
  }

  lemma NoneCounted(lens: seq<nat>)
    ensures forall l :: Count(lens[..0], l) == 0
  {
  }

  /** Enters one symbol into the tables. */
  method EnterSymbol(code_size: nat, sym: nat, next_code: array<nat>, look_up: array<int>, tree: array<int>,
                     tree_next0: int,
                     ghost lens: seq<nat>, ghost paths0: seq<Bits>)
    returns (tree_next: int, ghost paths: seq<Bits>)
    requires look_up != tree && next_code as object != look_up && next_code as object != tree
    requires look_up.Length == FAST_LOOKUP_SIZE
    requires Acceptable(lens) && sym < |lens| && code_size == lens[sym] && next_code.Length == MAX_BITS + 2
    requires NextCodes(next_code[..], lens, sym, MAX_BITS) && tree.Length >= 2 * |lens| && tree.Length >= 10
    requires Built(lens, sym, paths0, look_up[..], tree[..]) && tree_next0 == -2 * |paths0| - 1
    modifies next_code, look_up, tree
    ensures NextCodes(next_code[..], lens, sym + 1, MAX_BITS)
    ensures Built(lens, sym + 1, paths, look_up[..], tree[..]) && tree_next == -2 * |paths| - 1
  {
    AcceptableValid(lens);
    LengthFits(lens, sym);
    hide *;
    tree_next, paths := tree_next0, paths0;
    ghost var lk, tr, nc := look_up[..], tree[..], next_code[..];
    NextCodesStep(nc, lens, sym, MAX_BITS);
    if code_size == 0 {
      BuiltSkip(lens, sym, paths0, lk, tr);
      return;
    }
    CodeIsShort(lens, sym);
    var cur_code := next_code[code_size];
    next_code[code_size] := cur_code + 1;
    assert next_code[..] == nc[code_size := cur_code + 1] && look_up[..] == lk && tree[..] == tr;
    var rev_code := ReverseBits(cur_code, code_size);
    if code_size <= FAST_LOOKUP_BITS {
      FillShort(look_up, rev_code, code_size, sym, lens);
      assert tree[..] == tr;
      BuiltShort(lens, sym, paths0, lk, look_up[..], tr);
    } else {
      tree_next, paths := EnterLong(look_up, tree, tree_next0, rev_code, code_size, sym, lens, paths0);
    }
  }

  lemma LengthFits(lens: seq<nat>, s: nat)
    requires Valid(lens) && s < |lens|
    ensures 0 <= lens[s] <= MAX_BITS && MAX_BITS + 2 == 17
  {
  }

  /** Builds the tables for the code lengths of one table, or rejects them. */
  method BuildTable(code_size: array<byte>, table_size: nat, look_up: array<int>, tree: array<int>)
    returns (ok: bool, ghost paths: seq<Bits>)
    requires code_size as object != look_up && code_size as object != tree && look_up != tree
    requires look_up.Length == FAST_LOOKUP_SIZE
    requires table_size <= code_size.Length && table_size <= 288 && tree.Length >= 2 * table_size && tree.Length >= 10
    requires forall s :: 0 <= s < table_size ==> code_size[s] <= MAX_BITS
    modifies look_up, tree
    ensures ok <==> Acceptable(code_size[..table_size])
    ensures ok ==> Built(code_size[..table_size], table_size, paths, look_up[..], tree[..])
  {
    ghost var lens := code_size[..table_size];
    var total_syms, next_code := new nat[MAX_BITS + 1], new nat[MAX_BITS + 2];
    assert |lens| == table_size;
    hide *;
    CountLengths(code_size, table_size, total_syms);
    ClearArray(look_up);
    ClearArray(tree);
    assert code_size[..table_size] == lens;
    ok := CheckLengths(total_syms, next_code, lens);
    paths := [];
    if !ok {
      return;
    }
    var tree_next, sym_index := -1, 0;
    BuiltNothing(lens, look_up[..], tree[..]);
    while sym_index < table_size
      invariant 0 <= sym_index <= table_size && NextCodes(next_code[..], lens, sym_index, MAX_BITS)
      invariant Built(lens, sym_index, paths, look_up[..], tree[..]) && tree_next == -2 * |paths| - 1
    {
      assert code_size[sym_index] == code_size[..table_size][sym_index] == lens[sym_index];
      tree_next, paths :=
        EnterSymbol(code_size[sym_index], sym_index, next_code, look_up, tree, tree_next, lens, paths);
      sym_index := sym_index + 1;
    }
  }

  method ClearArray(a: array<int>)
    modifies a
    ensures forall i :: 0 <= i < a.Length ==> a[i] == 0
  {
    forall i | 0 <= i < a.Length { a[i] := 0; }
  }
}
