/**
  Decoding one symbol from the bit buffer, reading no further than has to be.
 */
module HuffDecode {
  import opened Wrappers
  import opened Bits
  import opened CanonicalCode
  import opened CompleteCode
  import opened InflateTables
  import opened Deflate
  import opened BitReader

  /** The bit buffer with zeros above the bits in it. */
  ghost function View(buffer: nat): (r: Bits)
    ensures |r| == 64
  {
    ToBits(buffer, 64)
  }

  class Table {
    const look_up: array<int>
    const tree: array<int>
    const code_size: array<byte>
    /** The lengths the tables were built from, and the nodes of the tree. */
    ghost var lens: seq<nat>
    ghost var paths: seq<Bits>

    constructor (syms: nat)
      requires 5 <= syms <= 288
      ensures Shaped(syms) && fresh(look_up) && fresh(tree) && fresh(code_size)
    {
      look_up := new int[FAST_LOOKUP_SIZE];
      tree := new int[2 * syms];
      code_size := new byte[syms];
      lens, paths := [], [];
      new;
    }

    ghost predicate Shaped(syms: nat)
    {
      look_up.Length == FAST_LOOKUP_SIZE && 5 <= syms <= 288 && tree.Length == 2 * syms && code_size.Length == syms &&
      look_up != tree &&
      code_size as object != look_up && code_size as object != tree
    }

    /** Builds the tables for the first n code lengths, or rejects them. */
    method Build(n: nat, ghost syms: nat) returns (ok: bool)
      requires Shaped(syms) && n <= syms && forall s :: 0 <= s < n ==> code_size[s] <= MAX_BITS
      modifies this`lens, this`paths, look_up, tree
      ensures ok <==> Acceptable(code_size[..n])
      ensures ok ==> Ready() && lens == code_size[..n]
      ensures code_size[..] == old(code_size[..])
    {
      ghost var c, l := code_size[..], code_size[..n];
      ghost var p;
      ok, p := BuildTable(code_size, n, look_up, tree);
      assert code_size[..] == c && code_size[..n] == l;
      if ok {
        lens, paths := l, p;
      }
    }

    /** The tables are those of lens. */
    ghost predicate Ready()
      reads this, look_up, tree
    {
      look_up.Length == FAST_LOOKUP_SIZE && Acceptable(lens) && |lens| <= 288 &&
      Built(lens, |lens|, paths, look_up[..], tree[..])
    }
  }

  lemma ViewLow(buffer: nat, k: nat)
    requires k <= 64
    ensures FromBits(View(buffer)[..k]) == Low(buffer, k)
  {
    SplitAt(buffer, k);
    ToBitsAppend(Low(buffer, k), k, High(buffer, k), 64 - k);
    FromToBits(Low(buffer, k), k);
    hide ToBits, FromBits, Pow2, Low, High;
    assert View(buffer)[..k] == ToBits(Low(buffer, k), k);
  }

  /** The ten bits looked up. */
  lemma ViewTen(buffer: nat)
    ensures 0 <= buffer % FAST_LOOKUP_SIZE < FAST_LOOKUP_SIZE
    ensures FromBits(View(buffer)[..FAST_LOOKUP_BITS]) % FAST_LOOKUP_SIZE == buffer % FAST_LOOKUP_SIZE
  {
    ViewLow(buffer, FAST_LOOKUP_BITS);
    Powers();
    hide View, FromBits, Pow2;
  }

  /** Bit n of the buffer. */
  function BitAt(buffer: nat, n: nat): (r: nat)
    ensures r < 2
  {
    High(buffer, n) % 2
  }

  lemma ViewBit(buffer: nat, n: nat)
    requires n < 64
    ensures View(buffer)[n] == (BitAt(buffer, n) == 1)
  {
    SplitAt(buffer, n);
    ToBitsAppend(Low(buffer, n), n, High(buffer, n), 64 - n);
    var t := ToBits(High(buffer, n), 64 - n);
    assert t[0] == (High(buffer, n) % 2 == 1);
    hide ToBits, Pow2, Low, High;
    assert View(buffer)[n] == t[0];
  }

  lemma ViewStart(buffer: nat, n: nat)
    requires buffer < Pow2(n) && n <= 64
    ensures View(buffer)[..n] == ToBits(buffer, n)
  {
    hide ToBits, Pow2;
    ToBitsAppend(buffer, n, 0, 64 - n);
    ZeroTimes(Pow2(n));
  }

  lemma ZeroTimes(p: nat)
    ensures 0 * p == 0
  {
  }

  // ---------------------------------------------------------------- what the tables yield

  /** From a node the walk always ends, within the longest code. */
  lemma {:induction false} WalkEndsAlways(lens: seq<nat>, paths: seq<Bits>, look: seq<int>, tree: seq<int>, v: Bits,
                                          j: nat, n: nat)
    requires Valid(lens) && Built(lens, |lens|, paths, look, tree) && |v| >= MAX_BITS && j < |paths| && n <= |v|
    requires paths[j] == v[..n]
    ensures n < MAX_BITS
    ensures var r := Walk(tree, -2 * j - 1, v, n);
            r.Some? && n < r.value.1 <= MAX_BITS && Ends(lens, paths, r.value.0, v, r.value.1)
    decreases MAX_BITS - n
  {
    hide *;
    NodeShort(lens, paths, look, tree, j);
    TreeRoom(lens, paths, look, tree, j);
    var p, b := v[..n + 1], v[n];
    assert p == paths[j] + [b];
    var e := tree[Slot(j, b)];
    SlotIs(lens, paths, look, tree, j, b);
    WalkStep(tree, j, v, n);
    if e >= 0 {
      WalkEnds(tree, e, v, n + 1);
      EndsNow(lens, paths, e, v, n + 1, j);
    } else {
      var j' := NegativeIsNode(lens, paths, e, p);
      WalkEndsAlways(lens, paths, look, tree, v, j', n + 1);
    }
  }

  /** The walk along v ended after n bits, at an entry that is not a node. */
  ghost predicate Ends(lens: seq<nat>, paths: seq<Bits>, e: int, v: Bits, n: nat)
  {
    e >= 0 && 0 < n <= |v| && TreeSlot(lens, |lens|, paths, e, v[..n]) && v[..n - 1] in paths
  }

  lemma EndsNow(lens: seq<nat>, paths: seq<Bits>, e: int, v: Bits, n: nat, j: nat)
    requires e >= 0 && 0 < n <= |v| && TreeSlot(lens, |lens|, paths, e, v[..n]) && j < |paths| && paths[j] == v[..n - 1]
    ensures Ends(lens, paths, e, v, n)
  {
    hide TreeSlot;
  }

  lemma NodeShort(lens: seq<nat>, paths: seq<Bits>, look: seq<int>, tree: seq<int>, j: nat)
    requires Valid(lens) && Built(lens, |lens|, paths, look, tree) && j < |paths|
    ensures |paths[j]| < MAX_BITS && MAX_BITS == 15 && Inner(lens, paths[j])
  {
    PathLong(lens, paths, j);
    hide CodeBits, LookAll, TreeAll;
    var t: nat :| Leads(lens, t, paths[j]);
  }

  lemma NegativeIsNode(lens: seq<nat>, paths: seq<Bits>, e: int, p: Bits) returns (j: nat)
    requires TreeSlot(lens, |lens|, paths, e, p) && e < 0
    ensures j < |paths| && paths[j] == p && e == -2 * j - 1
  {
    j :| 0 <= j < |paths| && paths[j] == p && e == -2 * j - 1;
  }

  lemma NegativeIsRoot(lens: seq<nat>, paths: seq<Bits>, e: int, p: Bits) returns (j: nat)
    requires LookSlot(lens, |lens|, paths, e, p) && e < 0
    ensures j < |paths| && paths[j] == p && e == -2 * j - 1
  {
    j :| 0 <= j < |paths| && paths[j] == p && e == -2 * j - 1;
  }

  /** What a decoded symbol can be, on any bits: a code there is, or nothing. */
  ghost predicate Yields(lens: seq<nat>, paths: seq<Bits>, v: Bits, sym: int, len: nat)
  {
    0 <= sym < 512 && len <= MAX_BITS && (sym < |lens| || sym == 0) &&
    ((len == 0 && sym == 0) || (0 < len && sym < |lens| && lens[sym] == len && CodeBits(lens, sym) <= v) ||
     Ends(lens, paths, sym, v, len))
  }

  lemma LookupYields(lens: seq<nat>, paths: seq<Bits>, look: seq<int>, tree: seq<int>, v: Bits)
    requires Valid(lens) && |lens| <= 288 && Built(lens, |lens|, paths, look, tree) && |v| >= MAX_BITS
    ensures |look| == FAST_LOOKUP_SIZE && |v| >= FAST_LOOKUP_BITS
    ensures var r := Lookup(look, tree, v); r.Some? && Yields(lens, paths, v, r.value.0, r.value.1)
  {
    hide *;
    BuiltSize(lens, paths, look, tree);
    TenIs();
    FifteenIs();
    var p := v[..FAST_LOOKUP_BITS];
    LookIs(look, v);
    var x := FromBits(p);
    LookAt(lens, paths, look, tree, x);
    LookupIs(look, tree, v, look[x]);
    var e := look[x];
    if e < 0 {
      var j := NegativeIsRoot(lens, paths, e, p);
      WalkEndsAlways(lens, paths, look, tree, v, j, FAST_LOOKUP_BITS);
      var r := Walk(tree, e, v, FAST_LOOKUP_BITS);
      TreeYields(lens, paths, v, r.value.0, r.value.1);
    } else {
      EntryYields(lens, paths, v, e);
    }
  }

  lemma FifteenIs()
    ensures MAX_BITS == 15
  {
  }

  lemma TreeYields(lens: seq<nat>, paths: seq<Bits>, v: Bits, sym: int, len: nat)
    requires Ends(lens, paths, sym, v, len) && len <= MAX_BITS && |lens| <= 288
    ensures Yields(lens, paths, v, sym, len)
  {
    hide CodeBits, NodeSlot;
  }

  lemma EntryYields(lens: seq<nat>, paths: seq<Bits>, v: Bits, e: int)
    requires Valid(lens) && |lens| <= 288 && e >= 0 && |v| >= FAST_LOOKUP_BITS
    requires LookSlot(lens, |lens|, paths, e, v[..FAST_LOOKUP_BITS])
    ensures 0 <= e / 512 && Yields(lens, paths, v, e % 512, e / 512)
  {
    hide CodeBits, NodeSlot;
    if e > 0 {
      var s: nat :| Entered(lens, |lens|, s) && CodeBits(lens, s) <= v[..FAST_LOOKUP_BITS] && e == 512 * lens[s] + s;
      assert e % 512 == s && e / 512 == lens[s];
      PrefixTrans(CodeBits(lens, s), v, FAST_LOOKUP_BITS);
    }
  }

  lemma PrefixTrans(c: Bits, v: Bits, n: nat)
    requires n <= |v| && c <= v[..n]
    ensures c <= v
  {
  }

  /** The first bits of v are the first of todo. */
  ghost predicate Shares(v: Bits, todo: Bits, n: nat)
  {
    n <= |v| && n <= |todo| && v[..n] == todo[..n]
  }

  lemma SharesPrefix(v: Bits, todo: Bits, n: nat, c: Bits)
    requires Shares(v, todo, n) && |c| <= n
    ensures c <= v <==> c <= todo
  {
    assert v[..|c|] == v[..n][..|c|] && todo[..|c|] == todo[..n][..|c|];
  }

  /** If the code that comes next is all in the buffer, it is decoded. */
  lemma DecodesShared(lens: seq<nat>, paths: seq<Bits>, look: seq<int>, tree: seq<int>, v: Bits, todo: Bits, n: nat,
                      s: nat)
    requires Valid(lens) && |lens| <= 288 && Built(lens, |lens|, paths, look, tree) && |v| >= MAX_BITS
    requires Shares(v, todo, n)
    requires Heads(lens, s, todo) && lens[s] <= n
    ensures |look| == FAST_LOOKUP_SIZE && |v| >= FAST_LOOKUP_BITS && Lookup(look, tree, v) == Some((s, lens[s]))
  {
    SharesPrefix(v, todo, n, CodeBits(lens, s));
    hide Built, Valid, Lookup, CodeBits;
    LookupDecodes(lens, paths, look, tree, s, v);
  }

  /** If it is not, nothing is decoded from the bits that are. */
  lemma NothingShared(lens: seq<nat>, paths: seq<Bits>, v: Bits, todo: Bits, n: nat, s: nat, sym: int, len: nat)
    requires Valid(lens) && GoodPaths(lens, paths) && Shares(v, todo, n) && Heads(lens, s, todo) && lens[s] > n
    requires Yields(lens, paths, v, sym, len) && 0 < len
    ensures len > n
  {
    if Ends(lens, paths, sym, v, len) {
      if len <= n {
        BitsLead(lens, v, todo, n, s, len);
        LeadsToNode(lens, paths, sym, v[..len], s);
      }
    } else if len <= n {
      SharesPrefix(v, todo, n, CodeBits(lens, sym));
      hide CodeBits, Valid;
      PrefixFree(lens, s, sym, todo);
    }
  }

  lemma BitsLead(lens: seq<nat>, v: Bits, todo: Bits, n: nat, s: nat, len: nat)
    requires Shares(v, todo, n) && Heads(lens, s, todo) && lens[s] > n >= len
    ensures Leads(lens, s, v[..len])
  {
    var c := CodeBits(lens, s);
    assert v[..len] == v[..n][..len] == todo[..n][..len] == todo[..len];
    assert todo[..len] == c[..len];
    hide CodeBits;
  }

  /** What is on the way to a code is a node. */
  lemma LeadsToNode(lens: seq<nat>, paths: seq<Bits>, e: int, p: Bits, s: nat)
    requires Valid(lens) && GoodPaths(lens, paths) && TreeSlot(lens, |lens|, paths, e, p) && Leads(lens, s, p)
    ensures e < 0
  {
    hide CodeBits, Valid, NodeSlot;
    assert Entered(lens, |lens|, s);
    if e > 0 {
      NoCodeAbove(lens, e, p);
      assert false;
    }
  }

  // ---------------------------------------------------------------- decoding

  /** Follows the tree from node e0, as long as there are bits for it. */
  method Follow(t: Table, buffer: nat, e0: int, limit: nat, ghost j0: nat) returns (temp: int, code_len: nat)
    requires t.Ready() && e0 == -2 * j0 - 1 && j0 < |t.paths| && t.paths[j0] == View(buffer)[..FAST_LOOKUP_BITS]
    ensures 0 < code_len <= MAX_BITS && (limit > FAST_LOOKUP_BITS ==> code_len <= limit)
    ensures temp >= 0 ==> Walk(t.tree[..], e0, View(buffer), FAST_LOOKUP_BITS) == Some((temp, code_len))
    ensures temp < 0 ==> Walk(t.tree[..], e0, View(buffer), FAST_LOOKUP_BITS).Some? &&
                         Walk(t.tree[..], e0, View(buffer), FAST_LOOKUP_BITS).value.1 > limit
  {
    hide *;
    TenIs();
    FifteenIs();
    temp, code_len := e0, FAST_LOOKUP_BITS;
    ghost var j, v, tr := j0, View(buffer), t.tree[..];
    StepFacts(t, v, j, code_len);
    temp, j := FollowOne(t, buffer, temp, code_len, j);
    code_len := code_len + 1;
    while temp < 0 && limit >= code_len + 1
      invariant 0 < code_len <= MAX_BITS && Walk(tr, e0, v, FAST_LOOKUP_BITS) == Walk(tr, temp, v, code_len)
      invariant limit > FAST_LOOKUP_BITS ==> code_len <= limit
      invariant temp < 0 ==> AtPath(t, v, temp, j, code_len)
      decreases MAX_BITS - code_len
    {
      AtPathGives(t, v, temp, j, code_len);
      StepFacts(t, v, j, code_len);
      temp, j := FollowOne(t, buffer, temp, code_len, j);
      code_len := code_len + 1;
    }
    if temp >= 0 {
      WalkEnds(tr, temp, v, code_len);
    } else {
      AtPathGives(t, v, temp, j, code_len);
      WalkLonger(t, v, j, code_len);
    }
  }

  /** temp is the node that the first n bits of v lead to. */
  ghost predicate AtPath(t: Table, v: Bits, temp: int, j: nat, n: nat)
    reads t
  {
    n <= |v| && j < |t.paths| && t.paths[j] == v[..n] && temp == -2 * j - 1
  }

  lemma AtPathGives(t: Table, v: Bits, temp: int, j: nat, n: nat)
    requires AtPath(t, v, temp, j, n)
    ensures n <= |v| && j < |t.paths| && t.paths[j] == v[..n] && temp == -2 * j - 1
  {
  }

  lemma AtPathNow(t: Table, v: Bits, temp: int, j: nat, n: nat)
    requires n <= |v| && j < |t.paths| && t.paths[j] == v[..n] && temp == -2 * j - 1
    ensures AtPath(t, v, temp, j, n)
  {
  }

  lemma StepFacts(t: Table, v: Bits, j: nat, n: nat)
    requires t.Ready() && |v| == 64 && j < |t.paths| && n <= |v| && t.paths[j] == v[..n]
    ensures n < MAX_BITS && MAX_BITS == 15 && Slot(j, true) < t.tree.Length
  {
    ReadyGives(t);
    hide *;
    FifteenIs();
    NodeShort(t.lens, t.paths, t.look_up[..], t.tree[..], j);
    TreeRoom(t.lens, t.paths, t.look_up[..], t.tree[..], j);
  }

  lemma ReadyGives(t: Table)
    requires t.Ready()
    ensures Valid(t.lens) && Acceptable(t.lens) && |t.lens| <= 288
    ensures Built(t.lens, |t.lens|, t.paths, t.look_up[..], t.tree[..])
    ensures GoodPaths(t.lens, t.paths) && t.look_up.Length == FAST_LOOKUP_SIZE
  {
    hide GoodPaths, LookAll, TreeAll;
  }

  /** One bit further down the tree. */
  method FollowOne(t: Table, buffer: nat, temp0: int, n: nat, ghost j0: nat) returns (temp: int, ghost j: nat)
    requires t.Ready() && temp0 == -2 * j0 - 1 && j0 < |t.paths| && n < MAX_BITS && t.paths[j0] == View(buffer)[..n]
    ensures Walk(t.tree[..], temp0, View(buffer), n) == Walk(t.tree[..], temp, View(buffer), n + 1)
    ensures temp < 0 ==> AtPath(t, View(buffer), temp, j, n + 1)
  {
    hide *;
    FifteenIs();
    ReadyGives(t);
    ghost var v, tr, b := View(buffer), t.tree[..], BitAt(buffer, n) == 1;
    TreeRoom(t.lens, t.paths, t.look_up[..], tr, j0);
    ViewBit(buffer, n);
    SlotOf(j0, BitAt(buffer, n));
    SlotIs(t.lens, t.paths, t.look_up[..], tr, j0, b);
    WalkStep(tr, j0, v, n);
    Complement(temp0, BitAt(buffer, n), Slot(j0, b));
    temp := t.tree[-temp0 - 1 + BitAt(buffer, n)];
    assert v[..n + 1] == t.paths[j0] + [b];
    j := 0;
    if temp < 0 {
      j := NegativeIsNode(t.lens, t.paths, temp, v[..n + 1]);
      AtPathNow(t, v, temp, j, n + 1);
    }
  }

  lemma Complement(temp0: int, bit: nat, slot: nat)
    requires -(temp0 - bit) - 1 == slot
    ensures -temp0 - 1 + bit == slot
  {
  }

  lemma WalkLonger(t: Table, v: Bits, j: nat, n: nat)
    requires t.Ready() && |v| >= MAX_BITS && j < |t.paths| && n <= |v| && t.paths[j] == v[..n]
    ensures var r := Walk(t.tree[..], -2 * j - 1, v, n); r.Some? && r.value.1 > n
  {
    ReadyGives(t);
    hide *;
    WalkEndsAlways(t.lens, t.paths, t.look_up[..], t.tree[..], v, j, n);
  }

  /** Symbol and length that the tables yield for what is in the buffer. */
  ghost function Found(t: Table, buffer: nat): (r: (int, nat))
    requires t.Ready()
    reads t, t.look_up, t.tree
  {
    ReadyGives(t);
    LookupYields(t.lens, t.paths, t.look_up[..], t.tree[..], View(buffer));
    Lookup(t.look_up[..], t.tree[..], View(buffer)).value
  }

  lemma FoundIs(t: Table, buffer: nat)
    requires t.Ready()
    ensures t.look_up.Length == FAST_LOOKUP_SIZE && FAST_LOOKUP_BITS <= 64
    ensures Lookup(t.look_up[..], t.tree[..], View(buffer)) == Some((Found(t, buffer).0, Found(t, buffer).1))
    ensures Yields(t.lens, t.paths, View(buffer), Found(t, buffer).0, Found(t, buffer).1)
  {
    ReadyGives(t);
    LookupYields(t.lens, t.paths, t.look_up[..], t.tree[..], View(buffer));
    hide Lookup, Yields, View;
  }

  /** The entry of the look-up for the bits in the buffer, and the node it stands for. */
  lemma EntryIs(t: Table, buffer: nat) returns (j: nat)
    requires t.Ready()
    ensures 0 <= buffer % FAST_LOOKUP_SIZE < t.look_up.Length == FAST_LOOKUP_SIZE && FAST_LOOKUP_BITS <= 64
    ensures var e := t.look_up[buffer % FAST_LOOKUP_SIZE];
            Lookup(t.look_up[..], t.tree[..], View(buffer)) ==
              (if e >= 0 then Some((e % 512, e / 512)) else Walk(t.tree[..], e, View(buffer), FAST_LOOKUP_BITS)) &&
            (e < 0 ==> e == -2 * j - 1 && j < |t.paths| && t.paths[j] == View(buffer)[..FAST_LOOKUP_BITS])
  {
    hide *;
    ReadyGives(t);
    TenIs();
    ViewTen(buffer);
    var lk, v := t.look_up[..], View(buffer);
    LookIs(lk, v);
    var x: nat := buffer % FAST_LOOKUP_SIZE;
    LookAt(t.lens, t.paths, lk, t.tree[..], x);
    LookupIs(lk, t.tree[..], v, lk[x]);
    j := 0;
    if lk[x] < 0 { j := NegativeIsRoot(t.lens, t.paths, lk[x], v[..FAST_LOOKUP_BITS]); }
  }

  /** The symbol for what is in the buffer. */
  method LookUp(buffer: nat, t: Table) returns (sym: nat, code_len: nat)
    requires t.Ready()
    ensures (sym, code_len) == Found(t, buffer)
  {
    ghost var j := EntryIs(t, buffer);
    FoundIs(t, buffer);
    EntryNat(t.look_up[buffer % FAST_LOOKUP_SIZE]);
    FifteenIs();
    hide *;
    var temp := t.look_up[buffer % FAST_LOOKUP_SIZE];
    if temp >= 0 {
      sym, code_len := temp % 512, temp / 512;
    } else {
      temp, code_len := Follow(t, buffer, temp, MAX_BITS, j);
      NotLonger(t, buffer);
      sym := temp;
    }
  }

  lemma EntryNat(e: int)
    ensures e >= 0 ==> e % 512 >= 0 && e / 512 >= 0
  {
  }

  lemma NotLonger(t: Table, buffer: nat)
    requires t.Ready()
    ensures Found(t, buffer).1 <= MAX_BITS
  {
    FoundIs(t, buffer);
    hide Lookup, Found, View;
  }

  /** Whether the bits in the buffer hold all of a code. */
  method CodeComplete(buffer: nat, num_bits: nat, t: Table) returns (b: bool)
    requires t.Ready()
    ensures b <==> 0 < Found(t, buffer).1 <= num_bits
  {
    ghost var j := EntryIs(t, buffer);
    FoundIs(t, buffer);
    TenIs();
    EntryNat(t.look_up[buffer % FAST_LOOKUP_SIZE]);
    hide *;
    var temp := t.look_up[buffer % FAST_LOOKUP_SIZE];
    var code_len;
    if temp >= 0 {
      code_len := temp / 512;
      b := code_len != 0 && num_bits >= code_len;
    } else if num_bits > FAST_LOOKUP_BITS {
      temp, code_len := Follow(t, buffer, temp, num_bits, j);
      b := temp >= 0;
    } else {
      b := false;
      ReadyGives(t);
      FifteenIs();
      WalkEndsAlways(t.lens, t.paths, t.look_up[..], t.tree[..], View(buffer), j, FAST_LOOKUP_BITS);
    }
  }

  /** The code that comes next, if there is one, is longer than n. */
  ghost predicate Unfinished(lens: seq<nat>, todo: Bits, n: nat)
  {
    forall s: nat :: Heads(lens, s, todo) ==> lens[s] > n
  }

  lemma ReaderShares(r: BitReader)
    requires r.Valid()
    ensures Shares(View(r.bit_buf), r.todo, r.num_bits) && r.num_bits <= 64
  {
    r.ValidGives();
    ViewStart(r.bit_buf, r.num_bits);
    hide View;
  }

  /** Whether the buffer holds all of the next code decides how far to read. */
  lemma CompleteMeans(r: BitReader, t: Table)
    requires r.Valid() && t.Ready()
    ensures !(0 < Found(t, r.bit_buf).1 <= r.num_bits) ==> Unfinished(t.lens, r.todo, r.num_bits)
    ensures 0 < Found(t, r.bit_buf).1 <= r.num_bits ==>
              forall s: nat :: Heads(t.lens, s, r.todo) ==> t.lens[s] <= r.num_bits
  {
    var v, todo, n := View(r.bit_buf), r.todo, r.num_bits;
    ReaderShares(r);
    ReadyGives(t);
    FoundIs(t, r.bit_buf);
    FifteenIs();
    hide Found, View, Lookup, Yields, Valid, Built, Shares, GoodPaths, Acceptable;
    forall s: nat | Heads(t.lens, s, todo)
      ensures if 0 < Found(t, r.bit_buf).1 <= n then t.lens[s] <= n else t.lens[s] > n
    {
      if t.lens[s] <= n {
        DecodesShared(t.lens, t.paths, t.look_up[..], t.tree[..], v, todo, n, s);
      } else if 0 < Found(t, r.bit_buf).1 {
        NothingShared(t.lens, t.paths, v, todo, n, s, Found(t, r.bit_buf).0, Found(t, r.bit_buf).1);
      }
    }
  }

  /** With all of the next code in the buffer, or 15 bits, decoding gives what the bits say. */
  lemma FoundMeans(r: BitReader, t: Table, s: nat)
    requires r.Valid() && t.Ready() && Heads(t.lens, s, r.todo) && t.lens[s] <= r.num_bits
    ensures Found(t, r.bit_buf) == (s, t.lens[s])
  {
    ReaderShares(r);
    ReadyGives(t);
    FoundIs(t, r.bit_buf);
    FifteenIs();
    hide Found, View, Lookup, Yields, Valid, Built, Shares, GoodPaths, Acceptable;
    DecodesShared(t.lens, t.paths, t.look_up[..], t.tree[..], View(r.bit_buf), r.todo, r.num_bits, s);
  }

  /** Reads byte by byte until the buffer holds all of a code, or 15 bits. */
  method Fill(r: BitReader, t: Table, resumed: bool) returns (ok: bool)
    requires r.Valid() && t.Ready() && r.num_bits < 15 && (resumed ==> Unfinished(t.lens, r.todo, r.num_bits))
    modifies r`bit_buf, r`num_bits, r`cur
    ensures r.Valid() && t.Ready() && r.num_bits - 8 * r.cur == old(r.num_bits) - 8 * old(r.cur) && r.cur >= old(r.cur)
    ensures ok ==> 15 <= r.num_bits <= 22 || 0 < Found(t, r.bit_buf).1 <= r.num_bits < 15
    ensures !ok ==> r.cur == |r.in_buf| && r.num_bits < 15 && Unfinished(t.lens, r.todo, r.num_bits)
  {
    hide *;
    var check := !resumed;
    while true
      invariant r.Valid() && t.Ready() && r.num_bits - 8 * r.cur == old(r.num_bits) - 8 * old(r.cur)
      invariant r.cur >= old(r.cur)
      invariant r.num_bits < 15 && (!check ==> Unfinished(t.lens, r.todo, r.num_bits))
      decreases 15 - r.num_bits
    {
      if check {
        CompleteMeans(r, t);
        var complete := CodeComplete(r.bit_buf, r.num_bits, t);
        if complete {
          return true;
        }
      }
      RoomInBuffer(r);
      if r.cur >= |r.in_buf| {
        return false;
      }
      r.AddByte();
      check := true;
      if r.num_bits >= 15 {
        return true;
      }
    }
  }

  lemma RoomInBuffer(r: BitReader)
    requires r.Valid()
    ensures r.cur <= |r.in_buf| && (r.num_bits < 24 ==> r.num_bits + 8 <= (if r.wide then 64 else 32))
  {
  }

  /** Decodes the next symbol, if there is input enough. */
  method HuffDecode(r: BitReader, t: Table, resumed: bool) returns (ok: bool, sym: nat)
    requires r.Valid() && t.Ready() && (resumed ==> Unfinished(t.lens, r.todo, r.num_bits) && r.num_bits < 15)
    modifies r`bit_buf, r`num_bits, r`cur, r`todo
    ensures r.Valid() && t.Ready() && r.cur >= old(r.cur)
    ensures ok ==> sym < 512 && (sym < |t.lens| || sym == 0) && Decoded(t.lens, old(r.todo), sym, r.todo)
    ensures ok ==> r.num_bits - 8 * r.cur == old(r.num_bits) - 8 * old(r.cur) - (|old(r.todo)| - |r.todo|)
    ensures ok ==> |r.todo| <= |old(r.todo)|
    ensures !ok ==> r.cur == |r.in_buf| && r.num_bits < 15 && Unfinished(t.lens, r.todo, r.num_bits)
    ensures !ok ==> r.todo == old(r.todo)
    ensures !ok ==> r.num_bits - 8 * r.cur == old(r.num_bits) - 8 * old(r.cur)
  {
    hide *;
    if r.num_bits < 15 {
      RoomInBuffer(r);
      if |r.in_buf| - r.cur < 2 || resumed {
        ok := Fill(r, t, resumed);
        if !ok {
          sym := 0;
          return;
        }
      } else {
        r.AddByte();
        RoomInBuffer(r);
        r.AddByte();
      }
    }
    ok := true;
    sym := DecodeBuffered(r, t);
  }

  /** Decodes the next symbol from the bits in the buffer, which are enough for it. */
  method DecodeBuffered(r: BitReader, t: Table) returns (sym: nat)
    requires r.Valid() && t.Ready() && (r.num_bits >= 15 || 0 < Found(t, r.bit_buf).1 <= r.num_bits)
    modifies r`bit_buf, r`num_bits, r`todo
    ensures r.Valid() && t.Ready() && sym < 512 && (sym < |t.lens| || sym == 0)
    ensures Decoded(t.lens, old(r.todo), sym, r.todo)
    ensures r.num_bits == old(r.num_bits) - (|old(r.todo)| - |r.todo|) && |r.todo| <= |old(r.todo)| <= |r.todo| + 15
  {
    hide *;
    ReadyGives(t);
    ghost var todo0 := r.todo;
    FoundFits(t, r.bit_buf);
    if r.num_bits < 15 { CompleteMeans(r, t); }
    ghost var s := NextSymbol(r, t);
    NoSymbolThere(r, t);
    var code_len;
    sym, code_len := LookUp(r.bit_buf, t);
    r.Drop(code_len);
    DropSize(todo0, code_len);
    DecodedNow(t.lens, todo0, sym, code_len, s);
  }

  lemma DropSize(todo: Bits, k: nat)
    requires k <= |todo|
    ensures |todo[k..]| == |todo| - k
  {
  }

  lemma FoundFits(t: Table, buffer: nat)
    requires t.Ready()
    ensures 0 <= Found(t, buffer).0 < 512 && Found(t, buffer).1 <= 15
    ensures Found(t, buffer).0 < |t.lens| || Found(t, buffer).0 == 0
    ensures Found(t, buffer).1 == 0 ==> Found(t, buffer).0 == 0
  {
    FoundIs(t, buffer);
    hide Lookup, Found, View, Ends;
    ShortEnd(t, buffer);
  }

  lemma ShortEnd(t: Table, buffer: nat)
    requires t.Ready()
    ensures Found(t, buffer).1 == 0 ==> Found(t, buffer).0 == 0
  {
    FoundIs(t, buffer);
    hide Lookup, Found, View, CodeBits;
  }

  /** If a code comes next: which, and that it is what the tables yield. */
  lemma NextSymbol(r: BitReader, t: Table) returns (s: nat)
    requires r.Valid() && t.Ready()
    requires r.num_bits < 15 ==> forall x: nat :: Heads(t.lens, x, r.todo) ==> t.lens[x] <= r.num_bits
    ensures (exists x: nat :: Heads(t.lens, x, r.todo)) ==>
              Heads(t.lens, s, r.todo) && Found(t, r.bit_buf) == (s, t.lens[s])
  {
    ReadyGives(t);
    hide Found, Built, GoodPaths, Acceptable;
    if x: nat :| Heads(t.lens, x, r.todo) {
      s := x;
      FifteenIs();
      FoundMeans(r, t, s);
    } else {
      s := 0;
    }
  }

  lemma NoSymbolThere(r: BitReader, t: Table)
    requires r.Valid() && t.Ready() && (r.num_bits >= 15 || 0 < Found(t, r.bit_buf).1 <= r.num_bits)
    ensures (forall x: nat :: !Heads(t.lens, x, r.todo)) ==> NoCode(t.lens, r.todo)
  {
    ReadyGives(t);
    hide *;
    if forall x: nat :: !Heads(t.lens, x, r.todo) {
      FifteenIs();
      r.ValidGives();
      if r.num_bits >= 15 { NoneOfMany(t.lens, r.todo); } else { NoneInTree(r, t); }
    }
  }

  /** However they go on, the bits do not begin with a code. */
  ghost predicate NoCode(lens: seq<nat>, todo: Bits)
  {
    forall s: nat :: s < |lens| && lens[s] > 0 ==> !(CodeBits(lens, s) <= todo) && !(todo <= CodeBits(lens, s))
  }

  lemma NoCodeNone(lens: seq<nat>, todo: Bits)
    requires NoCode(lens, todo)
    ensures DecodeSym(lens, todo).None?
  {
    hide CodeBits;
  }

  /** Where no code begins 15 bits or more, none does however they go on. */
  lemma NoneOfMany(lens: seq<nat>, todo: Bits)
    requires Valid(lens) && |todo| >= MAX_BITS && forall x: nat :: !Heads(lens, x, todo)
    ensures NoCode(lens, todo)
  {
    hide CodeBits, FilledBy;
    forall s: nat | s < |lens| && lens[s] > 0
      ensures !(CodeBits(lens, s) <= todo) && !(todo <= CodeBits(lens, s))
    {
      assert !Heads(lens, s, todo);
    }
  }

  /** Neither does one where the tables yield something short, but no code is there. */
  lemma NoneInTree(r: BitReader, t: Table)
    requires r.Valid() && t.Ready() && 0 < Found(t, r.bit_buf).1 <= r.num_bits
    requires forall x: nat :: !Heads(t.lens, x, r.todo)
    ensures NoCode(t.lens, r.todo)
  {
    var v, todo, n := View(r.bit_buf), r.todo, r.num_bits;
    var (sym, len) := Found(t, r.bit_buf);
    ReaderShares(r);
    ReadyGives(t);
    FoundIs(t, r.bit_buf);
    hide Found, View, Lookup, Valid, Built, GoodPaths, Acceptable, CodeBits, Ends;
    assert !Heads(t.lens, sym, todo);
    NotHere(t.lens, sym, len, v, todo, n);
    hide Shares, Heads;
    EndsNoCode(t.lens, t.paths, v, todo, n, sym, len);
  }

  lemma NotHere(lens: seq<nat>, sym: nat, len: nat, v: Bits, todo: Bits, n: nat)
    requires Shares(v, todo, n) && 0 < len <= n && !Heads(lens, sym, todo)
    ensures !(sym < |lens| && lens[sym] == len && CodeBits(lens, sym) <= v)
  {
    if sym < |lens| && lens[sym] == len { SharesPrefix(v, todo, n, CodeBits(lens, sym)); }
    hide CodeBits;
  }

  lemma EndsNoCode(lens: seq<nat>, paths: seq<Bits>, v: Bits, todo: Bits, n: nat, sym: int, len: nat)
    requires Valid(lens) && GoodPaths(lens, paths) && Shares(v, todo, n) && 0 < len <= n
    requires Ends(lens, paths, sym, v, len) && forall x: nat :: !Heads(lens, x, todo)
    ensures NoCode(lens, todo)
  {
    hide CodeBits, Valid, GoodPaths, TreeSlot;
    forall s: nat | s < |lens| && lens[s] > 0
      ensures !(CodeBits(lens, s) <= todo) && !(todo <= CodeBits(lens, s))
    {
      assert !Heads(lens, s, todo);
      if todo <= CodeBits(lens, s) {
        assert |todo| < |CodeBits(lens, s)|;
        assert v[..len] == v[..n][..len] == todo[..n][..len] == todo[..len] == CodeBits(lens, s)[..len];
        assert Leads(lens, s, v[..len]);
        LeadsToNode(lens, paths, sym, v[..len], s);
        assert false;
      }
    }
  }

  /** sym is the symbol that todo begins with, and todo' what comes after it, if todo begins with one. */
  ghost predicate Decoded(lens: seq<nat>, todo: Bits, sym: nat, todo': Bits)
  {
    Valid(lens) && (DecodeSym(lens, todo).Some? ==> DecodeSym(lens, todo) == Some((sym, todo'))) &&
    (DecodeSym(lens, todo).None? ==> NoCode(lens, todo)) &&
    |todo'| <= |todo| && (|todo'| == |todo| ==> sym == 0)
  }

  lemma DecodedNow(lens: seq<nat>, todo: Bits, sym: nat, len: nat, s: nat)
    requires Valid(lens) && len <= |todo| && (len == 0 ==> sym == 0)
    requires (exists x: nat :: Heads(lens, x, todo)) ==> Heads(lens, s, todo) && (sym, len) == (s, lens[s])
    requires (forall x: nat :: !Heads(lens, x, todo)) ==> NoCode(lens, todo)
    ensures Decoded(lens, todo, sym, todo[len..])
  {
    hide Valid, CodeBits, NoCode;
    if DecodeSym(lens, todo).Some? {
      var x: nat :| Heads(lens, x, todo) && DecodeSym(lens, todo) == Some((x, todo[lens[x]..]));
      PrefixFree(lens, s, x, todo);
    }
  }
}
