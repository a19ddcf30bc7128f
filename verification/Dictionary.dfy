/**
  The ring dictionary of the compressor with its hash chains, and the search for matches in it.
 */
module Dictionary {
  import opened Bits
  import opened LzRecords
  import opened Chains

  /** a + b less c, in 32 bits. */
  function Sub32(a: nat, c: nat): (r: nat)
    requires c <= U32
    ensures r < U32
  {
    (a + U32 - c) % U32
  }

  lemma RingStep(p: nat, i: nat)
    requires i <= LZ_DICT_SIZE
    ensures Ring(p + i) == if Ring(p) + i < LZ_DICT_SIZE then Ring(p) + i else Ring(p) + i - LZ_DICT_SIZE
  {
  }

  lemma Ring32(p: nat)
    ensures Ring(p % U32) == Ring(p)
  {
  }

  /** The dictionary holds input[lo..], and again at its end what is at its beginning. */
  ghost predicate Window(dict: seq<byte>, input: seq<byte>, lo: nat)
  {
    |dict| == LZ_DICT_SIZE + MAX_MATCH_LEN - 1 && lo <= |input| <= lo + LZ_DICT_SIZE &&
    forall p :: lo <= p < |input| ==> HoldsAt(dict, input, p)
  }

  ghost predicate HoldsAt(dict: seq<byte>, input: seq<byte>, p: nat)
    requires p < |input| && |dict| == LZ_DICT_SIZE + MAX_MATCH_LEN - 1
  {
    dict[Ring(p)] == input[p] && (Ring(p) < MAX_MATCH_LEN - 1 ==> dict[LZ_DICT_SIZE + Ring(p)] == input[p])
  }

  /** The bytes that follow a place in the window follow it in the dictionary, across its end. */
  lemma DictAt(dict: seq<byte>, input: seq<byte>, lo: nat, p: nat, i: nat)
    requires Window(dict, input, lo) && lo <= p && p + i < |input| && i < MAX_MATCH_LEN
    ensures Ring(p) + i < |dict| && dict[Ring(p) + i] == input[p + i]
  {
    hide Ring;
    RingStep(p, i);
    assert HoldsAt(dict, input, p + i);
  }

  lemma DictSlice(dict: seq<byte>, input: seq<byte>, lo: nat, p: nat, len: nat)
    requires Window(dict, input, lo) && lo <= p && p + len <= |input| && len <= MAX_MATCH_LEN
    ensures Ring(p) + len <= |dict| && dict[Ring(p)..Ring(p) + len] == input[p..p + len]
  {
    hide Window;
    assert |dict| == LZ_DICT_SIZE + MAX_MATCH_LEN - 1 by { WindowSize(dict, input, lo); }
    if len > 0 { DictAt(dict, input, lo, p, len - 1); }
    var l, r := dict[Ring(p)..Ring(p) + len], input[p..p + len];
    forall i | 0 <= i < len ensures l[i] == r[i] { DictAt(dict, input, lo, p, i); }
  }

  lemma WindowSize(dict: seq<byte>, input: seq<byte>, lo: nat)
    requires Window(dict, input, lo)
    ensures |dict| == LZ_DICT_SIZE + MAX_MATCH_LEN - 1
  {
  }

  /** The dictionary after one more byte of input. */
  ghost function Put(dict: seq<byte>, pos: nat, c: byte): (r: seq<byte>)
    requires |dict| == LZ_DICT_SIZE + MAX_MATCH_LEN - 1 && pos < LZ_DICT_SIZE
    ensures |r| == |dict|
  {
    var d := dict[pos := c];
    if pos < MAX_MATCH_LEN - 1 then d[LZ_DICT_SIZE + pos := c] else d
  }

  lemma WindowPut(dict: seq<byte>, input: seq<byte>, lo: nat, c: byte, lo': nat)
    requires Window(dict, input, lo) && lo <= lo' <= |input| + 1 <= lo' + LZ_DICT_SIZE
    ensures Window(Put(dict, Ring(|input|), c), input + [c], lo')
  {
    var dict', input' := Put(dict, Ring(|input|), c), input + [c];
    hide Ring;
    forall p | lo' <= p < |input'| ensures HoldsAt(dict', input', p) {
      if p < |input| {
        RingApart(p, |input|);
        assert HoldsAt(dict, input, p);
      }
    }
  }

  lemma WindowLater(dict: seq<byte>, input: seq<byte>, lo: nat, lo': nat)
    requires Window(dict, input, lo) && lo <= lo' <= |input|
    ensures Window(dict, input, lo')
  {
  }

  /** The oldest place of the input still in the ring. */
  function Oldest(lo: nat, n: nat): (r: nat)
  {
    if n > lo + LZ_DICT_SIZE then n - LZ_DICT_SIZE else lo
  }

  lemma LoadOne(dict: seq<byte>, input: seq<byte>, lo: nat, c: byte)
    requires lo <= |input| && Window(dict, input, Oldest(lo, |input|))
    ensures |dict| == LZ_DICT_SIZE + MAX_MATCH_LEN - 1
    ensures Window(Put(dict, Ring(|input|), c), input + [c], Oldest(lo, |input| + 1))
  {
    WindowPut(dict, input, Oldest(lo, |input|), c, Oldest(lo, |input| + 1));
  }

  lemma RingSum(p: nat, n: nat)
    ensures Ring((p % U32 + n) % U32) == Ring(p + n)
  {
    Wraps(p, n);
    hide Ring;
    Ring32(p + n);
  }

  lemma Wraps(p: nat, n: nat)
    ensures (p % U32 + n) % U32 == (p + n) % U32
  {
  }

  /** The distance from the lookahead to the place a link leads to. */
  function DistTo(lookahead_pos: nat, link: u16): (r: u16)
  {
    Low16(lookahead_pos + 65536 - link)
  }

  lemma BackIs(p: nat, link: u16)
    ensures DistTo(p % U32, link) == Back(p, link)
  {
  }

  lemma RingSize()
    ensures forall p :: 0 <= Ring(p) < 32768
  {
  }

  /** The bytes from a place on are in the dictionary. */
  lemma ThereAt(q: Quest, d: seq<byte>, r: nat, i: nat)
    requires Sane(q) && Window(d, q.all, q.p - q.max_dist) && r < q.p <= r + q.max_dist
    requires i < q.max_len <= MAX_MATCH_LEN
    ensures Ring(r) + i < |d| && r + i < |q.all| && d[Ring(r) + i] == q.all[r + i]
  {
    DictAt(d, q.all, q.p - q.max_dist, r, i);
  }

  lemma OnChainGives(q: Quest, r: nat, probe_pos: nat, dist: nat, len0: nat, left: int)
    requires Sane(q) && Comes(q, r, probe_pos, dist, len0, left)
    requires !NoneFrom(q.all, q.p, 0, q.max_dist, q.max_len, len0)
    ensures r < q.p <= r + q.max_dist && probe_pos == Ring(r) && q.p + q.max_len <= |q.all| && q.max_dist <= q.p
  {
    hide NoneFrom;
  }

  /** The two bytes tell that there is no longer match. */
  lemma Passes(q: Quest, d: seq<byte>, r: nat, probe_pos: nat, dist: nat, match_len: nat, left: int)
    requires Sane(q) && q.max_len <= MAX_MATCH_LEN && Window(d, q.all, q.p - q.max_dist)
    requires Comes(q, r, probe_pos, dist, match_len, left) && 2 <= match_len < q.max_len
    requires probe_pos + match_len < |d| && q.p + match_len < |q.all|
    requires d[probe_pos + match_len] != q.all[q.p + match_len] ||
             d[probe_pos + match_len - 1] != q.all[q.p + match_len - 1]
    ensures Came(q, r, probe_pos, match_len, left)
  {
    hide *;
    if !NoneFrom(q.all, q.p, 0, q.max_dist, q.max_len, match_len) {
      OnChainGives(q, r, probe_pos, dist, match_len, left);
      ThereAt(q, d, r, match_len);
      ThereAt(q, d, r, match_len - 1);
      SameIs(q.all, q.p, r, match_len);
      SameIs(q.all, q.p, r, match_len - 1);
    }
    Misses(q, r, probe_pos, dist, match_len, left);
  }

  lemma SameIs(all: seq<byte>, p: nat, q: nat, i: nat)
    requires p + i < |all| && q + i < |all|
    ensures SameAt(all, p, q, i) <==> all[p + i] == all[q + i]
  {
  }

  lemma LessLeft(q: Quest, r: nat, probe: Probe, probe_pos: nat, dist: nat, len0: nat, left: int, left': int)
    requires Sane(q) && left <= left'
    requires probe == Miss ==> Came(q, r, probe_pos, len0, left)
    requires probe == Hit ==> Comes(q, r, probe_pos, dist, len0, left)
    ensures probe == Miss ==> Came(q, r, probe_pos, len0, left')
    ensures probe == Hit ==> Comes(q, r, probe_pos, dist, len0, left')
  {
    hide *;
    if probe == Miss { CameLeft(q, r, probe_pos, len0, left, left'); }
    if probe == Hit { ComesLeft(q, r, probe_pos, dist, len0, left, left'); }
  }

  lemma GivesUp(q: Quest, r: nat, probe_pos: nat, found: bool, dist: nat, match_len: nat, left: nat)
    requires Sane(q) && (!found ==> Complete(q, match_len))
    requires found ==> left > 0 && dist == 0 && Comes(q, r, probe_pos, dist, match_len, left - 1)
    ensures NoneLonger(q.all, q.p, q.max_dist, q.max_len, q.n, match_len)
  {
    hide NoneFrom, NoneLonger, OnChain;
    if found { NoneFromAll(q.all, q.p, q.max_dist, q.max_len, q.n, match_len); }
  }

  /** What has been compared. */
  lemma Differ(q: Quest, d: seq<byte>, r: nat, pos: nat, probe_pos: nat, dist: nat, match_len: nat, left: int,
               probe_len: nat)
    requires Sane(q) && q.max_len <= MAX_MATCH_LEN && Window(d, q.all, q.p - q.max_dist)
    requires Comes(q, r, probe_pos, dist, match_len, left) && pos == Ring(q.p)
    requires probe_len < q.max_len ==>
               pos + probe_len < |d| && probe_pos + probe_len < |d| && d[pos + probe_len] != d[probe_pos + probe_len]
    ensures Came(q, r, probe_pos, if probe_len > match_len then probe_len else match_len, left)
  {
    hide *;
    SaneGives(q);
    if !NoneFrom(q.all, q.p, 0, q.max_dist, q.max_len, match_len) && probe_len < q.max_len {
      OnChainGives(q, r, probe_pos, dist, match_len, left);
      ThereAt(q, d, r, probe_len);
      DictAt(d, q.all, q.p - q.max_dist, q.p, probe_len);
      SameIs(q.all, q.p, r, probe_len);
    }
    Compared(q, r, probe_pos, dist, match_len, left, probe_len);
  }

  lemma SaneNow(q: Quest)
    requires q.lo <= q.p && q.p + 2 < |q.all| && q.max_dist <= q.p - q.lo && q.p + q.max_len <= |q.all|
    requires |q.all| + q.max_dist <= q.p + LZ_DICT_SIZE
    ensures Sane(q)
  {
  }

  lemma SaneGives(q: Quest)
    requires Sane(q)
    ensures q.max_dist <= q.p && q.p + q.max_len <= |q.all|
  {
  }

  lemma Low32(n: nat)
    ensures Ring(n % U32) == Ring(n) && Low16(n % U32) == Low16(n)
  {
    var k, m := n / U32, n % U32;
    assert n == m + 32768 * (131072 * k) && n == m + 65536 * (65536 * k);
    WholeRings(m, 131072 * k);
    WholeWords(m, 65536 * k);
  }

  lemma WholeRings(m: int, k: int)
    ensures (m + 32768 * k) % 32768 == m % 32768
  {
  }

  lemma WholeWords(m: int, k: int)
    ensures (m + 65536 * k) % 65536 == m % 65536
  {
  }

  lemma NextRing32(n: nat)
    ensures Ring(n % U32) == Ring(n) && Ring(n % U32 + 1) == Ring(n + 1)
  {
    Low32(n);
    NextRing(n % U32);
    NextRing(n);
    hide Ring;
  }

  /** The place that is c back from n after p. */
  lemma SubPlace(p: nat, n: nat, c: nat)
    requires c <= p + n && c <= U32
    ensures Sub32(p % U32 + n, c) == (p + n - c) % U32
  {
  }

  lemma WindowEmpty(dict: seq<byte>)
    requires |dict| == LZ_DICT_SIZE + MAX_MATCH_LEN - 1
    ensures Window(dict, [], 0)
  {
  }

  /** A byte that has been loaded. */
  lemma LoadedAt(dict: seq<byte>, all: seq<byte>, lo: nat, p: nat)
    requires lo <= p < |all| && |all| <= p + LZ_DICT_SIZE && Window(dict, all, Oldest(lo, |all|))
    ensures |dict| == LZ_DICT_SIZE + MAX_MATCH_LEN - 1 && dict[Ring(p)] == all[p]
  {
    assert HoldsAt(dict, all, p);
  }

  lemma RolledFirst(b0: byte, b1: byte)
    ensures Rolled(Xor(b0 as nat * 32, b1), b0, b1)
  {
  }

  lemma NextRing(p: nat)
    ensures Ring(Ring(p) + 1) == Ring(p + 1)
  {
  }

  datatype Probe = GiveUp | Miss | Hit

  class Dictionary {
    /** m_dict, m_next, m_hash. */
    const dict: array<byte>
    const next: array<u16>
    const hash: array<u16>
    var lookahead_pos: nat
    var lookahead_size: nat
    var dict_size: nat
    /** The bytes taken in: those that have been forgotten, and those since. */
    ghost var before: seq<byte>
    ghost var input: seq<byte>
    /** Whether the hash table was empty at the last fresh start. */
    ghost var chained: bool

    /** The arrays may hold anything; only the dictionary and the hash table are ever cleared. */
    constructor (clear: bool)
      ensures Valid() && before == input == [] && fresh(dict) && fresh(next) && fresh(hash)
      ensures lookahead_size == dict_size == 0 && chained == clear
    {
      hide Linked, Window;
      dict := new byte[LZ_DICT_SIZE + MAX_MATCH_LEN - 1];
      next := new u16[LZ_DICT_SIZE];
      hash := new u16[HASH_SIZE];
      lookahead_pos, lookahead_size, dict_size, before, input, chained := 0, 0, 0, [], [], clear;
      new;
      if clear {
        forall i | 0 <= i < HASH_SIZE { hash[i] := 0; }
        forall i | 0 <= i < dict.Length { dict[i] := 0; }
        LinkedFresh(next[..], hash[..], [], 0);
      }
      WindowEmpty(dict[..]);
    }

    /** Position of the lookahead in the input. */
    ghost function Pos(): (r: int)
      reads this
    {
      |input| - lookahead_size
    }

    /** All the bytes ever taken in. */
    ghost function All(): (r: seq<byte>)
      reads this`before, this`input
      ensures |r| == |before| + |input|
    {
      before + input
    }

    ghost predicate Shaped()
    {
      dict.Length == LZ_DICT_SIZE + MAX_MATCH_LEN - 1 && next.Length == LZ_DICT_SIZE && hash.Length == HASH_SIZE &&
      next != hash && dict as object != next && dict as object != hash
    }

    ghost predicate Counters()
      reads this
    {
      lookahead_size <= MAX_MATCH_LEN && lookahead_size + dict_size <= LZ_DICT_SIZE && dict_size <= Pos() &&
      lookahead_pos == (|before| + Pos()) % U32 && (dict_size == Pos() || dict_size + lookahead_size >= LZ_DICT_SIZE)
    }

    ghost predicate Valid()
      reads this, dict, next, hash
    {
      Shaped() && Counters() && Window(dict[..], All(), |before| + Pos() - dict_size) && Tied(Inserted())
    }

    /** The places that are on chains are those before which two more bytes are known. */
    ghost function Inserted(): (r: nat)
      reads this`before, this`input
    {
      |before| + if |input| >= 2 then |input| - 2 else 0
    }

    /** The chains hold the places up to n. */
    ghost predicate Tied(n: nat)
      reads this`before, this`input, this`chained, next, hash
    {
      chained ==> Linked(next[..], hash[..], All(), |before|, n)
    }

    /** A byte goes to its place in the ring, and to the copy of the beginning. */
    method PutDict(dst_pos: nat, c: byte)
      requires Shaped() && dst_pos < LZ_DICT_SIZE
      modifies dict
      ensures dict[..] == Put(old(dict[..]), dst_pos, c)
    {
      dict[dst_pos] := c;
      if dst_pos < MAX_MATCH_LEN - 1 {
        dict[LZ_DICT_SIZE + dst_pos] := c;
      }
    }

    /** Another byte of the input goes into the ring. */
    method PutNext(dst_pos: nat, c: byte, ghost pos: nat)
      requires Loading(pos) && dst_pos == Ring(|All()|) < LZ_DICT_SIZE
      modifies this`input, dict
      ensures Loading(pos) && input == old(input) + [c] && All() == old(All()) + [c]
      ensures forall n: nat :: old(Tied(n)) ==> Tied(n)
    {
      hide Window, Ring, Low16, Linked;
      ghost var d0, all := dict[..], All();
      ghost var nx: seq<u16>, hs: seq<u16> := next[..], hash[..];
      PutDict(dst_pos, c);
      LoadOne(d0, all, pos - dict_size, c);
      input := input + [c];
      assert All() == all + [c];
      assert next[..] == nx && hash[..] == hs;
      forall n: nat | old(Tied(n)) ensures Tied(n) {
        if chained { LinkedGrown(nx, hs, all, All(), |before|, n); }
      }
    }

    /** The last three bytes go to the head of their hash's chain. */
    method ChainLast(c: byte, ghost pos: nat)
      requires Loading(pos) && |All()| == pos + lookahead_size && lookahead_size > 0
      requires lookahead_size + dict_size >= MIN_MATCH_LEN && All()[|All()| - 1] == c && Tied(|All()| - 3)
      modifies next, hash
      ensures Loading(pos) && Tied(|All()| - 2)
    {
      hide Window, Ring, Low16, Linked, Hash, Xor;
      ghost var n, d0 := |All()| - 3, dict[..];
      SubPlace(pos, lookahead_size - 1, 2);
      RingSum(n, 0);
      RingSum(n, 1);
      NextRing32(n);
      LoadedAt(dict[..], All(), pos - dict_size, n);
      LoadedAt(dict[..], All(), pos - dict_size, n + 1);
      var ins_pos := Sub32(lookahead_pos + (lookahead_size - 1), 2);
      var h := Hash(Xor(dict[Ring(ins_pos)] as nat * 32, dict[Ring(ins_pos + 1)]), c);
      Chain(ins_pos, h, n);
      assert dict[..] == d0;
    }

    /** A place goes to the head of the chain of its hash. */
    method Chain(ins_pos: nat, h: nat, ghost n: nat)
      requires Shaped() && Tied(n) && n + 2 < |All()| && ins_pos == n % U32 && h == HashAt(All(), n)
      modifies next, hash
      ensures Tied(n + 1)
    {
      hide Linked, HashAt, Ring, Low16;
      ghost var nx: seq<u16>, hs: seq<u16> := next[..], hash[..];
      if chained { LinkedMore(nx, hs, All(), |before|, n); }
      Low32(n);
      next[Ring(ins_pos)] := hash[h];
      assert next[..] == nx[Ring(n) := hs[h]] && hash[..] == hs;
      hash[h] := Low16(ins_pos);
      assert hash[..] == hs[h := Low16(n)];
    }

    /** What is true while bytes are being loaded and p is the place of the lookahead. */
    ghost predicate Loading(p: nat)
      reads this`before, this`input, this`dict_size, this`lookahead_pos, dict
    {
      Shaped() && |before| + dict_size <= p <= |All()| && dict_size <= LZ_DICT_SIZE && lookahead_pos == p % U32 &&
      Window(dict[..], All(), Oldest(p - dict_size, |All()|))
    }

    /** The rolling hash has rolled over the last two bytes. */
    ghost predicate Rolling(h: nat)
      reads this`before, this`input
    {
      var all := All();
      |all| >= 2 && Rolled(h, all[|all| - 2], all[|all| - 1])
    }

    /** One byte, with the hash kept going. */
    method TakeNext(dst_pos: nat, ins_pos: nat, h0: nat, c: byte, ghost pos: nat) returns (h: nat)
      requires Loading(pos) && dst_pos == Ring(|All()|) < LZ_DICT_SIZE && |input| >= 2
      requires ins_pos == (|All()| - 2) % U32 && Rolling(h0) && Tied(Inserted())
      modifies this`input, dict, next, hash
      ensures Loading(pos) && input == old(input) + [c] && All() == old(All()) + [c]
      ensures Rolling(h) && Tied(Inserted())
    {
      hide Window, Ring, Low16, Linked, Hash, Xor, Rolled;
      ghost var all, n := All(), |All()| - 2;
      PutNext(dst_pos, c, pos);
      ghost var d0 := dict[..];
      Rolls(h0, all[n], all[n + 1], c);
      h := Hash(h0, c);
      Chain(ins_pos, h, n);
      assert dict[..] == d0;
    }

    /** Where the next byte goes, where the last two are, and the hash that has rolled over them. */
    lemma FastStart(pos: nat)
      requires Loading(pos) && |All()| == pos + lookahead_size && lookahead_size + dict_size >= 2 && |input| >= 2
      ensures U32 > 0 && |All()| >= 2 && Ring((lookahead_pos + lookahead_size) % U32) == Ring(|All()|)
      ensures dict.Length == LZ_DICT_SIZE + MAX_MATCH_LEN - 1 && LZ_DICT_SIZE == 32768 && 2 <= U32
      ensures var ins_pos := Sub32(lookahead_pos + lookahead_size, 2);
              ins_pos == (|All()| - 2) % U32 && Ring(ins_pos) < dict.Length && Ring(ins_pos + 1) < dict.Length &&
              Rolling(Xor(dict[Ring(ins_pos)] as nat * 32, dict[Ring(ins_pos + 1)]))
    {
      RingSum(pos, lookahead_size);
      hide Window, Ring, Low16, Sub32, Xor, Hash, Linked, Rolled;
      var n := |All()| - 2;
      SubPlace(pos, lookahead_size, 2);
      NextRing32(n);
      LoadedAt(dict[..], All(), pos - dict_size, n);
      LoadedAt(dict[..], All(), pos - dict_size, n + 1);
      RolledFirst(dict[Ring(n % U32)], dict[Ring(n % U32 + 1)]);
    }

    lemma MoreIn(c: byte)
      ensures |All()| == |before| + |input| && |All() + [c]| == |All()| + 1
    {
    }

    /** Takes in num_bytes bytes, when there is enough before them to keep the hash going. */
    method LoadFast(src: seq<byte>, p0: nat, num_bytes: nat, ghost pos: nat)
      requires Loading(pos) && p0 + num_bytes <= |src| && lookahead_size + num_bytes <= MAX_MATCH_LEN
      requires |All()| == pos + lookahead_size && lookahead_size + dict_size >= 2 && |input| >= 2 && Tied(Inserted())
      modifies this`lookahead_size, this`input, dict, next, hash
      ensures Loading(pos) && lookahead_size == old(lookahead_size) + num_bytes && Tied(Inserted())
      ensures input == old(input) + src[p0..p0 + num_bytes]
    {
      hide *;
      FastStart(pos);
      var dst_pos, ins_pos := Ring((lookahead_pos + lookahead_size) % U32), Sub32(lookahead_pos + lookahead_size, 2);
      var h := Xor(dict[Ring(ins_pos)] as nat * 32, dict[Ring(ins_pos + 1)]);
      lookahead_size := lookahead_size + num_bytes;
      ghost var input0 := input;
      var i := 0;
      assert src[p0..p0] == [];
      while i < num_bytes
        invariant 0 <= i <= num_bytes && Loading(pos) && dst_pos == Ring(|All()|) && |input| >= 2
        invariant ins_pos == (|All()| - 2) % U32 && Rolling(h) && Tied(Inserted())
        invariant lookahead_size == old(lookahead_size) + num_bytes
        invariant input == input0 + src[p0..p0 + i]
      {
        var c := src[p0 + i];
        NextRing(|All()|);
        Wraps(|All()| - 2, 1);
        MoreIn(c);
        h := TakeNext(dst_pos, ins_pos, h, c, pos);
        dst_pos := Ring(dst_pos + 1);
        ins_pos := (ins_pos + 1) % U32;
        assert src[p0..p0 + i + 1] == src[p0..p0 + i] + [c];
        i := i + 1;
      }
    }

    /** One byte at the beginning of the input. */
    method TakeOne(c: byte, ghost pos: nat)
      requires Loading(pos) && |All()| == pos + lookahead_size && |before| + dict_size == pos && Tied(Inserted())
      modifies this`lookahead_size, this`input, dict, next, hash
      ensures Loading(pos) && lookahead_size == old(lookahead_size) + 1 && |All()| == pos + lookahead_size
      ensures input == old(input) + [c] && Tied(Inserted())
    {
      hide Window, Ring, Low16, Sub32, Xor, Hash, Linked;
      RingSum(pos, lookahead_size);
      var dst_pos := Ring((lookahead_pos + lookahead_size) % U32);
      ghost var n := Inserted();
      PutNext(dst_pos, c, pos);
      lookahead_size := lookahead_size + 1;
      assert Tied(n);
      if lookahead_size + dict_size >= MIN_MATCH_LEN {
        ChainLast(c, pos);
      }
    }

    /** Takes in bytes one by one, at the beginning of the input. */
    method LoadSlow(src: seq<byte>, p0: nat, ghost pos: nat) returns (p: nat)
      requires Loading(pos) && p0 <= |src| && lookahead_size <= MAX_MATCH_LEN && |All()| == pos + lookahead_size
      requires |before| + dict_size == pos && Tied(Inserted())
      modifies this`lookahead_size, this`input, dict, next, hash
      ensures Loading(pos) && p0 <= p <= |src| && lookahead_size == old(lookahead_size) + (p - p0) <= MAX_MATCH_LEN
      ensures p == |src| || lookahead_size == MAX_MATCH_LEN
      ensures input == old(input) + src[p0..p] && Tied(Inserted())
    {
      hide *;
      ghost var input0 := input;
      p := p0;
      assert src[p0..p0] == [];
      while p < |src| && lookahead_size < MAX_MATCH_LEN
        invariant p0 <= p <= |src| && Loading(pos) && lookahead_size == old(lookahead_size) + (p - p0) <= MAX_MATCH_LEN
        invariant input == input0 + src[p0..p] && |All()| == pos + lookahead_size && Tied(Inserted())
      {
        var c := src[p];
        TakeOne(c, pos);
        assert src[p0..p + 1] == src[p0..p] + [c];
        p := p + 1;
      }
    }

    /** Fills the lookahead from src. */
    method Load(src: seq<byte>, p0: nat) returns (p: nat)
      requires Valid() && p0 <= |src|
      modifies this`lookahead_size, this`dict_size, this`input, dict, next, hash
      ensures Valid() && p0 <= p <= |src| && input == old(input) + src[p0..p]
      ensures lookahead_size == old(lookahead_size) + (p - p0) && (p == |src| || lookahead_size == MAX_MATCH_LEN)
      ensures dict_size == if old(dict_size) > LZ_DICT_SIZE - lookahead_size then LZ_DICT_SIZE - lookahead_size
              else old(dict_size)
    {
      ghost var pos := |before| + Pos();
      hide Window, Linked;
      if lookahead_size + dict_size >= MIN_MATCH_LEN - 1 {
        var num_bytes := if |src| - p0 < MAX_MATCH_LEN - lookahead_size then |src| - p0
          else MAX_MATCH_LEN - lookahead_size;
        LoadFast(src, p0, num_bytes, pos);
        p := p0 + num_bytes;
      } else {
        p := LoadSlow(src, p0, pos);
      }
      if dict_size > LZ_DICT_SIZE - lookahead_size {
        dict_size := LZ_DICT_SIZE - lookahead_size;
      }
    }

    /** Moves the lookahead forward. */
    method Advance(len_to_move: nat)
      requires Valid() && len_to_move <= lookahead_size
      modifies this`lookahead_pos, this`lookahead_size, this`dict_size
      ensures Valid() && lookahead_size == old(lookahead_size) - len_to_move
      ensures dict_size == old(dict_size) + len_to_move
    {
      hide *;
      CountersGive();
      ghost var n := |before| + Pos();
      Wraps(n, len_to_move);
      lookahead_pos := (lookahead_pos + len_to_move) % U32;
      lookahead_size := lookahead_size - len_to_move;
      dict_size := if dict_size + len_to_move < LZ_DICT_SIZE then dict_size + len_to_move else LZ_DICT_SIZE;
      CountersNow(n + len_to_move);
    }

    lemma CountersGive()
      requires Valid()
      ensures Shaped() && U32 > 0 && lookahead_size <= MAX_MATCH_LEN && lookahead_size + dict_size <= LZ_DICT_SIZE
      ensures dict_size <= Pos() == |input| - lookahead_size && lookahead_pos == (|before| + Pos()) % U32
      ensures dict_size == Pos() || dict_size + lookahead_size >= LZ_DICT_SIZE
      ensures Window(dict[..], All(), |before| + Pos() - dict_size) && Tied(Inserted())
    {
      hide Window, Linked;
    }

    lemma CountersNow(n: nat)
      requires Shaped() && lookahead_size <= MAX_MATCH_LEN && lookahead_size + dict_size <= LZ_DICT_SIZE
      requires dict_size <= |input| - lookahead_size && n == |before| + (|input| - lookahead_size)
      requires lookahead_pos == n % U32
      requires dict_size == |input| - lookahead_size || dict_size + lookahead_size >= LZ_DICT_SIZE
      requires Window(dict[..], All(), n - dict_size) && Tied(Inserted())
      ensures Valid()
    {
      hide Window, Linked;
    }

    /** Forgets what came before the lookahead. */
    method Forget()
      requires Valid()
      modifies this`dict_size, this`before, this`input, this`chained, next, hash
      ensures Valid() && dict_size == 0 && All() == old(All()) && |input| == lookahead_size
      ensures lookahead_size == 0 ==> chained
    {
      ghost var d0, pos := dict[..], Pos();
      WindowLater(d0, All(), |before| + pos - dict_size, |before| + pos);
      hide Window, Linked;
      forall i | 0 <= i < HASH_SIZE { hash[i] := 0; }
      forall i | 0 <= i < LZ_DICT_SIZE { next[i] := 0; }
      assert dict[..] == d0;
      dict_size := 0;
      ghost var all := All();
      before, input := before + input[..pos], input[pos..];
      assert All() == all;
      chained := lookahead_size == 0;
      if chained { LinkedFresh(next[..], hash[..], All(), |before|); }
    }

    /** What there is to search for at the lookahead. */
    ghost predicate Seeks(q: Quest)
      reads this`lookahead_pos, dict, next, hash
    {
      Shaped() && Sane(q) && lookahead_pos == q.p % U32 && q.max_len <= MAX_MATCH_LEN &&
      Linked(next[..], hash[..], q.all, q.lo, |q.all| - 2) && Window(dict[..], q.all, q.p - q.max_dist)
    }

    lemma SeeksGives(q: Quest)
      requires Seeks(q)
      ensures Sane(q) && lookahead_pos == q.p % U32 && q.max_len <= MAX_MATCH_LEN && |q.all| >= 3
      ensures q.p >= q.max_dist && q.p + q.max_len <= |q.all| && |next[..]| == LZ_DICT_SIZE
      ensures Linked(next[..], hash[..], q.all, q.lo, |q.all| - 2) && Window(dict[..], q.all, q.p - q.max_dist)
    {
      hide Linked, Window;
    }

    lemma SeeksNow(q: Quest)
      requires Valid() && chained && q.all == All() && q.lo == |before| && q.p == |before| + Pos()
      requires q.max_dist <= dict_size && 3 <= q.max_len <= lookahead_size
      ensures Seeks(q)
    {
      hide *;
      CountersGive();
      TiedGives();
      WindowLater(dict[..], q.all, q.p - dict_size, q.p - q.max_dist);
      SaneNow(q);
      SeeksSo(q);
    }

    lemma TiedGives()
      requires chained && Tied(Inserted()) && |input| >= 2
      ensures Linked(next[..], hash[..], All(), |before|, |All()| - 2) && |All()| == |before| + |input|
      ensures MAX_MATCH_LEN == 258
    {
      hide Linked;
    }

    lemma SeeksSo(q: Quest)
      requires Shaped() && Sane(q) && lookahead_pos == q.p % U32 && q.max_len <= MAX_MATCH_LEN && |q.all| >= 2
      requires Linked(next[..], hash[..], q.all, q.lo, |q.all| - 2) && q.max_dist <= q.p
      requires Window(dict[..], q.all, q.p - q.max_dist)
      ensures Seeks(q)
    {
      hide Linked, Window, Sane;
    }

    lemma Sizes()
      requires Shaped()
      ensures dict.Length == LZ_DICT_SIZE + MAX_MATCH_LEN - 1 && next.Length == LZ_DICT_SIZE == 32768
      ensures MAX_MATCH_LEN == 258
    {
    }

    /** Takes the chain one step back: a place to give up at, to pass over, or to compare. */
    method TryProbe(probe_pos0: nat, max_dist: nat, match_len: nat, c0: byte, c1: byte, ghost q: Quest, ghost on: bool,
                    ghost r: nat, ghost left: int)
      returns (probe: Probe, probe_pos: nat, dist: nat)
      requires Shaped() && probe_pos0 < LZ_DICT_SIZE && 2 <= match_len < MAX_MATCH_LEN && max_dist == q.max_dist
      requires on ==> Seeks(q) && Came(q, r, probe_pos0, match_len, left) && match_len < q.max_len
      requires on ==> Wanted(q, match_len, c0, c1)
      ensures probe != GiveUp ==>
                probe_pos < LZ_DICT_SIZE && dist <= max_dist && Ring(probe_pos + dist) == Ring(lookahead_pos)
      ensures probe_pos0 < next.Length && next[probe_pos0] == 0 ==> probe == GiveUp
      ensures on && probe == GiveUp ==> Complete(q, match_len)
      ensures on && probe == Miss ==> Came(q, After(q, r), probe_pos, match_len, left - 1)
      ensures on && probe == Hit ==> Comes(q, After(q, r), probe_pos, dist, match_len, left - 1)
    {
      hide *;
      Sizes();
      var next_probe_pos := next[probe_pos0];
      probe_pos, dist := probe_pos0, DistTo(lookahead_pos, next_probe_pos);
      if on {
        SeeksGives(q);
        BackIs(q.p, next_probe_pos);
        StepOn(q, next[..], hash[..], r, probe_pos0, match_len, left);
      }
      if next_probe_pos == 0 || dist > max_dist {
        return GiveUp, probe_pos, dist;
      }
      probe_pos := Ring(next_probe_pos);
      ProbeDistance(lookahead_pos, next_probe_pos);
      RingSize();
      probe := if dict[probe_pos + match_len] == c0 && dict[probe_pos + match_len - 1] == c1 then Hit else Miss;
      if on && probe == Miss {
        WantedGives(q, match_len, c0, c1);
        Passes(q, dict[..], After(q, r), probe_pos, dist, match_len, left - 1);
      }
    }

    /** Follows the chain to the next place worth comparing, three steps for every probe counted. */
    method NextHit(probe_pos0: nat, max_dist: nat, match_len: nat, c0: byte, c1: byte, probes0: nat, ghost q: Quest,
                   ghost on: bool, ghost r0: nat)
      returns (found: bool, probe_pos: nat, dist: nat, num_probes_left: nat, ghost r: nat)
      requires Shaped() && probe_pos0 < LZ_DICT_SIZE && 2 <= match_len < MAX_MATCH_LEN && probes0 > 0
      requires max_dist == q.max_dist
      requires on ==> Seeks(q) && Came(q, r0, probe_pos0, match_len, probes0 - 1) && match_len < q.max_len
      requires on ==> Wanted(q, match_len, c0, c1)
      ensures found ==> 0 < num_probes_left < probes0 && probe_pos < LZ_DICT_SIZE && dist <= max_dist
      ensures found ==> Ring(probe_pos + dist) == Ring(lookahead_pos)
      ensures probe_pos0 < next.Length && next[probe_pos0] == 0 ==> !found
      ensures on && !found ==> Complete(q, match_len)
      ensures on && found ==> Comes(q, r, probe_pos, dist, match_len, num_probes_left - 1)
    {
      hide *;
      if on { SeeksGives(q); }
      probe_pos, dist, num_probes_left, r := probe_pos0, 0, probes0, r0;
      while true
        invariant 0 < num_probes_left <= probes0 && probe_pos < LZ_DICT_SIZE
        invariant probe_pos0 < next.Length && next[probe_pos0] == 0 ==> probe_pos == probe_pos0
        invariant on ==> Came(q, r, probe_pos, match_len, num_probes_left - 1)
        decreases num_probes_left
      {
        num_probes_left := num_probes_left - 1;
        if num_probes_left == 0 {
          if on { AllSeen(q, r, probe_pos, match_len); }
          return false, probe_pos, dist, 0, r;
        }
        var probe;
        ghost var left := num_probes_left - 1;
        probe, probe_pos, dist := TryProbe(probe_pos, max_dist, match_len, c0, c1, q, on, r, left + 1);
        if on { r := After(q, r); }
        if probe == Miss {
          probe, probe_pos, dist := TryProbe(probe_pos, max_dist, match_len, c0, c1, q, on, r, left);
          if on {
            r := After(q, r);
            LessLeft(q, r, probe, probe_pos, dist, match_len, left - 1, left);
          }
        }
        if probe == Miss {
          probe, probe_pos, dist := TryProbe(probe_pos, max_dist, match_len, c0, c1, q, on, r, left);
          if on {
            r := After(q, r);
            LessLeft(q, r, probe, probe_pos, dist, match_len, left - 1, left);
          }
        }
        if probe != Miss {
          return probe == Hit, probe_pos, dist, num_probes_left, r;
        }
      }
    }

    /** How many bytes at two places of the dictionary agree. */
    method Compare(pos: nat, probe_pos: nat, max_match_len: nat) returns (probe_len: nat)
      requires Shaped() && pos < LZ_DICT_SIZE && probe_pos < LZ_DICT_SIZE && max_match_len <= MAX_MATCH_LEN
      ensures probe_len <= max_match_len
      ensures dict[pos..pos + probe_len] == dict[probe_pos..probe_pos + probe_len]
      ensures probe_len < max_match_len ==> dict[pos + probe_len] != dict[probe_pos + probe_len]
    {
      hide *;
      Sizes();
      probe_len := 0;
      while probe_len < max_match_len
        invariant probe_len <= max_match_len
        invariant dict[pos..pos + probe_len] == dict[probe_pos..probe_pos + probe_len]
      {
        if dict[pos + probe_len] != dict[probe_pos + probe_len] {
          break;
        }
        assert dict[pos..pos + probe_len + 1] == dict[pos..pos + probe_len] + [dict[pos + probe_len]];
        probe_len := probe_len + 1;
      }
    }

    /** How long the match at a place on the chain is. */
    method Weigh(pos: nat, probe_pos: nat, max_dist: nat, dist: nat, max_match_len: nat, match_len: nat, ghost q: Quest,
                 ghost r: nat, ghost left: int)
      returns (probe_len: nat)
      requires Valid() && max_dist <= dict_size && max_match_len <= lookahead_size && 2 <= match_len < max_match_len
      requires pos == Ring(lookahead_pos) && probe_pos < LZ_DICT_SIZE && 0 < dist <= max_dist
      requires Ring(probe_pos + dist) == Ring(lookahead_pos)
      requires q.max_dist == max_dist && q.max_len == max_match_len && q.p == |before| + Pos()
      requires chained ==> Seeks(q) && Comes(q, r, probe_pos, dist, match_len, left)
      ensures probe_len <= max_match_len && (probe_len > match_len ==> MatchAt(input, Pos(), dist, probe_len))
      ensures chained ==> Came(q, r, probe_pos, if probe_len > match_len then probe_len else match_len, left)
    {
      hide *;
      ValidSizes();
      RingSize();
      ghost var p := |before| + Pos();
      Ring32(p);
      probe_len := Compare(pos, probe_pos, max_match_len);
      if chained {
        SeeksGives(q);
        Ring32(q.p);
        Differ(q, dict[..], r, pos, probe_pos, dist, match_len, left, probe_len);
      }
      if probe_len > match_len {
        Found(dict[..], All(), p - dict_size, p, probe_pos, dist, probe_len);
        SplitAt();
        Recent(before, input, Pos(), dist, probe_len);
      }
    }

    lemma SplitAt()
      ensures All() == before + input
    {
    }

    /** The two bytes that a longer match has to agree with. */
    lemma BytesAhead(q: Quest, pos: nat, match_len: nat)
      requires Seeks(q) && pos == Ring(lookahead_pos) && 1 <= match_len < q.max_len
      ensures pos + match_len < dict.Length && Wanted(q, match_len, dict[pos + match_len], dict[pos + match_len - 1])
    {
      hide *;
      SeeksGives(q);
      Ring32(q.p);
      DictAt(dict[..], q.all, q.p - q.max_dist, q.p, match_len);
      DictAt(dict[..], q.all, q.p - q.max_dist, q.p, match_len - 1);
      WantedNow(q, match_len, dict[pos + match_len], dict[pos + match_len - 1]);
    }

    lemma WantedNow(q: Quest, match_len: nat, c0: byte, c1: byte)
      requires 1 <= match_len && q.p + match_len < |q.all|
      requires c0 == q.all[q.p + match_len] && c1 == q.all[q.p + match_len - 1]
      ensures Wanted(q, match_len, c0, c1)
    {
    }

    /** What has been found so far. */
    ghost predicate Best(max_dist: nat, max_match_len: nat, dist0: nat, len0: nat, dist: nat, len: nat)
      reads this
    {
      Pos() >= 0 &&
      ((dist == dist0 && len == len0) ||
       (dist <= max_dist && len0 < len <= max_match_len && MatchAt(input, Pos(), dist, len)))
    }

    lemma BestGives(max_dist: nat, max_match_len: nat, dist0: nat, len0: nat, dist: nat, len: nat)
      requires Best(max_dist, max_match_len, dist0, len0, dist, len)
      ensures Pos() >= 0
      ensures (dist == dist0 && len == len0) ||
              (dist <= max_dist && len0 < len <= max_match_len && MatchAt(input, Pos(), dist, len))
    {
      hide MatchAt;
    }

    lemma BestNow(max_dist: nat, max_match_len: nat, dist0: nat, len0: nat, dist: nat, len: nat)
      requires Pos() >= 0
      requires (dist == dist0 && len == len0) ||
               (dist <= max_dist && len0 < len <= max_match_len && MatchAt(input, Pos(), dist, len))
      ensures Best(max_dist, max_match_len, dist0, len0, dist, len)
    {
      hide MatchAt;
    }

    /** The bytes that a longer match has to agree with. */
    ghost predicate Wanted(q: Quest, match_len: nat, c0: byte, c1: byte)
    {
      1 <= match_len && q.p + match_len < |q.all| && c0 == q.all[q.p + match_len] && c1 == q.all[q.p + match_len - 1]
    }

    /** The chain is followed until it ends, or the probes do, or nothing longer is possible. */
    method Follow(pos: nat, probes: nat, max_dist: nat, max_match_len: nat, match_dist0: nat, match_len0: nat,
                  ghost q: Quest)
      returns (match_dist: nat, match_len: nat)
      requires Valid() && max_dist <= dict_size && max_match_len <= lookahead_size && probes > 0
      requires MIN_MATCH_LEN - 1 <= match_len0 < max_match_len && pos == Ring(lookahead_pos)
      requires q.max_dist == max_dist && q.max_len == max_match_len && q.p == |before| + Pos() && q.n == probes - 1
      requires chained ==> Seeks(q)
      ensures Best(max_dist, max_match_len, match_dist0, match_len0, match_dist, match_len)
      ensures chained ==> NoneLonger(q.all, q.p, q.max_dist, q.max_len, q.n, match_len)
      ensures pos < next.Length && next[pos] == 0 ==> match_dist == match_dist0 && match_len == match_len0
    {
      hide *;
      ValidSizes();
      RingSize();
      match_dist, match_len := match_dist0, match_len0;
      var probe_pos, num_probes_left := pos, probes;
      ghost var r := q.p;
      var c0, c1 := dict[pos + match_len], dict[pos + match_len - 1];
      if chained { Starts(q, pos, match_len); }
      BestNow(max_dist, max_match_len, match_dist0, match_len0, match_dist, match_len);
      while true
        invariant num_probes_left > 0 && 0 <= probe_pos < LZ_DICT_SIZE && 2 <= match_len < max_match_len
        invariant match_len0 <= match_len
        invariant next[pos] == 0 ==> probe_pos == pos && match_dist == match_dist0 && match_len == match_len0
        invariant Best(max_dist, max_match_len, match_dist0, match_len0, match_dist, match_len)
        invariant chained ==> Came(q, r, probe_pos, match_len, num_probes_left - 1) && Wanted(q, match_len, c0, c1)
        decreases num_probes_left
      {
        var found, dist;
        found, probe_pos, dist, num_probes_left, r :=
          NextHit(probe_pos, max_dist, match_len, c0, c1, num_probes_left, q, chained, r);
        if !found || dist == 0 {
          if chained { GivesUp(q, r, probe_pos, found, dist, match_len, num_probes_left); }
          return;
        }
        var probe_len := Weigh(pos, probe_pos, max_dist, dist, max_match_len, match_len, q, r, num_probes_left - 1);
        if probe_len > match_len {
          match_dist, match_len := dist, probe_len;
          BestNow(max_dist, max_match_len, match_dist0, match_len0, match_dist, match_len);
          if match_len == max_match_len {
            NoneFromAll(q.all, q.p, max_dist, max_match_len, q.n, match_len);
            return;
          }
          c0, c1 := dict[pos + match_len], dict[pos + match_len - 1];
          if chained { BytesAhead(q, pos, match_len); }
        }
      }
    }

    lemma ChainEmpty(q: Quest, pos: nat)
      requires Seeks(q) && NoChain(q.all, q.lo, q.p) && pos == Ring(lookahead_pos)
      ensures pos < next.Length && next[pos] == 0
    {
      Ring32(q.p);
      NoChainLinks(next[..], hash[..], q.all, q.lo, q.p);
      hide Linked, Window, Ring, NoChain;
    }

    lemma WantedGives(q: Quest, match_len: nat, c0: byte, c1: byte)
      requires Wanted(q, match_len, c0, c1)
      ensures 1 <= match_len && q.p + match_len < |q.all|
      ensures c0 == q.all[q.p + match_len] && c1 == q.all[q.p + match_len - 1]
    {
    }

    lemma Starts(q: Quest, pos: nat, match_len: nat)
      requires Seeks(q) && pos == Ring(lookahead_pos) && 1 <= match_len < q.max_len
      ensures Sane(q) && Came(q, q.p, pos, match_len, q.n)
      ensures pos + match_len < dict.Length && Wanted(q, match_len, dict[pos + match_len], dict[pos + match_len - 1])
    {
      hide *;
      SeeksGives(q);
      Ring32(q.p);
      CameFirst(q, match_len);
      BytesAhead(q, pos, match_len);
    }

    /**
      Searches for a longer match than the one given; if there is none, returns what was given. There
      is no longer match within as many places on the chain as there are probes, less one.
     */
    method FindMatch(max_probes0: nat, max_probes1: nat, max_dist: nat, max_match_len: nat, match_dist0: nat,
                     match_len0: nat)
      returns (match_dist: nat, match_len: nat)
      requires Valid() && max_dist <= dict_size && max_match_len <= lookahead_size
      requires MIN_MATCH_LEN - 1 <= match_len0 < MAX_MATCH_LEN
      requires max_probes0 > 0 && max_probes1 > 0
      ensures (match_dist == match_dist0 && match_len == match_len0) ||
              (match_dist <= max_dist && match_len0 < match_len <= max_match_len &&
               MatchAt(input, Pos(), match_dist, match_len))
      ensures chained ==>
                NoneLonger(All(), |before| + Pos(), max_dist, max_match_len,
                           (if match_len0 >= 32 then max_probes1 else max_probes0) - 1, match_len)
      ensures chained && NoChain(All(), |before|, |before| + Pos()) ==>
                match_dist == match_dist0 && match_len == match_len0
    {
      hide *;
      ValidSizes();
      var pos := Ring(lookahead_pos);
      var num_probes_left := if match_len0 >= 32 then max_probes1 else max_probes0;
      ghost var q := Quest(All(), |before|, |before| + Pos(), max_dist, max_match_len, num_probes_left - 1);
      if max_match_len <= match_len0 {
        NoneFromAll(q.all, q.p, max_dist, max_match_len, q.n, match_len0);
        return match_dist0, match_len0;
      }
      if chained {
        SeeksNow(q);
        SeeksGives(q);
        if NoChain(q.all, q.lo, q.p) { ChainEmpty(q, pos); }
      }
      match_dist, match_len := Follow(pos, num_probes_left, max_dist, max_match_len, match_dist0, match_len0, q);
      BestGives(max_dist, max_match_len, match_dist0, match_len0, match_dist, match_len);
    }

    lemma ValidSizes()
      requires Valid()
      ensures Shaped() && dict.Length == LZ_DICT_SIZE + MAX_MATCH_LEN - 1 && next.Length == LZ_DICT_SIZE == 32768
      ensures MAX_MATCH_LEN == 258 && MIN_MATCH_LEN == 3 && lookahead_size <= MAX_MATCH_LEN && 0 <= dict_size <= Pos()
      ensures lookahead_pos == (|before| + Pos()) % U32 && Pos() + lookahead_size == |input|
      ensures Window(dict[..], All(), |before| + Pos() - dict_size)
    {
      hide Linked, Window;
    }

    /** The byte at the lookahead. */
    method Current() returns (c: byte)
      requires Valid() && lookahead_size > 0
      ensures Pos() < |input| && c == input[Pos()]
    {
      Ring32(|before| + Pos());
      DictAt(dict[..], All(), |before| + Pos() - dict_size, |before| + Pos(), 0);
      hide Ring, Window;
      c := dict[Ring(lookahead_pos)];
    }

    /** How often the byte before the lookahead is repeated in it. */
    method RunAhead() returns (len: nat)
      requires Valid() && dict_size > 0
      ensures len <= lookahead_size && (len > 0 ==> MatchAt(input, Pos(), 1, len))
      ensures forall n: nat :: n <= lookahead_size && MatchAt(input, Pos(), 1, n) ==> n <= len
    {
      ghost var pos := Pos();
      ghost var place := |before| + pos;
      Ring32(place);
      Before32(place);
      DictAt(dict[..], All(), place - dict_size, place - 1, 0);
      hide Ring, Window, MatchAt;
      var cur_pos := Ring(lookahead_pos);
      var c := dict[Ring(cur_pos + LZ_DICT_SIZE - 1)];
      len := 0;
      while len < lookahead_size
        invariant 0 <= len <= lookahead_size && forall i :: pos <= i < pos + len ==> input[i] == c
      {
        DictAt(dict[..], All(), place - dict_size, place, len);
        if dict[cur_pos + len] != c {
          RunEnds(input, pos, len);
          break;
        }
        len := len + 1;
      }
      if len > 0 { RunMatches(input, pos, len); }
    }
  }

  /** A match that reaches back no further than the end of what came before is one in what has come since. */
  lemma Recent(before: seq<byte>, input: seq<byte>, p: nat, dist: nat, len: nat)
    requires MatchAt(before + input, |before| + p, dist, len) && dist <= p
    ensures MatchAt(input, p, dist, len)
  {
    var all, n := before + input, |before|;
    assert all[n + p..n + p + len] == input[p..p + len];
    assert all[n + p - dist..n + p - dist + len] == input[p - dist..p - dist + len];
  }

  lemma Before32(p: nat)
    requires p > 0
    ensures Ring(Ring(p % U32) + LZ_DICT_SIZE - 1) == Ring(p - 1)
  {
  }

  /** Where a run of the byte before it ends, so does the match one byte back. */
  lemma RunEnds(input: seq<byte>, p: nat, len: nat)
    requires 1 <= p && p + len < |input| && forall i :: p <= i < p + len ==> input[i] == input[p - 1]
    requires input[p + len] != input[p - 1]
    ensures forall n: nat :: MatchAt(input, p, 1, n) ==> n <= len
  {
    forall n: nat | MatchAt(input, p, 1, n) ensures n <= len { MatchByte(input, p, 1, n, len); }
  }

  /** A run of the byte before it is a match one byte back. */
  lemma RunMatches(input: seq<byte>, p: nat, len: nat)
    requires 1 <= p && p + len <= |input| && forall i :: p <= i < p + len ==> input[i] == input[p - 1]
    ensures MatchAt(input, p, 1, len)
  {
    var a, b := input[p..p + len], input[p - 1..p - 1 + len];
    forall i | 0 <= i < len ensures a[i] == b[i] {
      assert a[i] == input[p + i] && b[i] == input[p - 1 + i];
    }
  }

  lemma ProbeDistance(lookahead_pos: nat, next_probe_pos: u16)
    ensures Ring(Ring(next_probe_pos) + DistTo(lookahead_pos, next_probe_pos)) == Ring(lookahead_pos)
  {
    var x := lookahead_pos + 65536 - next_probe_pos;
    var k, j := x / 65536, next_probe_pos / 32768;
    assert Ring(next_probe_pos) + DistTo(lookahead_pos, next_probe_pos) == lookahead_pos + 32768 * (2 - 2 * k - j);
    WholeRings(lookahead_pos, 2 - 2 * k - j);
  }

  lemma SamePlace(p: nat, q: nat, dist: nat)
    requires q < LZ_DICT_SIZE && dist <= p && dist <= LZ_DICT_SIZE && Ring(q + dist) == Ring(p)
    ensures Ring(p - dist) == q
  {
  }

  /** What agrees in the dictionary is a match in the input. */
  lemma Found(dict: seq<byte>, input: seq<byte>, lo: nat, p: nat, probe_pos: nat, dist: nat, len: nat)
    requires Window(dict, input, lo) && 1 <= dist <= p - lo && p + len <= |input| && len <= MAX_MATCH_LEN
    requires probe_pos < LZ_DICT_SIZE && Ring(probe_pos + dist) == Ring(p)
    requires Ring(p) + len <= |dict| && probe_pos + len <= |dict|
    requires dict[Ring(p)..Ring(p) + len] == dict[probe_pos..probe_pos + len]
    ensures MatchAt(input, p, dist, len)
  {
    SamePlace(p, probe_pos, dist);
    hide Ring;
    DictSlice(dict, input, lo, p, len);
    DictSlice(dict, input, lo, p - dist, len);
  }
}
