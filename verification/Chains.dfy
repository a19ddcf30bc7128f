/**
  The hash chains of the compressor's dictionary: each place of the input in the window leads to the
  last one before it where the next three bytes have the same hash. So whoever follows the chain
  meets all places where a match can begin, the nearest first.
 */
module Chains {
  import opened Wrappers
  import opened Bits
  import opened LzRecords

  const HASH_SIZE: nat := 32768

  /** Bitwise exclusive or. */
  function Xor(a: nat, b: nat): (r: nat)
    decreases a + b
  {
    if a == 0 && b == 0 then 0 else (if a % 2 != b % 2 then 1 else 0) + 2 * Xor(a / 2, b / 2)
  }

  /** Position p in the ring. */
  function Ring(p: nat): (r: nat)
    ensures r < LZ_DICT_SIZE
  {
    p % LZ_DICT_SIZE
  }

  function Low16(x: nat): (r: u16)
  {
    x % 65536
  }

  lemma RingApart(p: nat, q: nat)
    requires p < q < p + LZ_DICT_SIZE
    ensures Ring(p) != Ring(q)
  {
  }

  /** The rolling hash of three bytes. */
  function Hash(h: nat, c: byte): (r: nat)
    ensures r < HASH_SIZE
  {
    Xor(h * 32, c) % HASH_SIZE
  }

  /** At p the input repeats what it was dist bytes earlier, for len bytes. */
  ghost predicate MatchAt(input: seq<byte>, p: nat, dist: nat, len: nat)
  {
    1 <= dist <= p && p + len <= |input| && input[p..p + len] == input[p - dist..p - dist + len]
  }

  // ------------------------------------------------------------------------------ the rolling hash

  lemma {:induction false} XorLow(a: nat, b: nat, a': nat, b': nat, k: nat)
    requires a % Pow2(k) == a' % Pow2(k) && b % Pow2(k) == b' % Pow2(k)
    ensures Xor(a, b) % Pow2(k) == Xor(a', b') % Pow2(k)
  {
    if k > 0 {
      var m := Pow2(k - 1);
      HalfRem(a, a', m);
      HalfRem(b, b', m);
      XorLow(a / 2, b / 2, a' / 2, b' / 2, k - 1);
      XorHalves(a, b);
      XorHalves(a', b');
      TwiceRem(Xor(a, b), Xor(a', b'), m);
    }
  }

  lemma XorHalves(a: nat, b: nat)
    ensures Xor(a, b) / 2 == Xor(a / 2, b / 2) && Xor(a, b) % 2 == if a % 2 != b % 2 then 1 else 0
  {
  }

  /** The last bit, and the remainder of the rest. */
  function Split(a: nat, m: nat): (r: (nat, nat))
    requires m > 0
    ensures r.1 < 2
  {
    ((a / 2) % m, a % 2)
  }

  lemma HalfRem(a: nat, b: nat, m: nat)
    requires m > 0 && a % (2 * m) == b % (2 * m)
    ensures Split(a, m) == Split(b, m)
  {
    TwiceRemIs(a, m);
    TwiceRemIs(b, m);
    hide Split;
  }

  lemma SameRem(q: nat, r: nat, m: nat)
    requires r < m
    ensures (m * q + r) % m == r
  {
    var d, e := (m * q + r) / m, (m * q + r) % m;
    assert m * q + r == m * d + e;
    if q > d { MulMono(d + 1, q, m); } else if q < d { MulMono(q + 1, d, m); }
  }

  lemma TwiceRem(a: nat, b: nat, m: nat)
    requires m > 0 && Split(a, m) == Split(b, m)
    ensures a % (2 * m) == b % (2 * m)
  {
    TwiceRemIs(a, m);
    TwiceRemIs(b, m);
    hide Split;
  }

  lemma TwiceRemIs(a: nat, m: nat)
    requires m > 0
    ensures a % (2 * m) == 2 * Split(a, m).0 + Split(a, m).1
  {
    var q, r := (a / 2) / m, (a / 2) % m;
    Euclid(a / 2, m);
    Twice(m, q);
    assert a == (2 * m) * q + (2 * r + a % 2);
    SameRem(q, 2 * r + a % 2, 2 * m);
  }

  lemma Euclid(a: nat, d: nat)
    requires d > 0
    ensures a == d * (a / d) + a % d && a % d < d
  {
  }

  lemma Twice(m: nat, q: nat)
    ensures (2 * m) * q == 2 * (m * q)
  {
  }

  /** The hash of the three bytes at p. */
  function HashAt(all: seq<byte>, p: nat): (r: nat)
    requires p + 2 < |all|
    ensures r < HASH_SIZE
  {
    Hash(Xor(all[p] as nat * 32, all[p + 1]), all[p + 2])
  }

  /** h has rolled over the two bytes at p; of what it has rolled over before no bits will count. */
  predicate Rolled(h: nat, b0: byte, b1: byte)
  {
    h % 1024 == Xor(b0 as nat * 32, b1) % 1024
  }

  /** With another byte the rolling hash is that of three bytes, and has rolled over the last two of them. */
  lemma Rolls(h: nat, b0: byte, b1: byte, c: byte)
    requires Rolled(h, b0, b1)
    ensures Hash(h, c) == Hash(Xor(b0 as nat * 32, b1), c) && Rolled(Hash(h, c), b1, c)
  {
    Powers();
    var x := Xor(b0 as nat * 32, b1);
    ShiftRem(h, x, 1024);
    XorLow(h * 32, c, x * 32, c, 15);
    RemRem(h, x);
    XorLow(b0 as nat * 32, b1, 0, b1, 5);
    XorNone(b1);
    ShiftRem(h, b1, 32);
    XorLow(h * 32, c, b1 as nat * 32, c, 10);
    RemOfRem(Xor(h * 32, c));
  }

  lemma ShiftRem(a: nat, b: nat, m: nat)
    requires m > 0 && a % m == b % m
    ensures (a * 32) % (m * 32) == (b * 32) % (m * 32)
  {
    ShiftRemIs(a, m);
    ShiftRemIs(b, m);
  }

  lemma ShiftRemIs(a: nat, m: nat)
    requires m > 0
    ensures (a * 32) % (m * 32) == 32 * (a % m)
  {
    var q, r := a / m, a % m;
    assert a == m * q + r;
    assert a * 32 == (m * 32) * q + 32 * r;
    SameRem(q, 32 * r, m * 32);
  }

  lemma RemRem(a: nat, b: nat)
    requires a % 1024 == b % 1024
    ensures a % 32 == b % 32
  {
    assert a == 32 * (32 * (a / 1024)) + a % 1024 && b == 32 * (32 * (b / 1024)) + b % 1024;
    By32(32 * (a / 1024), a % 1024);
    By32(32 * (b / 1024), b % 1024);
  }

  lemma By32(k: nat, r: nat)
    ensures (32 * k + r) % 32 == r % 32
  {
  }

  lemma RemOfRem(a: nat)
    ensures (a % 32768) % 1024 == a % 1024
  {
  }

  lemma {:induction false} XorNone(b: nat)
    ensures Xor(0, b) == b
    decreases b
  {
    if b > 0 { XorNone(b / 2); }
  }

  // ------------------------------------------------------------------------------ what the chains hold

  /** The last place before n, and not before lo, where the hash is h. */
  function Last(all: seq<byte>, lo: nat, n: nat, h: nat): (r: Option<nat>)
    requires n <= lo || n + 2 <= |all|
    ensures r.Some? ==> lo <= r.value < n && HashAt(all, r.value) == h
    decreases n
  {
    if n <= lo then None else if HashAt(all, n - 1) == h then Some(n - 1) else Last(all, lo, n - 1, h)
  }

  /** Nothing comes between it and n. */
  lemma {:induction false} LastIsLast(all: seq<byte>, lo: nat, n: nat, h: nat, q: nat)
    requires lo <= q < n && n + 2 <= |all| && HashAt(all, q) == h
    ensures Last(all, lo, n, h).Some? && q <= Last(all, lo, n, h).value
    decreases n
  {
    hide HashAt;
    if q < n - 1 && HashAt(all, n - 1) != h { LastIsLast(all, lo, n - 1, h, q); }
  }

  lemma {:induction false} LastLater(all: seq<byte>, all': seq<byte>, lo: nat, n: nat, h: nat)
    requires (n <= lo || n + 2 <= |all|) && all <= all'
    ensures Last(all, lo, n, h) == Last(all', lo, n, h)
    decreases n
  {
    if n > lo {
      assert HashAt(all, n - 1) == HashAt(all', n - 1);
      hide HashAt;
      LastLater(all, all', lo, n - 1, h);
    }
  }

  /** How a place is kept: its low 16 bits. Zero stands for none as well. */
  function Link(place: Option<nat>): (r: u16)
  {
    if place.None? then 0 else Low16(place.value)
  }

  /** How far back from p a place is whose low 16 bits are these, if it is not too far. */
  function Back(p: nat, link: u16): (r: u16)
  {
    Low16(p % U32 + 65536 - link)
  }

  /** The heads of the chains, and the links from one place to the next, for the places from lo up to n. */
  ghost predicate Linked(next: seq<u16>, hash: seq<u16>, all: seq<byte>, lo: nat, n: nat)
  {
    |next| == LZ_DICT_SIZE && |hash| == HASH_SIZE && lo <= n && (n == lo || n + 2 <= |all|) &&
    (forall h :: 0 <= h < HASH_SIZE ==> hash[h] == Link(Last(all, lo, n, h))) &&
    (forall p :: lo <= p < n <= p + LZ_DICT_SIZE ==> next[Ring(p)] == Link(Last(all, lo, p, HashAt(all, p))))
  }

  lemma LinkedGives(next: seq<u16>, hash: seq<u16>, all: seq<byte>, lo: nat, n: nat, p: nat)
    requires Linked(next, hash, all, lo, n) && lo <= p < n <= p + LZ_DICT_SIZE
    ensures |next| == LZ_DICT_SIZE && n + 2 <= |all| && next[Ring(p)] == Link(Last(all, lo, p, HashAt(all, p)))
  {
    hide HashAt, Last, Ring;
  }

  lemma LinkedFresh(next: seq<u16>, hash: seq<u16>, all: seq<byte>, lo: nat)
    requires |next| == LZ_DICT_SIZE && |hash| == HASH_SIZE && forall h :: 0 <= h < HASH_SIZE ==> hash[h] == 0
    ensures Linked(next, hash, all, lo, lo)
  {
    hide HashAt;
  }

  lemma LinkedGrown(next: seq<u16>, hash: seq<u16>, all: seq<byte>, all': seq<byte>, lo: nat, n: nat)
    requires Linked(next, hash, all, lo, n) && all <= all'
    ensures Linked(next, hash, all', lo, n)
  {
    forall h | 0 <= h < HASH_SIZE ensures hash[h] == Link(Last(all', lo, n, h)) { LastLater(all, all', lo, n, h); }
    forall p | lo <= p < n <= p + LZ_DICT_SIZE ensures next[Ring(p)] == Link(Last(all', lo, p, HashAt(all', p))) {
      assert HashAt(all, p) == HashAt(all', p);
      LastLater(all, all', lo, p, HashAt(all, p));
    }
    hide HashAt, Last, Ring, Link;
  }

  lemma LastStep(all: seq<byte>, lo: nat, n: nat, h: nat)
    requires lo <= n && n + 2 < |all|
    ensures Last(all, lo, n + 1, h) == if HashAt(all, n) == h then Some(n) else Last(all, lo, n, h)
  {
    hide HashAt;
  }

  /** One more place at the head of its chain. */
  lemma LinkedMore(next: seq<u16>, hash: seq<u16>, all: seq<byte>, lo: nat, n: nat)
    requires Linked(next, hash, all, lo, n) && n + 2 < |all|
    ensures var h := HashAt(all, n);
            |next| == LZ_DICT_SIZE && |hash| == HASH_SIZE &&
            Linked(next[Ring(n) := hash[h]], hash[h := Low16(n)], all, lo, n + 1)
  {
    var h := HashAt(all, n);
    var next', hash' := next[Ring(n) := hash[h]], hash[h := Low16(n)];
    assert |next| == LZ_DICT_SIZE && |hash| == HASH_SIZE;
    hide HashAt, Ring, Low16, Last;
    forall g | 0 <= g < HASH_SIZE ensures hash'[g] == Link(Last(all, lo, n + 1, g)) { LastStep(all, lo, n, g); }
    forall p | lo <= p < n + 1 <= p + LZ_DICT_SIZE
      ensures next'[Ring(p)] == Link(Last(all, lo, p, HashAt(all, p)))
    {
      if p < n { RingApart(p, n); }
    }
  }

  // ------------------------------------------------------------------------------ following a chain

  /** How many of the places from q up to p have the hash h. */
  function Alike(all: seq<byte>, q: nat, p: nat, h: nat): (r: nat)
    requires p <= q || p + 2 <= |all|
    decreases p
  {
    if p <= q then 0 else Alike(all, q, p - 1, h) + if HashAt(all, p - 1) == h then 1 else 0
  }

  lemma {:induction false} AlikeFrom(all: seq<byte>, q: nat, r: nat, p: nat, h: nat)
    requires q <= r <= p && p + 2 <= |all|
    ensures Alike(all, q, p, h) == Alike(all, q, r, h) + Alike(all, r, p, h)
    decreases p
  {
    hide HashAt;
    if r < p { AlikeFrom(all, q, r, p - 1, h); }
  }

  lemma {:induction false} AlikeOne(all: seq<byte>, q: nat, p: nat, h: nat)
    requires q < p && p + 2 <= |all| && HashAt(all, q) == h
    ensures Alike(all, q, p, h) >= 1
    decreases p
  {
    hide HashAt;
    if q < p - 1 { AlikeOne(all, q, p - 1, h); }
  }

  /**
    Within n places on the chain of p: there are no more than n places from dist back with the hash of
    p, and none of them is a multiple of 65536, which would be taken for the end of the chain.
   */
  ghost predicate Nearby(all: seq<byte>, p: nat, dist: nat, n: nat)
  {
    dist <= p && p + 2 < |all| && Alike(all, p - dist, p, HashAt(all, p)) <= n &&
    forall r :: p - dist <= r < p && HashAt(all, r) == HashAt(all, p) ==> Low16(r) != 0
  }

  /** The chain of p is empty: there is no place before p with its hash, or the last one is a multiple of 65536. */
  ghost predicate NoChain(all: seq<byte>, lo: nat, p: nat)
  {
    p + 2 < |all| &&
    var o := Last(all, lo, p, HashAt(all, p));
    o.None? || o.value % 65536 == 0
  }

  lemma NoChainLinks(next: seq<u16>, hash: seq<u16>, all: seq<byte>, lo: nat, p: nat)
    requires NoChain(all, lo, p) && lo <= p && |all| <= p + LZ_DICT_SIZE && Linked(next, hash, all, lo, |all| - 2)
    ensures |next| == LZ_DICT_SIZE && next[Ring(p)] == 0
  {
    LinkedGives(next, hash, all, lo, |all| - 2, p);
    hide HashAt, Last, Ring;
  }

  /** No match within n places on the chain is longer than len0. */
  ghost predicate NoneLonger(all: seq<byte>, p: nat, max_dist: nat, max_len: nat, n: nat, len0: nat)
  {
    forall dist: nat, len: nat :: dist <= max_dist && len <= max_len && Nearby(all, p, dist, n) && MatchAt(all, p, dist,
        len) ==>
      len <= len0
  }

  /** Nor is any match from r on. */
  ghost predicate NoneFrom(all: seq<byte>, p: nat, r: nat, max_dist: nat, max_len: nat, len0: nat)
  {
    forall dist: nat, len: nat :: dist <= max_dist && r + dist <= p && len <= max_len && MatchAt(all, p, dist, len) ==>
      len <= len0
  }

  lemma NoneFromNone(all: seq<byte>, p: nat, max_dist: nat, max_len: nat, len0: nat)
    ensures NoneFrom(all, p, p, max_dist, max_len, len0)
  {
  }

  lemma NoneFromMore(all: seq<byte>, p: nat, r: nat, max_dist: nat, max_len: nat, len0: nat, len1: nat)
    requires NoneFrom(all, p, r, max_dist, max_len, len0) && len0 <= len1
    ensures NoneFrom(all, p, r, max_dist, max_len, len1)
  {
    hide MatchAt;
  }

  lemma NoneFromAll(all: seq<byte>, p: nat, max_dist: nat, max_len: nat, n: nat, len0: nat)
    requires NoneFrom(all, p, 0, max_dist, max_len, len0) || max_len <= len0
    ensures NoneLonger(all, p, max_dist, max_len, n, len0)
  {
    hide Nearby;
  }

  /** The bytes i further on agree. */
  ghost predicate SameAt(all: seq<byte>, p: nat, q: nat, i: nat)
  {
    p + i < |all| && q + i < |all| && all[p + i] == all[q + i]
  }

  lemma MatchByte(all: seq<byte>, p: nat, dist: nat, len: nat, i: nat)
    requires MatchAt(all, p, dist, len)
    ensures i < len ==> SameAt(all, p, p - dist, i)
  {
    if i < len {
      var a, b := all[p..p + len], all[p - dist..p - dist + len];
      assert a[i] == b[i];
    }
  }

  /** A match of three bytes means the same hash. */
  lemma SameHash(all: seq<byte>, p: nat, dist: nat, len: nat)
    requires MatchAt(all, p, dist, len) && len >= 3
    ensures p + 2 < |all| && HashAt(all, p - dist) == HashAt(all, p)
  {
    MatchByte(all, p, dist, len, 0);
    MatchByte(all, p, dist, len, 1);
    MatchByte(all, p, dist, len, 2);
    hide Hash, Xor;
  }

  /** From r on the chain, the next place on it: the last one before r with the hash of p. */
  lemma NoneBetween(all: seq<byte>, lo: nat, p: nat, r: nat, l: nat, max_dist: nat, max_len: nat, len0: nat)
    requires lo <= r <= p && p + 2 < |all| && max_dist <= p - lo && len0 >= 2
    requires NoneFrom(all, p, r, max_dist, max_len, len0) && l <= r
    requires var o := Last(all, lo, r, HashAt(all, p));
             o.None? || o.value < l
    ensures NoneFrom(all, p, l, max_dist, max_len, len0)
  {
    forall dist: nat, len: nat | dist <= max_dist && l + dist <= p && len <= max_len && MatchAt(all, p, dist, len)
      ensures len <= len0
    {
      if len > len0 {
        SameHash(all, p, dist, len);
        if p - dist < r { LastIsLast(all, lo, r, HashAt(all, p), p - dist); }
      }
    }
  }

  /** Where the chain ends, or leaves the window, nothing nearby has been missed. */
  lemma ChainEnds(all: seq<byte>, lo: nat, p: nat, r: nat, max_dist: nat, max_len: nat, n: nat, len0: nat)
    requires lo <= r <= p && p + 2 < |all| && max_dist <= p - lo && max_dist <= LZ_DICT_SIZE && len0 >= 2
    requires NoneFrom(all, p, r, max_dist, max_len, len0)
    requires var link := Link(Last(all, lo, r, HashAt(all, p)));
             link == 0 || Back(p, link) > max_dist
    ensures NoneLonger(all, p, max_dist, max_len, n, len0)
  {
    var h := HashAt(all, p);
    var o := Last(all, lo, r, h);
    forall dist: nat, len: nat | dist <= max_dist && len <= max_len && Nearby(all, p, dist, n) &&
    MatchAt(all, p, dist, len)
      ensures len <= len0
    {
      if len > len0 {
        SameHash(all, p, dist, len);
        if p - dist < r {
          LastIsLast(all, lo, r, h, p - dist);
          Distance(p, o.value);
        }
      }
    }
  }

  /** The distance that 16 bits of a place give, if it is not too far. */
  lemma Distance(p: nat, q: nat)
    requires q <= p < q + 65536
    ensures Back(p, Low16(q)) == p - q
  {
  }

  lemma SameRing(q: nat)
    ensures Ring(Low16(q)) == Ring(q)
  {
  }

  /** After n places on the chain, nothing nearby has been missed. */
  lemma EnoughSeen(all: seq<byte>, lo: nat, p: nat, r: nat, max_dist: nat, max_len: nat, n: nat, len0: nat)
    requires lo <= r <= p && p + 2 < |all| && len0 >= 2 && Alike(all, r, p, HashAt(all, p)) >= n
    requires NoneFrom(all, p, r, max_dist, max_len, len0)
    ensures NoneLonger(all, p, max_dist, max_len, n, len0)
  {
    var h := HashAt(all, p);
    forall dist: nat, len: nat | dist <= max_dist && len <= max_len && Nearby(all, p, dist, n) &&
    MatchAt(all, p, dist, len)
      ensures len <= len0
    {
      if len > len0 {
        SameHash(all, p, dist, len);
        if p - dist < r {
          AlikeOne(all, p - dist, r, h);
          AlikeFrom(all, p - dist, r, p, h);
        }
      }
    }
  }

  /** The next place on the chain is one more. */
  lemma OneMoreSeen(all: seq<byte>, lo: nat, p: nat, r: nat)
    requires lo <= r <= p && p + 2 < |all| && Last(all, lo, r, HashAt(all, p)).Some?
    ensures var l := Last(all, lo, r, HashAt(all, p)).value;
            Alike(all, l, p, HashAt(all, p)) >= Alike(all, r, p, HashAt(all, p)) + 1
  {
    var h := HashAt(all, p);
    var l := Last(all, lo, r, h).value;
    AlikeOne(all, l, r, h);
    AlikeFrom(all, l, r, p, h);
  }

  /** Where two bytes that would have to agree do not, there is no longer match. */
  lemma NotThere(all: seq<byte>, p: nat, l: nat, max_dist: nat, max_len: nat, len0: nat)
    requires NoneFrom(all, p, l + 1, max_dist, max_len, len0) && 1 <= len0 && l < p && p + len0 < |all|
    requires !SameAt(all, p, l, len0) || !SameAt(all, p, l, len0 - 1)
    ensures NoneFrom(all, p, l, max_dist, max_len, len0)
  {
    forall dist: nat, len: nat | dist <= max_dist && l + dist <= p && len <= max_len && MatchAt(all, p, dist, len)
      ensures len <= len0
    {
      MatchByte(all, p, dist, len, len0);
      MatchByte(all, p, dist, len, len0 - 1);
    }
  }

  /** What has been compared as far as it agrees is not longer than that. */
  lemma ComparedThere(all: seq<byte>, p: nat, l: nat, max_dist: nat, max_len: nat, len0: nat,
                      probe_len: nat, len1: nat)
    requires NoneFrom(all, p, l + 1, max_dist, max_len, len0) && l < p && p + max_len <= |all|
    requires len1 >= len0 && len1 >= probe_len && (probe_len >= max_len || !SameAt(all, p, l, probe_len))
    ensures NoneFrom(all, p, l, max_dist, max_len, len1)
  {
    forall dist: nat, len: nat | dist <= max_dist && l + dist <= p && len <= max_len && MatchAt(all, p, dist, len)
      ensures len <= len1
    {
      MatchByte(all, p, dist, len, probe_len);
    }
  }

  // ------------------------------------------------------------------------------ the state of a search

  /** A search at p: how far back it may go, how long a match may be, and how many places it is to see. */
  datatype Quest = Quest(all: seq<byte>, lo: nat, p: nat, max_dist: nat, max_len: nat, n: nat)

  ghost predicate Sane(q: Quest)
  {
    q.lo <= q.p && q.p + 2 < |q.all| && q.max_dist <= q.p - q.lo && |q.all| + q.max_dist <= q.p + LZ_DICT_SIZE &&
    q.p + q.max_len <= |q.all|
  }

  /** On the chain of p, at r. */
  ghost predicate OnChain(q: Quest, r: nat, probe_pos: nat, left: int)
    requires Sane(q)
  {
    q.lo <= r <= q.p <= r + q.max_dist && HashAt(q.all, r) == HashAt(q.all, q.p) && probe_pos == Ring(r) &&
    Alike(q.all, r, q.p, HashAt(q.all, q.p)) + left >= q.n
  }

  /** The search has come to r, having missed nothing so far, with left places to go; or nothing is left to be found. */
  ghost predicate Came(q: Quest, r: nat, probe_pos: nat, len0: nat, left: int)
    requires Sane(q)
  {
    NoneFrom(q.all, q.p, 0, q.max_dist, q.max_len, len0) ||
    (OnChain(q, r, probe_pos, left) && NoneFrom(q.all, q.p, r, q.max_dist, q.max_len, len0))
  }

  /** The same, with r itself still to be looked at. */
  ghost predicate Comes(q: Quest, r: nat, probe_pos: nat, dist: nat, len0: nat, left: int)
    requires Sane(q)
  {
    NoneFrom(q.all, q.p, 0, q.max_dist, q.max_len, len0) ||
    (OnChain(q, r, probe_pos, left) && NoneFrom(q.all, q.p, r + 1, q.max_dist, q.max_len, len0) && r + dist == q.p &&
     dist > 0)
  }

  /** What the search has missed when it gives up: nothing. */
  ghost predicate Complete(q: Quest, len0: nat)
  {
    NoneLonger(q.all, q.p, q.max_dist, q.max_len, q.n, len0)
  }

  lemma CameFirst(q: Quest, len0: nat)
    requires Sane(q)
    ensures Came(q, q.p, Ring(q.p), len0, q.n)
  {
    NoneFromNone(q.all, q.p, q.max_dist, q.max_len, len0);
    hide Ring, HashAt, NoneFrom;
  }

  lemma CameLeft(q: Quest, r: nat, probe_pos: nat, len0: nat, left: int, left': int)
    requires Sane(q) && Came(q, r, probe_pos, len0, left) && left <= left'
    ensures Came(q, r, probe_pos, len0, left')
  {
    hide HashAt, NoneFrom, Alike;
  }

  lemma ComesLeft(q: Quest, r: nat, probe_pos: nat, dist: nat, len0: nat, left: int, left': int)
    requires Sane(q) && Comes(q, r, probe_pos, dist, len0, left) && left <= left'
    ensures Comes(q, r, probe_pos, dist, len0, left')
  {
    hide HashAt, NoneFrom, Alike;
  }

  /** The place after r on the chain. */
  ghost function After(q: Quest, r: nat): (r': nat)
    requires Sane(q)
  {
    if r > q.p then 0
    else
      var o := Last(q.all, q.lo, r, HashAt(q.all, q.p));
      if o.None? then 0 else o.value
  }

  /** A step along the chain. */
  lemma StepOn(q: Quest, next: seq<u16>, hash: seq<u16>, r: nat, probe_pos: nat, len0: nat, left: int)
    requires Sane(q) && Came(q, r, probe_pos, len0, left) && len0 >= 2 && probe_pos < LZ_DICT_SIZE
    requires Linked(next, hash, q.all, q.lo, |q.all| - 2)
    ensures |next| == LZ_DICT_SIZE
    ensures var link := next[probe_pos];
            var dist := Back(q.p, link);
            if link == 0 || dist > q.max_dist then Complete(q, len0)
            else Comes(q, After(q, r), Ring(link), dist, len0, left - 1)
  {
    hide *;
    SaneSize(q);
    LinkedSizes(next, hash, q.all, q.lo, |q.all| - 2);
    var link := next[probe_pos];
    var dist := Back(q.p, link);
    if NoneFrom(q.all, q.p, 0, q.max_dist, q.max_len, len0) {
      NoneFromAll(q.all, q.p, q.max_dist, q.max_len, q.n, len0);
      CompleteNow(q, len0);
      StillNone(q, After(q, r), Ring(link), dist, len0, left - 1);
    } else {
      SanelyOn(q, r, probe_pos, left, len0);
      LinkedGives(next, hash, q.all, q.lo, |q.all| - 2, r);
      if link == 0 || dist > q.max_dist {
        ChainEnds(q.all, q.lo, q.p, r, q.max_dist, q.max_len, q.n, len0);
        CompleteNow(q, len0);
      } else {
        StepReaches(q, r, probe_pos, len0, left, link);
      }
    }
  }

  lemma SaneSize(q: Quest)
    requires Sane(q)
    ensures |q.all| >= 3
  {
  }

  lemma LinkedSizes(next: seq<u16>, hash: seq<u16>, all: seq<byte>, lo: nat, n: nat)
    requires Linked(next, hash, all, lo, n)
    ensures |next| == LZ_DICT_SIZE
  {
    hide HashAt, Last, Ring;
  }

  lemma StillNone(q: Quest, r: nat, probe_pos: nat, dist: nat, len0: nat, left: int)
    requires Sane(q) && NoneFrom(q.all, q.p, 0, q.max_dist, q.max_len, len0)
    ensures Comes(q, r, probe_pos, dist, len0, left)
  {
    hide NoneFrom;
  }

  lemma SanelyOn(q: Quest, r: nat, probe_pos: nat, left: int, len0: nat)
    requires Sane(q) && Came(q, r, probe_pos, len0, left)
    requires !NoneFrom(q.all, q.p, 0, q.max_dist, q.max_len, len0)
    ensures OnChain(q, r, probe_pos, left) && NoneFrom(q.all, q.p, r, q.max_dist, q.max_len, len0)
    ensures q.lo <= r <= q.p <= r + q.max_dist && q.p + 2 < |q.all| && HashAt(q.all, r) == HashAt(q.all, q.p)
    ensures q.max_dist <= q.p - q.lo && q.max_dist <= LZ_DICT_SIZE && probe_pos == Ring(r)
    ensures q.lo <= r < |q.all| - 2 <= r + LZ_DICT_SIZE
  {
    hide NoneFrom, HashAt;
  }

  lemma CompleteNow(q: Quest, len0: nat)
    requires NoneLonger(q.all, q.p, q.max_dist, q.max_len, q.n, len0)
    ensures Complete(q, len0)
  {
    hide NoneLonger;
  }

  lemma StepReaches(q: Quest, r: nat, probe_pos: nat, len0: nat, left: int, link: u16)
    requires Sane(q) && OnChain(q, r, probe_pos, left) && len0 >= 2
    requires NoneFrom(q.all, q.p, r, q.max_dist, q.max_len, len0)
    requires link == Link(Last(q.all, q.lo, r, HashAt(q.all, q.p))) && link != 0
    requires Back(q.p, link) <= q.max_dist
    ensures Comes(q, After(q, r), Ring(link), Back(q.p, link), len0, left - 1)
  {
    var all, lo, p, h := q.all, q.lo, q.p, HashAt(q.all, q.p);
    var l := Last(all, lo, r, h).value;
    hide HashAt, NoneFrom, Alike, Last;
    if p < l + 65536 {
      Distance(p, l);
      SameRing(l);
      NoneBetween(all, lo, p, r, l + 1, q.max_dist, q.max_len, len0);
      OneMoreSeen(all, lo, p, r);
    } else {
      NoneBetween(all, lo, p, r, l + 1, q.max_dist, q.max_len, len0);
      NoneFarther(all, p, l + 1, q.max_dist, q.max_len, len0);
    }
  }

  /** What is farther back than the search may go does not count. */
  lemma NoneFarther(all: seq<byte>, p: nat, l: nat, max_dist: nat, max_len: nat, len0: nat)
    requires NoneFrom(all, p, l, max_dist, max_len, len0) && l + max_dist <= p
    ensures NoneFrom(all, p, 0, max_dist, max_len, len0)
  {
    hide MatchAt;
  }

  /** All places have been seen. */
  lemma AllSeen(q: Quest, r: nat, probe_pos: nat, len0: nat)
    requires Sane(q) && Came(q, r, probe_pos, len0, 0) && len0 >= 2
    ensures Complete(q, len0)
  {
    var all, lo, p := q.all, q.lo, q.p;
    if NoneFrom(all, p, 0, q.max_dist, q.max_len, len0) {
      NoneFromAll(all, p, q.max_dist, q.max_len, q.n, len0);
    } else {
      hide NoneFrom, NoneLonger;
      EnoughSeen(all, lo, p, r, q.max_dist, q.max_len, q.n, len0);
    }
    hide NoneFrom, NoneLonger;
  }

  /** The bytes where a longer match would have to agree do not. */
  lemma Misses(q: Quest, r: nat, probe_pos: nat, dist: nat, len0: nat, left: int)
    requires Sane(q) && Comes(q, r, probe_pos, dist, len0, left) && 1 <= len0 && q.p + len0 < |q.all|
    requires !NoneFrom(q.all, q.p, 0, q.max_dist, q.max_len, len0) ==>
               !SameAt(q.all, q.p, r, len0) || !SameAt(q.all, q.p, r, len0 - 1)
    ensures Came(q, r, probe_pos, len0, left)
  {
    hide NoneFrom, SameAt, HashAt, Alike;
    if !NoneFrom(q.all, q.p, 0, q.max_dist, q.max_len, len0) {
      NotThere(q.all, q.p, r, q.max_dist, q.max_len, len0);
    }
  }

  /** The place at r has been compared. */
  lemma Compared(q: Quest, r: nat, probe_pos: nat, dist: nat, len0: nat, left: int, probe_len: nat)
    requires Sane(q) && Comes(q, r, probe_pos, dist, len0, left)
    requires !NoneFrom(q.all, q.p, 0, q.max_dist, q.max_len, len0) ==>
               probe_len >= q.max_len || !SameAt(q.all, q.p, r, probe_len)
    ensures Came(q, r, probe_pos, if probe_len > len0 then probe_len else len0, left)
  {
    var len1 := if probe_len > len0 then probe_len else len0;
    hide NoneFrom, SameAt, HashAt, Alike;
    if NoneFrom(q.all, q.p, 0, q.max_dist, q.max_len, len0) {
      NoneFromMore(q.all, q.p, 0, q.max_dist, q.max_len, len0, len1);
    } else {
      ComparedThere(q.all, q.p, r, q.max_dist, q.max_len, len0, probe_len, len1);
    }
  }
}
