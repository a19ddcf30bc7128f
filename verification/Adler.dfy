/**
  The Adler-32 checksum of RFC 1950: the definition takes the remainder after every byte, the code
  once for every 5552 of them, eight bytes at a time.
 */
module Adler {
  import opened Bits

  const BASE: nat := 65521
  /** As many bytes as the sums can take in 32 bits without a remainder. */
  const BLOCK: nat := 5552

  datatype Sums = Sums(s1: nat, s2: nat)

  /** Section 8.2 of RFC 1950: the sum of the bytes, and the sum of the sums. */
  function Checksum(start: Sums, s: seq<byte>): (r: Sums)
  {
    if s == [] then start
    else
      var before := Checksum(start, s[..|s| - 1]);
      var s1 := (before.s1 + s[|s| - 1] as nat) % BASE;
      Sums(s1, (before.s2 + s1) % BASE)
  }

  /** The checksum as one number. */
  function Packed(sums: Sums): (r: nat)
  {
    sums.s2 * 65536 + sums.s1
  }

  /** The same sums with no remainder taken. */
  function Raw(start: Sums, s: seq<byte>): (r: Sums)
  {
    if s == [] then start
    else
      var before := Raw(start, s[..|s| - 1]);
      var s1 := before.s1 + s[|s| - 1] as nat;
      Sums(s1, before.s2 + s1)
  }

  function Reduced(sums: Sums): (r: Sums)
  {
    Sums(sums.s1 % BASE, sums.s2 % BASE)
  }

  ghost predicate Small(sums: Sums)
  {
    sums.s1 < BASE && sums.s2 < BASE
  }

  lemma ModStep(x: nat, y: nat, c: nat)
    ensures (x % BASE + c) % BASE == (x + c) % BASE
    ensures (y % BASE + (x + c) % BASE) % BASE == (y + (x + c)) % BASE
  {
  }

  lemma OneLate(raw: Sums, c: nat)
    ensures var s1 := (Reduced(raw).s1 + c) % BASE;
            var sums := Sums(s1, (Reduced(raw).s2 + s1) % BASE);
            Reduced(Sums(raw.s1 + c, raw.s2 + (raw.s1 + c))) == sums && Small(sums)
  {
    ModStep(raw.s1, raw.s2, c);
  }

  /** Taking the remainder once at the end is the same as after every byte. */
  lemma {:induction false} LateRemainder(start: Sums, s: seq<byte>)
    requires Small(start)
    ensures Reduced(Raw(start, s)) == Checksum(start, s) && Small(Checksum(start, s))
  {
    if s != [] {
      var init := s[..|s| - 1];
      LateRemainder(start, init);
      OneLate(Raw(start, init), s[|s| - 1]);
      hide Reduced, Small;
    }
  }

  /** The checksum of three bytes, "abc", by hand. */
  lemma Abc()
    ensures Packed(Checksum(Sums(1, 0), [97, 98, 99])) == 0x024D0127
  {
    var s: seq<byte> := [97, 98, 99];
    assert s[..2] == [97, 98] && s[..2][..1] == [97] && s[..1][..0] == [];
    assert Checksum(Sums(1, 0), []) == Sums(1, 0) && Checksum(Sums(1, 0), s[..1]) == Sums(98, 98);
    assert Checksum(Sums(1, 0), s[..2]) == Sums(196, 294) && Checksum(Sums(1, 0), s) == Sums(295, 589);
  }

  lemma {:induction false} Continued(start: Sums, a: seq<byte>, b: seq<byte>)
    ensures Checksum(start, a + b) == Checksum(Checksum(start, a), b)
  {
    if b == [] {
      assert a + b == a;
    } else {
      Continued(start, a, b[..|b| - 1]);
      assert (a + b)[..|a + b| - 1] == a + b[..|b| - 1];
    }
  }

  /** The most the second sum can be after n bytes. */
  function Most(n: nat): (r: nat)
  {
    if n == 0 then BASE - 1 else Most(n - 1) + (BASE - 1) + 255 * n
  }

  lemma {:induction false} MostIs(n: nat)
    ensures 2 * Most(n) == 2 * (BASE - 1) * (n + 1) + 255 * (n * (n + 1))
  {
    if n > 0 {
      MostIs(n - 1);
      assert n * (n + 1) == (n - 1) * n + 2 * n;
    }
  }

  lemma {:induction false} MostMono(a: nat, b: nat)
    requires a <= b
    ensures Most(a) <= Most(b)
  {
    if a < b { MostMono(a, b - 1); }
  }

  /** 5552 is small enough. */
  lemma NoOverflow(n: nat)
    requires n <= BLOCK
    ensures Most(n) < U32 && BASE - 1 + 255 * n < U32
  {
    MostIs(BLOCK);
    MostMono(n, BLOCK);
  }

  lemma {:induction false} RawBound(start: Sums, s: seq<byte>)
    requires Small(start)
    ensures Raw(start, s).s1 <= BASE - 1 + 255 * |s| && Raw(start, s).s2 <= Most(|s|)
  {
    if s != [] { RawBound(start, s[..|s| - 1]); }
  }

  /** Addition in 32 bits. */
  function Add32(a: nat, b: nat): (r: nat)
    ensures a + b < U32 ==> r == a + b
  {
    (a + b) % U32
  }

  /** One more byte in both sums, in 32 bits. */
  method AddByte(s1: nat, s2: nat, c: byte, ghost start: Sums, ghost s: seq<byte>) returns (t1: nat, t2: nat)
    requires Small(start) && Sums(s1, s2) == Raw(start, s) && |s| < BLOCK
    ensures Sums(t1, t2) == Raw(start, s + [c])
  {
    var t := s + [c];
    assert t[..|t| - 1] == s;
    RawBound(start, t);
    NoOverflow(|t|);
    t1 := Add32(s1, c);
    t2 := Add32(s2, t1);
  }

  lemma Next(s: seq<byte>, p: nat, i: nat)
    requires p + i < |s|
    ensures s[p..p + i] + [s[p + i]] == s[p..p + i + 1]
  {
  }

  /** The sums over the next block_len bytes, eight at a time as long as there are eight. */
  method AddBlock(s1: nat, s2: nat, buf: seq<byte>, p: nat, block_len: nat) returns (t1: nat, t2: nat)
    requires Small(Sums(s1, s2)) && p + block_len <= |buf| && block_len <= BLOCK
    ensures Sums(t1, t2) == Raw(Sums(s1, s2), buf[p..p + block_len])
  {
    ghost var start := Sums(s1, s2);
    t1, t2 := s1, s2;
    var i := 0;
    hide Raw;
    RawNothing(start, buf, p);
    while i + 7 < block_len
      invariant 0 <= i <= block_len && Sums(t1, t2) == Raw(start, buf[p..p + i])
    {
      t1, t2 := AddEight(t1, t2, buf, p, i, start);
      i := i + 8;
    }
    while i < block_len
      invariant 0 <= i <= block_len && Sums(t1, t2) == Raw(start, buf[p..p + i])
    {
      Next(buf, p, i);
      t1, t2 := AddByte(t1, t2, buf[p + i], start, buf[p..p + i]);
      i := i + 1;
    }
  }

  lemma RawNothing(start: Sums, buf: seq<byte>, p: nat)
    requires p <= |buf|
    ensures Raw(start, buf[p..p]) == start
  {
  }

  /** The unrolled loop body. */
  method AddEight(s1: nat, s2: nat, buf: seq<byte>, p: nat, i: nat, ghost start: Sums) returns (t1: nat, t2: nat)
    requires Small(start) && p + i + 8 <= |buf| && i + 8 <= BLOCK && Sums(s1, s2) == Raw(start, buf[p..p + i])
    ensures Sums(t1, t2) == Raw(start, buf[p..p + i + 8])
  {
    hide *;
    Next(buf, p, i);
    Next(buf, p, i + 1);
    Next(buf, p, i + 2);
    Next(buf, p, i + 3);
    Next(buf, p, i + 4);
    Next(buf, p, i + 5);
    Next(buf, p, i + 6);
    Next(buf, p, i + 7);
    t1, t2 := AddByte(s1, s2, buf[p + i], start, buf[p..p + i]);
    t1, t2 := AddByte(t1, t2, buf[p + i + 1], start, buf[p..p + i + 1]);
    t1, t2 := AddByte(t1, t2, buf[p + i + 2], start, buf[p..p + i + 2]);
    t1, t2 := AddByte(t1, t2, buf[p + i + 3], start, buf[p..p + i + 3]);
    t1, t2 := AddByte(t1, t2, buf[p + i + 4], start, buf[p..p + i + 4]);
    t1, t2 := AddByte(t1, t2, buf[p + i + 5], start, buf[p..p + i + 5]);
    t1, t2 := AddByte(t1, t2, buf[p + i + 6], start, buf[p..p + i + 6]);
    t1, t2 := AddByte(t1, t2, buf[p + i + 7], start, buf[p..p + i + 7]);
  }

  /** Carries the checksum over the bytes of buf; the odd bytes come first, then whole blocks. */
  method Update(check: nat, buf: seq<byte>, ghost sums: Sums) returns (r: nat)
    requires Small(sums) && check == Packed(sums)
    ensures r == Packed(Checksum(sums, buf)) && Small(Checksum(sums, buf)) && r < U32
  {
    hide *;
    NothingYet(sums, buf);
    WholeBlocks(|buf|);
    var s1: nat, s2: nat := check % 65536, check / 65536;
    var p: nat, buf_len: nat, block_len: nat := 0, |buf|, |buf| % BLOCK;
    while buf_len > 0
      invariant p + buf_len == |buf| && block_len <= BLOCK && (buf_len > 0 ==> block_len <= buf_len)
      invariant Aligned(buf_len, block_len)
      invariant Sums(s1, s2) == Checksum(sums, buf[..p]) && Small(Sums(s1, s2))
      decreases buf_len, BLOCK - block_len
    {
      var t1, t2 := AddBlock(s1, s2, buf, p, block_len);
      LateRemainder(Sums(s1, s2), buf[p..p + block_len]);
      Continued(sums, buf[..p], buf[p..p + block_len]);
      TakeMore(buf, p, block_len);
      s1, s2 := Remainder(t1, t2);
      Progress(buf_len, block_len);
      buf_len := buf_len - block_len;
      p := p + block_len;
      block_len := BLOCK;
    }
    assert buf[..p] == buf;
    PackedFits(Sums(s1, s2));
    r := s2 * 65536 + s1;
  }

  method Remainder(t1: nat, t2: nat) returns (s1: nat, s2: nat)
    ensures Sums(s1, s2) == Reduced(Sums(t1, t2))
  {
    s1, s2 := t1 % BASE, t2 % BASE;
  }

  /** After the odd bytes only whole blocks are left. */
  ghost predicate Aligned(buf_len: nat, block_len: nat)
  {
    if block_len == BLOCK then buf_len % BLOCK == 0 else block_len == buf_len % BLOCK
  }

  lemma WholeBlocks(n: nat)
    ensures BLOCK > 0 && 0 <= n % BLOCK <= n && n % BLOCK < BLOCK && Aligned(n, n % BLOCK)
  {
  }

  lemma Progress(buf_len: nat, block_len: nat)
    requires buf_len > 0 && block_len <= buf_len && Aligned(buf_len, block_len)
    ensures Aligned(buf_len - block_len, BLOCK) && (buf_len - block_len > 0 ==> BLOCK <= buf_len - block_len)
    ensures block_len > 0 || block_len < BLOCK
  {
  }

  lemma NothingYet(sums: Sums, buf: seq<byte>)
    requires Small(sums)
    ensures Checksum(sums, buf[..0]) == sums && Packed(sums) % 65536 == sums.s1 && Packed(sums) / 65536 == sums.s2
  {
  }

  lemma TakeMore(buf: seq<byte>, p: nat, n: nat)
    requires p + n <= |buf|
    ensures buf[..p] + buf[p..p + n] == buf[..p + n]
  {
  }

  lemma PackedFits(sums: Sums)
    requires Small(sums)
    ensures sums.s2 * 65536 + sums.s1 == Packed(sums) < U32
  {
  }
}
