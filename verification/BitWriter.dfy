/**
  The bit buffer of the compressor and the output buffer it is emptied into. Bytes that do not
  fit in the output buffer are dropped; the block writer finds out afterwards.
 */
module BitWriter {
  import opened Bits

  function Min(a: int, b: int): (r: int)
    ensures r <= a && r <= b && (r == a || r == b)
  {
    if a < b then a else b
  }

  /** All but the last n of the bits put have left the bit buffer, as far as there was room. */
  ghost predicate Written(t: seq<byte>, start: nat, cur: nat, end: nat, buffer: nat, n: nat, bits: Bits)
  {
    start <= cur <= end <= |t| && n <= |bits| && (|bits| - n) % 8 == 0 &&
    buffer < Pow2(n) && ToBits(buffer, n) == bits[|bits| - n..] &&
    cur == Min(end, start + (|bits| - n) / 8) &&
    BytesToBits(t[start..cur]) == bits[..8 * (cur - start)]
  }

  lemma LowByte(v: nat, n: nat)
    requires n >= 8 && v < Pow2(n)
    ensures ToBits(v % 256, 8) == ToBits(v, n)[..8]
    ensures ToBits(v / 256, n - 8) == ToBits(v, n)[8..]
    ensures v / 256 < Pow2(n - 8)
  {
    hide ToBits, Pow2;
    Powers();
    Pow2Add(8, n - 8);
    ToBitsAppend(v % 256, 8, v / 256, n - 8);
    assert v == v % 256 + v / 256 * Pow2(8);
  }

  /** Where the next byte goes when one more has left the buffer. */
  lemma ByteLess(start: nat, cur: nat, end: nat, len: nat, n: nat)
    requires start <= cur < end && 8 <= n <= len && (len - n) % 8 == 0 && cur == Min(end, start + (len - n) / 8)
    ensures 8 * (cur - start) == len - n && (len - (n - 8)) % 8 == 0 && cur + 1 == Min(end, start + (len - (n - 8)) / 8)
  {
  }

  /** A byte leaves the bit buffer and is kept. */
  lemma KeepByte(t: seq<byte>, start: nat, cur: nat, end: nat, buffer: nat, n: nat, bits: Bits, t': seq<byte>)
    requires Written(t, start, cur, end, buffer, n, bits) && n >= 8 && cur < end
    requires t' == t[cur := buffer % 256]
    ensures Written(t', start, cur + 1, end, buffer / 256, n - 8, bits)
  {
    hide ToBits, BytesToBits, Pow2, Min;
    LowByte(buffer, n);
    assert t'[start..cur + 1] == t[start..cur] + [buffer % 256];
    BytesToBitsSnoc(t[start..cur], buffer % 256);
    ByteLess(start, cur, end, |bits|, n);
    var k := 8 * (cur - start);
    assert bits[..k + 8] == bits[..k] + bits[|bits| - n..][..8];
    assert bits[|bits| - (n - 8)..] == bits[|bits| - n..][8..];
  }

  /** A byte leaves the bit buffer and is lost. */
  lemma DropByte(t: seq<byte>, start: nat, cur: nat, end: nat, buffer: nat, n: nat, bits: Bits)
    requires Written(t, start, cur, end, buffer, n, bits) && n >= 8 && cur == end
    ensures Written(t, start, cur, end, buffer / 256, n - 8, bits)
  {
    LowByte(buffer, n);
    hide ToBits, BytesToBits, Pow2;
    assert bits[|bits| - (n - 8)..] == bits[|bits| - n..][8..];
  }

  lemma AddRoom(buffer: nat, n: nat, b: nat, len: nat)
    requires buffer < Pow2(n) && b < Pow2(len) && n < 8 && len <= 16
    ensures buffer + b * Pow2(n) < Pow2(n + len) < U32
  {
    hide Pow2;
    Pow2Add(n, len);
    Room(buffer, Pow2(n), b, Pow2(len));
    Pow2Mono(n + len, 23);
    MorePowers();
  }

  lemma Room(x: nat, p: nat, b: nat, q: nat)
    requires x < p && b < q
    ensures x + b * p < p * q
  {
    MulMono(b + 1, q, p);
  }

  /** Two numbers without a common bit put together, in 32 bits. */
  function Or(x: nat, y: nat): (r: nat)
  {
    (x + y) % U32
  }

  function Shl(b: nat, n: nat): (r: nat)
  {
    b * Pow2(n)
  }

  lemma OrNoWrap(x: nat, y: nat)
    requires x + y < U32
    ensures Or(x, y) == x + y
  {
  }

  lemma OrBits(buffer: nat, n: nat, b: nat, len: nat)
    requires buffer < Pow2(n) && b < Pow2(len) && n < 8 && len <= 16
    ensures Or(buffer, Shl(b, n)) < Pow2(n + len)
    ensures ToBits(Or(buffer, Shl(b, n)), n + len) == ToBits(buffer, n) + ToBits(b, len)
  {
    hide ToBits, Pow2, Or;
    ToBitsAppend(buffer, n, b, len);
    AddRoom(buffer, n, b, len);
    OrNoWrap(buffer, Shl(b, n));
  }

  /** New bits go above those in the bit buffer. */
  lemma AddBits(t: seq<byte>, start: nat, cur: nat, end: nat, buffer: nat, n: nat, bits: Bits, buffer': nat, more: Bits)
    requires Written(t, start, cur, end, buffer, n, bits) && n < 8
    requires buffer' < Pow2(n + |more|) && ToBits(buffer', n + |more|) == ToBits(buffer, n) + more
    ensures Written(t, start, cur, end, buffer', n + |more|, bits + more)
  {
    hide ToBits, BytesToBits, Pow2;
    var bits' := bits + more;
    var k := n + |more|;
    assert bits'[|bits'| - k..] == bits[|bits| - n..] + more;
    assert bits'[..8 * (cur - start)] == bits[..8 * (cur - start)];
  }

  /** Only places lo .. hi may have changed. */
  ghost predicate Kept(t0: seq<byte>, t1: seq<byte>, lo: nat, hi: nat)
  {
    |t0| == |t1| && lo <= hi <= |t0| && t1[..lo] == t0[..lo] && t1[hi..] == t0[hi..]
  }

  /** What a bit writer holds at one time. */
  datatype Snapshot = Snapshot(target: array<byte>, start: nat, cur: nat, end: nat, bytes: seq<byte>, bits: Bits)

  /** From a to b, more was put and nothing already written was touched. */
  ghost predicate Extends(a: Snapshot, b: Snapshot, more: Bits)
  {
    b.target == a.target && b.start == a.start && b.end == a.end && b.bits == a.bits + more &&
    a.cur <= b.cur && Kept(a.bytes, b.bytes, a.cur, a.end)
  }

  lemma ExtendsMore(a: Snapshot, b: Snapshot, c: Snapshot, m: Bits, m': Bits)
    requires Extends(a, b, m) && Extends(b, c, m')
    ensures Extends(a, c, m + m')
  {
    KeptStep(a.bytes, b.bytes, c.bytes, a.cur, b.cur, a.end);
    hide Kept;
    assert (a.bits + m) + m' == a.bits + (m + m');
  }

  lemma ExtendsNot(a: Snapshot)
    requires a.cur <= a.end <= |a.bytes|
    ensures Extends(a, a, [])
  {
    assert a.bits + [] == a.bits;
  }

  lemma KeptStep(t0: seq<byte>, t1: seq<byte>, t2: seq<byte>, lo: nat, lo': nat, hi: nat)
    requires Kept(t0, t1, lo, hi) && Kept(t1, t2, lo', hi) && lo <= lo'
    ensures Kept(t0, t2, lo, hi)
  {
    assert t2[..lo] == t2[..lo'][..lo] == t1[..lo'][..lo] == t1[..lo];
  }

  class BitWriter {
    var target: array<byte>
    var start: nat
    var cur: nat
    var end: nat
    var bit_buffer: nat
    var bits_in: nat
    /** Everything put since start, whether it fitted or not. */
    ghost var bits: Bits

    constructor (t: array<byte>)
      ensures target == t && bits_in == 0 && bit_buffer == 0
    {
      target, start, cur, end, bit_buffer, bits_in, bits := t, 0, 0, 0, 0, 0, [];
    }

    ghost predicate Valid()
      reads this, target
    {
      bits_in < 8 && Written(target[..], start, cur, end, bit_buffer, bits_in, bits)
    }

    /** Bits that have not filled a byte yet. */
    ghost predicate Leftover()
      reads this
    {
      bits_in < 8 && bit_buffer < Pow2(bits_in)
    }

    ghost function State(): (s: Snapshot)
      reads this, target
    {
      Snapshot(target, start, cur, end, target[..], bits)
    }

    /** Starts writing at a place in t; bits left over from before come first. */
    method Begin(t: array<byte>, from: nat, limit: nat)
      requires Leftover() && from <= limit <= t.Length
      modifies this
      ensures Valid() && target == t && start == cur == from && end == limit
      ensures bits_in == old(bits_in) && bit_buffer == old(bit_buffer)
      ensures bits == ToBits(bit_buffer, bits_in)
    {
      target, start, cur, end := t, from, from, limit;
      bits := ToBits(bit_buffer, bits_in);
      assert t[..][from..from] == [];
    }

    /** Nothing was dropped. */
    ghost predicate Fits()
      reads this
    {
      start + |bits| / 8 <= end
    }

    /** Puts the low len bits of b. */
    method PutBits(b: nat, len: nat)
      requires Valid() && b < Pow2(len) && len <= 16
      modifies this, target
      ensures Valid() && target == old(target) && Extends(old(State()), State(), ToBits(b, len))
    {
      ghost var t0, cur0 := target[..], cur;
      OrBits(bit_buffer, bits_in, b, len);
      AddBits(target[..], start, cur, end, bit_buffer, bits_in, bits, Or(bit_buffer, Shl(b, bits_in)), ToBits(b, len));
      assert cur <= end <= target.Length && Kept(t0, t0, cur, end);
      hide Written, Pow2, ToBits, Kept, Or, Shl;
      bit_buffer := Or(bit_buffer, Shl(b, bits_in));
      bits_in := bits_in + len;
      bits := bits + ToBits(b, len);
      while bits_in >= 8
        invariant target == old(target) && start == old(start) && end == old(end)
        invariant cur0 <= cur <= end <= target.Length
        invariant bits == old(bits) + ToBits(b, len)
        invariant Written(target[..], start, cur, end, bit_buffer, bits_in, bits)
        invariant Kept(t0, target[..], cur0, end)
      {
        ghost var t1, cur1 := target[..], cur;
        PutByte();
        KeptStep(t0, t1, target[..], cur0, cur1, end);
      }
    }

    /** Moves a byte from the bit buffer to the output buffer. */
    method PutByte()
      requires Written(target[..], start, cur, end, bit_buffer, bits_in, bits) && bits_in >= 8
      requires cur <= end <= target.Length
      modifies this`cur, this`bit_buffer, this`bits_in, target
      ensures Written(target[..], start, cur, end, bit_buffer, bits_in, bits)
      ensures bits_in == old(bits_in) - 8 && old(cur) <= cur <= end
      ensures Kept(old(target[..]), target[..], old(cur), end)
    {
      hide Written;
      ghost var t0 := target[..];
      if cur < end {
        target[cur] := bit_buffer % 256;
        KeepByte(t0, start, cur, end, bit_buffer, bits_in, bits, target[..]);
        cur := cur + 1;
      } else {
        DropByte(t0, start, cur, end, bit_buffer, bits_in, bits);
      }
      bit_buffer := bit_buffer / 256;
      bits_in := bits_in - 8;
    }

    /** Fills up the last byte with zeros. */
    method Align()
      requires Valid()
      modifies this, target
      ensures Valid() && bits_in == 0 && target == old(target) && Extends(old(State()), State(), Padding(old(|bits|)))
    {
      WrittenRest(target[..], start, cur, end, bit_buffer, bits_in, bits);
      hide Written, Pow2, ToBits, Kept, Extends;
      ghost var n := |bits|;
      PaddingIs(n, bits_in);
      if bits_in > 0 {
        PutBits(0, 8 - bits_in);
        assert |bits| == n + (8 - old(bits_in)) by { ExtendsSize(old(State()), State(), Padding(n)); }
        WrittenRest(target[..], start, cur, end, bit_buffer, bits_in, bits);
      } else {
        ExtendsNot(State());
      }
    }

    /** Goes back to an earlier state. */
    method Restore(saved_cur: nat, saved_buffer: nat, saved_bits_in: nat, ghost saved_bits: Bits)
      requires saved_bits_in < 8 && start <= saved_cur <= end <= target.Length
      requires Written(target[..], start, saved_cur, end, saved_buffer, saved_bits_in, saved_bits)
      modifies this`cur, this`bit_buffer, this`bits_in, this`bits
      ensures Valid() && bits == saved_bits && cur == saved_cur
    {
      cur, bit_buffer, bits_in, bits := saved_cur, saved_buffer, saved_bits_in, saved_bits;
    }
  }

  lemma WrittenRest(t: seq<byte>, start: nat, cur: nat, end: nat, buffer: nat, n: nat, bits: Bits)
    requires Written(t, start, cur, end, buffer, n, bits) && n < 8
    ensures |bits| % 8 == n && cur <= end <= |t|
  {
  }

  lemma PaddingIs(n: nat, bits_in: nat)
    requires n % 8 == bits_in
    ensures Padding(n) == if bits_in > 0 then ToBits(0, 8 - bits_in) else []
    ensures bits_in > 0 ==> 0 < Pow2(8 - bits_in) && (n + (8 - bits_in)) % 8 == 0
  {
    hide Pow2, ToBits;
    ToNext(n, bits_in);
    assert ToBits(0, 0) == [];
  }

  /** How far it is to the next byte boundary. */
  lemma ToNext(n: nat, k: nat)
    requires n % 8 == k
    ensures (8 - n % 8) % 8 == if k > 0 then 8 - k else 0
    ensures k > 0 ==> (n + (8 - k)) % 8 == 0
  {
    if k > 0 { assert n + (8 - k) == 8 * (n / 8 + 1); }
  }

  lemma ExtendsSize(a: Snapshot, b: Snapshot, more: Bits)
    requires Extends(a, b, more)
    ensures |b.bits| == |a.bits| + |more|
  {
    hide Kept;
  }

  /** What was written stays written when more follows. */
  lemma StillWritten(t: seq<byte>, t': seq<byte>, start: nat, cur: nat, end: nat, buffer: nat, n: nat, bits: Bits)
    requires Written(t, start, cur, end, buffer, n, bits)
    requires |t'| == |t| && t'[..cur] == t[..cur]
    ensures Written(t', start, cur, end, buffer, n, bits)
  {
    assert t'[start..cur] == t'[..cur][start..] == t[..cur][start..] == t[start..cur];
  }

  /** Zeros up to the next byte boundary. */
  ghost function Padding(n: nat): (r: Bits)
    ensures |r| == (8 - n % 8) % 8
  {
    ToBits(0, (8 - n % 8) % 8)
  }
}
