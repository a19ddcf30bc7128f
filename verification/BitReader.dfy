/**
  The bit buffer of inflate. Whatever has been read ahead, the buffer and the bytes not read yet are
  exactly the part of the stream that is still to be decoded.
 */
module BitReader {
  import opened Wrappers
  import opened Bits
  import opened Deflate

  /** Of the stream, taken bytes have been read and todo is still to be decoded; its first n bits are in buffer. */
  ghost predicate Reading(stream: seq<byte>, taken: nat, buffer: nat, n: nat, todo: Bits)
  {
    taken <= |stream| && n <= 8 * taken && buffer < Pow2(n) && n <= |todo| &&
    todo == BytesToBits(stream)[8 * taken - n..] && ToBits(buffer, n) == todo[..n]
  }

  lemma EightLater(a: Bits, t: Bits, k: nat)
    requires |a| == 8 && k + 8 <= |t|
    ensures (a + t)[k + 8..k + 16] == t[k..k + 8]
  {
  }

  lemma {:induction false} ByteAt(s: seq<byte>, i: nat)
    requires i < |s|
    ensures BytesToBits(s)[8 * i..8 * i + 8] == ToBits(s[i], 8)
  {
    var b := BytesToBits(s);
    if i == 0 {
      assert b[..8] == ToBits(s[0], 8);
    } else {
      ByteAt(s[1..], i - 1);
      var t := BytesToBits(s[1..]);
      assert b == ToBits(s[0], 8) + t;
      hide ToBits, BytesToBits;
      EightLater(ToBits(s[0], 8), t, 8 * (i - 1));
    }
  }

  /** A byte comes in above the bits in the buffer. */
  function Join(buffer: nat, n: nat, c: nat): (r: nat)
  {
    buffer + c * Pow2(n)
  }

  lemma ByteBits(c: byte)
    ensures c < Pow2(8)
  {
    Powers();
  }

  lemma ReadByte(stream: seq<byte>, taken: nat, buffer: nat, n: nat, todo: Bits)
    requires Reading(stream, taken, buffer, n, todo) && taken < |stream|
    ensures Reading(stream, taken + 1, Join(buffer, n, stream[taken]), n + 8, todo)
  {
    hide *;
    var c := stream[taken];
    ReadingGives(stream, taken, buffer, n, todo);
    ByteAt(stream, taken);
    ByteBits(c);
    JoinBits(buffer, n, c);
    JoinFits(buffer, n, c);
    ReadingMore(stream, taken, buffer, n, todo, Join(buffer, n, c));
  }

  lemma ReadingMore(stream: seq<byte>, taken: nat, buffer: nat, n: nat, todo: Bits, more: nat)
    requires Reading(stream, taken, buffer, n, todo) && taken < |stream| && more < Pow2(n + 8)
    requires |BytesToBits(stream)| == 8 * |stream|
    requires ToBits(more, n + 8) == ToBits(buffer, n) + BytesToBits(stream)[8 * taken..8 * taken + 8]
    ensures Reading(stream, taken + 1, more, n + 8, todo)
  {
    hide ToBits, BytesToBits, Pow2;
    assert todo[..n + 8] == todo[..n] + BytesToBits(stream)[8 * taken..8 * taken + 8];
  }

  lemma JoinBits(buffer: nat, n: nat, c: byte)
    requires buffer < Pow2(n)
    ensures ToBits(Join(buffer, n, c), n + 8) == ToBits(buffer, n) + ToBits(c, 8)
  {
    hide ToBits, Pow2;
    ByteBits(c);
    ToBitsAppend(buffer, n, c, 8);
  }

  lemma JoinFits(buffer: nat, n: nat, c: byte)
    requires buffer < Pow2(n)
    ensures Join(buffer, n, c) < Pow2(n + 8)
  {
    Pow2Add(n, 8);
    Powers();
    MulMono(c as int + 1, 256, Pow2(n));
    hide Pow2;
    Spread(c, Pow2(n));
  }

  lemma Spread(c: int, p: int)
    ensures (c + 1) * p == c * p + p && 256 * p == p * 256
  {
  }

  /** The low k bits of the buffer. */
  function Low(buffer: nat, k: nat): (r: nat)
    ensures r < Pow2(k)
  {
    buffer % Pow2(k)
  }

  /** The buffer without its low k bits. */
  function High(buffer: nat, k: nat): (r: nat)
  {
    DivNat(buffer, Pow2(k));
    buffer / Pow2(k)
  }

  lemma DivNat(a: nat, p: nat)
    requires p > 0
    ensures a / p >= 0
  {
  }

  lemma LowFits(buffer: nat, k: nat)
    ensures Low(buffer, k) < Pow2(k)
  {
  }

  lemma SplitAt(buffer: nat, k: nat)
    ensures buffer == Low(buffer, k) + High(buffer, k) * Pow2(k)
  {
    hide Pow2;
  }

  lemma HighFits(buffer: nat, k: nat, n: nat)
    requires k <= n && buffer < Pow2(n)
    ensures High(buffer, k) < Pow2(n - k)
  {
    SplitAt(buffer, k);
    Pow2Add(k, n - k);
    hide Pow2, High, Low;
    MulLess(High(buffer, k), Pow2(n - k), Pow2(k));
  }

  lemma MulLess(a: nat, b: nat, p: nat)
    requires a * p < b * p || a * p < p * b
    ensures a < b
  {
    MulCancelStrict(a, b, p);
  }

  /** The next k bits as a number, and the buffer without them. */
  lemma DropBits(stream: seq<byte>, taken: nat, buffer: nat, n: nat, todo: Bits, k: nat)
    requires Reading(stream, taken, buffer, n, todo) && k <= n
    ensures Reading(stream, taken, High(buffer, k), n - k, todo[k..])
    ensures k <= |todo| && Low(buffer, k) == FromBits(todo[..k])
  {
    hide *;
    var lo, hi := Low(buffer, k), High(buffer, k);
    ReadingGives(stream, taken, buffer, n, todo);
    SplitAt(buffer, k);
    LowFits(buffer, k);
    HighFits(buffer, k, n);
    ToBitsAppend(lo, k, hi, n - k);
    FromToBits(lo, k);
    TwoParts(ToBits(lo, k), ToBits(hi, n - k), todo, k, n);
    ReadingLater(stream, taken, buffer, n, todo, k, hi);
  }

  lemma TwoParts(a: Bits, b: Bits, todo: Bits, k: nat, n: nat)
    requires k <= n <= |todo| && |a| == k && a + b == todo[..n]
    ensures a == todo[..k] && b == todo[k..][..n - k]
  {
    assert todo[..n][..k] == todo[..k] && todo[..n][k..] == todo[k..][..n - k];
  }

  lemma ReadingLater(stream: seq<byte>, taken: nat, buffer: nat, n: nat, todo: Bits, k: nat, hi: nat)
    requires Reading(stream, taken, buffer, n, todo) && k <= n && hi < Pow2(n - k)
    requires ToBits(hi, n - k) == todo[k..][..n - k]
    ensures Reading(stream, taken, hi, n - k, todo[k..])
  {
    hide ToBits, BytesToBits, Pow2;
    assert BytesToBits(stream)[8 * taken - n..][k..] == BytesToBits(stream)[8 * taken - (n - k)..];
  }

  /** The last byte read goes back. */
  lemma PushByte(stream: seq<byte>, taken: nat, buffer: nat, n: nat, todo: Bits)
    requires Reading(stream, taken, buffer, n, todo) && n >= 8 && taken >= 1
    ensures Reading(stream, taken - 1, Low(buffer, n - 8), n - 8, todo)
  {
    var k: nat := n - 8;
    SplitAt(buffer, k);
    ToBitsAppend(Low(buffer, k), k, High(buffer, k), 8);
    hide ToBits, BytesToBits, Pow2, Low, High;
    assert todo[..n][..k] == todo[..k];
  }

  /** At first, and whenever the buffer is empty. */
  lemma ReadingFirst(stream: seq<byte>)
    ensures Reading(stream, 0, 0, 0, BytesToBits(stream))
  {
    hide BytesToBits;
    assert BytesToBits(stream)[0..] == BytesToBits(stream);
  }

  lemma ReadingGives(stream: seq<byte>, taken: nat, buffer: nat, n: nat, todo: Bits)
    requires Reading(stream, taken, buffer, n, todo)
    ensures taken <= |stream| && n <= 8 * taken && buffer < Pow2(n) && |todo| == 8 * |stream| - (8 * taken - n)
    ensures n <= |todo|
    ensures ToBits(buffer, n) == todo[..n]
  {
    hide ToBits, Pow2;
  }

  /** Bytes taken past the buffer. */
  lemma ReadingPast(stream: seq<byte>, taken: nat, buffer: nat, n: nat, todo: Bits, k: nat)
    requires Reading(stream, taken, buffer, n, todo) && n == 0 && taken + k <= |stream|
    ensures 8 * k <= |todo| && Reading(stream, taken + k, buffer, 0, todo[8 * k..])
  {
    hide BytesToBits, Pow2, ToBits;
  }

  lemma NextByte(stream: seq<byte>, taken: nat, buffer: nat, todo: Bits)
    requires Reading(stream, taken, buffer, 0, todo) && taken < |stream|
    ensures 8 <= |todo| && FromBits(todo[..8]) % 256 == stream[taken]
    ensures Reading(stream, taken + 1, buffer, 0, todo[8..])
  {
    ReadingPast(stream, taken, buffer, 0, todo, 1);
    ByteAt(stream, taken);
    ByteBits(stream[taken]);
    FromToBits(stream[taken], 8);
    hide BytesToBits, ToBits, FromBits;
    assert todo[..8] == BytesToBits(stream)[8 * taken..8 * taken + 8];
  }

  /** in_buf is what comes next in the stream after the first base bytes. */
  ghost predicate Chunk(stream: seq<byte>, base: nat, in_buf: seq<byte>)
  {
    base + |in_buf| <= |stream| && stream[base..base + |in_buf|] == in_buf
  }

  lemma ChunkGives(stream: seq<byte>, base: nat, in_buf: seq<byte>)
    requires Chunk(stream, base, in_buf)
    ensures base + |in_buf| <= |stream|
  {
  }

  lemma ChunkAt(stream: seq<byte>, base: nat, in_buf: seq<byte>, i: nat)
    requires Chunk(stream, base, in_buf) && i < |in_buf|
    ensures base + i < |stream| && in_buf[i] == stream[base + i]
  {
    assert stream[base..base + |in_buf|][i] == stream[base + i];
  }

  class BitReader {
    /** The bit buffer has 64 bits, or 32. */
    const wide: bool
    var bit_buf: nat
    var num_bits: nat
    /** The input of this call, and how much of it has been read. */
    var in_buf: seq<byte>
    var cur: nat
    /** The whole stream, where this call's input begins in it, and what is still to be decoded. */
    ghost var stream: seq<byte>
    ghost var base: nat
    ghost var todo: Bits

    constructor (w: bool, ghost s: seq<byte>)
      ensures Valid() && wide == w && stream == s && base == 0 && in_buf == [] && num_bits == 0
      ensures todo == BytesToBits(s)
    {
      wide, bit_buf, num_bits, in_buf, cur := w, 0, 0, [], 0;
      stream, base, todo := s, 0, BytesToBits(s);
      ReadingFirst(s);
    }

    /** Bytes of the stream that have been read. */
    ghost function Taken(): (r: nat)
      reads this`base, this`cur
    {
      base + cur
    }

    ghost predicate Valid()
      reads this
    {
      cur <= |in_buf| && Chunk(stream, base, in_buf) && Reading(stream, base + cur, bit_buf, num_bits, todo) &&
      num_bits <= (if wide then 64 else 32)
    }

    lemma ValidGives()
      requires Valid()
      ensures cur <= |in_buf| && Chunk(stream, base, in_buf) && Reading(stream, base + cur, bit_buf, num_bits, todo)
      ensures bit_buf < Pow2(num_bits) && num_bits <= |todo| && ToBits(bit_buf, num_bits) == todo[..num_bits]
      ensures |todo| == 8 * |stream| - (8 * (base + cur) - num_bits) && num_bits <= (if wide then 64 else 32) <= 64
    {
      ReadingGives(stream, base + cur, bit_buf, num_bits, todo);
    }

    /** The next byte goes into the buffer, above the bits there. */
    method AddByte()
      requires Valid() && cur < |in_buf| && num_bits + 8 <= (if wide then 64 else 32)
      modifies this`bit_buf, this`num_bits, this`cur
      ensures Valid() && cur == old(cur) + 1 && num_bits == old(num_bits) + 8
    {
      hide Reading, Chunk, Join;
      ChunkAt(stream, base, in_buf, cur);
      ReadByte(stream, base + cur, bit_buf, num_bits, todo);
      bit_buf := Join(bit_buf, num_bits, in_buf[cur]);
      num_bits := num_bits + 8;
      cur := cur + 1;
    }

    /** Reads bytes until there are n bits, as long as there is input. */
    method NeedBits(n: nat) returns (ok: bool)
      requires Valid() && n <= 16
      modifies this`bit_buf, this`num_bits, this`cur
      ensures Valid() && (ok ==> num_bits >= n) && (!ok ==> num_bits < n && cur == |in_buf|)
      ensures num_bits - 8 * cur == old(num_bits) - 8 * old(cur) && cur >= old(cur)
    {
      ok := true;
      while num_bits < n
        invariant Valid() && num_bits - 8 * cur == old(num_bits) - 8 * old(cur) && cur >= old(cur)
        decreases n - num_bits
      {
        if cur >= |in_buf| {
          return false;
        }
        AddByte();
      }
    }

    /** Reads so many bytes at once that there are bits for a symbol, or for two in the wider buffer. */
    method Refill()
      requires Valid() && |in_buf| - cur >= (if wide then 4 else 2)
      modifies this`bit_buf, this`num_bits, this`cur
      ensures Valid() && num_bits >= (if wide then 30 else 15) && num_bits - 8 * cur == old(num_bits) - 8 * old(cur)
      ensures old(cur) <= cur <= old(cur) + (if wide then 4 else 2)
    {
      hide Valid;
      if wide {
        if num_bits < 30 {
          AddByte();
          AddByte();
          AddByte();
          AddByte();
        }
      } else if num_bits < 15 {
        AddByte();
        AddByte();
      }
    }

    /** Takes k bits out of the buffer. */
    method Drop(k: nat)
      requires Valid() && k <= num_bits
      modifies this`bit_buf, this`num_bits, this`todo
      ensures Valid() && num_bits == old(num_bits) - k && k <= |old(todo)| && todo == old(todo)[k..]
    {
      hide Reading, Chunk, High;
      DropBits(stream, base + cur, bit_buf, num_bits, todo, k);
      bit_buf := High(bit_buf, k);
      num_bits := num_bits - k;
      todo := todo[k..];
    }

    /** Gets n bits as a number, if there is input enough. */
    method GetBits(n: nat) returns (ok: bool, v: nat)
      requires Valid() && n <= 16
      modifies this`bit_buf, this`num_bits, this`cur, this`todo
      ensures Valid() && cur >= old(cur)
      ensures ok ==> n <= |old(todo)| && v == FromBits(old(todo)[..n]) && v < Pow2(n) && todo == old(todo)[n..]
      ensures ok ==> num_bits - 8 * cur == old(num_bits) - 8 * old(cur) - n
      ensures !ok ==> todo == old(todo) && num_bits < n && cur == |in_buf|
      ensures !ok ==> num_bits - 8 * cur == old(num_bits) - 8 * old(cur)
    {
      hide *;
      v := 0;
      ok := NeedBits(n);
      if ok {
        ValidGives();
        DropBits(stream, base + cur, bit_buf, num_bits, todo, n);
        LowFits(bit_buf, n);
        v := Low(bit_buf, n);
        Drop(n);
      }
    }

    /** Takes a byte past the empty buffer. */
    method TakeByte() returns (c: byte)
      requires Valid() && num_bits == 0 && cur < |in_buf|
      modifies this`cur, this`todo
      ensures Valid() && cur == old(cur) + 1 && 8 <= |old(todo)| && c == FromBits(old(todo)[..8]) % 256
      ensures todo == old(todo)[8..]
    {
      hide Reading, Chunk, BytesToBits, FromBits, ToBits;
      ChunkAt(stream, base, in_buf, cur);
      c := in_buf[cur];
      NextByte(stream, base + cur, bit_buf, todo);
      cur := cur + 1;
      todo := todo[8..];
    }

    /** The input of the next call. */
    method Begin(input: seq<byte>)
      requires Valid() && Chunk(stream, base + cur, input)
      modifies this`in_buf, this`cur, this`base
      ensures Valid() && in_buf == input && cur == 0 && base == old(base + cur)
    {
      hide Reading, Chunk;
      in_buf, base, cur := input, base + cur, 0;
    }

    /** Puts back whole bytes read ahead in this call. */
    method PutBack()
      requires Valid()
      modifies this`bit_buf, this`num_bits, this`cur
      ensures Valid() && num_bits - 8 * cur == old(num_bits) - 8 * old(cur) && cur <= old(cur)
      ensures num_bits < 8 || cur == 0
    {
      hide Reading, Chunk, Low;
      while cur > 0 && num_bits >= 8
        invariant Valid() && num_bits - 8 * cur == old(num_bits) - 8 * old(cur) && cur <= old(cur)
        decreases cur
      {
        PushByte(stream, base + cur, bit_buf, num_bits, todo);
        cur := cur - 1;
        num_bits := num_bits - 8;
        bit_buf := Low(bit_buf, num_bits);
      }
    }
  }
}
