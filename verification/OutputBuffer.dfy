/**
  Where the compressor's output goes: straight to the caller when there is room for a whole block,
  otherwise through a buffer of its own, from which the caller is served as room becomes available.
 */
module OutputBuffer {
  import opened Wrappers
  import opened Bits
  import opened Deflate
  import opened BitWriter
  import opened FixedFit
  import opened Stream
  import opened BlockEnd

  /** Everything produced so far, delivered or not: whole bytes, then what has not filled a byte. */
  ghost function Emitted(bytes: seq<byte>, buffer: nat, n: nat): (r: Bits)
  {
    BytesToBits(bytes) + ToBits(buffer, n)
  }

  /** The bytes a block has put between start and cur. */
  ghost function Piece(t: seq<byte>, start: nat, cur: nat): (r: seq<byte>)
    requires start <= cur <= |t|
    ensures |r| == cur - start
  {
    t[start..cur]
  }

  lemma WrittenBounds(t: seq<byte>, start: nat, cur: nat, end: nat, buffer: nat, n: nat, bits: Bits)
    requires Written(t, start, cur, end, buffer, n, bits)
    ensures start <= cur <= end <= |t| && n <= |bits| && buffer < Pow2(n)
  {
  }

  /** If nothing was dropped, the bytes put and the bits left over are all of it. */
  lemma WrittenAll(t: seq<byte>, start: nat, cur: nat, end: nat, buffer: nat, n: nat, bits: Bits)
    requires Written(t, start, cur, end, buffer, n, bits) && n < 8 && start + |bits| / 8 <= end
    ensures Emitted(Piece(t, start, cur), buffer, n) == bits
  {
    hide BytesToBits, ToBits, Pow2;
    EighthFloor(|bits|, n);
    assert cur == start + (|bits| - n) / 8;
    assert bits[..|bits| - n] + bits[|bits| - n..] == bits;
  }

  lemma EighthFloor(n: nat, k: nat)
    requires k < 8 && k <= n && (n - k) % 8 == 0
    ensures n / 8 == (n - k) / 8
  {
  }

  lemma EmittedMore(out: seq<byte>, buffer: nat, n: nat, piece: seq<byte>, buffer': nat, n': nat, more: Bits)
    requires Emitted(piece, buffer', n') == ToBits(buffer, n) + more
    ensures Emitted(out + piece, buffer', n') == Emitted(out, buffer, n) + more
    ensures InStep(|Emitted(out, buffer, n)|, n)
  {
    BytesToBitsAppend(out, piece);
    hide BytesToBits, ToBits;
    assert |Emitted(out, buffer, n)| == 8 * |out| + n;
    Eights(|out|, n);
    var a, b := BytesToBits(out), BytesToBits(piece);
    assert (a + b) + ToBits(buffer', n') == a + (b + ToBits(buffer', n'));
    assert a + (ToBits(buffer, n) + more) == (a + ToBits(buffer, n)) + more;
  }

  lemma Eights(k: nat, n: nat)
    ensures InStep(8 * k + n, n)
  {
  }

  /** What the bytes produced so far stand for: whole blocks, or a whole stream once finished. */
  ghost predicate Stands(bytes: seq<byte>, buffer: nat, n: nat, o: seq<byte>, finished: bool)
  {
    if finished then Ended(Emitted(bytes, buffer, n), o) && n == 0 else Prefix(Emitted(bytes, buffer, n), o)
  }

  lemma StandsAtFirst()
    ensures Stands([], 0, 0, [], false)
  {
    NothingYet();
    hide Prefix;
    assert Emitted([], 0, 0) == [];
  }

  /** One more block, nothing of it dropped. */
  lemma StandsMore(out: seq<byte>, buffer: nat, n: nat, o: seq<byte>, o': seq<byte>, flush: Flush,
                   t: seq<byte>, start: nat, cur: nat, end: nat, buffer': nat, n': nat, bits: Bits, more: Bits)
    requires Stands(out, buffer, n, o, false) && Continues(more, n, o, o', flush)
    requires Written(t, start, cur, end, buffer', n', bits) && n' < 8 && start + |bits| / 8 <= end
    requires bits == ToBits(buffer, n) + more
    requires flush == Finish ==> n' == 0
    ensures start <= cur <= |t| && Stands(out + Piece(t, start, cur), buffer', n', o', flush == Finish)
  {
    hide *;
    WrittenBounds(t, start, cur, end, buffer', n', bits);
    WrittenAll(t, start, cur, end, buffer', n', bits);
    EmittedMore(out, buffer, n, Piece(t, start, cur), buffer', n', more);
    ContinuesHere(out, buffer, n, o, o', flush, more, out + Piece(t, start, cur), buffer', n');
  }

  lemma ContinuesHere(out: seq<byte>, buffer: nat, n: nat, o: seq<byte>, o': seq<byte>, flush: Flush, more: Bits,
                      out': seq<byte>, buffer': nat, n': nat)
    requires Stands(out, buffer, n, o, false) && Continues(more, n, o, o', flush)
    requires InStep(|Emitted(out, buffer, n)|, n)
    requires Emitted(out', buffer', n') == Emitted(out, buffer, n) + more
    requires flush == Finish ==> n' == 0
    ensures Stands(out', buffer', n', o', flush == Finish)
  {
    hide Prefix, Ended, Emitted, InStep, Whole;
  }

  /**
    The bytes up to a mark stand for what came before, and those behind it, which reach back no
    further than the mark, for o.
   */
  ghost predicate Behind(bytes: seq<byte>, mark: seq<byte>, before: seq<byte>, buffer: nat, n: nat, o: seq<byte>,
                         finished: bool)
  {
    mark <= bytes && Prefix(BytesToBits(mark), before) && Stands(bytes[|mark|..], buffer, n, o, finished)
  }

  lemma BehindAtFirst()
    ensures Behind([], [], [], 0, 0, [], false)
  {
    StandsAtFirst();
    NothingYet();
    hide Stands, Prefix;
    assert BytesToBits([]) == [];
  }

  lemma BehindGives(bytes: seq<byte>, mark: seq<byte>, before: seq<byte>, buffer: nat, n: nat, o: seq<byte>,
                    finished: bool)
    requires Behind(bytes, mark, before, buffer, n, o, finished)
    ensures mark <= bytes && Prefix(BytesToBits(mark), before) && Stands(bytes[|mark|..], buffer, n, o, finished)
  {
  }

  lemma BehindNow(bytes: seq<byte>, mark: seq<byte>, before: seq<byte>, buffer: nat, n: nat, o: seq<byte>,
                  finished: bool)
    requires mark <= bytes && Prefix(BytesToBits(mark), before) && Stands(bytes[|mark|..], buffer, n, o, finished)
    ensures Behind(bytes, mark, before, buffer, n, o, finished)
  {
  }

  /** One more block behind the mark. */
  lemma BehindMore(out: seq<byte>, mark: seq<byte>, before: seq<byte>, buffer: nat, n: nat, o: seq<byte>,
                   o': seq<byte>, flush: Flush, t: seq<byte>, start: nat, cur: nat, end: nat, buffer': nat, n': nat,
                   bits: Bits, more: Bits)
    requires Behind(out, mark, before, buffer, n, o, false) && Continues(more, n, o, o', flush)
    requires Written(t, start, cur, end, buffer', n', bits) && n' < 8 && start + |bits| / 8 <= end
    requires bits == ToBits(buffer, n) + more && (flush == Finish ==> n' == 0)
    ensures start <= cur <= |t| && Behind(out + Piece(t, start, cur), mark, before, buffer', n', o', flush == Finish)
  {
    hide *;
    BehindGives(out, mark, before, buffer, n, o, false);
    StandsMore(out[|mark|..], buffer, n, o, o', flush, t, start, cur, end, buffer', n', bits, more);
    var out' := out + Piece(t, start, cur);
    assert out'[|mark|..] == out[|mark|..] + Piece(t, start, cur);
    BehindNow(out', mark, before, buffer', n', o', flush == Finish);
  }

  /** Whole bytes: nothing is left in the bit buffer. */
  lemma EmittedWhole(bytes: seq<byte>, buffer: nat)
    ensures Emitted(bytes, buffer, 0) == BytesToBits(bytes)
  {
  }

  lemma SplitBytes(bytes: seq<byte>, mark: seq<byte>)
    requires mark <= bytes
    ensures BytesToBits(bytes) == BytesToBits(mark) + BytesToBits(bytes[|mark|..])
    ensures |BytesToBits(mark)| % 8 == 0 && |BytesToBits(bytes[|mark|..])| % 8 == 0
  {
    assert bytes == mark + bytes[|mark|..];
    BytesToBitsAppend(mark, bytes[|mark|..]);
    hide BytesToBits;
    EightTimes(|mark|);
    EightTimes(|bytes[|mark|..]|);
  }

  lemma EightTimes(k: nat)
    ensures (8 * k) % 8 == 0
  {
  }

  /** At a whole byte, all the bytes together stand for all that came before and since. */
  lemma BehindAll(bytes: seq<byte>, mark: seq<byte>, before: seq<byte>, buffer: nat, o: seq<byte>)
    requires Behind(bytes, mark, before, buffer, 0, o, false)
    ensures Prefix(BytesToBits(bytes), before + o)
  {
    BehindGives(bytes, mark, before, buffer, 0, o, false);
    EmittedWhole(bytes[|mark|..], buffer);
    SplitBytes(bytes, mark);
    hide Prefix, Emitted, BytesToBits;
    PrefixJoins(BytesToBits(mark), before, BytesToBits(bytes[|mark|..]), o);
  }

  /** The mark moves up to a whole byte. */
  lemma MarkHere(bytes: seq<byte>, mark: seq<byte>, before: seq<byte>, buffer: nat, o: seq<byte>)
    requires Behind(bytes, mark, before, buffer, 0, o, false) && buffer < Pow2(0)
    ensures Behind(bytes, bytes, before + o, buffer, 0, [], false)
  {
    BehindAll(bytes, mark, before, buffer, o);
    StandsAtFirst();
    hide Prefix, Stands;
    assert bytes[|bytes|..] == [];
  }

  /** Once finished, the bytes are a whole stream, and so are those behind the mark by themselves. */
  lemma BehindEnds(bytes: seq<byte>, mark: seq<byte>, before: seq<byte>, buffer: nat, n: nat, o: seq<byte>)
    requires Behind(bytes, mark, before, buffer, n, o, true)
    ensures Decompress(bytes) == Some(before + o)
    ensures mark <= bytes && Decompress(bytes[|mark|..]) == Some(o)
  {
    BehindGives(bytes, mark, before, buffer, n, o, true);
    StandsGives(bytes[|mark|..], buffer, n, o);
    EmittedWhole(bytes[|mark|..], buffer);
    SplitBytes(bytes, mark);
    hide *;
    EndedJoins(BytesToBits(mark), before, BytesToBits(bytes[|mark|..]), o);
    EndedMeans(bytes, before + o);
    EndedMeans(bytes[|mark|..], o);
  }

  lemma StandsGives(bytes: seq<byte>, buffer: nat, n: nat, o: seq<byte>)
    requires Stands(bytes, buffer, n, o, true)
    ensures Ended(Emitted(bytes, buffer, n), o) && n == 0
  {
  }

  lemma EndedMeans(bytes: seq<byte>, o: seq<byte>)
    requires Ended(BytesToBits(bytes), o)
    ensures Decompress(bytes) == Some(o)
  {
    hide Inflate, BytesToBits;
    assert EndsWith(Inflate(BytesToBits(bytes), []), [] + o);
    assert [] + o == o;
  }

  class Output {
    /** m_output_buf, and the bit buffer that is emptied into it or into the caller's buffer. */
    const output_buf: array<byte>
    const w: BitWriter
    var flush_ofs: nat
    var flush_remaining: nat
    /** How much the caller has been given in this call. */
    var out_buf_ofs: nat
    /** All the caller has ever been given. */
    ghost var out: seq<byte>

    constructor ()
      ensures Valid() && out == [] && flush_remaining == 0 && fresh(output_buf) && fresh(w)
      ensures w.bit_buffer == 0 && w.bits_in == 0
    {
      var buf := new byte[OUT_BUF_SIZE](_ => 0);
      output_buf := buf;
      w := new BitWriter(buf);
      flush_ofs, flush_remaining, out_buf_ofs, out := 0, 0, 0, [];
      new;
      assert Pow2(0) == 1;
    }

    ghost predicate Valid()
      reads this`flush_ofs, this`flush_remaining, w
    {
      output_buf.Length == OUT_BUF_SIZE && flush_ofs + flush_remaining <= OUT_BUF_SIZE && w.Leftover()
    }

    /** What is still to be given to the caller. */
    ghost function Pending(): (r: seq<byte>)
      requires flush_ofs + flush_remaining <= output_buf.Length
      reads this`flush_ofs, this`flush_remaining, output_buf
    {
      output_buf[flush_ofs..flush_ofs + flush_remaining]
    }

    /** What the caller has been given in this call, after out0. */
    ghost predicate Given(out0: seq<byte>, out_buf: array<byte>)
      reads this`out_buf_ofs, this`out, out_buf
    {
      out_buf_ofs <= out_buf.Length && out == out0 + out_buf[..out_buf_ofs]
    }

    /** Where the next block goes. */
    method Start(out_buf: array<byte>)
      requires Valid() && flush_remaining == 0 && out_buf_ofs <= out_buf.Length && out_buf != output_buf
      modifies w, this`flush_ofs
      ensures w.Valid() && w.cur == w.start && w.end == w.start + OUT_BUF_SIZE - 16
      ensures Placed(out_buf, w.target, w.start)
      ensures w.bits_in == old(w.bits_in) && w.bit_buffer == old(w.bit_buffer)
      ensures w.bits == ToBits(w.bit_buffer, w.bits_in)
      ensures flush_ofs == 0
    {
      if out_buf.Length - out_buf_ofs >= OUT_BUF_SIZE {
        w.Begin(out_buf, out_buf_ofs, out_buf_ofs + OUT_BUF_SIZE - 16);
      } else {
        w.Begin(output_buf, 0, OUT_BUF_SIZE - 16);
      }
      flush_ofs := 0;
    }

    ghost predicate Placed(out_buf: array<byte>, target: array<byte>, start: nat)
      reads this`out_buf_ofs
    {
      (target == out_buf && start == out_buf_ofs) || (target == output_buf && start == 0)
    }

    /** The first n bytes of the internal buffer are given to the caller, as far as there is room. */
    method CopyOut(out_buf: array<byte>, ofs: nat, n: nat, ghost out0: seq<byte>)
      requires out_buf != output_buf && ofs + n <= output_buf.Length && out_buf_ofs + n <= out_buf.Length
      requires Given(out0, out_buf)
      modifies this`out_buf_ofs, this`out, out_buf
      ensures Given(out0, out_buf) && out_buf_ofs == old(out_buf_ofs) + n && out == old(out) + output_buf[ofs..ofs + n]
      ensures output_buf[..] == old(output_buf[..])
    {
      ghost var b0, given := output_buf[..], out_buf[..out_buf_ofs];
      forall i | 0 <= i < n { out_buf[out_buf_ofs + i] := output_buf[ofs + i]; }
      assert output_buf[..] == b0;
      assert out_buf[..out_buf_ofs] == given;
      assert out_buf[..out_buf_ofs + n] == given + output_buf[ofs..ofs + n];
      out_buf_ofs := out_buf_ofs + n;
      out := out + output_buf[ofs..ofs + n];
    }

    /** A block in the internal buffer: the caller is given what there is room for. */
    method DeliverCopy(out_buf: array<byte>, n: nat, ghost out0: seq<byte>)
      requires flush_remaining == 0 && flush_ofs == 0 && out_buf != output_buf && n <= output_buf.Length
      requires Given(out0, out_buf)
      modifies this, out_buf
      ensures flush_ofs + flush_remaining <= output_buf.Length
      ensures Given(out0, out_buf) && (flush_remaining > 0 ==> out_buf_ofs == out_buf.Length)
      ensures out + Pending() == old(out) + old(output_buf[..n])
    {
      ghost var b0 := output_buf[..];
      var bytes_to_copy := if n < out_buf.Length - out_buf_ofs then n else out_buf.Length - out_buf_ofs;
      CopyOut(out_buf, 0, bytes_to_copy, out0);
      if n - bytes_to_copy != 0 {
        flush_ofs, flush_remaining := bytes_to_copy, n - bytes_to_copy;
      }
      assert b0[..bytes_to_copy] + Pending() == b0[..n];
    }

    /** A block in the caller's buffer. */
    method DeliverDirect(out_buf: array<byte>, n: nat, ghost out0: seq<byte>)
      requires flush_remaining == 0 && flush_ofs == 0 && out_buf_ofs + n <= out_buf.Length && Given(out0, out_buf)
      modifies this
      ensures flush_remaining == flush_ofs == 0 && Given(out0, out_buf)
      ensures out == old(out) + out_buf[old(out_buf_ofs)..old(out_buf_ofs) + n]
    {
      ghost var piece := out_buf[out_buf_ofs..out_buf_ofs + n];
      assert out_buf[..out_buf_ofs] + piece == out_buf[..out_buf_ofs + n];
      assert (out0 + out_buf[..out_buf_ofs]) + piece == out0 + (out_buf[..out_buf_ofs] + piece);
      out := out + piece;
      out_buf_ofs := out_buf_ofs + n;
    }

    /** Gives the caller what has been written of a block, as far as there is room. */
    method Deliver(out_buf: array<byte>, start: nat, ghost out0: seq<byte>)
      requires output_buf.Length == OUT_BUF_SIZE && flush_remaining == 0 && flush_ofs == 0 && out_buf != output_buf
      requires w.Valid()
      requires w.start == start && Placed(out_buf, w.target, start) && Given(out0, out_buf)
      modifies this, out_buf
      ensures Valid() && Given(out0, out_buf) && (flush_remaining > 0 ==> out_buf_ofs == out_buf.Length)
      ensures start <= old(w.cur) <= w.target.Length
      ensures out + Pending() == old(out) + old(Piece(w.target[..], start, w.cur))
    {
      WrittenBounds(w.target[..], w.start, w.cur, w.end, w.bit_buffer, w.bits_in, w.bits);
      hide Written, Given;
      var n := w.cur - start;
      ghost var piece, o := Piece(w.target[..], start, w.cur), out;
      if w.target == output_buf {
        assert piece == output_buf[..n];
        DeliverCopy(out_buf, n, out0);
      } else {
        assert piece == out_buf[out_buf_ofs..out_buf_ofs + n];
        Room(out_buf, out0);
        DeliverDirect(out_buf, n, out0);
        assert (o + piece) + Pending() == o + piece;
      }
    }

    lemma Room(out_buf: array<byte>, out0: seq<byte>)
      requires Given(out0, out_buf)
      ensures out_buf_ofs <= out_buf.Length
    {
    }

    /** Gives the caller what is still to be given, as far as there is room. */
    method FlushOutputBuffer(out_buf: array<byte>, ghost out0: seq<byte>)
      requires Valid() && out_buf != output_buf && Given(out0, out_buf)
      modifies this, out_buf
      ensures Valid() && Given(out0, out_buf) && (flush_remaining > 0 ==> out_buf_ofs == out_buf.Length)
      ensures out + Pending() == old(out) + old(Pending()) && old(out_buf_ofs) <= out_buf_ofs <= out_buf.Length
      ensures out_buf_ofs - old(out_buf_ofs) == old(flush_remaining) - flush_remaining
    {
      ghost var b0, o, r := output_buf[..], flush_ofs, flush_remaining;
      var n := if out_buf.Length - out_buf_ofs < flush_remaining then out_buf.Length - out_buf_ofs else flush_remaining;
      CopyOut(out_buf, flush_ofs, n, out0);
      flush_ofs := flush_ofs + n;
      flush_remaining := flush_remaining - n;
      assert b0[o..o + n] + Pending() == b0[o..o + r];
    }
  }
}
