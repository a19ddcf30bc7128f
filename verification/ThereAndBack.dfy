/**
  The compressor and the decompressor together.
 */
module ThereAndBack {
  import opened Wrappers
  import opened Bits
  import opened Deflate
  import opened Resume
  import opened OutWindow
  import opened Adler
  import opened BlockEnd
  import opened Compressor
  import opened Pieces
  import Inflater

  /**
    The k-th call is offered offer(k) bytes of what is left of the data, room(k) bytes for the
    output, and a flush of whatever kind; the last bytes are offered with Finish. It does not matter
    what they are: it comes to an end, and the output then stands for all the input.
   */
  method CompressInPieces(c: Compressor, data: seq<byte>, offer: nat -> nat, room: nat -> nat, flush: nat -> Flush)
    returns (stream: seq<byte>)
    requires c.Valid() && c.prev_return_status == Okay && !c.wants_to_finish && !c.finished
    requires forall k :: offer(k) > 0 && room(k) > 0
    modifies c.Repr()
    ensures c.Valid() && c.finished && c.output.flush_remaining == 0 && c.output.out == old(c.output.out) + stream
    ensures c.dic.All() == old(c.dic.All()) + data && Decompress(c.output.out) == Some(old(c.dic.All()) + data)
    ensures (forall k :: flush(k) != FullFlush) && old(c.mark == c.output.out && c.dic.input == []) ==>
              Decompress(stream) == Some(data)
  {
    hide *;
    ghost var input0, out0, mark0, before0 := c.dic.All(), c.output.out, c.mark, c.dic.before;
    ghost var since0 := c.dic.input;
    var consumed: nat, k: nat, final, status := 0, 0, false, Okay;
    stream := [];
    NoneTaken(input0, out0, data);
    Compressor.SplitAll(c.dic);
    while status != Done
      invariant c.Valid() && c.prev_return_status == status && status != BadParam && c.wants_to_finish == final
      invariant consumed <= |data| && c.dic.All() == input0 + data[..consumed] && c.output.out == out0 + stream
      invariant status == Done <==> c.finished && c.output.flush_remaining == 0
      invariant c.finished ==> consumed == |data|
      invariant (forall k :: flush(k) != FullFlush) ==> c.mark == mark0 && c.dic.before == before0
      decreases 2 * (|data| - consumed) + c.dic.lookahead_size, if c.finished then 0 else 1, c.output.flush_remaining,
                if status == Done then 0 else 1
    {
      var n := if final then |data| - consumed else AtMost(offer(k), |data| - consumed);
      final := n == |data| - consumed;
      var fl := if final then Finish else if flush(k) == Finish then NoFlush else flush(k);
      var out_buf := NewBuffer(c, room(k));
      ghost var la, fin, pending := c.dic.lookahead_size, c.finished, c.output.flush_remaining;
      var in_used, out_used;
      status, in_used, out_used := c.Compress(data[consumed..consumed + n], out_buf, fl);
      MoreTaken(input0, data, consumed, n, in_used);
      MoreOut(out0, stream, out_buf[..out_used]);
      CloserGives(c, n, in_used, la, fin, pending);
      stream := stream + out_buf[..out_used];
      consumed := consumed + in_used;
      k := k + 1;
    }
    AllTaken(data, consumed);
    c.AllOut();
    if (forall k :: flush(k) != FullFlush) && mark0 == out0 &&
           since0 == [] { Behindhand(c, stream, data, out0, before0); }
  }

  /** What has come out, and gone in, since the mark. */
  lemma Behindhand(c: Compressor, stream: seq<byte>, data: seq<byte>, out0: seq<byte>, before0: seq<byte>)
    requires c.output.out == out0 + stream && c.dic.All() == before0 + data && c.dic.before == before0 && c.mark == out0
    ensures c.mark <= c.output.out && c.output.out[|c.mark|..] == stream && c.dic.input == data
  {
    assert c.dic.All()[|before0|..] == data;
  }

  lemma NoneTaken(input0: seq<byte>, out0: seq<byte>, data: seq<byte>)
    ensures input0 == input0 + data[..0] && out0 == out0 + []
  {
  }

  method NewBuffer(c: Compressor, size: nat) returns (out_buf: array<byte>)
    ensures fresh(out_buf) && c.Foreign(out_buf) && out_buf.Length == size
  {
    out_buf := new byte[size];
  }

  lemma MoreTaken(input0: seq<byte>, data: seq<byte>, consumed: nat, n: nat, in_used: nat)
    requires in_used <= n && consumed + n <= |data|
    ensures (input0 + data[..consumed]) + data[consumed..consumed + n][..in_used] == input0 + data[..consumed + in_used]
  {
  }

  lemma MoreOut(out0: seq<byte>, stream: seq<byte>, more: seq<byte>)
    ensures (out0 + stream) + more == out0 + (stream + more)
  {
  }

  lemma AllTaken(data: seq<byte>, consumed: nat)
    requires consumed == |data|
    ensures data[..consumed] == data
  {
  }

  lemma CloserGives(c: Compressor, size: nat, in_used: nat, la: nat, fin: bool, pending: nat)
    requires in_used <= size && c.Closer(size, in_used, la, fin, pending)
    ensures var a, a0 := 2 * (size - in_used) + c.dic.lookahead_size, 2 * size + la;
            a < a0 ||
            (a == a0 && ((c.finished && !fin) || (c.finished == fin && c.output.flush_remaining < pending)))
  {
  }

  /**
    A full flush cuts the stream in two: if there is room for all that is flushed, what comes out after
    it is a stream of its own for the data that came after it, and both together are one for all.
   */
  method CompressApart(flags: nat, first: seq<byte>, second: seq<byte>, space: nat, offer: nat -> nat,
                       room: nat -> nat, flush: nat -> Flush)
    returns (flushed: bool, stream1: seq<byte>, stream2: seq<byte>)
    requires forall k :: offer(k) > 0 && room(k) > 0
    requires forall k :: flush(k) != FullFlush
    ensures |stream1| <= space && (|stream1| < space ==> flushed)
    ensures flushed ==> Decompress(stream1 + stream2) == Some(first + second) && Decompress(stream2) == Some(second)
  {
    hide *;
    var c := new Compressor(flags);
    var out_buf := NewBuffer(c, space);
    Compressor.SplitAll(c.dic);
    var status, in_used, out_used := c.Compress(first, out_buf, FullFlush);
    stream1, stream2 := out_buf[..out_used], [];
    flushed := c.output.flush_remaining == 0;
    if flushed {
      AllTaken(first, in_used);
      assert [] + first == first && [] + stream1 == stream1;
      stream2 := CompressInPieces(c, second, offer, room, flush);
    }
  }

  /** There and back again: any data, with any flags, cut in any way on both ways. */
  method RoundTrip(data: seq<byte>, flags: nat, flush: nat -> Flush, wide: bool, buf: array<byte>, wrap: bool,
                   offers: (nat -> nat, nat -> nat), rooms: (nat -> nat, nat -> nat))
    returns (stream: seq<byte>, output: seq<byte>, consumed: nat, check: nat)
    requires if wrap then buf.Length >= WINDOW && Inflater.PowerOfTwo(buf.Length) else |data| <= buf.Length
    requires forall k :: offers.0(k) > 0 && offers.1(k) > 0 && rooms.0(k) > 0 && rooms.1(k) > 0
    modifies buf
    ensures output == data && consumed == |stream| && check == Packed(Checksum(Sums(1, 0), data))
  {
    hide *;
    var c := new Compressor(flags);
    stream := CompressInPieces(c, data, offers.0, rooms.0, flush);
    assert [] + data == data && [] + stream == stream;
    output, consumed, check := ReadBack(c, stream, wide, buf, wrap, offers.1, rooms.1);
  }

  /**
    There and back: what a compressor has put out when it is done, whatever calls with whatever
    flushes made it do so, decompresses in any pieces to all the input it was given.
   */
  method ReadBack(c: Compressor, stream: seq<byte>, wide: bool, buf: array<byte>, wrap: bool, offer: nat -> nat,
                  room: nat -> nat)
    returns (output: seq<byte>, consumed: nat, check: nat)
    requires c.Valid() && c.finished && c.output.flush_remaining == 0 && stream == c.output.out
    requires if wrap then buf.Length >= WINDOW && Inflater.PowerOfTwo(buf.Length) else |c.dic.All()| <= buf.Length
    requires forall k :: offer(k) > 0 && room(k) > 0
    modifies buf
    ensures output == old(c.dic.All()) && consumed == |stream| && check == Packed(Checksum(Sums(1, 0), output))
  {
    hide *;
    c.AllOut();
    ghost var data := c.dic.All();
    WholeStream(stream, data);
    SuitsNow(buf.Length, wrap, Inflate(BytesToBits(stream), []));
    output, consumed, check := DecompressInPieces(wide, stream, buf, wrap, offer, room);
  }

  /** A stream with nothing but padding after its last block is consumed to the last byte. */
  lemma WholeStream(stream: seq<byte>, data: seq<byte>)
    requires Decompress(stream) == Some(data)
    ensures Inflate(BytesToBits(stream), []).Some? && Inflate(BytesToBits(stream), []).value.0 == data
    ensures |Inflate(BytesToBits(stream), []).value.1| / 8 == 0
  {
    hide Inflate, BytesToBits;
  }

  lemma SuitsNow(size: nat, wrap: bool, whole: Result)
    requires whole.Some? && if wrap then size >= WINDOW && Inflater.PowerOfTwo(size) else |whole.value.0| <= size
    ensures Suits(size, wrap, whole)
  {
  }
}
