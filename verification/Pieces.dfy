/**
  Decompressing a stream in whatever pieces its input comes and its output is taken.
 */
module Pieces {
  import opened Wrappers
  import opened Bits
  import opened Deflate
  import opened Resume
  import opened BitReader
  import opened OutWindow
  import opened Inflater
  import opened Adler

  /**
    The k-th call is offered offer(k) bytes of what is left of the stream, and room(k) bytes of a
    buffer for all of the output, or what is left of the ring. It does not matter what they are:
    the output and the number of bytes consumed are those that the format gives the stream.
   */
  method DecompressInPieces(wide: bool, stream: seq<byte>, buf: array<byte>, wrap: bool, offer: nat -> nat,
                            room: nat -> nat)
    returns (output: seq<byte>, consumed: nat, check: nat)
    requires Inflate(BytesToBits(stream), []).Some? && Suits(buf.Length, wrap, Inflate(BytesToBits(stream), []))
    requires forall k :: offer(k) > 0 && room(k) > 0
    modifies buf
    ensures output == Inflate(BytesToBits(stream), []).value.0
    ensures consumed == |stream| - |Inflate(BytesToBits(stream), []).value.1| / 8
    ensures check == Packed(Checksum(Sums(1, 0), output))
  {
    hide *;
    ghost var whole := Inflate(BytesToBits(stream), []);
    var d := new Inflater(wide, wrap, stream);
    OwnBuffer(d, buf);
    var next: nat, k: nat := 0, 0;
    output, consumed, check := [], 0, 0;
    var status := NeedsMoreInput;
    SuitsGives(buf.Length, wrap, whole);
    ShowsNothing(buf[..], wrap);
    SameAtFirst(d, buf.Length, wrap);
    Begins(d, stream, whole, output, status, consumed);
    while status != Done
      invariant d.Core() && d.CheckOk() && d.Foreign(buf) && fresh(d.Repr()) && d.reader.stream == stream
      invariant d.whole == whole
      invariant output == d.win.out && consumed == d.reader.Taken() && Tells(stream, whole, output, status, consumed)
      invariant d.checked == output
      invariant Shows(buf[..], output, buf.Length, wrap, next) && d.SameBuffer(buf.Length, wrap)
      decreases ToGo(stream, whole, output, status, consumed)
    {
      if wrap && next == buf.Length {
        ShowsAround(buf[..], output, buf.Length);
        next := 0;
      }
      ShowsGives(buf[..], output, buf.Length, wrap, next);
      TellsGives(stream, whole, output, status, consumed);
      PlaceIs(output, buf.Length, wrap, next);
      var input := stream[consumed..consumed + AtMost(offer(k), |stream| - consumed)];
      Offered(stream, consumed, input);
      var size := if wrap then buf.Length - next else AtMost(room(k), buf.Length - next);
      ShowsIn(buf[..], output, buf.Length, next + size, wrap, next);
      SameIn(d, buf.Length, next + size, wrap);
      ghost var o, s, c := output, status, consumed;
      var in_used, out_used;
      status, in_used, out_used := d.Decompress(input, buf, next, size, wrap, consumed + |input| < |stream|, true);
      output := output + buf[next..next + out_used];
      consumed := consumed + in_used;
      next := next + out_used;
      ShowsIn(buf[..], output, next - out_used + size, buf.Length, wrap, next);
      SameIn(d, next - out_used + size, buf.Length, wrap);
      Closer(d, stream, whole, o, s, c, status, input, size, in_used, out_used, buf.Length, wrap);
      CheckedSo(status);
      k := k + 1;
    }
    check := d.m_check_adler32;
    d.CheckGives();
    TellsGives(stream, whole, output, status, consumed);
  }

  /** The buffer is a ring of a size the code takes, or takes all of the output. */
  ghost predicate Suits(size: nat, wrap: bool, whole: Result)
  {
    whole.Some? && if wrap then size >= WINDOW && PowerOfTwo(size) else |whole.value.0| <= size
  }

  lemma SuitsGives(size: nat, wrap: bool, whole: Result)
    requires Suits(size, wrap, whole)
    ensures whole.Some? && (wrap ==> size >= WINDOW > 0 && PowerOfTwo(size)) && (!wrap ==> |whole.value.0| <= size)
  {
  }

  function AtMost(a: nat, b: nat): (r: nat)
    ensures r <= a && r <= b && (r == a || r == b)
  {
    if a < b then a else b
  }

  /** What is known between calls. */
  ghost predicate Tells(stream: seq<byte>, whole: Result, output: seq<byte>, status: Status, consumed: nat)
  {
    whole.Some? && output <= whole.value.0 && consumed <= |stream| &&
    (status == Done ==> output == whole.value.0 && consumed == |stream| - |whole.value.1| / 8)
  }

  lemma TellsGives(stream: seq<byte>, whole: Result, output: seq<byte>, status: Status, consumed: nat)
    requires Tells(stream, whole, output, status, consumed)
    ensures whole.Some? && |output| <= |whole.value.0| && consumed <= |stream|
    ensures status == Done ==> output == whole.value.0 && consumed == |stream| - |whole.value.1| / 8
  {
  }

  /** How much there is still to be read and to be put out. */
  ghost function ToGo(stream: seq<byte>, whole: Result, output: seq<byte>, status: Status, consumed: nat): (r: nat)
    requires Tells(stream, whole, output, status, consumed)
  {
    (|stream| - consumed) + (|whole.value.0| - |output|) + (if status == Done then 0 else 1)
  }

  lemma OwnBuffer(d: Inflater, buf: array<byte>)
    requires buf !in d.Repr()
    ensures d.Foreign(buf)
  {
  }

  lemma Begins(d: Inflater, stream: seq<byte>, whole: Result, output: seq<byte>, status: Status, consumed: nat)
    requires whole.Some? && output == [] && status == NeedsMoreInput && consumed == 0
    ensures Tells(stream, whole, output, status, consumed)
  {
  }

  lemma ShowsNothing(bytes: seq<byte>, wrap: bool)
    requires wrap ==> |bytes| >= WINDOW
    ensures Shows(bytes, [], |bytes|, wrap, 0)
  {
  }

  lemma SameAtFirst(d: Inflater, end: nat, wrap: bool)
    requires d.state == AtHead && d.win.out == [] && d.ring == wrap
    ensures d.SameBuffer(end, wrap)
  {
  }

  /** Past the end of the ring comes its beginning. */
  lemma ShowsAround(bytes: seq<byte>, out: seq<byte>, size: nat)
    requires Shows(bytes, out, size, true, size)
    ensures Shows(bytes, out, size, true, 0)
  {
  }

  /** A buffer that is not a ring may be given more or less of its room. */
  lemma ShowsIn(bytes: seq<byte>, out: seq<byte>, size: nat, size': nat, wrap: bool, cur: nat)
    requires Shows(bytes, out, size, wrap, cur) && cur <= size' <= |bytes| && (wrap ==> size == size')
    ensures Shows(bytes, out, size', wrap, cur)
  {
    forall p | 0 <= p < |out| && (wrap ==> p >= |out| - size') ensures ShowsAt(bytes, out, size', wrap, p) {
      assert ShowsAt(bytes, out, size, wrap, p);
    }
  }

  lemma SameIn(d: Inflater, end: nat, end': nat, wrap: bool)
    requires d.SameBuffer(end, wrap) && (wrap ==> end == end')
    ensures d.SameBuffer(end', wrap)
  {
  }

  lemma PlaceIs(out: seq<byte>, size: nat, wrap: bool, cur: nat)
    requires InPlace(out, size, wrap, cur)
    ensures !wrap ==> cur == |out|
  {
  }

  lemma Offered(stream: seq<byte>, consumed: nat, input: seq<byte>)
    requires consumed + |input| <= |stream| && input == stream[consumed..consumed + |input|]
    ensures Chunk(stream, consumed, input)
  {
  }

  lemma CheckedSo(status: Status)
    requires status == Done || status == NeedsMoreInput || status == HasMoreOutput
    ensures NotFailed(status)
  {
  }

  /** Every call reads something or puts something out. */
  lemma Closer(d: Inflater, stream: seq<byte>, whole: Result, output: seq<byte>, status: Status, consumed: nat,
               status': Status, input: seq<byte>, size: nat, in_used: nat, out_used: nat, end: nat, wrap: bool)
    requires Tells(stream, whole, output, status, consumed) && status != Done && d.whole == whole
    requires d.reader.stream == stream
    requires d.Ends(status', |input|, size, consumed + |input| < |stream|, in_used, out_used) && status' != BadParam
    requires d.reader.Taken() == consumed + in_used && |d.win.out| == |output| + out_used
    requires consumed + |input| <= |stream| && in_used <= |input|
    requires consumed < |stream| ==> |input| > 0
    requires |output| < |whole.value.0| ==> size > 0
    ensures Tells(stream, whole, d.win.out, status', consumed + in_used)
    ensures ToGo(stream, whole, d.win.out, status', consumed + in_used) < ToGo(stream, whole, output, status, consumed)
    ensures status' == Done || status' == NeedsMoreInput || status' == HasMoreOutput
  {
  }
}
