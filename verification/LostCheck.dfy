/**
  A call after which the checksum is not that of all the output: a stream of one stored block,
  offered without its last byte and with no more announced.
 */
module LostCheck {
  import opened Wrappers
  import opened Bits
  import opened CanonicalCode
  import opened Deflate
  import opened Resume
  import opened BitReader
  import opened Halting
  import opened Points
  import opened BrokenOff
  import opened OutWindow
  import opened Inflater
  import opened Pieces

  /** The last block, stored, of two bytes. */
  function TwoStored(): (r: seq<byte>)
    ensures |r| == 7
  {
    [1, 2, 0, 0xFD, 0xFF, 0x61, 0x62]
  }

  /** One byte comes out, and the checksum is still that of none. */
  method ByteUnchecked() returns (d: Inflater, buf: array<byte>, status: Status, in_used: nat, out_used: nat)
    ensures d.reader.stream == TwoStored() && d.whole == Some(([0x61, 0x62], [])) && d.reader.Taken() == in_used == 6
    ensures status == CannotMakeProgress && out_used == 1 && d.win.out == [0x61]
    ensures d.CheckOk() && d.checked == [] && buf.Length == 2 && buf[0] == 0x61
  {
    hide *;
    ghost var stream := TwoStored();
    TwoStoredWhole();
    NotAstray(false, BytesToBits(stream));
    FirstOfTwo();
    buf := new byte[2];
    d := new Inflater(true, false, stream);
    OwnBuffer(d, buf);
    ShowsNothing(buf[..], false);
    SameAtFirst(d, 2, false);
    var input: seq<byte> := [1, 2, 0, 0xFD, 0xFF, 0x61];
    SixOfSeven(input);
    NotYet(d);
    status, in_used, out_used := d.Decompress(input, buf, 0, 2, false, false, true);
    ReachSix(d);
    Stopped(d, status, in_used, out_used);
    assert [] + buf[0..out_used] == buf[0..out_used];
  }

  /** One byte has come out, and another is wanted. */
  ghost predicate BreaksOff(y: Place)
  {
    y.0.Stored? && y.2 == [0x61]
  }

  lemma SixOfSeven(input: seq<byte>)
    requires input == [1, 2, 0, 0xFD, 0xFF, 0x61]
    ensures input == TwoStored()[..6] && Chunk(TwoStored(), 0, input) && |input| == 6
  {
  }

  lemma ReachSix(d: Inflater)
    requires !d.ring && d.reader.stream == TwoStored() && BreaksOff(Upto(false, TwoStored()[..6]))
    ensures BreaksOff(d.Reach(6)) && d.Reach(6).0.Stored? && d.Reach(6).2 == [0x61]
  {
    hide Upto;
  }

  lemma NotYet(d: Inflater)
    requires d.reader.stream == TwoStored() && d.whole == Some(([0x61, 0x62], [])) && d.reader.Taken() == 0
    requires !d.ring && d.win.out == [] && BreaksOff(Upto(false, TwoStored()[..6]))
    ensures !d.Checks(6, false) && d.Reach(6).2 == [0x61]
  {
    hide *;
    ReachSix(d);
    d.ChecksIs(6, false);
  }

  lemma Stopped(d: Inflater, status: Status, in_used: nat, out_used: nat)
    requires d.whole.Some? && BreaksOff(d.Reach(6)) && d.Ends(status, 6, 2, false, in_used, out_used) && out_used > 0
    requires Came(d.Reach(6), status, d.win.out, out_used, 2) && |d.win.out| == out_used && status != BadParam
    ensures status == CannotMakeProgress && out_used == 1 && d.win.out == [0x61] && in_used == 6
  {
    hide Inflater.Reach, BitReader.Taken;
  }

  // ------------------------------------------------------------------------------ its bits

  lemma ByteOf(s: seq<byte>, i: nat)
    requires i < |s|
    ensures |BytesToBits(s)| == 8 * |s| && BytesToBits(s)[8 * i..8 * i + 8] == ToBits(s[i], 8)
    ensures FromBits(BytesToBits(s)[8 * i..][..8]) == s[i]
    ensures BytesToBits(s)[8 * i..][8..] == BytesToBits(s)[8 * (i + 1)..]
  {
    ByteAt(s, i);
    ByteBits(s[i]);
    FromToBits(s[i], 8);
    hide BytesToBits, ToBits, FromBits;
    assert BytesToBits(s)[8 * i..][..8] == BytesToBits(s)[8 * i..8 * i + 8];
  }

  /** A stored block that is the last, from its first bits to its lengths. */
  lemma StoredHead(s: seq<byte>)
    requires |s| > 0 && s[0] == 1
    ensures var b := BytesToBits(s);
            |b| == 8 * |s| && b[0] && FromBits(b[1..3]) == 0 && |b[3..]| % 8 == 5 && b[3..][5..] == b[8..]
  {
    hide BytesToBits, ToBits, FromBits;
    ByteOf(s, 0);
    OneInBits();
    var b := BytesToBits(s);
    assert b[0..8] == ToBits(1, 8);
    assert b[1..3] == b[0..8][1..3] == [false, false];
    assert b[0] == b[0..8][0];
  }

  lemma OneInBits()
    ensures ToBits(1, 8) == [true, false, false, false, false, false, false, false] && FromBits([false, false]) == 0
  {
  }

  lemma TwoStoredWhole()
    ensures Inflate(BytesToBits(TwoStored()), []) == Some(([0x61, 0x62], []))
  {
    hide *;
    var s, b := TwoStored(), BytesToBits(TwoStored());
    TwoStoredIs();
    StoredHead(s);
    BlockBegins(b, []);
    KindStored(b[3..], []);
    StoredBegins(b[3..], []);
    HeaderIs(b[8..], []);
    HeaderBytes(s, []);
    ByteOf(s, 5);
    ByteOf(s, 6);
    StoredNext(2, b[40..], []);
    StoredNext(1, b[48..], [0x61]);
    StoredEnd(b[56..], [0x61, 0x62]);
    assert [] + [0x61 as byte] == [0x61] && [0x61 as byte] + [0x62] == [0x61, 0x62] && b[56..] == [];
    ThenLast([0x61, 0x62], []);
  }

  lemma TwoStoredIs()
    ensures TwoStored() == [1, 2, 0, 0xFD, 0xFF, 0x61, 0x62]
  {
  }

  lemma KindStored(rest: Bits, out: seq<byte>)
    ensures KindFrom(0, rest, out) == ReadStored(rest, out)
  {
    hide ReadStored;
  }

  lemma ThenLast(out: seq<byte>, rest: Bits)
    ensures Then(true, Some((out, rest))) == Some((out, rest))
  {
  }

  /** The two lengths. */
  lemma HeaderBytes(s: seq<byte>, out: seq<byte>)
    requires |s| >= 5 && s[1] == 2 && s[2] == 0 && s[3] == 0xFD && s[4] == 0xFF
    ensures |BytesToBits(s)| == 8 * |s|
    ensures HeaderFrom([], BytesToBits(s)[8..], out) == StoredBytes(2, BytesToBits(s)[40..], out)
  {
    hide *;
    var b := BytesToBits(s);
    ByteOf(s, 1);
    ByteOf(s, 2);
    ByteOf(s, 3);
    ByteOf(s, 4);
    HeaderMore([], b[8..], 2, out);
    HeaderMore([2], b[16..], 0, out);
    HeaderMore([2, 0], b[24..], 0xFD, out);
    HeaderMore([2, 0, 0xFD], b[32..], 0xFF, out);
    Joined();
    HeaderFull([2, 0, 0xFD, 0xFF], b[40..], out);
    Lengths();
  }

  lemma HeaderMore(hdr: seq<byte>, b: Bits, x: byte, out: seq<byte>)
    requires |hdr| < 4 && |b| >= 8 && FromBits(b[..8]) == x
    ensures HeaderFrom(hdr, b, out) == HeaderFrom(hdr + [x], b[8..], out)
  {
    hide *;
    HeaderNext(hdr, b, out);
  }

  lemma Joined()
    ensures [] + [2 as byte] == [2] && [2 as byte] + [0] == [2, 0] && [2 as byte, 0] + [0xFD] == [2, 0, 0xFD]
    ensures [2 as byte, 0, 0xFD] + [0xFF] == [2, 0, 0xFD, 0xFF]
  {
  }

  lemma Lengths()
    ensures Number16(2, 0) == 2 && Number16(0xFD, 0xFF) == 0xFFFD
  {
  }

  // ------------------------------------------------------------------------------ what comes out of it

  lemma FirstOfTwo()
    ensures BreaksOff(Upto(false, TwoStored()[..6]))
  {
    hide *;
    TwoStoredIs();
    var s := TwoStored()[..6];
    var b := BytesToBits(s);
    assert s == [1, 2, 0, 0xFD, 0xFF, 0x61];
    UptoIs(false, s);
    StoredHead(s);
    ByteOf(s, 1);
    ByteOf(s, 2);
    ByteOf(s, 3);
    ByteOf(s, 4);
    ByteOf(s, 5);
    HeadHalts(b);
    HeaderHalts([], b[8..], 2);
    HeaderHalts([2], b[16..], 0);
    HeaderHalts([2, 0], b[24..], 0xFD);
    Joined();
    LastByteHalts(b[32..]);
    TwoHalt(b[40..]);
    assert b[48..] == [];
  }

  lemma HeadHalts(b: Bits)
    requires |b| >= 8 && b[0] && FromBits(b[1..3]) == 0 && |b[3..]| % 8 == 5 && b[3..][5..] == b[8..]
    ensures Halt(false, Head, b, []) == Halt(false, RawHeader(true, []), b[8..], [])
  {
    hide FromBits;
    assert b[..3][1..3] == b[1..3] && b[..3][0] == b[0];
    assert Next(false, Head, b, []) == Some((Aligning(true), b[3..], []));
    assert Next(false, Aligning(true), b[3..], []) == Some((RawHeader(true, []), b[8..], []));
    hide Next;
  }

  lemma HeaderHalts(hdr: seq<byte>, b: Bits, x: byte)
    requires |hdr| < 3 && |b| >= 8 && FromBits(b[..8]) == x
    ensures Halt(false, RawHeader(true, hdr), b, []) == Halt(false, RawHeader(true, hdr + [x]), b[8..], [])
  {
    ByteHalts(hdr, b, x);
    AfterByteIs(RawHeader(true, hdr), x);
    hide AfterByte, Halt, FromBits;
  }

  lemma ByteHalts(hdr: seq<byte>, b: Bits, x: byte)
    requires |hdr| < 4 && |b| >= 8 && FromBits(b[..8]) == x
    ensures Halt(false, RawHeader(true, hdr), b, []) == Halt(false, AfterByte(RawHeader(true, hdr), x), b[8..], [])
  {
    hide *;
    HeaderTakes(hdr, b, x);
    NextBits(false, RawHeader(true, hdr), b, [], 8);
    HaltsOn(RawHeader(true, hdr), b, [], AfterByte(RawHeader(true, hdr), x), b[8..], []);
  }

  lemma HaltsOn(p: Point, avail: Bits, out: seq<byte>, p': Point, avail': Bits, out': seq<byte>)
    requires Next(false, p, avail, out) == Some((p', avail', out'))
    ensures Halt(false, p, avail, out) == Halt(false, p', avail', out')
  {
    hide Next;
  }

  lemma HeaderTakes(hdr: seq<byte>, b: Bits, x: byte)
    requires |hdr| < 4 && |b| >= 8 && FromBits(b[..8]) == x
    ensures var p := RawHeader(true, hdr);
            Needs(p) == Some(8) && !AtSymbols(p) && AfterBits(p, b[..8]) == AfterByte(p, x)
  {
    hide FromBits, AfterByte;
  }

  lemma LastByteHalts(b: Bits)
    requires |b| >= 8 && FromBits(b[..8]) == 0xFF
    ensures Halt(false, RawHeader(true, [2, 0, 0xFD]), b, []) == Halt(false, Stored(true, 2), b[8..], [])
  {
    hide *;
    ByteHalts([2, 0, 0xFD], b, 0xFF);
    AfterByteIs(RawHeader(true, [2, 0, 0xFD]), 0xFF);
    Joined();
    Lengths();
  }

  lemma TwoHalt(b: Bits)
    requires |b| == 8 && FromBits(b[..8]) == 0x61
    ensures BreaksOff(Halt(false, Stored(true, 2), b, []))
  {
    hide FromBits;
    assert Next(false, Stored(true, 2), b, []) == Some((StoredOut(true, 2, 0x61), b[8..], []));
    assert Next(false, StoredOut(true, 2, 0x61), b[8..], []) == Some((Stored(true, 1), b[8..], [] + [0x61]));
    assert Next(false, Stored(true, 1), b[8..], [0x61]).None?;
    assert [] + [0x61 as byte] == [0x61];
    hide Next;
  }
}
