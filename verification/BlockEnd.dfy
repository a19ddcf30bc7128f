/**
  A whole block: its first bit, its body, and the marks a flush leaves behind it.
 */
module BlockEnd {
  import opened Wrappers
  import opened Bits
  import opened Deflate
  import opened LzRecords
  import opened LzLayout
  import opened LzBuffer
  import opened HuffTables
  import opened BitWriter
  import opened BlockWriter
  import opened FixedFit
  import opened Stream
  import opened BlockFlush
  import Dictionary

  /** What the caller asks for. */
  datatype Flush = NoFlush | SyncFlush | FullFlush | Finish

  /** Wherever in a byte a stream that stands for o stops, more takes it to o'; a last block ends it. */
  ghost predicate Continues(more: Bits, n: nat, o: seq<byte>, o': seq<byte>, flush: Flush)
  {
    forall e: Bits :: Prefix(e, o) && InStep(|e|, n) ==>
      if flush == Finish then Ended(e + more, o') && Whole(e + more) else Prefix(e + more, o')
  }

  /** At the same place in a byte. */
  ghost predicate InStep(n: nat, m: nat)
  {
    n % 8 == m % 8
  }

  /** Whole bytes. */
  ghost predicate Whole(b: Bits)
  {
    |b| % 8 == 0
  }

  lemma SumMod(a: nat, b: nat, k: nat)
    requires InStep(a, b)
    ensures InStep(b, a) && InStep(a + k, b + k) && InStep(b + k, a + k)
  {
  }

  lemma StillWhole(n: nat, m: nat, a: nat, b: nat)
    requires InStep(n, m) && (m + a + b) % 8 == 0
    ensures (n + a + b) % 8 == 0
  {
  }

  lemma BodyModHere(bs: Bits, n: nat, m: nat, o: seq<byte>, o': seq<byte>, p: seq<byte>, post: Bits)
    requires Body(bs, n, o, o') && InStep(n, m) && (m + |bs| + |post|) % 8 == 0
    ensures ReadBody(bs + post, p + o) == Some((p + o', post))
  {
    hide *;
    StillWhole(n, m, |bs|, |post|);
    BodyHere(bs, n, o, o', p, post);
  }

  /** A body does not care how many whole bytes come before it. */
  lemma BodyMod(bs: Bits, n: nat, m: nat, o: seq<byte>, o': seq<byte>)
    requires Body(bs, n, o, o') && InStep(n, m)
    ensures Body(bs, m, o, o')
  {
    forall p: seq<byte>, post: Bits | (m + |bs| + |post|) % 8 == 0
      ensures ReadBody(bs + post, p + o) == Some((p + o', post))
    {
      BodyModHere(bs, n, m, o, o', p, post);
    }
    hide ReadBody;
  }

  lemma PaddingMod(n: nat, m: nat)
    requires InStep(n, m)
    ensures Padding(n) == Padding(m)
  {
  }

  /** The bits a flush leaves behind a block that ends after n bits. */
  ghost function Marks(n: nat, flush: Flush): (r: Bits)
  {
    match flush
    case NoFlush => []
    case Finish => Padding(n)
    case _ => [false] + StoredBits(n + 1, [])
  }

  lemma EndsStream(e: Bits, n: nat, bs: Bits, o: seq<byte>, o': seq<byte>)
    requires Prefix(e, o) && InStep(|e|, n) && Body(bs, n + 1, o, o')
    ensures var more := [true] + bs + Marks(n + 1 + |bs|, Finish);
            Ended(e + more, o') && Whole(e + more)
  {
    hide *;
    SumMod(|e|, n, 1);
    BodyMod(bs, n + 1, |e| + 1, o, o');
    LastBlock(e, o, bs, o');
    SumMod(|e|, n, 1 + |bs|);
    PaddingMod(|e| + (1 + |bs|), n + (1 + |bs|));
    FinishMarks(n + 1 + |bs|);
    JoinMarks(e, [true] + bs, Padding(n + 1 + |bs|));
  }

  lemma LastBlock(e: Bits, o: seq<byte>, bs: Bits, o': seq<byte>)
    requires Prefix(e, o) && Body(bs, |e| + 1, o, o')
    ensures var e', m := e + ([true] + bs), |e| + (1 + |bs|);
            Ended(e' + Padding(m), o') && Whole(e' + Padding(m))
  {
    hide Prefix, Body, Ended, Padding;
    AddLastBlock(e, o, bs, o');
    var e', m := e + ([true] + bs), |e| + (1 + |bs|);
    assert |e'| == m;
  }

  lemma FinishMarks(m: nat)
    ensures Marks(m, Finish) == Padding(m)
  {
  }

  lemma JoinMarks(e: Bits, b: Bits, m: Bits)
    ensures e + (b + m) == (e + b) + m && |e + (b + m)| == |e + b| + |m|
  {
  }

  lemma AddsBlock(e: Bits, n: nat, bs: Bits, o: seq<byte>, o': seq<byte>)
    requires Prefix(e, o) && InStep(|e|, n) && Body(bs, n + 1, o, o')
    ensures Prefix(e + ([false] + bs), o')
  {
    hide *;
    SumMod(|e|, n, 1);
    BodyMod(bs, n + 1, |e| + 1, o, o');
    AddBlock(e, o, bs, o');
  }

  lemma AddsMarks(e: Bits, n: nat, bs: Bits, o: seq<byte>, o': seq<byte>, flush: Flush)
    requires Prefix(e, o) && InStep(|e|, n) && Body(bs, n + 1, o, o') && flush != Finish
    ensures Prefix(e + ([false] + bs + Marks(n + 1 + |bs|, flush)), o')
  {
    hide Body, Prefix, StoredBits, InStep;
    AddsBlock(e, n, bs, o, o');
    var e', m := e + ([false] + bs), n + 1 + |bs|;
    if flush == NoFlush {
      assert e + ([false] + bs + []) == e';
    } else {
      SumMod(|e|, n, 1 + |bs|);
      StoredBody(m + 1, [], o');
      assert o' + [] == o';
      AddsBlock(e', m, StoredBits(m + 1, []), o', o');
      assert e + ([false] + bs + ([false] + StoredBits(m + 1, []))) == e' + ([false] + StoredBits(m + 1, []));
    }
  }

  /** A block and the marks behind it. */
  lemma BlockContinues(n: nat, bs: Bits, o: seq<byte>, o': seq<byte>, flush: Flush)
    requires Body(bs, n + 1, o, o')
    ensures Continues([flush == Finish] + bs + Marks(n + 1 + |bs|, flush), n, o, o', flush)
  {
    hide Body, Prefix, Ended, Marks, InStep, Whole;
    var more := [flush == Finish] + bs + Marks(n + 1 + |bs|, flush);
    forall e: Bits | Prefix(e, o) && InStep(|e|, n)
      ensures if flush == Finish then Ended(e + more, o') && Whole(e + more) else Prefix(e + more, o')
    {
      if flush == Finish { EndsStream(e, n, bs, o, o'); } else { AddsMarks(e, n, bs, o, o', flush); }
    }
  }

  /** Puts the marks of a flush. */
  method PutMarks(w: BitWriter, flush: Flush)
    requires w.Valid()
    modifies w, w.target
    ensures w.Valid() && w.target == old(w.target) && Extends(old(w.State()), w.State(), Marks(old(|w.bits|), flush))
    ensures flush != NoFlush ==> w.bits_in == 0
  {
    ghost var a := w.State();
    MarksWhole(|w.bits|, flush);
    assert w.cur <= w.end <= w.target.Length;
    if flush == Finish {
      w.Align();
    } else if flush == NoFlush {
      ExtendsNot(a);
    } else {
      PutEmptyStored(w);
      ExtendsBits(a, w.State(), Marks(|a.bits|, flush));
      NoneLeft(w);
    }
  }

  /** Marks end at a whole byte. */
  lemma MarksWhole(n: nat, flush: Flush)
    ensures flush != NoFlush ==> (n + |Marks(n, flush)|) % 8 == 0
  {
    PadsToByte(n);
    PadsToByte(n + 3);
    StoredShape(n + 1, [], []);
    var pad := |Padding(n + 3)|;
    assert flush == SyncFlush || flush == FullFlush ==> |Marks(n, flush)| == 35 + pad;
    hide *;
    FourBytes(n, pad);
    MarksOf(n, flush);
  }

  lemma MarksOf(n: nat, flush: Flush)
    ensures flush == Finish ==> Marks(n, flush) == Padding(n)
  {
    hide Padding;
  }

  lemma FourBytes(n: nat, pad: nat)
    requires (n + 3 + pad) % 8 == 0
    ensures (n + (35 + pad)) % 8 == 0
  {
    assert n + (35 + pad) == n + 3 + pad + 8 * 4;
  }

  lemma NoneLeft(w: BitWriter)
    requires w.Valid() && |w.bits| % 8 == 0
    ensures w.bits_in == 0
  {
    hide ToBits, BytesToBits, Pow2;
  }

  /** An empty stored block. */
  method PutEmptyStored(w: BitWriter)
    requires w.Valid()
    modifies w, w.target
    ensures w.Valid() && w.target == old(w.target)
    ensures Extends(old(w.State()), w.State(), [false] + StoredBits(old(|w.bits|) + 1, []))
  {
    hide Extends, ToBits, Pow2, Padding, StoredBits;
    Powers();
    ghost var a := w.State();
    w.PutBits(0, 3);
    ExtendsBits(a, w.State(), ToBits(0, 3));
    PutStoredHeader(w, a, ToBits(0, 3), 0);
    EmptyStored(|a.bits|);
  }

  lemma EmptyStored(n: nat)
    ensures [false] + StoredBits(n + 1, []) == ToBits(0, 3) + Padding(n + 3) + ToBits(0, 16) + ToBits(65535 - 0, 16)
  {
    ThreeZeros();
    hide ToBits, Padding;
    assert BytesToBits([]) == [];
  }

  lemma ThreeZeros()
    ensures ToBits(0, 3) == [false] + ToBits(0, 2) && |ToBits(0, 3)| == 3
  {
  }

  lemma FewRecords(lz: LzBuffer)
    requires lz.Valid() && lz.code_pos <= LZ_CODE_BUF_SIZE - 2
    ensures |lz.recs| < 65535 && Tallied(lz.lits.count[..], lz.dists.count[..], lz.recs) && lz.Shaped()
    ensures forall i :: 0 <= i < |lz.recs| ==> InRange(lz.recs[i])
  {
    PointersGive(lz.recs);
    hide Recorded, PayloadPos, FlagPos, GroupStart, Sizes;
    forall i | 0 <= i < |lz.recs| ensures InRange(lz.recs[i]) {
      assert CountedIn(lz.lits.count[..], lz.dists.count[..], lz.recs[i]);
    }
  }

  lemma SealedNow(lz: LzBuffer)
    requires Sealed(lz.code_buf[..], lz.recs) && lz.code_pos == ReadPos(lz.recs, |lz.recs|) && |lz.recs| < 65535
    requires forall i :: 0 <= i < |lz.recs| ==> InRange(lz.recs[i])
    ensures Sealable(lz)
  {
  }

  lemma InputsGive(lz: LzBuffer, cl: HuffTable, target: array<byte>, dict: array<byte>)
    requires Inputs(lz, cl, target, dict)
    ensures target != lz.code_buf && lz.code_buf != dict && target != dict
    ensures target as object != lz.lits.count && target as object != lz.dists.count
    ensures lz.code_buf as object != lz.lits.count && lz.code_buf as object != lz.dists.count
  {
  }

  /** The buffer is sealed and the block's first bit put. */
  method OpenBlock(lz: LzBuffer, cl: HuffTable, w: BitWriter, dict: array<byte>, dict_pos: nat, in_window: bool,
                   last: bool, ghost before: seq<byte>,
                   ghost o: seq<byte>, ghost o': seq<byte>)
    requires lz.Valid() && lz.code_pos <= LZ_CODE_BUF_SIZE - 2 && Inputs(lz, cl, w.target, dict) && w.Valid()
    requires StandFor(lz.recs, o, o', lz.total_lz_bytes) && dict_pos == (|before| + |o|) % U32
    requires in_window ==> Holds(dict[..], before + o', |before| + |o|, lz.total_lz_bytes)
    modifies lz`code_pos, lz.code_buf, w, w.target
    ensures Job(lz, cl, w, dict, dict_pos, in_window, before, o, o') && w.target == old(w.target)
    ensures Tallied(lz.lits.count[..], lz.dists.count[..], lz.recs)
    ensures Extends(old(w.State()), w.State(), [last])
  {
    hide *;
    FewRecords(lz);
    InputsGive(lz, cl, w.target, dict);
    ghost var d0, pos0 := dict[..], lz.code_pos;
    ghost var lc, dc := lz.lits.count[..], lz.dists.count[..];
    SealedFits(lz);
    lz.Seal();
    LastBit(last);
    ghost var buf := lz.code_buf[..];
    assert w.Valid();
    w.PutBits(if last then 1 else 0, 1);
    assert lz.code_buf[..] == buf && dict[..] == d0 && lz.lits.count[..] == lc && lz.dists.count[..] == dc;
    SealedNow(lz);
    StillJob(lz, cl, w, dict, dict_pos, in_window, before, o, o');
  }

  lemma LastBit(last: bool)
    ensures ToBits(if last then 1 else 0, 1) == [last] && (if last then 1 else 0) < Pow2(1)
  {
  }

  lemma SealedFits(lz: LzBuffer)
    requires lz.Valid()
    ensures ReadPos(lz.recs, |lz.recs|) <= LZ_CODE_BUF_SIZE
  {
    hide Recorded, Tallied, Sizes, GroupStart;
  }

  /** Writes the recorded literals and matches as a block, and the marks of the flush asked for. */
  method WriteBlock(lz: LzBuffer, cl: HuffTable, w: BitWriter, dict: array<byte>, dict_pos: nat, in_window: bool,
                    use_raw_block: bool, static_block: bool, flush: Flush, ghost before: seq<byte>,
                    ghost o: seq<byte>, ghost o': seq<byte>)
    returns (ghost more: Bits)
    requires lz.Valid() && lz.code_pos <= LZ_CODE_BUF_SIZE - 2 && Inputs(lz, cl, w.target, dict) && w.Valid()
    requires StandFor(lz.recs, o, o', lz.total_lz_bytes) && dict_pos == (|before| + |o|) % U32
    requires in_window ==> Holds(dict[..], before + o', |before| + |o|, lz.total_lz_bytes)
    requires use_raw_block ==> in_window
    requires w.start + OUT_BUF_SIZE - 16 == w.end && |w.bits| < 8
    modifies lz`code_pos, lz.code_buf, lz.lits.count, lz.lits.codes, lz.lits.sizes, lz.dists.codes, lz.dists.sizes,
             cl.count, cl.codes, cl.sizes, w, w.target
    ensures w.Valid() && w.target == old(w.target) && Extends(old(w.State()), w.State(), more)
    ensures Continues(more, old(|w.bits|), o, o', flush)
    ensures w.cur < w.end && w.Fits() && (flush != NoFlush ==> w.bits_in == 0)
  {
    hide *;
    ghost var a := w.State();
    ghost var bs;
    StateIs(w);
    OpenBlock(lz, cl, w, dict, dict_pos, in_window, flush == Finish, before, o, o');
    ghost var b := w.State();
    ExtendsBits(a, b, [flush == Finish]);
    StateIs(w);
    ghost var coded;
    bs, coded := WriteBody(lz, cl, w, dict, dict_pos, in_window, use_raw_block, static_block, before, o, o');
    ghost var c := w.State();
    WrittenGives(b, c, bs, o, o');
    StateIs(w);
    PutMarks(w, flush);
    StateIs(w);
    ghost var marks := Marks(|c.bits|, flush);
    more := [flush == Finish] + bs + marks;
    ExtendsMore(a, b, c, [flush == Finish], bs);
    ExtendsMore(a, c, w.State(), [flush == Finish] + bs, marks);
    ExtendsBits(a, c, [flush == Finish] + bs);
    BlockContinues(|a.bits|, bs, o, o', flush);
    ExtendsBits(c, w.State(), marks);
    RoomForMarks(b, c, bs, o, o', w, flush);
  }

  lemma StateIs(w: BitWriter)
    ensures var s := w.State();
            s.bits == w.bits && s.start == w.start && s.end == w.end && s.cur == w.cur && s.target == w.target &&
            s.bytes == w.target[..]
  {
  }

  lemma WrittenGives(b: Snapshot, c: Snapshot, bs: Bits, o: seq<byte>, o': seq<byte>)
    requires BodyWritten(b, c, bs, o, o')
    ensures Extends(b, c, bs) && Body(bs, |b.bits|, o, o')
  {
  }

  lemma MarksSize(n: nat, flush: Flush)
    ensures |Marks(n, flush)| <= 42 && (flush == NoFlush ==> |Marks(n, flush)| == 0)
    ensures flush == Finish ==> (n + |Marks(n, flush)|) / 8 <= n / 8 + 1
  {
    PadsToByte(n);
    PadsToByte(n + 3);
    StoredShape(n + 1, [], []);
    hide Padding, StoredBits;
  }

  lemma RoomForMarks(b: Snapshot, c: Snapshot, bs: Bits, o: seq<byte>, o': seq<byte>, w: BitWriter, flush: Flush)
    requires BodyWritten(b, c, bs, o, o') && w.bits == c.bits + Marks(|c.bits|, flush) && w.start == c.start
    requires w.end == c.end && w.Valid()
    ensures w.cur < w.end && w.Fits()
  {
    hide *;
    MarksSize(|c.bits|, flush);
    BodyRoomy(b, c, bs, o, o');
    FewerFit(w);
  }

  lemma BodyRoomy(b: Snapshot, c: Snapshot, bs: Bits, o: seq<byte>, o': seq<byte>)
    requires BodyWritten(b, c, bs, o, o')
    ensures |c.bits| + 56 <= 8 * (c.end - c.start)
  {
    hide Body, Extends;
  }

  /** Short of the end by a byte and more, nothing was dropped. */
  lemma FewerFit(w: BitWriter)
    requires w.Valid() && |w.bits| + 14 <= 8 * (w.end - w.start)
    ensures w.cur < w.end && w.Fits()
  {
    Eighth(|w.bits|, w.bits_in);
    hide ToBits, BytesToBits, Pow2;
  }
}
