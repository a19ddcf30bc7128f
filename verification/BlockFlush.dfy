/**
  Writing out one block: compressed, or stored when compression does not pay.
 */
module BlockFlush {
  import opened Wrappers
  import opened Bits
  import opened Deflate
  import opened LzRecords
  import opened LzLayout
  import opened LzBuffer
  import opened HuffTables
  import opened BitWriter
  import opened BlockWriter
  import opened DynamicFit
  import opened FixedFit
  import opened Stream
  import opened Chains
  import Dictionary

  /** The window as far as a stored block needs it. */
  ghost predicate Holds(dict: seq<byte>, input: seq<byte>, from: nat, n: nat)
  {
    |dict| >= LZ_DICT_SIZE && from + n <= |input| && n <= LZ_DICT_SIZE &&
    forall p :: from <= p < from + n ==> dict[Ring(p)] == input[p]
  }

  lemma WindowHolds(dict: seq<byte>, input: seq<byte>, lo: nat, from: nat, n: nat)
    requires Dictionary.Window(dict, input, lo) && lo <= from && from + n <= |input|
    ensures Holds(dict, input, from, n)
  {
    forall p | from <= p < from + n ensures dict[Ring(p)] == input[p] {
      assert Dictionary.HoldsAt(dict, input, p);
    }
  }

  lemma HoldsGives(dict: seq<byte>, input: seq<byte>, from: nat, n: nat)
    requires Holds(dict, input, from, n)
    ensures from + n <= |input| && n == |input[from..from + n]| <= LZ_DICT_SIZE < 65536
  {
  }

  lemma NextByte(data: seq<byte>, i: nat, m: Bits)
    requires i < |data|
    ensures (m + BytesToBits(data[..i])) + ToBits(data[i], 8) == m + BytesToBits(data[..i + 1])
  {
    BytesToBitsSnoc(data[..i], data[i]);
    assert data[..i + 1] == data[..i] + [data[i]];
    hide BytesToBits, ToBits;
    assert (m + BytesToBits(data[..i])) + ToBits(data[i], 8) == m + (BytesToBits(data[..i]) + ToBits(data[i], 8));
  }

  lemma AllBytes(data: seq<byte>, m: Bits)
    ensures m + BytesToBits(data[..0]) == m && data[..|data|] == data
  {
  }

  lemma ByteFits(b: byte)
    ensures b < Pow2(8)
  {
    Powers();
  }

  /** The bytes of a stored block come out of the ring. */
  method PutBytes(w: BitWriter, ghost a: Snapshot, ghost m: Bits, dict: array<byte>, dict_pos: nat, total: nat,
                  ghost input: seq<byte>, ghost from: nat)
    requires w.Valid() && Extends(a, w.State(), m) && w.target != dict && Holds(dict[..], input, from, total)
    requires dict_pos == from % U32
    modifies w, w.target
    ensures w.Valid() && w.target == old(w.target)
    ensures Extends(a, w.State(), m + BytesToBits(input[from..from + total]))
  {
    hide Extends, BytesToBits, ToBits, Pow2;
    ghost var data, d0 := input[from..from + total], dict[..];
    AllBytes(data, m);
    var i := 0;
    while i < total
      invariant 0 <= i <= total && w.Valid() && w.target == old(w.target) && dict[..] == d0
      invariant Extends(a, w.State(), m + BytesToBits(data[..i]))
    {
      Dictionary.RingSum(from, i);
      NextByte(data, i, m);
      ghost var b := w.State();
      var c := dict[Ring((dict_pos + i) % U32)];
      assert d0[Ring(from + i)] == data[i];
      ByteFits(c);
      w.PutBits(c, 8);
      ExtendsMore(a, b, w.State(), m + BytesToBits(data[..i]), ToBits(c, 8));
      i := i + 1;
    }
  }

  /** The two lengths of a stored block, after the padding. */
  method PutStoredHeader(w: BitWriter, ghost a: Snapshot, ghost m: Bits, len: nat)
    requires w.Valid() && Extends(a, w.State(), m) && len < 65536
    modifies w, w.target
    ensures w.Valid() && w.target == old(w.target)
    ensures Extends(a, w.State(), m + Padding(old(|w.bits|)) + ToBits(len, 16) + ToBits(65535 - len, 16))
  {
    hide Extends, ToBits, Pow2, Padding;
    Powers();
    ghost var b, pad := w.State(), Padding(|w.bits|);
    w.Align();
    ExtendsMore(a, b, w.State(), m, pad);
    ghost var c := w.State();
    w.PutBits(len, 16);
    ExtendsMore(a, c, w.State(), m + pad, ToBits(len, 16));
    ghost var d := w.State();
    w.PutBits(65535 - len, 16);
    ExtendsMore(a, d, w.State(), m + pad + ToBits(len, 16), ToBits(65535 - len, 16));
  }

  lemma ExtendsBits(a: Snapshot, b: Snapshot, m: Bits)
    requires Extends(a, b, m)
    ensures b.bits == a.bits + m && |b.bits| == |a.bits| + |m| && b.start == a.start && b.end == a.end
    ensures b.target == a.target
  {
  }

  /** A stored block after its first bit. */
  method PutStored(w: BitWriter, dict: array<byte>, dict_pos: nat, total: nat, ghost input: seq<byte>, ghost from: nat)
    requires w.Valid() && w.target != dict && Holds(dict[..], input, from, total) && dict_pos == from % U32
    modifies w, w.target
    ensures w.Valid() && w.target == old(w.target)
    ensures Extends(old(w.State()), w.State(), StoredBits(old(|w.bits|), input[from..from + total]))
  {
    HoldsGives(dict[..], input, from, total);
    hide Extends, ToBits, Pow2, Padding, BytesToBits, Holds, StoredHead, StoredBits;
    ghost var a, d0 := w.State(), dict[..];
    PutStoredHead(w, total);
    assert dict[..] == d0;
    PutBytes(w, a, StoredHead(|a.bits|, total), dict, dict_pos, total, input, from);
    StoredJoined(|a.bits|, input[from..from + total]);
  }

  /** A stored block up to its bytes. */
  ghost function StoredHead(n: nat, len: nat): (r: Bits)
    requires len < 65536
  {
    ToBits(0, 2) + Padding(n + 2) + ToBits(len, 16) + ToBits(65535 - len, 16)
  }

  method PutStoredHead(w: BitWriter, len: nat)
    requires w.Valid() && len < 65536
    modifies w, w.target
    ensures w.Valid() && w.target == old(w.target) && Extends(old(w.State()), w.State(), StoredHead(old(|w.bits|), len))
  {
    hide Extends, ToBits, Pow2, Padding;
    Powers();
    ghost var a := w.State();
    w.PutBits(0, 2);
    ExtendsBits(a, w.State(), ToBits(0, 2));
    PutStoredHeader(w, a, ToBits(0, 2), len);
  }

  lemma StoredJoined(n: nat, data: seq<byte>)
    requires |data| < 65536
    ensures StoredBits(n, data) == StoredHead(n, |data|) + BytesToBits(data)
  {
  }

  /** The records take the output from o to o', by total bytes. */
  ghost predicate StandFor(recs: seq<Lz>, o: seq<byte>, o': seq<byte>, total: nat)
  {
    o <= o' && |o'| == |o| + total && total == Sizes(recs) && AllSound(recs, |o|) && PlayAll(o, recs) == o'
  }

  lemma StoredIs(w: nat, recs: seq<Lz>, o: seq<byte>, o': seq<byte>, total: nat)
    requires StandFor(recs, o, o', total) && total < 65536
    ensures Body(StoredBits(w, o'[|o|..|o| + total]), w, o, o')
    ensures |StoredBits(w, o'[|o|..|o| + total])| <= 41 + 8 * total
  {
    hide Body, StoredBits, StandFor, Padding;
    StandForFits(recs, o, o', total);
    StoredBody(w, o'[|o|..|o| + total], o);
    StoredShape(w, o'[|o|..|o| + total], []);
    PadsToByte(w + 2);
    assert o + o'[|o|..|o| + total] == o';
  }

  lemma StandForFits(recs: seq<Lz>, o: seq<byte>, o': seq<byte>, total: nat)
    requires StandFor(recs, o, o', total)
    ensures o <= o' && |o'| == |o| + total && total == Sizes(recs)
  {
  }

  lemma CodedIs(bs: Bits, w: nat, recs: seq<Lz>, o: seq<byte>, o': seq<byte>, total: nat)
    requires StandFor(recs, o, o', total) && Means(bs, recs)
    ensures Body(bs, w, o, o')
  {
    hide Body, Means;
    MeansBody(bs, recs, w, o);
  }

  /** Room for the marks of a flush is left behind the block. */
  ghost predicate Roomy(s: Snapshot)
  {
    |s.bits| + 56 <= 8 * (s.end - s.start)
  }

  /** Everything a block is written from. */
  ghost predicate Inputs(lz: LzBuffer, cl: HuffTable, target: array<byte>, dict: array<byte>)
  {
    Separate(lz, cl, target) && target != dict && cl.sizes != dict && lz.lits.sizes != dict && lz.dists.sizes != dict &&
    cl.count as object != dict && cl.codes as object != dict && lz.lits.count as object != dict &&
    lz.lits.codes as object != dict && lz.dists.count as object != dict && lz.dists.codes as object != dict &&
    lz.code_buf != dict
  }

  /** The compressed form of a block, tried first. */
  method TryCompressed(lz: LzBuffer, cl: HuffTable, w: BitWriter, dict: array<byte>, use_raw_block: bool,
                       static_block: bool)
    returns (succeeded: bool, ghost bs: Bits)
    requires Inputs(lz, cl, w.target, dict) && w.Valid() && Sealable(lz)
    requires Tallied(lz.lits.count[..], lz.dists.count[..], lz.recs)
    modifies lz.lits.count, lz.lits.codes, lz.lits.sizes, lz.dists.codes, lz.dists.sizes, cl.count, cl.codes, cl.sizes
    modifies w, w.target
    ensures w.Valid() && w.target == old(w.target) && Sealable(lz) && dict[..] == old(dict[..])
    ensures Extends(old(w.State()), w.State(), bs)
    ensures !use_raw_block ==> Means(bs, lz.recs) && succeeded == (w.cur < w.end)
    ensures forall i :: 0 <= i < |lz.recs| ==> InRange(lz.recs[i])
    ensures static_block && !use_raw_block ==> bs == StaticBits(lz.recs)
    ensures !static_block && !use_raw_block ==> Compact(bs, lz.recs)
    ensures use_raw_block ==> !succeeded
  {
    ghost var buf, d0 := lz.code_buf[..], dict[..];
    SealableGives(lz);
    assert w.cur <= w.end <= w.target.Length;
    hide Extends, Tallied, Means, StaticBits, Sealed, ReadPos, InRange, Separate, Compact;
    succeeded, bs := false, [];
    if use_raw_block {
      ExtendsNot(w.State());
    } else {
      succeeded, bs := CompressBlock(lz, cl, w, static_block);
      assert dict[..] == d0;
      StillSealable(lz, buf);
    }
  }

  lemma StillSealable(lz: LzBuffer, buf: seq<byte>)
    requires lz.code_buf[..] == buf && Sealed(buf, lz.recs) && lz.code_pos == ReadPos(lz.recs, |lz.recs|)
    requires |lz.recs| < 65535
    requires forall i :: 0 <= i < |lz.recs| ==> InRange(lz.recs[i])
    ensures Sealable(lz)
  {
  }

  /** Back to where the block began. */
  method GoBack(w: BitWriter, ghost a: Snapshot, ghost bs: Bits, saved_cur: nat, saved_bit_buf: nat, saved_bits_in: nat)
    requires w.Valid() && Extends(a, w.State(), bs) && a.cur == saved_cur && saved_bits_in < 8
    requires Written(a.bytes, a.start, saved_cur, a.end, saved_bit_buf, saved_bits_in, a.bits)
    modifies w`cur, w`bit_buffer, w`bits_in, w`bits
    ensures w.Valid() && Extends(a, w.State(), []) && w.target == old(w.target)
    ensures w.bits == a.bits && w.cur == a.cur
  {
    StillWritten(a.bytes, w.target[..], a.start, saved_cur, a.end, saved_bit_buf, saved_bits_in, a.bits);
    w.Restore(saved_cur, saved_bit_buf, saved_bits_in, a.bits);
    assert a.bits + [] == a.bits;
  }

  /** A stored block in place of whatever has been written since a. */
  method StoreInstead(w: BitWriter, ghost a: Snapshot, ghost bs0: Bits, saved_cur: nat, saved_bit_buf: nat,
                      saved_bits_in: nat,
                      dict: array<byte>, dict_pos: nat, total: nat, ghost recs: seq<Lz>, ghost before: seq<byte>,
                      ghost o: seq<byte>, ghost o': seq<byte>)
    returns (ghost bs: Bits)
    requires w.Valid() && Extends(a, w.State(), bs0) && a.cur == saved_cur && saved_bits_in < 8
    requires Written(a.bytes, a.start, saved_cur, a.end, saved_bit_buf, saved_bits_in, a.bits)
    requires w.target != dict && Holds(dict[..], before + o', |before| + |o|, total)
    requires dict_pos == (|before| + |o|) % U32
    requires StandFor(recs, o, o', total) && a.start + OUT_BUF_SIZE - 16 <= a.end && |a.bits| <= 8
    modifies w, w.target
    ensures w.Valid() && w.target == old(w.target) && Extends(a, w.State(), bs)
    ensures Body(bs, |a.bits|, o, o') && Roomy(w.State())
    ensures |New(o, o')| < 65536 && bs == StoredBits(|a.bits|, New(o, o'))
  {
    HoldsGives(dict[..], before + o', |before| + |o|, total);
    SameData(before, o, o', total);
    NewIs(recs, o, o', total);
    hide Extends, Holds, StandFor, Written, Body, StoredBits;
    ghost var d0 := dict[..];
    GoBack(w, a, bs0, saved_cur, saved_bit_buf, saved_bits_in);
    ghost var b := w.State();
    assert dict[..] == d0;
    PutStored(w, dict, dict_pos, total, before + o', |before| + |o|);
    bs := StoredBits(|a.bits|, o'[|o|..|o| + total]);
    ExtendsMore(a, b, w.State(), [], bs);
    assert [] + bs == bs;
    StoredIs(|a.bits|, recs, o, o', total);
    ExtendsBits(a, w.State(), bs);
  }

  /** What o' has more than o. */
  ghost function New(o: seq<byte>, o': seq<byte>): (r: seq<byte>)
  {
    if |o| <= |o'| then o'[|o|..] else []
  }

  lemma NewIs(recs: seq<Lz>, o: seq<byte>, o': seq<byte>, total: nat)
    requires StandFor(recs, o, o', total)
    ensures |o| + total == |o'| && New(o, o') == o'[|o|..|o| + total] && |New(o, o')| == total
  {
    hide PlayAll, AllSound, Sizes;
  }

  /** Whole bytes in n bits. */
  function Bytes(n: nat): (r: nat)
  {
    n / 8
  }

  /** A compressed block: of fixed codes, or of codes of its own. */
  ghost predicate Coded(bs: Bits, recs: seq<Lz>, static_block: bool)
  {
    Means(bs, recs) && (forall i :: 0 <= i < |recs| ==> InRange(recs[i])) &&
    if static_block then bs == StaticBits(recs) else Compact(bs, recs)
  }

  /**
    The body of a block after n bits: as it is stored, if that is asked for or compression saves nothing
    and the window still holds the bytes, and as it is compressed otherwise.
   */
  ghost predicate Chosen(bs: Bits, n: nat, coded: Bits, data: seq<byte>, use_raw_block: bool, in_window: bool)
  {
    if in_window && (use_raw_block || (|data| > 0 && Bytes(n + |coded|) - Bytes(n) + 1 >= |data|)) then
      |data| < 65536 && bs == StoredBits(n, data)
    else bs == coded
  }

  /** So a block takes hardly more than its bytes would, nor than their codes. */
  lemma ChosenShort(bs: Bits, n: nat, coded: Bits, data: seq<byte>, use_raw_block: bool, in_window: bool)
    requires Chosen(bs, n, coded, data, use_raw_block, in_window)
    ensures in_window && data != [] ==> |bs| <= 8 * |data| + 41
    ensures !use_raw_block ==> |bs| <= |coded| + 56
    ensures in_window && use_raw_block ==> |data| < 65536 && bs == StoredBits(n, data)
  {
    if |data| < 65536 {
      StoredShape(n, data, []);
      PadsToByte(n + 2);
    }
    hide StoredBits, Padding;
  }

  lemma SameData(before: seq<byte>, o: seq<byte>, o': seq<byte>, total: nat)
    requires |o| + total <= |o'|
    ensures (before + o')[|before| + |o|..|before| + |o| + total] == o'[|o|..|o| + total]
  {
  }

  /** What a block's body says, and that it leaves room for the marks of a flush. */
  ghost predicate BodyWritten(a: Snapshot, b: Snapshot, bs: Bits, o: seq<byte>, o': seq<byte>)
  {
    Extends(a, b, bs) && Body(bs, |a.bits|, o, o') && Roomy(b) && b.start <= b.end
  }

  lemma WrittenRoomy(a: Snapshot, b: Snapshot, bs: Bits, o: seq<byte>, o': seq<byte>)
    requires Extends(a, b, bs) && Body(bs, |a.bits|, o, o') && Roomy(b) && b.start <= b.end
    ensures BodyWritten(a, b, bs, o, o')
  {
    hide Body, Extends;
  }

  /** With such room, nothing that has been put was dropped. */
  lemma RoomyFits(w: BitWriter)
    requires w.Valid() && Roomy(w.State())
    ensures w.cur < w.end
  {
    Eighth(|w.bits|, w.bits_in);
  }

  lemma Eighth(n: nat, k: nat)
    requires k <= n && (n - k) % 8 == 0
    ensures 8 * ((n - k) / 8) <= n
  {
  }

  /** Everything known about the block to be written. */
  ghost predicate Job(lz: LzBuffer, cl: HuffTable, w: BitWriter, dict: array<byte>, dict_pos: nat, in_window: bool,
                      before: seq<byte>, o: seq<byte>, o': seq<byte>)
    reads lz, lz.code_buf, w, w.target, dict
  {
    Inputs(lz, cl, w.target, dict) && w.Valid() && Sealable(lz) && StandFor(lz.recs, o, o', lz.total_lz_bytes) &&
    dict_pos == (|before| + |o|) % U32 && lz.code_pos <= LZ_CODE_BUF_SIZE &&
    (in_window ==> Holds(dict[..], before + o', |before| + |o|, lz.total_lz_bytes))
  }

  /** The state the writer can go back to. */
  ghost predicate Saved(a: Snapshot, saved_cur: nat, saved_bit_buf: nat, saved_bits_in: nat)
  {
    a.cur == saved_cur && saved_bits_in < 8 && a.start + OUT_BUF_SIZE - 16 <= a.end && |a.bits| <= 8 &&
    Written(a.bytes, a.start, saved_cur, a.end, saved_bit_buf, saved_bits_in, a.bits)
  }

  lemma JobGives(lz: LzBuffer, cl: HuffTable, w: BitWriter, dict: array<byte>, dict_pos: nat, in_window: bool,
                 before: seq<byte>, o: seq<byte>, o': seq<byte>)
    requires Job(lz, cl, w, dict, dict_pos, in_window, before, o, o')
    ensures Inputs(lz, cl, w.target, dict) && w.Valid() && Sealable(lz) && w.bits_in < 8 && w.target != dict
    ensures Written(w.target[..], w.start, w.cur, w.end, w.bit_buffer, w.bits_in, w.bits)
    ensures StandFor(lz.recs, o, o', lz.total_lz_bytes)
    ensures dict_pos == (|before| + |o|) % U32 && lz.code_pos <= LZ_CODE_BUF_SIZE
    ensures in_window ==> Holds(dict[..], before + o', |before| + |o|, lz.total_lz_bytes)
  {
    StandForFits(lz.recs, o, o', lz.total_lz_bytes);
  }

  lemma SavedNow(a: Snapshot, saved_cur: nat, saved_bit_buf: nat, saved_bits_in: nat)
    requires a.cur == saved_cur && saved_bits_in < 8 && a.start + OUT_BUF_SIZE - 16 <= a.end && |a.bits| <= 8
    requires Written(a.bytes, a.start, saved_cur, a.end, saved_bit_buf, saved_bits_in, a.bits)
    ensures Saved(a, saved_cur, saved_bit_buf, saved_bits_in)
  {
  }

  lemma SavedGives(a: Snapshot, saved_cur: nat, saved_bit_buf: nat, saved_bits_in: nat)
    requires Saved(a, saved_cur, saved_bit_buf, saved_bits_in)
    ensures a.cur == saved_cur && saved_bits_in < 8 && a.start + OUT_BUF_SIZE - 16 <= a.end && |a.bits| <= 8
    ensures a.start <= a.end
    ensures Written(a.bytes, a.start, saved_cur, a.end, saved_bit_buf, saved_bits_in, a.bits)
  {
  }

  /** A stored block instead, and what it says. */
  method StoreBranch(w: BitWriter, dict: array<byte>, dict_pos: nat, total: nat, ghost recs: seq<Lz>,
                     ghost before: seq<byte>, ghost o: seq<byte>,
                     ghost o': seq<byte>,
                     ghost a: Snapshot, ghost bs0: Bits, saved_cur: nat, saved_bit_buf: nat, saved_bits_in: nat)
    returns (ghost bs: Bits)
    requires w.Valid() && Extends(a, w.State(), bs0) && Saved(a, saved_cur, saved_bit_buf, saved_bits_in)
    requires w.target != dict && Holds(dict[..], before + o', |before| + |o|, total)
    requires StandFor(recs, o, o', total) && dict_pos == (|before| + |o|) % U32
    modifies w, w.target
    ensures w.Valid() && w.target == old(w.target)
    ensures BodyWritten(a, w.State(), bs, o, o')
    ensures |New(o, o')| < 65536 && bs == StoredBits(|a.bits|, New(o, o'))
  {
    SavedGives(a, saved_cur, saved_bit_buf, saved_bits_in);
    hide *;
    bs := StoreInstead(w, a, bs0, saved_cur, saved_bit_buf, saved_bits_in, dict, dict_pos, total, recs, before, o, o');
    ghost var b := w.State();
    ExtendsBits(a, b, bs);
    WrittenRoomy(a, b, bs, o, o');
  }

  /** Compressed with either kind of codes, a block leaves room, and so nothing of it was dropped. */
  lemma CompressedFits(lz: LzBuffer, w: BitWriter, a: Snapshot, bs: Bits, static_block: bool)
    requires w.Valid() && Sealable(lz) && lz.code_pos <= LZ_CODE_BUF_SIZE && a.start + OUT_BUF_SIZE - 16 <= a.end
    requires |a.bits| <= 8 && Extends(a, w.State(), bs)
    requires (forall i :: 0 <= i < |lz.recs| ==> InRange(lz.recs[i])) && (static_block ==> bs == StaticBits(lz.recs))
    requires !static_block ==> Compact(bs, lz.recs)
    ensures Roomy(w.State()) && w.State().start <= w.State().end && w.cur < w.end
  {
    hide *;
    if static_block { StaticRoomy(lz, a, w.State(), bs); } else { DynamicRoomy(lz, a, w.State(), bs); }
    RoomyFits(w);
  }

  lemma DynamicRoomy(lz: LzBuffer, a: Snapshot, b: Snapshot, bs: Bits)
    requires Sealable(lz) && lz.code_pos <= LZ_CODE_BUF_SIZE && Compact(bs, lz.recs)
    requires Extends(a, b, bs) && a.start + OUT_BUF_SIZE - 16 <= a.end && |a.bits| <= 8
    ensures Roomy(b) && b.start <= b.end
  {
    SealableGives(lz);
    hide Sealed, ReadPos, Compact;
    DynamicLeavesRoom(bs, lz.recs);
    ExtendsBits(a, b, bs);
  }

  lemma StillJob(lz: LzBuffer, cl: HuffTable, w: BitWriter, dict: array<byte>, dict_pos: nat, in_window: bool,
                 before: seq<byte>, o: seq<byte>, o': seq<byte>)
    requires Inputs(lz, cl, w.target, dict) && w.Valid() && Sealable(lz) && StandFor(lz.recs, o, o', lz.total_lz_bytes)
    requires dict_pos == (|before| + |o|) % U32 && lz.code_pos <= LZ_CODE_BUF_SIZE
    requires in_window ==> Holds(dict[..], before + o', |before| + |o|, lz.total_lz_bytes)
    ensures Job(lz, cl, w, dict, dict_pos, in_window, before, o, o')
  {
  }

  /** The first try at a block, on a job that stays open. Unless the block is to be stored, it always succeeds. */
  method TryJob(lz: LzBuffer, cl: HuffTable, w: BitWriter, dict: array<byte>, dict_pos: nat, in_window: bool,
                use_raw_block: bool, static_block: bool, ghost before: seq<byte>, ghost o: seq<byte>,
                ghost o': seq<byte>)
    returns (succeeded: bool, ghost bs: Bits)
    requires Job(lz, cl, w, dict, dict_pos, in_window, before, o, o')
    requires Tallied(lz.lits.count[..], lz.dists.count[..], lz.recs)
    requires w.start + OUT_BUF_SIZE - 16 <= w.end && |w.bits| <= 8
    modifies lz.lits.count, lz.lits.codes, lz.lits.sizes, lz.dists.codes, lz.dists.sizes, cl.count, cl.codes, cl.sizes
    modifies w, w.target
    ensures Job(lz, cl, w, dict, dict_pos, in_window, before, o, o') && w.target == old(w.target)
    ensures Extends(old(w.State()), w.State(), bs)
    ensures succeeded <==> !use_raw_block
    ensures succeeded ==> w.cur < w.end && BodyWritten(old(w.State()), w.State(), bs, o, o')
    ensures succeeded ==> Coded(bs, lz.recs, static_block)
  {
    JobGives(lz, cl, w, dict, dict_pos, in_window, before, o, o');
    ghost var a := w.State();
    hide *;
    succeeded, bs := TryCompressed(lz, cl, w, dict, use_raw_block, static_block);
    if !use_raw_block {
      CompressedFits(lz, w, a, bs, static_block);
      CodedIs(bs, |a.bits|, lz.recs, o, o', lz.total_lz_bytes);
      WrittenRoomy(a, w.State(), bs, o, o');
      CodedNow(bs, lz.recs, static_block);
    }
    StillJob(lz, cl, w, dict, dict_pos, in_window, before, o, o');
  }

  /** The body of a block: compressed, or stored if that is asked for or compression is no gain. */
  method WriteBody(lz: LzBuffer, cl: HuffTable, w: BitWriter, dict: array<byte>, dict_pos: nat, in_window: bool,
                   use_raw_block: bool, static_block: bool, ghost before: seq<byte>, ghost o: seq<byte>,
                   ghost o': seq<byte>)
    returns (ghost bs: Bits, ghost coded: Bits)
    requires Job(lz, cl, w, dict, dict_pos, in_window, before, o, o')
    requires Tallied(lz.lits.count[..], lz.dists.count[..], lz.recs)
    requires use_raw_block ==> in_window
    requires w.start + OUT_BUF_SIZE - 16 <= w.end && |w.bits| <= 8
    modifies lz.lits.count, lz.lits.codes, lz.lits.sizes, lz.dists.codes, lz.dists.sizes, cl.count, cl.codes, cl.sizes
    modifies w, w.target
    ensures w.Valid() && w.target == old(w.target)
    ensures BodyWritten(old(w.State()), w.State(), bs, o, o')
    ensures Chosen(bs, old(|w.bits|), coded, New(o, o'), use_raw_block, in_window)
    ensures !use_raw_block ==> Coded(coded, old(lz.recs), static_block)
  {
    JobGives(lz, cl, w, dict, dict_pos, in_window, before, o, o');
    ghost var a, recs := w.State(), lz.recs;
    var saved_cur, saved_bit_buf, saved_bits_in := w.cur, w.bit_buffer, w.bits_in;
    assert w.cur == w.start + Bytes(|w.bits|) by { CurIs(w); }
    SavedNow(a, saved_cur, saved_bit_buf, saved_bits_in);
    hide *;
    var succeeded;
    succeeded, bs := TryJob(lz, cl, w, dict, dict_pos, in_window, use_raw_block, static_block, before, o, o');
    coded := bs;
    JobGives(lz, cl, w, dict, dict_pos, in_window, before, o, o');
    NewIs(recs, o, o', lz.total_lz_bytes);
    ExtendsBits(a, w.State(), bs);
    if !use_raw_block { CurIs(w); }
    ghost var gain := !use_raw_block ==> w.cur - saved_cur == Bytes(|a.bits| + |coded|) - Bytes(|a.bits|);
    if (use_raw_block || (lz.total_lz_bytes > 0 && w.cur - saved_cur + 1 >= lz.total_lz_bytes)) && in_window {
      bs := StoreBranch(w, dict, dict_pos, lz.total_lz_bytes, recs, before, o, o', a, bs, saved_cur, saved_bit_buf,
                        saved_bits_in);
    } else if !succeeded {
      // Here the source falls back to the fixed codes. It never comes to that.
      assert false;
    }
    ChosenNow(bs, |a.bits|, coded, New(o, o'), use_raw_block, in_window);
  }

  lemma CodedNow(bs: Bits, recs: seq<Lz>, static_block: bool)
    requires forall i :: 0 <= i < |recs| ==> InRange(recs[i])
    requires Means(bs, recs) && (static_block ==> bs == StaticBits(recs)) && (!static_block ==> Compact(bs, recs))
    ensures Coded(bs, recs, static_block)
  {
    hide Means, StaticBits, Compact;
  }

  /** Short of the end, as many bytes have been put as the bits fill. */
  lemma CurIs(w: BitWriter)
    requires w.Valid() && (w.cur < w.end || w.start + Bytes(|w.bits|) <= w.end)
    ensures w.cur == w.start + Bytes(|w.bits|)
  {
    Floor8(|w.bits|, w.bits_in);
    hide ToBits, BytesToBits, Pow2;
  }

  lemma Floor8(n: nat, k: nat)
    requires k <= n && k < 8 && (n - k) % 8 == 0
    ensures (n - k) / 8 == n / 8
  {
  }

  lemma ChosenNow(bs: Bits, n: nat, coded: Bits, data: seq<byte>, use_raw_block: bool, in_window: bool)
    requires if in_window && (use_raw_block || (|data| > 0 && Bytes(n + |coded|) - Bytes(n) + 1 >= |data|)) then
               |data| < 65536 && bs == StoredBits(n, data)
             else bs == coded
    ensures Chosen(bs, n, coded, data, use_raw_block, in_window)
  {
  }

  lemma StaticRoomy(lz: LzBuffer, a: Snapshot, b: Snapshot, bs: Bits)
    requires Sealable(lz) && lz.code_pos <= LZ_CODE_BUF_SIZE && (forall i :: 0 <= i < |lz.recs| ==> InRange(lz.recs[i]))
    requires Extends(a, b, bs) && bs == StaticBits(lz.recs) && a.start + OUT_BUF_SIZE - 16 <= a.end && |a.bits| <= 8
    ensures Roomy(b) && b.start <= b.end
  {
    SealableGives(lz);
    hide Sealed, StaticBits, ReadPos;
    StaticLeavesRoom(lz.recs);
    ExtendsBits(a, b, bs);
  }
}
