/**
  A full LZ code buffer always fits in the output buffer, written with the fixed codes or with codes
  of its own.
 */
module FixedFit {
  import opened Bits
  import opened CanonicalCode
  import opened Deflate
  import opened LzRecords
  import opened LzLayout
  import opened LzBuffer
  import opened BlockWriter
  import opened DynamicFit

  /** TDEFL_OUT_BUF_SIZE. */
  const OUT_BUF_SIZE: nat := LZ_CODE_BUF_SIZE * 13 / 10

  /** No record costs more than 31 bits for every 25 bits it uses of the buffer. */
  lemma RecordFits(rec: Lz)
    requires InRange(rec) && Covers(FixedLiterals(), FixedDistances(), rec)
    ensures 25 * |RecBits(FixedLiterals(), FixedDistances(), rec)| <= 31 * (8 * PayloadSize(rec) + 1)
  {
    hide CodeBits, ToBits, Pow2, LenSym, LenExtra, DistSym, DistExtra;
  }

  lemma {:induction false} RecordsFit(recs: seq<Lz>, i: nat)
    requires (forall k :: 0 <= k < |recs| ==> InRange(recs[k])) && i <= |recs|
    requires CoversAll(FixedLiterals(), FixedDistances(), recs)
    ensures 25 * |BitsFrom(FixedLiterals(), FixedDistances(), recs,
                           i)| <= 31 * (BitsUsed(recs, |recs|) - BitsUsed(recs, i))
    decreases |recs| - i
  {
    hide *;
    if i < |recs| {
      RecordsFit(recs, i + 1);
      BitsStep(FixedLiterals(), FixedDistances(), recs, i);
      MatchesStep(recs, i);
      RecordFits(recs[i]);
    } else {
      NoBits(FixedLiterals(), FixedDistances(), recs);
    }
  }

  /** 1.24 bytes of output at most for every byte of the buffer. */
  lemma StaticFits(recs: seq<Lz>)
    requires forall k :: 0 <= k < |recs| ==> InRange(recs[k])
    ensures 25 * |StaticBits(recs)| <= 248 * ReadPos(recs, |recs|) + 225
  {
    FixedCovers(recs);
    FixedShape();
    RecordsFit(recs, 0);
    UsedFits(recs, |recs|);
    hide BitsFrom, RecBits, CodeBits, CoversAll, ReadPos, GroupStart;
  }

  /**
    With the bits left over before it and the marks of a flush after it, a static block leaves room
    in the output buffer.
   */
  lemma StaticLeavesRoom(recs: seq<Lz>)
    requires forall k :: 0 <= k < |recs| ==> InRange(recs[k])
    requires ReadPos(recs, |recs|) <= LZ_CODE_BUF_SIZE
    ensures |StaticBits(recs)| + 64 < 8 * (OUT_BUF_SIZE - 16)
  {
    StaticFits(recs);
  }

  /** And so does a dynamic block. */
  lemma DynamicLeavesRoom(bs: Bits, recs: seq<Lz>)
    requires Compact(bs, recs) && ReadPos(recs, |recs|) <= LZ_CODE_BUF_SIZE
    ensures |bs| + 64 < 8 * (OUT_BUF_SIZE - 16)
  {
    UsedFits(recs, |recs|);
    hide ReadPos, GroupStart, BitsUsed;
  }
}
