/**
  How literals and matches are packed in the LZ code buffer: a flag byte for every eight of them,
  followed by one byte for a literal or three for a match.
 */
module LzLayout {
  import opened Bits
  import opened LzRecords

  ghost predicate InRange(rec: Lz)
  {
    rec.Match? ==> MIN_MATCH_LEN <= rec.len <= MAX_MATCH_LEN && 1 <= rec.dist <= LZ_DICT_SIZE
  }

  function PayloadSize(rec: Lz): (r: nat)
  {
    if rec.Literal? then 1 else 3
  }

  /** The first record of the group of eight that record i is in. */
  function GroupStart(i: nat): (r: nat)
    ensures r <= i < r + 8 && r % 8 == 0
  {
    i - i % 8
  }

  lemma GroupNext(n: nat)
    ensures GroupStart(n + 1) == if n - GroupStart(n) == 7 then n + 1 else GroupStart(n)
    ensures n - GroupStart(n) == n % 8
  {
  }

  /** The flag byte comes before the first record of a group. */
  function Lead(i: nat): (r: nat)
  {
    if GroupStart(i) == i then 1 else 0
  }

  /** Where record i, or the flag byte before it, begins. */
  ghost function ReadPos(recs: seq<Lz>, i: nat): (r: nat)
    requires i <= |recs|
  {
    if i == 0 then 0 else ReadPos(recs, i - 1) + Lead(i - 1) + PayloadSize(recs[i - 1])
  }

  ghost function PayloadPos(recs: seq<Lz>, i: nat): (r: nat)
    requires i <= |recs|
  {
    ReadPos(recs, i) + Lead(i)
  }

  /** Where the flag of record i is. */
  ghost function FlagPos(recs: seq<Lz>, i: nat): (r: nat)
    requires i <= |recs|
  {
    ReadPos(recs, GroupStart(i))
  }

  ghost predicate PayloadAt(buf: seq<byte>, p: nat, rec: Lz)
  {
    p + PayloadSize(rec) <= |buf| && InRange(rec) &&
    match rec
    case Literal(b) => buf[p] == b
    case Match(len, dist) =>
      buf[p] == len - MIN_MATCH_LEN && (buf[p + 1] as nat) + 256 * (buf[p + 2] as nat) == dist - 1
  }

  /** Which bit of its flag byte tells what record i is, when n records are in the buffer. */
  function FlagBit(i: nat, n: nat): (r: nat)
    requires i < n
    ensures r < 8
  {
    if i / 8 < n / 8 then i % 8 else 8 - n % 8 + i % 8
  }

  ghost predicate RecordedAt(buf: seq<byte>, recs: seq<Lz>, i: nat, bit: nat)
    requires i < |recs| && bit < 8
  {
    PayloadAt(buf, PayloadPos(recs, i), recs[i]) && FlagPos(recs, i) < |buf| &&
    ToBits(buf[FlagPos(recs, i)], 8)[bit] == recs[i].Match?
  }

  /** The buffer holds the records; the flags of the last, incomplete, group are in the high bits. */
  ghost predicate Recorded(buf: seq<byte>, recs: seq<Lz>)
  {
    forall i :: 0 <= i < |recs| ==> RecordedAt(buf, recs, i, FlagBit(i, |recs|))
  }

  /** The buffer holds the records, ready to be replayed. */
  ghost predicate Sealed(buf: seq<byte>, recs: seq<Lz>)
  {
    forall i :: 0 <= i < |recs| ==> RecordedAt(buf, recs, i, i % 8)
  }

  lemma {:induction false} PosMono(recs: seq<Lz>, i: nat, j: nat)
    requires i <= j <= |recs|
    ensures ReadPos(recs, i) + (j - i) <= ReadPos(recs, j)
    ensures i < j ==> PayloadPos(recs, i) + PayloadSize(recs[i]) <= ReadPos(recs, j)
    decreases j - i
  {
    hide GroupStart;
    if i < j { PosMono(recs, i, j - 1); }
  }

  lemma {:induction false} PosExtend(recs: seq<Lz>, rec: Lz, i: nat)
    requires i <= |recs|
    ensures ReadPos(recs + [rec], i) == ReadPos(recs, i) && PayloadPos(recs + [rec], i) == PayloadPos(recs, i)
  {
    hide GroupStart;
    if i > 0 { PosExtend(recs, rec, i - 1); }
  }

  lemma Before(recs: seq<Lz>, i: nat, j: nat)
    requires i <= j <= |recs|
    ensures ReadPos(recs, i) <= ReadPos(recs, j)
    ensures i < j ==> ReadPos(recs, i) < ReadPos(recs, j) && PayloadPos(recs, i) + PayloadSize(recs[i]) <= ReadPos(recs,
        j)
  {
    hide *;
    PosMono(recs, i, j);
  }

  lemma FlagFirst(recs: seq<Lz>, k: nat)
    requires k <= |recs|
    ensures FlagPos(recs, k) < PayloadPos(recs, k)
  {
    hide ReadPos, GroupStart;
    Before(recs, GroupStart(k), k);
  }

  lemma GroupOrder(i: nat, k: nat)
    ensures i < GroupStart(k) ==> GroupStart(i) < GroupStart(k)
    ensures i >= GroupStart(k) ==> GroupStart(i) >= GroupStart(k)
    ensures i / 8 == k / 8 <==> GroupStart(i) == GroupStart(k)
  {
  }

  /** Payloads and flag bytes do not overlap. */
  lemma PayloadApart(recs: seq<Lz>, i: nat, k: nat)
    requires i < |recs| && k <= |recs|
    ensures var p, f := PayloadPos(recs, i), FlagPos(recs, k); f < p || p + PayloadSize(recs[i]) <= f
  {
    hide ReadPos, GroupStart, PayloadSize;
    if i < GroupStart(k) {
      Before(recs, i, GroupStart(k));
    } else {
      GroupOrder(i, k);
      Before(recs, GroupStart(k), GroupStart(i));
      FlagFirst(recs, i);
    }
  }

  /** Every group has a flag byte of its own. */
  lemma FlagsApart(recs: seq<Lz>, i: nat, k: nat)
    requires i <= |recs| && k <= |recs|
    ensures i / 8 != k / 8 <==> FlagPos(recs, i) != FlagPos(recs, k)
  {
    hide ReadPos, GroupStart;
    GroupOrder(i, k);
    if GroupStart(i) < GroupStart(k) {
      Before(recs, GroupStart(i), GroupStart(k));
    } else {
      Before(recs, GroupStart(k), GroupStart(i));
    }
  }

  lemma Apart(recs: seq<Lz>, i: nat, k: nat)
    requires i < |recs| && k <= |recs|
    ensures var p, f := PayloadPos(recs, i), FlagPos(recs, k); f < p || p + PayloadSize(recs[i]) <= f
    ensures i / 8 != k / 8 <==> FlagPos(recs, i) != FlagPos(recs, k)
  {
    PayloadApart(recs, i, k);
    FlagsApart(recs, i, k);
  }

  /** A new record: its payload is in place and its flag is shifted into the flag byte. */
  ghost predicate Stored(buf: seq<byte>, buf': seq<byte>, recs: seq<Lz>, rec: Lz)
  {
    var n := |recs|;
    var p, f := PayloadPos(recs, n), FlagPos(recs, n);
    |buf'| == |buf| && p <= |buf| && f < p && PayloadAt(buf', p, rec) &&
    ToBits(buf'[f], 8) == ToBits(buf[f], 8)[1..] + [rec.Match?] &&
    forall q :: 0 <= q < p && q != f ==> buf'[q] == buf[q]
  }

  lemma FlagShift(i: nat, n: nat)
    requires i < n
    ensures i / 8 == n / 8 ==> FlagBit(i, n) == FlagBit(i, n + 1) + 1
    ensures i / 8 != n / 8 ==> FlagBit(i, n) == FlagBit(i, n + 1)
  {
  }

  lemma FlagTop(n: nat)
    ensures FlagBit(n, n + 1) == 7
  {
  }

  lemma RecordStep(buf: seq<byte>, buf': seq<byte>, recs: seq<Lz>, rec: Lz)
    requires Recorded(buf, recs) && Stored(buf, buf', recs, rec)
    ensures Recorded(buf', recs + [rec])
  {
    var n := |recs|;
    var t := recs + [rec];
    forall i | 0 <= i < |t| ensures RecordedAt(buf', t, i, FlagBit(i, |t|)) {
      if i < n { OlderRecord(buf, buf', recs, rec, i); } else { NewestRecord(buf, buf', recs, rec); }
    }
  }

  lemma NewestRecord(buf: seq<byte>, buf': seq<byte>, recs: seq<Lz>, rec: Lz)
    requires Stored(buf, buf', recs, rec)
    ensures RecordedAt(buf', recs + [rec], |recs|, FlagBit(|recs|, |recs| + 1))
  {
    hide ToBits, PayloadAt, FlagBit, ReadPos, GroupStart, Lead;
    var n := |recs|;
    PosExtend(recs, rec, n);
    PosExtend(recs, rec, GroupStart(n));
    FlagShift(0, n + 1);
    FlagTop(n);
  }

  lemma OlderRecord(buf: seq<byte>, buf': seq<byte>, recs: seq<Lz>, rec: Lz, i: nat)
    requires Recorded(buf, recs) && Stored(buf, buf', recs, rec) && i < |recs|
    ensures RecordedAt(buf', recs + [rec], i, FlagBit(i, |recs| + 1))
  {
    hide ToBits, FlagBit, ReadPos, GroupStart, Lead;
    var n := |recs|;
    assert RecordedAt(buf, recs, i, FlagBit(i, n));
    PosExtend(recs, rec, i);
    PosExtend(recs, rec, GroupStart(i));
    Apart(recs, i, n);
    Before(recs, i, n);
    FlagFirst(recs, i);
    FlagShift(i, n);
  }

  /** The flags of the last group are moved down. */
  lemma SealStep(buf: seq<byte>, buf': seq<byte>, recs: seq<Lz>)
    requires Recorded(buf, recs) && FlagPos(recs, |recs|) < |buf| == |buf'|
    requires var n := |recs|; var f := FlagPos(recs, n);
             (forall q :: 0 <= q < |buf| && q != f ==> buf'[q] == buf[q]) &&
             forall k :: 0 <= k < n - GroupStart(n) ==>
               ToBits(buf'[f], 8)[k] == ToBits(buf[f], 8)[k + (8 - (n - GroupStart(n)))]
    ensures Sealed(buf', recs)
  {
    hide ToBits, ReadPos, GroupStart, Lead;
    var n := |recs|;
    GroupNext(n);
    forall i | 0 <= i < n ensures RecordedAt(buf', recs, i, i % 8) {
      assert RecordedAt(buf, recs, i, FlagBit(i, n));
      Apart(recs, i, n);
    }
  }
}
