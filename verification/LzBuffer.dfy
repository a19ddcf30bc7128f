/**
  The LZ code buffer of the compressor and the symbol frequencies counted while it is filled.
 */
module LzBuffer {
  import opened Bits
  import opened Deflate
  import opened HuffmanTree
  import opened HuffTables
  import opened LzRecords
  import opened LzLayout

  const LZ_CODE_BUF_SIZE: nat := 65536

  /** The byte moved right by one with a new top bit. */
  function ShiftIn(b: byte, top: bool): (r: byte)
  {
    b / 2 + (if top then 128 else 0)
  }

  lemma ShiftInBits(b: byte, top: bool)
    ensures ToBits(ShiftIn(b, top), 8) == ToBits(b, 8)[1..] + [top]
  {
    Powers();
    var h := b / 2;
    var x := ShiftIn(b, top);
    ToBitsAppend(h, 7, if top then 1 else 0, 1);
    OneBit(top);
    TopClear(h);
    assert ToBits(b, 8) == [b % 2 == 1] + ToBits(h, 7);
    hide ToBits;
  }

  lemma OneBit(top: bool)
    ensures ToBits(if top then 1 else 0, 1) == [top]
  {
  }

  lemma TopClear(h: nat)
    requires h < 128
    ensures ToBits(h, 8) == ToBits(h, 7) + [false]
  {
    Powers();
    ToBitsAppend(h, 7, 0, 1);
    OneBit(false);
    assert h + 0 * Pow2(7) == h;
  }

  /** The byte moved right by k. */
  function ShiftRight(b: byte, k: nat): (r: byte)
  {
    if k == 0 then b else ShiftRight(b / 2, k - 1)
  }

  lemma {:induction false} ShiftRightBits(b: byte, k: nat)
    requires k <= 8
    ensures forall j :: 0 <= j < 8 - k ==> ToBits(ShiftRight(b, k), 8)[j] == ToBits(b, 8)[j + k]
  {
    if k > 0 {
      ShiftRightBits(b / 2, k - 1);
      ShiftInBits(b, false);
      hide ToBits;
    }
  }

  /** The symbol a record counts as in the table of literals and lengths. */
  function LitSym(rec: Lz): (r: nat)
    requires InRange(rec)
    ensures r < 286 && r != END_OF_BLOCK
  {
    if rec.Literal? then rec.lit else LenSym(rec.len - MIN_MATCH_LEN)
  }

  /** One more, in 16 bits. */
  function Inc16(x: u16): (r: u16)
  {
    (x as nat + 1) % 65536
  }

  /** Every symbol the records need has been counted, none counts more than there are records. */
  ghost predicate Tallied(lits: seq<u16>, dists: seq<u16>, recs: seq<Lz>)
  {
    Sum(lits) == |recs| && Sum(dists) <= |recs| && AllCounted(lits, dists, recs) && lits == LitTally(recs) &&
    dists == DistTally(recs)
  }

  /** What it says of single symbols. */
  ghost predicate AllCounted(lits: seq<u16>, dists: seq<u16>, recs: seq<Lz>)
  {
    |lits| == |dists| == MAX_HUFF_SYMBOLS && lits[END_OF_BLOCK] == 0 &&
    (forall s :: 286 <= s < MAX_HUFF_SYMBOLS ==> lits[s] == 0) &&
    (forall s :: 30 <= s < MAX_HUFF_SYMBOLS ==> dists[s] == 0) &&
    forall i :: 0 <= i < |recs| ==> CountedIn(lits, dists, recs[i])
  }

  /** One more of symbol i. */
  function Bump(s: seq<nat>, i: nat): (r: seq<nat>)
    ensures |r| == |s|
  {
    if i < |s| then s[i := s[i] + 1] else s
  }

  function NoTally(): (r: seq<nat>)
    ensures |r| == MAX_HUFF_SYMBOLS
  {
    seq(MAX_HUFF_SYMBOLS, _ => 0)
  }

  /** How often the records need every symbol of the first table. */
  ghost function LitTally(recs: seq<Lz>): (r: seq<nat>)
    ensures |r| == MAX_HUFF_SYMBOLS
  {
    if recs == [] then NoTally()
    else
      var t, rec := LitTally(recs[..|recs| - 1]), recs[|recs| - 1];
      if InRange(rec) then Bump(t, LitSym(rec)) else t
  }

  /** And of the second. */
  ghost function DistTally(recs: seq<Lz>): (r: seq<nat>)
    ensures |r| == MAX_HUFF_SYMBOLS
  {
    if recs == [] then NoTally()
    else
      var t, rec := DistTally(recs[..|recs| - 1]), recs[|recs| - 1];
      if InRange(rec) && rec.Match? then Bump(t, DistSym(rec.dist - 1)) else t
  }

  lemma TallyMore(recs: seq<Lz>, rec: Lz)
    requires InRange(rec)
    ensures LitTally(recs + [rec]) == Bump(LitTally(recs), LitSym(rec))
    ensures DistTally(recs + [rec]) == if rec.Match? then Bump(DistTally(recs), DistSym(rec.dist - 1))
            else DistTally(recs)
  {
    assert (recs + [rec])[..|recs|] == recs;
    hide LitSym, DistSym;
  }

  lemma NothingTallied(s: seq<nat>)
    requires |s| == MAX_HUFF_SYMBOLS && forall i :: 0 <= i < |s| ==> s[i] == 0
    ensures s == LitTally([]) == DistTally([])
  {
  }

  ghost predicate CountedIn(lits: seq<u16>, dists: seq<u16>, rec: Lz)
  {
    |lits| == |dists| == MAX_HUFF_SYMBOLS && InRange(rec) && lits[LitSym(rec)] > 0 &&
    (rec.Match? ==> dists[DistSym(rec.dist - 1)] > 0)
  }

  lemma {:induction false} SumUpdate(s: seq<nat>, i: nat, v: nat)
    requires i < |s|
    ensures Sum(s[i := v]) + s[i] == Sum(s) + v
  {
    if i == 0 {
      assert s[i := v][1..] == s[1..];
    } else {
      SumUpdate(s[1..], i - 1, v);
      assert s[i := v][1..] == s[1..][i - 1 := v];
    }
  }

  lemma {:induction false} SumAtLeast(s: seq<nat>, i: nat)
    requires i < |s|
    ensures s[i] <= Sum(s)
  {
    if i > 0 { SumAtLeast(s[1..], i - 1); }
  }

  /** Counting one more record. */
  lemma TallyStep(lits: seq<u16>, dists: seq<u16>, recs: seq<Lz>, rec: Lz, lits': seq<u16>, dists': seq<u16>)
    requires Tallied(lits, dists, recs) && InRange(rec) && |recs| < 65535
    requires lits' == lits[LitSym(rec) := Inc16(lits[LitSym(rec)])]
    requires dists' == if rec.Literal? then dists
             else dists[DistSym(rec.dist - 1) := Inc16(dists[DistSym(rec.dist - 1)])]
    ensures Tallied(lits', dists', recs + [rec])
  {
    hide *;
    TalliedGives(lits, dists, recs);
    var s := LitSym(rec);
    OneMore(lits, s, lits', |recs|);
    TallyMore(recs, rec);
    if rec.Match? {
      DistInRange(rec);
      var d := DistSym(rec.dist - 1);
      OneMore(dists, d, dists', |recs|);
    }
    StillCounted(lits, dists, recs, rec, lits', dists');
    TalliedNow(lits', dists', recs + [rec]);
  }

  lemma DistInRange(rec: Lz)
    requires InRange(rec) && rec.Match?
    ensures 0 <= rec.dist - 1 < LZ_DICT_SIZE && DistSym(rec.dist - 1) < MAX_HUFF_SYMBOLS
  {
  }

  lemma TalliedGives(lits: seq<u16>, dists: seq<u16>, recs: seq<Lz>)
    requires Tallied(lits, dists, recs)
    ensures |lits| == |dists| == MAX_HUFF_SYMBOLS == 288 && Sum(lits) == |recs| && Sum(dists) <= |recs|
    ensures lits[END_OF_BLOCK] == 0
    ensures lits == LitTally(recs) && dists == DistTally(recs)
  {
    hide Sum, LitTally, DistTally;
  }

  lemma TalliedNow(lits: seq<u16>, dists: seq<u16>, recs: seq<Lz>)
    requires |lits| == |dists| == MAX_HUFF_SYMBOLS && Sum(lits) == |recs| && Sum(dists) <= |recs|
    requires AllCounted(lits, dists, recs)
    requires lits == LitTally(recs) && dists == DistTally(recs)
    ensures Tallied(lits, dists, recs)
  {
    hide Sum, LitTally, DistTally, CountedIn;
  }

  /** One more of symbol s, of which there are less than 65535. */
  lemma OneMore(counts: seq<u16>, s: nat, counts': seq<u16>, n: nat)
    requires s < |counts| && counts' == counts[s := Inc16(counts[s])] && Sum(counts) <= n < 65535
    ensures Sum(counts') == Sum(counts) + 1 && counts' == Bump(counts, s)
  {
    SumAtLeast(counts, s);
    SumUpdate(counts, s, counts[s] + 1);
    hide Sum;
  }

  lemma StillCounted(lits: seq<u16>, dists: seq<u16>, recs: seq<Lz>, rec: Lz, lits': seq<u16>, dists': seq<u16>)
    requires Tallied(lits, dists, recs) && InRange(rec)
    requires lits' == Bump(lits, LitSym(rec))
    requires dists' == if rec.Literal? then dists else Bump(dists, DistSym(rec.dist - 1))
    ensures AllCounted(lits', dists', recs + [rec])
  {
    var t := recs + [rec];
    hide Sum, LitSym, DistSym, LitTally, DistTally;
    forall i | 0 <= i < |t| ensures CountedIn(lits', dists', t[i]) {
      if i < |recs| { assert CountedIn(lits, dists, recs[i]); }
    }
  }

  class LzBuffer {
    /** m_lz_code_buf, m_pLZ_code_buf, m_pLZ_flags, m_num_flags_left, m_total_lz_bytes. */
    const code_buf: array<byte>
    var code_pos: nat
    var flags_pos: nat
    var num_flags_left: nat
    var total_lz_bytes: nat
    /** m_huff_count of the first two tables is in these. */
    const lits: HuffTable
    const dists: HuffTable
    /** What has been recorded since the last flush. */
    ghost var recs: seq<Lz>

    constructor ()
      ensures Valid() && recs == [] && total_lz_bytes == 0
      ensures fresh(code_buf) && fresh(lits.count) && fresh(lits.codes) && fresh(lits.sizes)
      ensures fresh(dists.count) && fresh(dists.codes) && fresh(dists.sizes)
      ensures code_pos == 1 && Distinct()
    {
      code_buf := new byte[LZ_CODE_BUF_SIZE];
      code_pos, flags_pos, num_flags_left, total_lz_bytes := 1, 0, 8, 0;
      var l := new HuffTable();
      var d := new HuffTable();
      lits, dists := l, d;
      recs := [];
      new;
      code_buf[flags_pos] := 0;
      NoCounts(lits.count[..]);
      NoCounts(dists.count[..]);
      NothingTallied(lits.count[..]);
      NothingTallied(dists.count[..]);
    }

    ghost predicate Shaped()
    {
      code_buf.Length == LZ_CODE_BUF_SIZE && lits.Shaped() && dists.Shaped() &&
      lits.count != dists.count && lits.codes != dists.codes && lits.sizes != dists.sizes &&
      lits.count != dists.codes && lits.codes != dists.count &&
      code_buf != lits.sizes && code_buf != dists.sizes
    }

    /** The buffer and the tables share nothing. */
    ghost predicate Distinct()
    {
      lits.codes as object != code_buf && dists.codes as object != code_buf && lits.count as object != code_buf &&
      dists.count as object != code_buf
    }

    /** Where the pointers into the buffer stand. */
    ghost predicate Pointers()
      reads this
    {
      var n := |recs|;
      code_pos == PayloadPos(recs, n) <= LZ_CODE_BUF_SIZE && flags_pos == FlagPos(recs, n) < code_pos &&
      num_flags_left == 8 - (n - GroupStart(n)) && total_lz_bytes == Sizes(recs)
    }

    ghost predicate Valid()
      reads this, code_buf, lits.count, dists.count
    {
      Shaped() && Pointers() && Recorded(code_buf[..], recs) && Tallied(lits.count[..], dists.count[..], recs)
    }

    /** The flag of the new record is shifted in; a full flag byte makes room for the next. */
    method ShiftFlag(top: bool)
      requires code_buf.Length == LZ_CODE_BUF_SIZE && flags_pos < code_pos < LZ_CODE_BUF_SIZE
      requires 1 <= num_flags_left <= 8
      modifies this`code_pos, this`flags_pos, this`num_flags_left, code_buf
      ensures num_flags_left == if old(num_flags_left) == 1 then 8 else old(num_flags_left) - 1
      ensures old(num_flags_left) == 1 ==> flags_pos == old(code_pos) && code_pos == old(code_pos) + 1
      ensures old(num_flags_left) != 1 ==> flags_pos == old(flags_pos) && code_pos == old(code_pos)
      ensures ToBits(code_buf[old(flags_pos)], 8) == ToBits(old(code_buf[flags_pos]), 8)[1..] + [top]
      ensures forall q :: 0 <= q < old(code_pos) && q != old(flags_pos) ==> code_buf[q] == old(code_buf[q])
    {
      ShiftInBits(code_buf[flags_pos], top);
      code_buf[flags_pos] := ShiftIn(code_buf[flags_pos], top);
      num_flags_left := num_flags_left - 1;
      if num_flags_left == 0 {
        num_flags_left := 8;
        flags_pos := code_pos;
        code_pos := code_pos + 1;
        code_buf[flags_pos] := 0;
      }
    }

    /** Counts a symbol, in 16 bits. */
    method CountSym(t: HuffTable, sym: nat)
      requires t.Shaped() && sym < MAX_HUFF_SYMBOLS
      modifies t.count
      ensures t.count[..] == old(t.count[..])[sym := Inc16(old(t.count[sym]))]
    {
      t.count[sym] := Inc16(t.count[sym]);
    }

    /** A payload has just been put at code_pos. */
    ghost predicate PayloadIn(rec: Lz, buf0: seq<byte>)
      reads this, code_buf
    {
      var n := |recs|;
      code_buf.Length == LZ_CODE_BUF_SIZE == |buf0| && Recorded(buf0, recs) && InRange(rec) &&
      code_pos == PayloadPos(recs, n) + PayloadSize(rec) < LZ_CODE_BUF_SIZE &&
      flags_pos == FlagPos(recs, n) < PayloadPos(recs, n) &&
      num_flags_left == 8 - (n - GroupStart(n)) && total_lz_bytes == Sizes(recs) + Size(rec) &&
      PayloadAt(code_buf[..], PayloadPos(recs, n), rec) &&
      forall q :: 0 <= q < PayloadPos(recs, n) ==> code_buf[q] == buf0[q]
    }

    /** The flag of the new record follows its payload. */
    method Flag(rec: Lz, ghost buf0: seq<byte>)
      requires PayloadIn(rec, buf0)
      modifies this, code_buf
      ensures recs == old(recs) + [rec] && Pointers() && Recorded(code_buf[..], recs) && code_pos <= old(code_pos) + 1
    {
      ghost var recs0 := recs;
      hide Recorded, PayloadPos, FlagPos, GroupStart, Sizes, ToBits, Stored, PayloadAt;
      GroupFits(|recs|);
      ghost var buf1 := code_buf[..];
      ShiftFlag(rec.Match?);
      recs := recs + [rec];
      StillThere(buf1, code_buf[..], recs0, rec);
      StoredHere(buf0, code_buf[..], recs0, rec);
      RecordStep(buf0, code_buf[..], recs0, rec);
      PointersStep(recs0, rec);
    }

    /** The new record is counted. */
    method Finish(rec: Lz, ghost buf0: seq<byte>)
      requires Shaped() && PayloadIn(rec, buf0) && Tallied(lits.count[..], dists.count[..], recs)
      modifies this, code_buf, lits.count, dists.count
      ensures Valid() && recs == old(recs) + [rec] && code_pos <= old(code_pos) + 1
    {
      ghost var recs0, lc, dc := recs, lits.count[..], dists.count[..];
      PointersGive(recs);
      PayloadGives(rec, buf0);
      hide Recorded, Tallied, PayloadIn, PayloadPos, Pointers;
      Flag(rec, buf0);
      Count(rec);
      TallyStep(lc, dc, recs0, rec, lits.count[..], dists.count[..]);
    }

    lemma PayloadGives(rec: Lz, buf0: seq<byte>)
      requires PayloadIn(rec, buf0)
      ensures InRange(rec) && PayloadPos(recs, |recs|) < 65536
    {
    }

    /** Counts the symbols of a record. */
    method Count(rec: Lz)
      requires lits.Shaped() && dists.Shaped() && lits.count != dists.count && InRange(rec)
      modifies lits.count, dists.count
      ensures lits.count[..] == old(lits.count[..])[LitSym(rec) := Inc16(old(lits.count[LitSym(rec)]))]
      ensures dists.count[..] == if rec.Literal? then old(dists.count[..])
                                 else old(dists.count[..])[DistSym(rec.dist - 1) :=
                                                           Inc16(old(dists.count[DistSym(rec.dist - 1)]))]
    {
      if rec.Match? {
        CountSym(dists, DistSym(rec.dist - 1));
      }
      CountSym(lits, LitSym(rec));
    }

    method RecordLiteral(lit: byte)
      requires Valid() && code_pos <= LZ_CODE_BUF_SIZE - 2
      modifies this, code_buf, lits.count, dists.count
      ensures Valid() && recs == old(recs) + [Literal(lit)]
      ensures code_pos <= old(code_pos) + 2
    {
      ghost var buf0 := code_buf[..];
      hide Recorded, Tallied, PayloadPos, FlagPos, GroupStart, Sizes;
      total_lz_bytes := total_lz_bytes + 1;
      code_buf[code_pos] := lit;
      code_pos := code_pos + 1;
      Finish(Literal(lit), buf0);
    }

    method RecordMatch(match_len: nat, match_dist: nat)
      requires Valid() && code_pos <= LZ_CODE_BUF_SIZE - 4
      requires MIN_MATCH_LEN <= match_len <= MAX_MATCH_LEN && 1 <= match_dist <= LZ_DICT_SIZE
      modifies this, code_buf, lits.count, dists.count
      ensures Valid() && recs == old(recs) + [Match(match_len, match_dist)]
      ensures code_pos <= old(code_pos) + 4
    {
      ghost var buf0 := code_buf[..];
      hide *;
      PutMatch(match_len, match_dist, buf0);
      Finish(Match(match_len, match_dist), buf0);
    }

    /** Length and distance of a match. */
    method PutMatch(match_len: nat, match_dist: nat, ghost buf0: seq<byte>)
      requires Valid() && code_pos <= LZ_CODE_BUF_SIZE - 4 && buf0 == code_buf[..]
      requires MIN_MATCH_LEN <= match_len <= MAX_MATCH_LEN && 1 <= match_dist <= LZ_DICT_SIZE
      modifies this`total_lz_bytes, this`code_pos, code_buf
      ensures Shaped() && PayloadIn(Match(match_len, match_dist), buf0)
      ensures Tallied(lits.count[..], dists.count[..], recs) && code_pos == old(code_pos) + 3
    {
      hide Recorded, Tallied, PayloadPos, FlagPos, GroupStart, Sizes;
      assert 0 <= (match_dist - 1) / 256 < 256;
      total_lz_bytes := total_lz_bytes + match_len;
      code_buf[code_pos] := (match_len - MIN_MATCH_LEN) % 256;
      var d := match_dist - 1;
      code_buf[code_pos + 1] := d % 256;
      code_buf[code_pos + 2] := d / 256;
      code_pos := code_pos + 3;
    }

    /** Makes the buffer ready to be replayed, and says where it ends. */
    method Seal()
      requires Valid()
      modifies this`code_pos, code_buf
      ensures Sealed(code_buf[..], recs) && code_pos == ReadPos(recs, |recs|)
      ensures lits.count[..] == old(lits.count[..]) && dists.count[..] == old(dists.count[..])
    {
      ghost var buf0 := code_buf[..];
      PointersGive(recs);
      hide Recorded, Tallied, ReadPos, GroupStart, Sealed;
      ShiftRightBits(code_buf[flags_pos], num_flags_left);
      code_buf[flags_pos] := ShiftRight(code_buf[flags_pos], num_flags_left);
      if num_flags_left == 8 {
        code_pos := code_pos - 1;
      }
      SealStep(buf0, code_buf[..], recs);
    }

    /** Empties the buffer; the flag byte keeps whatever was in it. */
    method Reset()
      requires Shaped()
      modifies this, lits.count, dists.count
      ensures Valid() && recs == [] && total_lz_bytes == 0 && code_pos == 1
    {
      forall s | 0 <= s < MAX_HUFF_SYMBOLS { lits.count[s] := 0; }
      forall s | 0 <= s < MAX_HUFF_SYMBOLS { dists.count[s] := 0; }
      code_pos, flags_pos, num_flags_left, total_lz_bytes := 1, 0, 8, 0;
      recs := [];
      NoCounts(lits.count[..]);
      NoCounts(dists.count[..]);
      NothingTallied(lits.count[..]);
      NothingTallied(dists.count[..]);
    }
  }

  lemma PointersGive(recs: seq<Lz>)
    ensures |recs| < PayloadPos(recs, |recs|) && FlagPos(recs, |recs|) < PayloadPos(recs, |recs|)
  {
    FlagFirst(recs, |recs|);
    hide GroupStart;
    GroupZero();
    if |recs| > 0 {
      PosMono(recs, 1, |recs|);
      assert ReadPos(recs, 1) >= 2;
    }
  }

  lemma GroupZero()
    ensures GroupStart(0) == 0
  {
  }

  lemma GroupFits(n: nat)
    ensures n - GroupStart(n) <= 7
  {
  }

  /** Changing the flag byte leaves the new payload alone. */
  lemma StillThere(buf: seq<byte>, buf': seq<byte>, recs: seq<Lz>, rec: Lz)
    requires var p, f := PayloadPos(recs, |recs|), FlagPos(recs, |recs|);
             |buf'| == |buf| && f < p && PayloadAt(buf, p, rec) &&
             forall q :: 0 <= q < p + PayloadSize(rec) && q != f ==> buf'[q] == buf[q]
    ensures PayloadAt(buf', PayloadPos(recs, |recs|), rec)
  {
  }

  lemma StoredHere(buf0: seq<byte>, buf: seq<byte>, recs: seq<Lz>, rec: Lz)
    requires var p, f := PayloadPos(recs, |recs|), FlagPos(recs, |recs|);
             |buf| == |buf0| && p <= |buf| && f < p && PayloadAt(buf, p, rec) &&
             ToBits(buf[f], 8) == ToBits(buf0[f], 8)[1..] + [rec.Match?] &&
             forall q :: 0 <= q < p && q != f ==> buf[q] == buf0[q]
    ensures Stored(buf0, buf, recs, rec)
  {
  }

  /** How the pointers move with a new record. */
  lemma {:induction false} PointersStep(recs: seq<Lz>, rec: Lz)
    ensures var n := |recs|;
            var t := recs + [rec];
            var full := n - GroupStart(n) == 7;
            PayloadPos(t, n + 1) == PayloadPos(recs, n) + PayloadSize(rec) + (if full then 1 else 0) &&
            FlagPos(t, n + 1) == (if full then PayloadPos(recs, n) + PayloadSize(rec) else FlagPos(recs, n)) &&
            n + 1 - GroupStart(n + 1) == (if full then 0 else n - GroupStart(n) + 1) &&
            Sizes(t) == Sizes(recs) + Size(rec)
  {
    var n := |recs|;
    var t := recs + [rec];
    GroupNext(n);
    SizesMore(recs, rec);
    hide GroupStart, ReadPos, Sizes, PayloadSize, Size;
    PosExtend(recs, rec, n);
    PosExtend(recs, rec, GroupStart(n));
    PosLast(recs, rec);
  }

  lemma SizesMore(recs: seq<Lz>, rec: Lz)
    ensures Sizes(recs + [rec]) == Sizes(recs) + Size(rec)
  {
    assert (recs + [rec])[..|recs|] == recs;
  }

  lemma PosLast(recs: seq<Lz>, rec: Lz)
    ensures ReadPos(recs + [rec], |recs| + 1) == PayloadPos(recs, |recs|) + PayloadSize(rec)
  {
    PosExtend(recs, rec, |recs|);
  }

  lemma {:induction false} NoCounts(s: seq<nat>)
    requires forall i :: 0 <= i < |s| ==> s[i] == 0
    ensures Sum(s) == 0
  {
    if s != [] { NoCounts(s[1..]); }
  }
}
