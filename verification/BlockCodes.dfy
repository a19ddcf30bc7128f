/**
  Replaying the LZ code buffer through a pair of Huffman tables.
 */
module BlockCodes {
  import opened Bits
  import opened CanonicalCode
  import opened Deflate
  import opened HuffTables
  import opened LzRecords
  import opened LzLayout
  import opened LzBuffer
  import opened BitWriter

  /** The first n entries of the table are a code with the given lengths. */
  ghost predicate Ready(t: HuffTable, n: nat, lens: seq<nat>)
    reads t.sizes, t.codes
  {
    t.Shaped() && n <= MAX_HUFF_SYMBOLS && lens == t.sizes[..n] && HoldsCodes(lens, t.codes[..n]) && Valid(lens)
  }

  lemma ReadyGives(t: HuffTable, n: nat, lens: seq<nat>, sym: nat)
    requires Ready(t, n, lens) && sym < |lens| && lens[sym] > 0
    ensures sym < n <= t.sizes.Length && n <= t.codes.Length && t.sizes[sym] == lens[sym] <= MAX_BITS
    ensures t.codes[sym] < Pow2(lens[sym]) && ToBits(t.codes[sym], lens[sym]) == CodeBits(lens, sym)
  {
  }

  /** Writes the code of a symbol. */
  method PutSym(w: BitWriter, t: HuffTable, ghost n: nat, ghost lens: seq<nat>, sym: nat)
    requires w.Valid() && Ready(t, n, lens) && sym < |lens| && lens[sym] > 0
    requires w.target != t.sizes && w.target as object != t.codes
    modifies w, w.target
    ensures w.Valid() && w.target == old(w.target) && Extends(old(w.State()), w.State(), CodeBits(lens, sym))
  {
    ReadyGives(t, n, lens, sym);
    w.PutBits(t.codes[sym], t.sizes[sym]);
  }

  /** Writes a number of len bits. */
  method PutNumber(w: BitWriter, ghost a: Snapshot, ghost m: Bits, b: nat, len: nat)
    requires w.Valid() && b < Pow2(len) && len <= 16 && Extends(a, w.State(), m)
    modifies w, w.target
    ensures w.Valid() && w.target == old(w.target) && Extends(a, w.State(), m + ToBits(b, len))
  {
    hide Extends;
    ghost var b0 := w.State();
    w.PutBits(b, len);
    ExtendsMore(a, b0, w.State(), m, ToBits(b, len));
  }

  /** Writes the code of a symbol after what was written since a. */
  method PutCode(w: BitWriter, ghost a: Snapshot, ghost m: Bits, t: HuffTable, ghost n: nat, ghost lens: seq<nat>,
                 sym: nat)
    requires w.Valid() && Extends(a, w.State(), m) && Ready(t, n, lens) && sym < |lens| && lens[sym] > 0
    requires w.target != t.sizes && w.target as object != t.codes
    modifies w, w.target
    ensures w.Valid() && w.target == old(w.target) && Extends(a, w.State(), m + CodeBits(lens, sym))
    ensures Ready(t, n, lens)
  {
    hide Extends, Ready;
    ghost var b0 := w.State();
    PutSym(w, t, n, lens, sym);
    ExtendsMore(a, b0, w.State(), m, CodeBits(lens, sym));
  }

  /** The low e bits of x. */
  function LowBits(x: nat, e: nat): (r: nat)
    ensures r < Pow2(e)
  {
    x % Pow2(e)
  }

  /** The output buffer is none of the table's arrays. */
  ghost predicate Clear(target: array<byte>, t: HuffTable)
  {
    target != t.sizes && target as object != t.codes
  }

  /** Writes a match length, or a distance: its symbol and extra bits. */
  method PutExtended(w: BitWriter, ghost a: Snapshot, ghost m: Bits, t: HuffTable, ghost n: nat, ghost lens: seq<nat>,
                     sym: nat, x: nat, num_extra_bits: nat)
    requires w.Valid() && Extends(a, w.State(), m) && Ready(t, n, lens) && sym < |lens| && lens[sym] > 0
    requires Clear(w.target, t) && num_extra_bits <= 16
    modifies w, w.target
    ensures w.Valid() && w.target == old(w.target) && Ready(t, n, lens)
    ensures Extends(a, w.State(), m + CodeBits(lens, sym) + ToBits(LowBits(x, num_extra_bits), num_extra_bits))
  {
    hide Extends, Ready, CodeBits, Pow2, ToBits, LowBits;
    PutCode(w, a, m, t, n, lens, sym);
    PutNumber(w, a, m + CodeBits(lens, sym), LowBits(x, num_extra_bits), num_extra_bits);
  }

  /** Writes a match distance. */
  method PutDistance(w: BitWriter, ghost a: Snapshot, ghost m: Bits, t: HuffTable, ghost D: seq<nat>, match_dist: nat)
    requires w.Valid() && Extends(a, w.State(), m) && Ready(t, 32, D) && Clear(w.target, t)
    requires match_dist < LZ_DICT_SIZE && DistSym(match_dist) < |D| && D[DistSym(match_dist)] > 0
    modifies w, w.target
    ensures w.Valid() && w.target == old(w.target) && Ready(t, 32, D)
    ensures Extends(a, w.State(), m + CodeBits(D, DistSym(match_dist)) +
                                  ToBits(LowBits(match_dist, DistExtra(match_dist)), DistExtra(match_dist)))
  {
    hide Extends, Ready, CodeBits, Pow2, ToBits, LowBits;
    var sym, num_extra_bits;
    if match_dist < 512 {
      sym, num_extra_bits := SmallDistSym(match_dist), SmallDistExtra(match_dist);
    } else {
      sym, num_extra_bits := LargeDistSym(match_dist / 256), LargeDistExtra(match_dist / 256);
    }
    PutExtended(w, a, m, t, 32, D, sym, match_dist, num_extra_bits);
  }

  /** The flag byte of record i's group, less the flags already used, under a marker bit. */
  ghost predicate FlagsLeft(buf: seq<byte>, recs: seq<Lz>, i: nat, flags: nat)
  {
    i < |recs| && FlagPos(recs, i) < |buf| &&
    var k := i - GroupStart(i);
    k < 8 && flags < Pow2(9 - k) && ToBits(flags, 9 - k) == ToBits(buf[FlagPos(recs, i)], 8)[k..] + [true]
  }

  /** Where a replay is before record i. */
  ghost predicate Replaying(buf: seq<byte>, recs: seq<Lz>, i: nat, p: nat, flags: nat)
  {
    i <= |recs| && p == ReadPos(recs, i) &&
    if GroupStart(i) == i then flags == 1 else i < |recs| ==> flags != 1 && FlagsLeft(buf, recs, i, flags)
  }

  lemma MarkerAlone(flags: nat, n: nat)
    requires n >= 2 && flags < Pow2(n) && ToBits(flags, n)[n - 1]
    ensures flags != 1
  {
    if flags == 1 { ZeroBits(n - 1); }
  }

  lemma {:induction false} ZeroBits(n: nat)
    ensures forall j :: 0 <= j < n ==> !ToBits(0, n)[j]
  {
    if n > 0 { ZeroBits(n - 1); }
  }

  /** A new flag byte. */
  lemma {:induction false} LoadsFlags(buf: seq<byte>, recs: seq<Lz>, i: nat)
    requires Sealed(buf, recs) && i < |recs| && GroupStart(i) == i
    ensures FlagPos(recs, i) == ReadPos(recs, i) < |buf|
    ensures FlagsLeft(buf, recs, i, buf[ReadPos(recs, i)] as nat + 256)
  {
    hide *;
    FlagByte(buf, recs, i);
    MarkedByte(buf[FlagPos(recs, i)]);
    FlagsLeftNow(buf, recs, i, 0, buf[FlagPos(recs, i)] as nat + 256);
  }

  lemma {:induction false} FlagByte(buf: seq<byte>, recs: seq<Lz>, i: nat)
    requires Sealed(buf, recs) && i < |recs|
    ensures FlagPos(recs, i) < |buf| && ToBits(buf[FlagPos(recs, i)], 8)[i % 8] == recs[i].Match?
    ensures GroupStart(i) == i ==> FlagPos(recs, i) == ReadPos(recs, i)
  {
    assert RecordedAt(buf, recs, i, i % 8);
    hide GroupStart, ReadPos, ToBits;
  }

  lemma FlagsLeftNow(buf: seq<byte>, recs: seq<Lz>, i: nat, k: nat, flags: nat)
    requires i < |recs| && FlagPos(recs, i) < |buf| && k == i - GroupStart(i) < 8 && flags < Pow2(9 - k)
    requires ToBits(flags, 9 - k) == ToBits(buf[FlagPos(recs, i)], 8)[k..] + [true]
    ensures FlagsLeft(buf, recs, i, flags)
  {
    hide ToBits, Pow2, FlagPos, GroupStart;
  }

  /** A byte of flags with the mark above them. */
  lemma MarkedByte(b: byte)
    ensures b as nat + 256 < Pow2(9) && ToBits(b as nat + 256, 9) == ToBits(b, 8)[0..] + [true]
  {
    hide ToBits, Pow2;
    Powers();
    Pow2Half(1, 9);
    ToBitsAppend(b, 8, 1, 1);
    OneBit(true);
    assert ToBits(b, 8)[0..] == ToBits(b, 8);
  }


  lemma LowestBit(v: nat, n: nat)
    requires n > 0 && v < Pow2(n)
    ensures ToBits(v, n)[0] == (v % 2 == 1) && ToBits(v / 2, n - 1) == ToBits(v, n)[1..] && v / 2 < Pow2(n - 1)
  {
  }

  /** The lowest flag tells what record i is; the next one follows. */
  lemma {:induction false} NextFlag(buf: seq<byte>, recs: seq<Lz>, i: nat, flags: nat)
    requires Sealed(buf, recs) && FlagsLeft(buf, recs, i, flags)
    ensures recs[i].Match? == (flags % 2 == 1)
    ensures Replaying(buf, recs, i + 1, ReadPos(recs, i + 1), flags / 2)
  {
    assert RecordedAt(buf, recs, i, i % 8);
    var k, f := i - GroupStart(i), ToBits(buf[FlagPos(recs, i)], 8);
    GroupNext(i);
    LowestBit(flags, 9 - k);
    assert (f[k..] + [true])[0] == f[k];
    if k == 7 {
      assert f[7..] + [true] == [f[7], true];
      LastFlag(flags / 2);
    } else {
      assert (f[k..] + [true])[1..] == f[k + 1..] + [true];
      SameFlag(recs, i);
      MarkerAlone(flags / 2, 8 - k);
    }
  }

  lemma LastFlag(v: nat)
    requires v < Pow2(1) && ToBits(v, 1) == [true]
    ensures v == 1
  {
    Powers();
    assert ToBits(v, 1)[0] == (v % 2 == 1);
  }

  lemma SameFlag(recs: seq<Lz>, i: nat)
    requires i < |recs| && GroupStart(i + 1) == GroupStart(i)
    ensures FlagPos(recs, i + 1) == FlagPos(recs, i)
  {
  }

  /** Everything a replay works with. */
  ghost predicate Setup(w: BitWriter, lz: LzBuffer, L: seq<nat>, D: seq<nat>, buf: seq<byte>)
    reads w, w.target, lz.lits.sizes, lz.lits.codes, lz.dists.sizes, lz.dists.codes, lz.code_buf
  {
    w.Valid() && Ready(lz.lits, 288, L) && Ready(lz.dists, 32, D) &&
    Clear(w.target, lz.lits) && Clear(w.target, lz.dists) && w.target != lz.code_buf &&
    lz.code_buf.Length == LZ_CODE_BUF_SIZE && lz.code_buf[..] == buf
  }

  lemma PayloadHere(buf: seq<byte>, recs: seq<Lz>, i: nat)
    requires Sealed(buf, recs) && i < |recs|
    ensures PayloadAt(buf, PayloadPos(recs, i), recs[i])
    ensures ReadPos(recs, i + 1) == PayloadPos(recs, i) + PayloadSize(recs[i])
  {
    assert RecordedAt(buf, recs, i, i % 8);
  }

  lemma NextBits(L: seq<nat>, D: seq<nat>, recs: seq<Lz>, i: nat, m: Bits)
    requires CoversAll(L, D, recs) && i < |recs|
    ensures Covers(L, D, recs[i])
    ensures (m + RecBits(L, D, recs[i])) + BitsFrom(L, D, recs, i + 1) == m + BitsFrom(L, D, recs, i)
  {
    BitsStep(L, D, recs, i);
    hide *;
  }

  /** Writes the record whose payload is at p. */
  method PutPayload(lz: LzBuffer, w: BitWriter, ghost L: seq<nat>, ghost D: seq<nat>, ghost buf: seq<byte>,
                    ghost a: Snapshot, ghost m: Bits, ghost rec: Lz, p0: nat, is_match: bool) returns (p: nat)
    requires Setup(w, lz, L, D, buf) && Extends(a, w.State(), m)
    requires PayloadAt(buf, p0, rec) && is_match == rec.Match? && Covers(L, D, rec)
    modifies w, w.target
    ensures Setup(w, lz, L, D, buf) && w.target == old(w.target) && p == p0 + PayloadSize(rec)
    ensures Extends(a, w.State(), m + RecBits(L, D, rec))
  {
    hide Extends, Ready, CodeBits, Pow2, ToBits;
    p := p0;
    assert p + PayloadSize(rec) <= |buf|;
    if is_match {
      var match_len, match_dist := lz.code_buf[p], (lz.code_buf[p + 1] as nat) + 256 * (lz.code_buf[p + 2] as nat);
      p := p + 3;
      PutExtended(w, a, m, lz.lits, 288, L, LenSym(match_len), match_len, LenExtra(match_len));
      PutDistance(w, a, m + CodeBits(L, LenSym(match_len)) +
                  ToBits(LowBits(match_len, LenExtra(match_len)), LenExtra(match_len)),
                  lz.dists, D, match_dist);
      RegroupMatch(L, D, rec, m);
    } else {
      var lit := lz.code_buf[p];
      p := p + 1;
      PutCode(w, a, m, lz.lits, 288, L, lit);
    }
  }

  lemma RegroupMatch(L: seq<nat>, D: seq<nat>, rec: Lz, m: Bits)
    requires rec.Match? && Covers(L, D, rec)
    ensures var x, d := rec.len - MIN_MATCH_LEN, rec.dist - 1;
            m + CodeBits(L, LenSym(x)) + ToBits(LowBits(x, LenExtra(x)), LenExtra(x)) + CodeBits(D, DistSym(d)) +
              ToBits(LowBits(d, DistExtra(d)), DistExtra(d)) == m + RecBits(L, D, rec)
  {
    hide CodeBits, ToBits, Pow2, LenSym, DistSym, LenExtra, DistExtra;
  }

  /** The flags that tell what record i is. */
  method LoadFlags(lz: LzBuffer, ghost buf: seq<byte>, ghost i: nat, p0: nat, flags0: nat) returns (p: nat, flags: nat)
    requires lz.code_buf.Length == LZ_CODE_BUF_SIZE && lz.code_buf[..] == buf && Sealed(buf, lz.recs) && i < |lz.recs|
    requires Replaying(buf, lz.recs, i, p0, flags0)
    ensures p == PayloadPos(lz.recs, i) && FlagsLeft(buf, lz.recs, i, flags)
  {
    hide Sealed, ReadPos, GroupStart, FlagsLeft;
    p, flags := p0, flags0;
    if flags == 1 {
      LoadsFlags(buf, lz.recs, i);
      flags := lz.code_buf[p] as nat + 256;
      p := p + 1;
    }
  }

  /** Replays one record. */
  method PutRecord(lz: LzBuffer, w: BitWriter, ghost L: seq<nat>, ghost D: seq<nat>, ghost buf: seq<byte>,
                   ghost a: Snapshot, ghost m0: Bits, ghost i: nat, p0: nat, flags0: nat)
    returns (ghost m: Bits, p: nat, flags: nat)
    requires Setup(w, lz, L, D, buf) && Sealed(buf, lz.recs) && i < |lz.recs| && CoversAll(L, D, lz.recs)
    requires Replaying(buf, lz.recs, i, p0, flags0) && Extends(a, w.State(), m0)
    modifies w, w.target
    ensures Setup(w, lz, L, D, buf) && w.target == old(w.target)
    ensures p == ReadPos(lz.recs, i + 1) && Replaying(buf, lz.recs, i + 1, p, flags)
    ensures Extends(a, w.State(), m) && m + BitsFrom(L, D, lz.recs, i + 1) == m0 + BitsFrom(L, D, lz.recs, i)
  {
    SetupGives(w, lz, L, D, buf);
    hide *;
    p, flags := LoadFlags(lz, buf, i, p0, flags0);
    PayloadHere(buf, lz.recs, i);
    NextFlag(buf, lz.recs, i, flags);
    NextBits(L, D, lz.recs, i, m0);
    p := PutPayload(lz, w, L, D, buf, a, m0, lz.recs[i], p, flags % 2 == 1);
    m := m0 + RecBits(L, D, lz.recs[i]);
    flags := flags / 2;
  }

  lemma SetupGives(w: BitWriter, lz: LzBuffer, L: seq<nat>, D: seq<nat>, buf: seq<byte>)
    requires Setup(w, lz, L, D, buf)
    ensures lz.code_buf.Length == LZ_CODE_BUF_SIZE && lz.code_buf[..] == buf
    ensures w.Valid() && Ready(lz.lits, 288, L) && Clear(w.target, lz.lits)
  {
  }

  lemma StartReplay(w: BitWriter, buf: seq<byte>, recs: seq<Lz>)
    requires w.Valid()
    ensures Extends(w.State(), w.State(), []) && Replaying(buf, recs, 0, 0, 1)
  {
    ExtendsNot(w.State());
  }

  lemma MoreToRead(recs: seq<Lz>, i: nat)
    requires i <= |recs|
    ensures ReadPos(recs, i) < ReadPos(recs, |recs|) <==> i < |recs|
    ensures i < |recs| ==> ReadPos(recs, i) < ReadPos(recs, i + 1)
  {
    Before(recs, i, |recs|);
    if i < |recs| { Before(recs, i, i + 1); }
  }

  lemma AllRead(L: seq<nat>, D: seq<nat>, recs: seq<Lz>, m: Bits)
    requires CoversAll(L, D, recs) && m + BitsFrom(L, D, recs, |recs|) == [] + BitsFrom(L, D, recs, 0)
    ensures m == BitsFrom(L, D, recs, 0)
  {
    assert m + [] == m && [] + BitsFrom(L, D, recs, 0) == BitsFrom(L, D, recs, 0);
  }

  /** Writes all the records. */
  method ReplayAll(lz: LzBuffer, w: BitWriter, ghost L: seq<nat>, ghost D: seq<nat>, ghost buf: seq<byte>,
                   ghost a: Snapshot)
    requires Setup(w, lz, L, D, buf) && Extends(a, w.State(), []) && Replaying(buf, lz.recs, 0, 0, 1)
    requires Sealed(buf, lz.recs) && lz.code_pos == ReadPos(lz.recs, |lz.recs|) && CoversAll(L, D, lz.recs)
    modifies w, w.target
    ensures Setup(w, lz, L, D, buf) && w.target == old(w.target) && Extends(a, w.State(), BitsFrom(L, D, lz.recs, 0))
  {
    hide *;
    ghost var m, i := [], 0;
    MoreToRead(lz.recs, 0);
    ReplayStart(lz.recs);
    var p, flags := 0, 1;
    while p < lz.code_pos
      invariant Setup(w, lz, L, D, buf) && w.target == old(w.target)
      invariant 0 <= i <= |lz.recs| && p == ReadPos(lz.recs, i) && Replaying(buf, lz.recs, i, p, flags)
      invariant Extends(a, w.State(), m) && m + BitsFrom(L, D, lz.recs, i) == [] + BitsFrom(L, D, lz.recs, 0)
      decreases lz.code_pos - p
    {
      MoreToRead(lz.recs, i);
      m, p, flags := PutRecord(lz, w, L, D, buf, a, m, i, p, flags);
      i := i + 1;
    }
    MoreToRead(lz.recs, i);
    AllRead(L, D, lz.recs, m);
  }

  lemma ReplayStart(recs: seq<Lz>)
    ensures ReadPos(recs, 0) == 0
  {
  }

  /** Writes all the records and the end of the block. */
  method CompressLzCodes(lz: LzBuffer, w: BitWriter, ghost L: seq<nat>, ghost D: seq<nat>)
    requires Setup(w, lz, L, D, lz.code_buf[..])
    requires Sealed(lz.code_buf[..], lz.recs) && lz.code_pos == ReadPos(lz.recs, |lz.recs|)
    requires CoversAll(L, D, lz.recs) && END_OF_BLOCK < |L| && L[END_OF_BLOCK] > 0
    modifies w, w.target
    ensures w.Valid() && w.target == old(w.target)
    ensures Extends(old(w.State()), w.State(), BitsFrom(L, D, lz.recs, 0) + CodeBits(L, END_OF_BLOCK))
    ensures lz.code_buf[..] == old(lz.code_buf[..])
  {
    ghost var a, buf := w.State(), lz.code_buf[..];
    SetupGives(w, lz, L, D, buf);
    StartReplay(w, buf, lz.recs);
    hide *;
    ReplayAll(lz, w, L, D, buf, a);
    SetupGives(w, lz, L, D, buf);
    PutCode(w, a, BitsFrom(L, D, lz.recs, 0), lz.lits, 288, L, END_OF_BLOCK);
  }
}
