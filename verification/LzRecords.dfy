/**
  Literals and matches, the symbols and extra bits they are written with, and the proof that
  the bits of a list of them, ended by the end-of-block symbol, read back as what they stand for.
 */
module LzRecords {
  import opened Wrappers
  import opened Bits
  import opened CanonicalCode
  import opened Deflate

  const MIN_MATCH_LEN: nat := 3
  const MAX_MATCH_LEN: nat := 258
  const LZ_DICT_SIZE: nat := 32768

  datatype Lz = Literal(lit: byte) | Match(len: nat, dist: nat)

  /** A match is within the limits of the format and of what has been output before it. */
  ghost predicate Sound(rec: Lz, before: nat)
  {
    rec.Match? ==> MIN_MATCH_LEN <= rec.len <= MAX_MATCH_LEN && 1 <= rec.dist <= LZ_DICT_SIZE && rec.dist <= before
  }

  function Size(rec: Lz): (r: nat)
  {
    if rec.Literal? then 1 else rec.len
  }

  /** The output after a record. */
  ghost function Play(out: seq<byte>, rec: Lz): (r: seq<byte>)
    requires Sound(rec, |out|)
    ensures |r| == |out| + Size(rec) && out <= r
  {
    if rec.Literal? then out + [rec.lit] else CopyBack(out, rec.dist, rec.len)
  }

  function Sizes(recs: seq<Lz>): (r: nat)
  {
    if recs == [] then 0 else Sizes(recs[..|recs| - 1]) + Size(recs[|recs| - 1])
  }

  /** Every match of recs reaches back to something already output. */
  ghost predicate AllSound(recs: seq<Lz>, before: nat)
  {
    recs == [] ||
    var init := recs[..|recs| - 1];
    AllSound(init, before) && Sound(recs[|recs| - 1], before + Sizes(init))
  }

  ghost function PlayAll(out: seq<byte>, recs: seq<Lz>): (r: seq<byte>)
    requires AllSound(recs, |out|)
    ensures |r| == |out| + Sizes(recs)
    decreases |recs|
  {
    if recs == [] then out else Play(PlayAll(out, recs[..|recs| - 1]), recs[|recs| - 1])
  }

  /** The table of length symbols, 257 .. 285, by match length less 3. */
  function LenSym(x: nat): (r: nat)
    requires x < 256
    ensures 257 <= r <= 285
  {
    if x < 8 then 257 + x
    else if x < 16 then 265 + (x - 8) / 2
    else if x < 32 then 269 + (x - 16) / 4
    else if x < 64 then 273 + (x - 32) / 8
    else if x < 128 then 277 + (x - 64) / 16
    else if x < 255 then 281 + (x - 128) / 32
    else 285
  }

  function LenExtra(x: nat): (r: nat)
    requires x < 256
    ensures r <= 5
  {
    if x < 8 then 0
    else if x < 16 then 1
    else if x < 32 then 2
    else if x < 64 then 3
    else if x < 128 then 4
    else if x < 255 then 5
    else 0
  }

  /** The table of distance symbols for distances, less 1, below 512. */
  function SmallDistSym(d: nat): (r: nat)
    requires d < 512
    ensures r <= 17
  {
    if d < 4 then d
    else if d < 8 then 4 + (d - 4) / 2
    else if d < 16 then 6 + (d - 8) / 4
    else if d < 32 then 8 + (d - 16) / 8
    else if d < 64 then 10 + (d - 32) / 16
    else if d < 128 then 12 + (d - 64) / 32
    else if d < 256 then 14 + (d - 128) / 64
    else 16 + (d - 256) / 128
  }

  function SmallDistExtra(d: nat): (r: nat)
    requires d < 512
    ensures r <= 7
  {
    if d < 4 then 0
    else if d < 8 then 1
    else if d < 16 then 2
    else if d < 32 then 3
    else if d < 64 then 4
    else if d < 128 then 5
    else if d < 256 then 6
    else 7
  }

  /** The table of distance symbols by the high byte of a distance, less 1, of at least 512. */
  function LargeDistSym(h: nat): (r: nat)
    requires h < 128
    ensures r <= 29
  {
    if h < 2 then 0
    else if h < 4 then 18 + (h - 2)
    else if h < 8 then 20 + (h - 4) / 2
    else if h < 16 then 22 + (h - 8) / 4
    else if h < 32 then 24 + (h - 16) / 8
    else if h < 64 then 26 + (h - 32) / 16
    else 28 + (h - 64) / 32
  }

  function LargeDistExtra(h: nat): (r: nat)
    requires h < 128
    ensures r <= 13
  {
    if h < 2 then 0
    else if h < 4 then 8
    else if h < 8 then 9
    else if h < 16 then 10
    else if h < 32 then 11
    else if h < 64 then 12
    else 13
  }

  function DistSym(d: nat): (r: nat)
    requires d < LZ_DICT_SIZE
    ensures r <= 29
  {
    if d < 512 then SmallDistSym(d) else LargeDistSym(d / 256)
  }

  function DistExtra(d: nat): (r: nat)
    requires d < LZ_DICT_SIZE
    ensures r <= 13
  {
    if d < 512 then SmallDistExtra(d) else LargeDistExtra(d / 256)
  }

  /** The tables agree with the format: the symbol's base and the low bits give the length back. */
  lemma LengthTables(x: nat)
    requires x < 256
    ensures LENGTH_EXTRA[LenSym(x) - 257] == LenExtra(x)
    ensures LENGTH_BASE[LenSym(x) - 257] + x % Pow2(LenExtra(x)) == x + MIN_MATCH_LEN
  {
    if x < 64 { ShortLengthTables(x); } else { LongLengthTables(x); }
  }

  lemma ShortLengthTables(x: nat)
    requires x < 64
    ensures LENGTH_EXTRA[LenSym(x) - 257] == LenExtra(x)
    ensures LENGTH_BASE[LenSym(x) - 257] + x % Pow2(LenExtra(x)) == x + MIN_MATCH_LEN
  {
    Powers();
    hide Pow2;
  }

  lemma LongLengthTables(x: nat)
    requires 64 <= x < 256
    ensures LENGTH_EXTRA[LenSym(x) - 257] == LenExtra(x)
    ensures LENGTH_BASE[LenSym(x) - 257] + x % Pow2(LenExtra(x)) == x + MIN_MATCH_LEN
  {
    Powers();
    hide Pow2;
  }

  lemma NearDistTables(d: nat)
    requires d < 32
    ensures DIST_EXTRA[SmallDistSym(d)] == SmallDistExtra(d)
    ensures DIST_BASE[SmallDistSym(d)] + d % Pow2(SmallDistExtra(d)) == d + 1
  {
    if d < 16 { NearestDistTables(d); }
    Powers();
    hide Pow2;
  }

  lemma NearestDistTables(d: nat)
    requires d < 16
    ensures DIST_EXTRA[SmallDistSym(d)] == SmallDistExtra(d)
    ensures DIST_BASE[SmallDistSym(d)] + d % Pow2(SmallDistExtra(d)) == d + 1
  {
    Powers();
    hide Pow2;
  }

  lemma SmallDistTables(d: nat)
    requires d < 512
    ensures DIST_EXTRA[SmallDistSym(d)] == SmallDistExtra(d)
    ensures DIST_BASE[SmallDistSym(d)] + d % Pow2(SmallDistExtra(d)) == d + 1
  {
    if d < 32 {
      NearDistTables(d);
    } else {
      Powers();
      hide Pow2;
    }
  }

  lemma LargeDistTables(d: nat)
    requires 512 <= d < LZ_DICT_SIZE
    ensures DIST_EXTRA[LargeDistSym(d / 256)] == LargeDistExtra(d / 256)
    ensures DIST_BASE[LargeDistSym(d / 256)] + d % Pow2(LargeDistExtra(d / 256)) == d + 1
  {
    Powers();
    hide Pow2;
  }

  lemma DistTables(d: nat)
    requires d < LZ_DICT_SIZE
    ensures DIST_EXTRA[DistSym(d)] == DistExtra(d)
    ensures DIST_BASE[DistSym(d)] + d % Pow2(DistExtra(d)) == d + 1
  {
    if d < 512 { SmallDistTables(d); } else { LargeDistTables(d); }
  }

  /** The code lengths have a code for whatever the record needs. */
  ghost predicate Covers(lits: seq<nat>, dists: seq<nat>, rec: Lz)
  {
    match rec
    case Literal(b) => b < |lits| && lits[b] > 0
    case Match(len, dist) =>
      MIN_MATCH_LEN <= len <= MAX_MATCH_LEN && 1 <= dist <= LZ_DICT_SIZE &&
      LenSym(len - MIN_MATCH_LEN) < |lits| && lits[LenSym(len - MIN_MATCH_LEN)] > 0 &&
      DistSym(dist - 1) < |dists| && dists[DistSym(dist - 1)] > 0
  }

  /** The bits a record is written as. */
  ghost function RecBits(lits: seq<nat>, dists: seq<nat>, rec: Lz): (r: Bits)
    requires Covers(lits, dists, rec)
  {
    match rec
    case Literal(b) => CodeBits(lits, b)
    case Match(len, dist) =>
      var x, d := len - MIN_MATCH_LEN, dist - 1;
      CodeBits(lits, LenSym(x)) + ToBits(x % Pow2(LenExtra(x)), LenExtra(x)) +
      CodeBits(dists, DistSym(d)) + ToBits(d % Pow2(DistExtra(d)), DistExtra(d))
  }

  ghost predicate CoversAll(lits: seq<nat>, dists: seq<nat>, recs: seq<Lz>)
  {
    forall i :: 0 <= i < |recs| ==> Covers(lits, dists, recs[i])
  }

  /** The bits of the records from i on. */
  ghost function BitsFrom(lits: seq<nat>, dists: seq<nat>, recs: seq<Lz>, i: nat): (r: Bits)
    requires CoversAll(lits, dists, recs) && i <= |recs|
    decreases |recs| - i
  {
    if i == |recs| then [] else RecBits(lits, dists, recs[i]) + BitsFrom(lits, dists, recs, i + 1)
  }

  lemma TakeNumber(v: nat, n: nat, post: Bits)
    requires v < Pow2(n)
    ensures Take(ToBits(v, n) + post, n) == Some((v, post))
  {
    FromToBits(v, n);
    assert (ToBits(v, n) + post)[..n] == ToBits(v, n);
    assert (ToBits(v, n) + post)[n..] == post;
  }

  lemma ReadsLength(x: nat, post: Bits)
    requires x < 256
    ensures ReadLength(LenSym(x), ToBits(x % Pow2(LenExtra(x)), LenExtra(x)) + post) == Some((x + MIN_MATCH_LEN, post))
  {
    hide ToBits, Pow2, Take, LenSym, LenExtra;
    LengthTables(x);
    Remains(x, LenExtra(x));
    TakeNumber(x % Pow2(LenExtra(x)), LenExtra(x), post);
  }

  lemma Remains(x: nat, n: nat)
    ensures 0 <= x % Pow2(n) < Pow2(n)
  {
  }

  lemma ReadsDistance(dists: seq<nat>, d: nat, post: Bits)
    requires Valid(dists) && d < LZ_DICT_SIZE && DistSym(d) < |dists| && dists[DistSym(d)] > 0
    ensures ReadDistance(dists, CodeBits(dists, DistSym(d)) + (ToBits(d % Pow2(DistExtra(d)), DistExtra(d)) + post))
            == Some((d + 1, post))
  {
    DistTables(d);
    DecodeCode(dists, DistSym(d), ToBits(d % Pow2(DistExtra(d)), DistExtra(d)) + post);
    TakeNumber(d % Pow2(DistExtra(d)), DistExtra(d), post);
  }

  /** One match of a block of codes. */
  lemma ReadsMatch(lits: seq<nat>, dists: seq<nat>, rest: Bits, out: seq<byte>,
                   sym: nat, r0: Bits, len: nat, r1: Bits, dist: nat, r2: Bits)
    requires DecodeSym(lits, rest) == Some((sym, r0)) && sym > END_OF_BLOCK
    requires ReadLength(sym, r0) == Some((len, r1)) && ReadDistance(dists, r1) == Some((dist, r2)) && 1 <= dist <= |out|
    ensures ReadCodes(lits, dists, rest, out) == ReadCodes(lits, dists, r2, CopyBack(out, dist, len))
  {
    hide DecodeSym, ReadLength, ReadDistance;
  }

  lemma ReadsLiteral(lits: seq<nat>, dists: seq<nat>, b: byte, out: seq<byte>, post: Bits)
    requires Valid(lits) && b < |lits| && lits[b] > 0
    ensures ReadCodes(lits, dists, CodeBits(lits, b) + post, out) == ReadCodes(lits, dists, post, out + [b])
  {
    DecodeCode(lits, b, post);
    hide Valid, CodeBits, DecodeSym;
  }

  lemma Regroup(a: Bits, b: Bits, c: Bits, d: Bits, post: Bits)
    ensures (((a + b) + c) + d) + post == a + (b + (c + (d + post)))
  {
  }

  /** A record's bits read back as the record. */
  lemma ReadsRecord(lits: seq<nat>, dists: seq<nat>, rec: Lz, out: seq<byte>, post: Bits)
    requires Valid(lits) && Valid(dists) && Covers(lits, dists, rec) && Sound(rec, |out|)
    ensures ReadCodes(lits, dists, RecBits(lits, dists, rec) + post, out) ==
              ReadCodes(lits, dists, post, Play(out, rec))
  {
    hide Valid, ReadCodes, CodeBits, DecodeSym, ToBits, Pow2, LenExtra, DistExtra, LenSym, DistSym, ReadLength;
    hide ReadDistance;
    if rec.Literal? {
      ReadsLiteral(lits, dists, rec.lit, out, post);
    } else {
      var x, d := rec.len - MIN_MATCH_LEN, rec.dist - 1;
      var lb, db := CodeBits(lits, LenSym(x)), CodeBits(dists, DistSym(d));
      var le, de := ToBits(x % Pow2(LenExtra(x)), LenExtra(x)), ToBits(d % Pow2(DistExtra(d)), DistExtra(d));
      var r1 := db + (de + post);
      DecodeCode(lits, LenSym(x), le + r1);
      ReadsLength(x, r1);
      ReadsDistance(dists, d, post);
      Regroup(lb, le, db, de, post);
      ReadsMatch(lits, dists, lb + (le + r1), out, LenSym(x), le + r1, rec.len, r1, rec.dist, post);
    }
  }

  lemma PlayPrefix(out: seq<byte>, recs: seq<Lz>, i: nat)
    requires AllSound(recs, |out|) && i < |recs|
    ensures AllSound(recs[..i], |out|) && AllSound(recs[..i + 1], |out|)
    ensures Sound(recs[i], |PlayAll(out, recs[..i])|)
    ensures PlayAll(out, recs[..i + 1]) == Play(PlayAll(out, recs[..i]), recs[i])
  {
    SoundPrefix(recs, |out|, i + 1);
    assert recs[..i + 1][..i] == recs[..i];
  }

  lemma {:induction false} SoundPrefix(recs: seq<Lz>, before: nat, i: nat)
    requires AllSound(recs, before) && i <= |recs|
    ensures AllSound(recs[..i], before)
    decreases |recs|
  {
    if i == |recs| {
      assert recs[..i] == recs;
    } else {
      SoundPrefix(recs[..|recs| - 1], before, i);
      assert recs[..|recs| - 1][..i] == recs[..i];
    }
  }

  lemma ReadsStep(lits: seq<nat>, dists: seq<nat>, recs: seq<Lz>, i: nat, out: seq<byte>, tail: Bits)
    requires Valid(lits) && Valid(dists) && CoversAll(lits, dists, recs) && i < |recs|
    requires AllSound(recs, |out|) && AllSound(recs[..i], |out|) && AllSound(recs[..i + 1], |out|)
    ensures ReadCodes(lits, dists, BitsFrom(lits, dists, recs, i) + tail, PlayAll(out, recs[..i]))
            == ReadCodes(lits, dists, BitsFrom(lits, dists, recs, i + 1) + tail, PlayAll(out, recs[..i + 1]))
  {
    hide *;
    BitsStep(lits, dists, recs, i);
    PlayPrefix(out, recs, i);
    var here, later := RecBits(lits, dists, recs[i]), BitsFrom(lits, dists, recs, i + 1);
    ReadsRecord(lits, dists, recs[i], PlayAll(out, recs[..i]), later + tail);
    assert (here + later) + tail == here + (later + tail);
  }

  /** The records from i on, ended by the end-of-block symbol, take the output from where it was to the end. */
  lemma {:induction false} ReadsFrom(lits: seq<nat>, dists: seq<nat>, recs: seq<Lz>, i: nat, out: seq<byte>, post: Bits)
    requires Valid(lits) && Valid(dists) && CoversAll(lits, dists, recs) && i <= |recs| && AllSound(recs, |out|)
    requires END_OF_BLOCK < |lits| && lits[END_OF_BLOCK] > 0 && AllSound(recs[..i], |out|)
    ensures ReadCodes(lits, dists, BitsFrom(lits, dists, recs, i) + (CodeBits(lits, END_OF_BLOCK) + post),
                      PlayAll(out, recs[..i]))
            == Some((PlayAll(out, recs), post))
    decreases |recs| - i
  {
    var tail := CodeBits(lits, END_OF_BLOCK) + post;
    if i == |recs| {
      assert BitsFrom(lits, dists, recs, i) + tail == tail;
      hide *;
      ReadsEnd(lits, dists, PlayAll(out, recs[..i]), post);
      assert recs[..i] == recs;
    } else {
      hide *;
      SoundPrefix(recs, |out|, i + 1);
      ReadsStep(lits, dists, recs, i, out, tail);
      ReadsFrom(lits, dists, recs, i + 1, out, post);
    }
  }

  lemma BitsStep(lits: seq<nat>, dists: seq<nat>, recs: seq<Lz>, i: nat)
    requires CoversAll(lits, dists, recs) && i < |recs|
    ensures Covers(lits, dists, recs[i])
    ensures BitsFrom(lits, dists, recs, i) == RecBits(lits, dists, recs[i]) + BitsFrom(lits, dists, recs, i + 1)
  {
  }

  lemma ReadsEnd(lits: seq<nat>, dists: seq<nat>, out: seq<byte>, post: Bits)
    requires Valid(lits) && END_OF_BLOCK < |lits| && lits[END_OF_BLOCK] > 0
    ensures ReadCodes(lits, dists, CodeBits(lits, END_OF_BLOCK) + post, out) == Some((out, post))
  {
    DecodeCode(lits, END_OF_BLOCK, post);
    hide Valid, CodeBits, DecodeSym;
  }

  /** The body of a block of codes. */
  lemma ReadsAll(lits: seq<nat>, dists: seq<nat>, recs: seq<Lz>, out: seq<byte>, post: Bits)
    requires Valid(lits) && Valid(dists) && CoversAll(lits, dists, recs) && AllSound(recs, |out|)
    requires END_OF_BLOCK < |lits| && lits[END_OF_BLOCK] > 0
    ensures ReadCodes(lits, dists, BitsFrom(lits, dists, recs, 0) + (CodeBits(lits, END_OF_BLOCK) + post), out)
            == Some((PlayAll(out, recs), post))
  {
    assert recs[..0] == [];
    ReadsFrom(lits, dists, recs, 0, out, post);
  }
}
