/**
  What is left to do at every point where inflate can stop, and that going from one point to the
  next leaves the result of the whole the same.
 */
module Resume {
  import opened Wrappers
  import opened Bits
  import opened CanonicalCode
  import opened Deflate

  type Result = Option<(seq<byte>, Bits)>

  /** After a block. */
  ghost function Then(final: bool, r: Result): (x: Result)
  {
    match r
    case None => None
    case Some((out, rest)) => if final then Some((out, rest)) else Inflate(rest, out)
  }

  /** A stored block from its lengths on. */
  ghost function StoredFrom(rest: Bits, out: seq<byte>): (r: Result)
  {
    match Take(rest, 16)
    case None => None
    case Some((len, r0)) =>
      match Take(r0, 16)
      case None => None
      case Some((nlen, r1)) => if len + nlen != 0xFFFF then None else StoredBytes(len, r1, out)
  }

  /** n bytes as they are. */
  ghost function StoredBytes(n: nat, rest: Bits, out: seq<byte>): (r: Result)
  {
    if |rest| < 8 * n then None else Some((out + BitsToBytes(rest[..8 * n]), rest[8 * n..]))
  }

  /** A dynamic block from the number of its codes on. */
  ghost function DynamicFrom(rest: Bits, out: seq<byte>): (r: Result)
  {
    match ReadTables(rest)
    case None => None
    case Some((lits, dists, r)) => ReadCodes(lits, dists, r, out)
  }

  /** From the code length codes on. */
  ghost function CodeLensFrom(hlit: nat, hdist: nat, n: nat, i: nat, code: seq<nat>, rest: Bits,
                              out: seq<byte>): (r: Result)
    requires i <= n <= 19 == |code|
  {
    match ReadSwizzled(n, i, rest, code)
    case None => None
    case Some((code', r)) => if Acceptable(code') then LensFrom(hlit, hdist, code', [], r, out) else None
  }

  /** From the code lengths on, some of them known. */
  ghost function LensFrom(hlit: nat, hdist: nat, code: seq<nat>, acc: seq<nat>, rest: Bits, out: seq<byte>): (r: Result)
    requires |code| == 19
  {
    match ReadLengths(code, hlit + hdist, rest, acc)
    case None => None
    case Some((lens, r)) => TablesFrom(lens, hlit, r, out)
  }

  /** All code lengths known. */
  ghost function TablesFrom(lens: seq<nat>, hlit: nat, rest: Bits, out: seq<byte>): (r: Result)
    requires hlit <= |lens|
  {
    if Acceptable(lens[..hlit]) &&
           Acceptable(lens[hlit..]) then ReadCodes(lens[..hlit], lens[hlit..], rest, out) else None
  }

  /** From the extra bits of a repeat symbol on. */
  ghost function RepeatFrom(hlit: nat, hdist: nat, code: seq<nat>, acc: seq<nat>, sym: nat, rest: Bits,
                            out: seq<byte>): (r: Result)
    requires |code| == 19 && sym < 19
  {
    match Take(rest, ExtraBits(sym))
    case None => None
    case Some((extra, r)) =>
      match Expand(acc, sym, extra)
      case None => None
      case Some(acc') => LensFrom(hlit, hdist, code, acc', r, out)
  }

  /** After a symbol of the first code. */
  ghost function SymbolFrom(lits: seq<nat>, dists: seq<nat>, sym: nat, rest: Bits, out: seq<byte>): (r: Result)
  {
    if sym < END_OF_BLOCK then ReadCodes(lits, dists, rest, out + [sym])
    else if sym == END_OF_BLOCK then Some((out, rest))
    else if sym - 257 >= |LENGTH_BASE| then None
    else LengthFrom(lits, dists, LENGTH_BASE[sym - 257], LENGTH_EXTRA[sym - 257], rest, out)
  }

  /** From the extra bits of a length on. */
  ghost function LengthFrom(lits: seq<nat>, dists: seq<nat>, base: nat, extra: nat, rest: Bits,
                            out: seq<byte>): (r: Result)
  {
    match Take(rest, extra)
    case None => None
    case Some((x, r)) => DistanceFrom(lits, dists, base + x, r, out)
  }

  /** From a distance symbol on. */
  ghost function DistanceFrom(lits: seq<nat>, dists: seq<nat>, len: nat, rest: Bits, out: seq<byte>): (r: Result)
  {
    match DecodeSym(dists, rest)
    case None => None
    case Some((sym, r)) =>
      if sym >= |DIST_BASE| then None else DistExtraFrom(lits, dists, len, DIST_BASE[sym], DIST_EXTRA[sym], r, out)
  }

  /** From the extra bits of a distance on. */
  ghost function DistExtraFrom(lits: seq<nat>, dists: seq<nat>, len: nat, base: nat, extra: nat, rest: Bits,
                               out: seq<byte>): (r: Result)
  {
    match Take(rest, extra)
    case None => None
    case Some((x, r)) => CopyFrom(lits, dists, base + x, len, r, out)
  }

  /** A match to be copied. */
  ghost function CopyFrom(lits: seq<nat>, dists: seq<nat>, dist: nat, len: nat, rest: Bits, out: seq<byte>): (r: Result)
  {
    if dist < 1 || dist > |out| then None else ReadCodes(lits, dists, rest, CopyBack(out, dist, len))
  }

  /** The next symbol of a block. */
  lemma CodesStep(lits: seq<nat>, dists: seq<nat>, rest: Bits, out: seq<byte>, sym: nat, r: Bits)
    requires DecodeSym(lits, rest) == Some((sym, r))
    ensures ReadCodes(lits, dists, rest, out) == SymbolFrom(lits, dists, sym, r, out)
  {
    hide DecodeSym, Take, CopyBack;
  }

  lemma CodesEnd(lits: seq<nat>, dists: seq<nat>, rest: Bits, out: seq<byte>)
    requires DecodeSym(lits, rest).None?
    ensures ReadCodes(lits, dists, rest, out).None?
  {
    hide DecodeSym;
  }

  lemma LensStep(hlit: nat, hdist: nat, code: seq<nat>, acc: seq<nat>, rest: Bits, out: seq<byte>, sym: nat, r: Bits)
    requires |code| == 19 && |acc| < hlit + hdist && DecodeSym(code, rest) == Some((sym, r))
    ensures LensFrom(hlit, hdist, code, acc, rest, out) ==
              if sym < 19 then RepeatFrom(hlit, hdist, code, acc, sym, r, out) else None
  {
    hide DecodeSym, Take, TablesFrom, Expand;
  }

  lemma LensDone(hlit: nat, hdist: nat, code: seq<nat>, acc: seq<nat>, rest: Bits, out: seq<byte>)
    requires |code| == 19 && |acc| >= hlit + hdist
    ensures LensFrom(hlit, hdist, code, acc, rest, out) == if |acc| ==
              hlit + hdist then TablesFrom(acc, hlit, rest, out) else None
  {
    hide TablesFrom;
  }

  /** A code length that is not a repetition. */
  lemma RepeatPlain(hlit: nat, hdist: nat, code: seq<nat>, acc: seq<nat>, sym: nat, rest: Bits, out: seq<byte>)
    requires |code| == 19 && sym < 16
    ensures RepeatFrom(hlit, hdist, code, acc, sym, rest, out) == LensFrom(hlit, hdist, code, acc + [sym], rest, out)
  {
    hide LensFrom;
    assert rest[0..] == rest && FromBits(rest[..0]) == 0;
  }

  /** Two bytes, the low one first. */
  function Number16(lo: byte, hi: byte): (r: nat)
  {
    lo as nat + 256 * hi as nat
  }

  /** From the lengths of a stored block on, some of their bytes known. */
  ghost function HeaderFrom(hdr: seq<byte>, rest: Bits, out: seq<byte>): (r: Result)
    requires |hdr| <= 4
    decreases 4 - |hdr|
  {
    if |hdr| == 4 then
      var len, nlen := Number16(hdr[0], hdr[1]), Number16(hdr[2], hdr[3]);
      if len + nlen != 0xFFFF then None else StoredBytes(len, rest, out)
    else
      match Take(rest, 8)
      case None => None
      case Some((x, r)) => HeaderFrom(hdr + [x % 256], r, out)
  }

  lemma TakeByte(rest: Bits)
    requires |rest| >= 8
    ensures Take(rest, 8) == Some((FromBits(rest[..8]), rest[8..])) && FromBits(rest[..8]) < 256
  {
    ToFromBits(rest[..8]);
    Powers();
  }

  /** Two bytes make a number of 16 bits. */
  lemma {:induction false} TakeTwo(rest: Bits)
    requires |rest| >= 16
    ensures FromBits(rest[..8]) < 256 && FromBits(rest[8..16]) < 256
    ensures Take(rest, 16) == Some((Number16(FromBits(rest[..8]), FromBits(rest[8..16])), rest[16..]))
  {
    var a, b := rest[..8], rest[8..16];
    var x, y := FromBits(a), FromBits(b);
    ToFromBits(a);
    ToFromBits(b);
    Powers();
    hide FromBits, ToBits, Pow2;
    ToBitsAppend(x, 8, y, 8);
    assert rest[..16] == a + b;
    Pow2Add(8, 8);
    FromToBits(x + y * 256, 16);
  }

  lemma HeaderNext(hdr: seq<byte>, rest: Bits, out: seq<byte>)
    requires |hdr| < 4
    ensures HeaderFrom(hdr, rest, out) == if |rest| < 8 then None
            else HeaderFrom(hdr + [FromBits(rest[..8]) % 256], rest[8..], out)
  {
    hide FromBits;
  }

  lemma HeaderIs(rest: Bits, out: seq<byte>)
    ensures StoredFrom(rest, out) == HeaderFrom([], rest, out)
  {
    hide FromBits, StoredBytes, HeaderFrom;
    if |rest| >= 32 {
      HeaderWhole(rest, out);
    } else {
      HeaderShort([], rest, out);
    }
  }

  lemma {:induction false} HeaderShort(hdr: seq<byte>, rest: Bits, out: seq<byte>)
    requires |hdr| <= 4 && |rest| < 8 * (4 - |hdr|)
    ensures HeaderFrom(hdr, rest, out).None?
    decreases 4 - |hdr|
  {
    hide FromBits;
    HeaderNext(hdr, rest, out);
    if |rest| >= 8 { HeaderShort(hdr + [FromBits(rest[..8]) % 256], rest[8..], out); }
  }

  lemma HeaderWhole(rest: Bits, out: seq<byte>)
    requires |rest| >= 32
    ensures StoredFrom(rest, out) == HeaderFrom([], rest, out)
  {
    hide *;
    var r1, r2, r3, r4 := rest[8..], rest[16..], rest[24..], rest[32..];
    assert r1[8..] == r2 && r2[8..] == r3 && r3[8..] == r4 && r1[..8] == rest[8..16] && r3[..8] == r2[8..16] &&
           r2[16..] == r4;
    TakeByte(rest);
    TakeByte(r1);
    TakeByte(r2);
    TakeByte(r3);
    var a, b, c, d := FromBits(rest[..8]), FromBits(r1[..8]), FromBits(r2[..8]), FromBits(r3[..8]);
    HeaderNext([], rest, out);
    HeaderNext([a], r1, out);
    HeaderNext([a, b], r2, out);
    HeaderNext([a, b, c], r3, out);
    assert [] + [a] == [a] && [a] + [b] == [a, b] && [a, b] + [c] == [a, b, c] && [a, b, c] + [d] == [a, b, c, d];
    TakeTwo(rest);
    TakeTwo(r2);
    HeaderEnds(a, b, c, d, rest, r2, r4, out);
  }

  lemma HeaderEnds(a: byte, b: byte, c: byte, d: byte, rest: Bits, r2: Bits, r4: Bits, out: seq<byte>)
    requires Take(rest, 16) == Some((Number16(a, b), r2)) && Take(r2, 16) == Some((Number16(c, d), r4))
    ensures StoredFrom(rest, out) == HeaderFrom([a, b, c, d], r4, out)
  {
    hide Take, StoredBytes;
  }

  /** The next byte of a stored block. */
  lemma StoredNext(n: nat, rest: Bits, out: seq<byte>)
    requires n > 0 && |rest| >= 8
    ensures StoredBytes(n, rest, out) == StoredBytes(n - 1, rest[8..], out + [FromBits(rest[..8]) % 256])
  {
    if |rest| >= 8 * n {
      var b := rest[..8 * n];
      assert b[..8] == rest[..8] && b[8..] == rest[8..][..8 * (n - 1)] && rest[8..][8 * (n - 1)..] == rest[8 * n..];
      var x := FromBits(b[..8]) % 256;
      assert BitsToBytes(b) == [x] + BitsToBytes(b[8..]);
      hide FromBits, BitsToBytes;
      assert out + ([x] + BitsToBytes(b[8..])) == (out + [x]) + BitsToBytes(b[8..]);
    }
  }

  lemma StoredEnd(rest: Bits, out: seq<byte>)
    ensures StoredBytes(0, rest, out) == Some((out, rest))
  {
    assert BitsToBytes(rest[..0]) == [] && out + [] == out && rest[0..] == rest;
  }

  /** From the numbers of codes on, some of them known. */
  ghost function SizesFrom(sizes: seq<nat>, rest: Bits, out: seq<byte>): (r: Result)
    requires |sizes| <= 3
    decreases 3 - |sizes|
  {
    if |sizes| == 3 then (if sizes[2] > 19 then None
                          else CodeLensFrom(sizes[0], sizes[1], sizes[2], 0, Repeat(0, 19), rest, out))
    else
      match Take(rest, SizeBits(|sizes|))
      case None => None
      case Some((x, r)) => SizesFrom(sizes + [x + LeastSize(|sizes|)], r, out)
  }

  function SizeBits(k: nat): (r: nat)
  {
    if k < 2 then 5 else 4
  }

  function LeastSize(k: nat): (r: nat)
  {
    if k == 0 then 257 else if k == 1 then 1 else 4
  }

  lemma SizesNext(sizes: seq<nat>, rest: Bits, out: seq<byte>)
    requires |sizes| < 3
    ensures SizesFrom(sizes, rest, out) ==
            if |rest| < SizeBits(|sizes|) then None
            else SizesFrom(sizes + [FromBits(rest[..SizeBits(|sizes|)]) + LeastSize(|sizes|)],
                           rest[SizeBits(|sizes|)..], out)
  {
    hide FromBits, CodeLensFrom;
  }

  lemma SizesLast(sizes: seq<nat>, rest: Bits, out: seq<byte>)
    requires |sizes| == 3
    ensures SizesFrom(sizes, rest, out) == if sizes[2] > 19 then None
            else CodeLensFrom(sizes[0], sizes[1], sizes[2], 0, Repeat(0, 19), rest, out)
  {
    hide CodeLensFrom;
  }

  /** Reading the tables of a dynamic block one number after the other. */
  lemma SizesAre(rest: Bits, out: seq<byte>)
    ensures DynamicFrom(rest, out) == SizesFrom([], rest, out)
  {
    hide SizesFrom, FromBits, CodeLensFrom, DynamicFrom;
    SizesNext([], rest, out);
    if |rest| < 5 { TooShort(rest, out); return; }
    var a, r1 := FromBits(rest[..5]), rest[5..];
    assert [] + [a + 257] == [a + 257];
    SizesNext([a + 257], r1, out);
    if |r1| < 5 { TooShort(rest, out); return; }
    var b, r2 := FromBits(r1[..5]), r1[5..];
    assert [a + 257] + [b + 1] == [a + 257, b + 1];
    SizesNext([a + 257, b + 1], r2, out);
    if |r2| < 4 { TooShort(rest, out); return; }
    var c, r3 := FromBits(r2[..4]), r2[4..];
    assert [a + 257, b + 1] + [c + 4] == [a + 257, b + 1, c + 4];
    SizesLast([a + 257, b + 1, c + 4], r3, out);
    TablesAre(a, b, c, rest, r1, r2, r3, out);
  }

  lemma TooShort(rest: Bits, out: seq<byte>)
    requires |rest| < 14
    ensures DynamicFrom(rest, out).None?
  {
    hide ReadSwizzled, ReadLengths, ReadCodes, FromBits, Acceptable;
  }

  lemma TablesAre(a: nat, b: nat, c: nat, rest: Bits, r1: Bits, r2: Bits, r3: Bits, out: seq<byte>)
    requires Take(rest, 5) == Some((a, r1)) && Take(r1, 5) == Some((b, r2)) && Take(r2, 4) == Some((c, r3))
    ensures DynamicFrom(rest, out) == if c + 4 > 19 then None
            else CodeLensFrom(a + 257, b + 1, c + 4, 0, Repeat(0, 19), r3, out)
  {
    hide Take, ReadSwizzled, ReadLengths, ReadCodes, FromBits, Acceptable;
  }

  /** The next code length code length. */
  lemma CodeLensNext(hlit: nat, hdist: nat, n: nat, i: nat, code: seq<nat>, rest: Bits, out: seq<byte>)
    requires i < n <= 19 == |code|
    ensures CodeLensFrom(hlit, hdist, n, i, code, rest, out) ==
            if |rest| < 3 then None
              else CodeLensFrom(hlit, hdist, n, i + 1, code[SWIZZLE[i] := FromBits(rest[..3])], rest[3..], out)
  {
    hide FromBits, LensFrom, Acceptable;
  }

  lemma CodeLensLast(hlit: nat, hdist: nat, n: nat, code: seq<nat>, rest: Bits, out: seq<byte>)
    requires n <= 19 == |code|
    ensures CodeLensFrom(hlit, hdist, n, n, code, rest, out) ==
              if Acceptable(code) then LensFrom(hlit, hdist, code, [], rest, out) else None
  {
    hide LensFrom, Acceptable;
  }

  /** A block by its type. */
  ghost function KindFrom(kind: nat, rest: Bits, out: seq<byte>): (r: Result)
  {
    if kind == 0 then ReadStored(rest, out)
    else if kind == 1 then ReadCodes(FixedLiterals(), FixedDistances(), rest, out)
    else if kind == 2 then DynamicFrom(rest, out)
    else None
  }

  /** The three bits a block begins with. */
  lemma BlockBegins(rest: Bits, out: seq<byte>)
    ensures |rest| < 3 ==> Inflate(rest, out).None?
    ensures |rest| >= 3 ==> Inflate(rest, out) == Then(rest[0], KindFrom(FromBits(rest[1..3]), rest[3..], out))
  {
    hide ReadStored, ReadCodes, ReadTables, FromBits;
    if |rest| >= 3 {
      assert rest[1..][..2] == rest[1..3] && rest[1..][2..] == rest[3..];
    }
  }

  lemma StoredBegins(rest: Bits, out: seq<byte>)
    ensures |rest[|rest| % 8..]| >= 0
    ensures ReadStored(rest, out) == StoredFrom(rest[|rest| % 8..], out)
  {
    hide Take, BitsToBytes;
  }

  /** One byte of a match. */
  lemma CopyNext(lits: seq<nat>, dists: seq<nat>, dist: nat, len: nat, rest: Bits, out: seq<byte>)
    requires len > 0 && 1 <= dist <= |out|
    ensures CopyFrom(lits, dists, dist, len, rest, out) ==
              CopyFrom(lits, dists, dist, len - 1, rest, out + [out[|out| - dist]])
  {
    hide ReadCodes;
  }
}
