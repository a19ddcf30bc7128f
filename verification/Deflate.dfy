/**
  The meaning of a DEFLATE bit stream (RFC 1951), as a decoder on the bits still to be read.
  Stored blocks begin on a byte boundary of the stream; since a stream is made of whole
  bytes, the position within a byte is known from the number of bits left.
 */
module Deflate {
  import opened Wrappers
  import opened Bits
  import opened CanonicalCode

  const END_OF_BLOCK: nat := 256

  /** Section 3.2.5 of RFC 1951: length symbols 257 .. 285. */
  const LENGTH_BASE: seq<nat> :=
    [3, 4, 5, 6, 7, 8, 9, 10, 11, 13, 15, 17, 19, 23, 27, 31, 35, 43, 51, 59, 67, 83, 99, 115, 131, 163, 195, 227, 258]
  const LENGTH_EXTRA: seq<nat> :=
    [0, 0, 0, 0, 0, 0, 0, 0, 1, 1, 1, 1, 2, 2, 2, 2, 3, 3, 3, 3, 4, 4, 4, 4, 5, 5, 5, 5, 0]

  /** Section 3.2.5 of RFC 1951: distance symbols 0 .. 29. */
  const DIST_BASE: seq<nat> :=
    [1, 2, 3, 4, 5, 7, 9, 13, 17, 25, 33, 49, 65, 97, 129, 193, 257, 385, 513, 769, 1025, 1537, 2049, 3073, 4097,
     6145, 8193, 12289, 16385, 24577]
  const DIST_EXTRA: seq<nat> :=
    [0, 0, 0, 0, 1, 1, 2, 2, 3, 3, 4, 4, 5, 5, 6, 6, 7, 7, 8, 8, 9, 9, 10, 10, 11, 11, 12, 12, 13, 13]

  /** Section 3.2.7 of RFC 1951: the order in which code length code lengths are sent. */
  const SWIZZLE: seq<nat> := [16, 17, 18, 0, 8, 7, 9, 6, 10, 5, 11, 4, 12, 3, 13, 2, 14, 1, 15]

  /** Section 3.2.6 of RFC 1951: the lengths of the fixed codes. */
  function FixedLiterals(): (r: seq<nat>)
    ensures |r| == 288
    ensures forall s :: 0 <= s < 288 ==> r[s] == if s < 144 then 8 else if s < 256 then 9 else if s < 280 then 7 else 8
  {
    seq(288, s => if s < 144 then 8 else if s < 256 then 9 else if s < 280 then 7 else 8)
  }

  function FixedDistances(): (r: seq<nat>)
    ensures |r| == 32 && forall s :: 0 <= s < 32 ==> r[s] == 5
  {
    seq(32, _ => 5)
  }

  /** The next n bits as a number, and the bits after them. */
  function Take(rest: Bits, n: nat): (r: Option<(nat, Bits)>)
    ensures r.Some? ==> n <= |rest| && r.value.1 == rest[n..]
  {
    if |rest| < n then None else Some((FromBits(rest[..n]), rest[n..]))
  }

  /** Repeats len bytes from dist bytes back. The copy may overlap what it produces. */
  function CopyBack(out: seq<byte>, dist: nat, len: nat): (r: seq<byte>)
    requires 1 <= dist <= |out|
    ensures |r| == |out| + len && out <= r
    decreases len
  {
    if len == 0 then out else CopyBack(out + [out[|out| - dist]], dist, len - 1)
  }

  /** A length symbol's match length. */
  ghost function ReadLength(sym: nat, rest: Bits): (r: Option<(nat, Bits)>)
    requires sym > END_OF_BLOCK
    ensures r.Some? ==> |r.value.1| <= |rest|
  {
    if sym - 257 >= |LENGTH_BASE| then None
    else
      match Take(rest, LENGTH_EXTRA[sym - 257])
      case None => None
      case Some((extra, r)) => Some((LENGTH_BASE[sym - 257] + extra, r))
  }

  /** A match distance. */
  ghost function ReadDistance(dists: seq<nat>, rest: Bits): (r: Option<(nat, Bits)>)
    ensures r.Some? ==> |r.value.1| <= |rest| && r.value.0 >= 1
  {
    match DecodeSym(dists, rest)
    case None => None
    case Some((sym, r0)) =>
      if sym >= |DIST_BASE| then None
      else
        match Take(r0, DIST_EXTRA[sym])
        case None => None
        case Some((extra, r)) => Some((DIST_BASE[sym] + extra, r))
  }

  /** Literals and matches up to the end of the block: the output then, and the bits after it. */
  ghost function ReadCodes(lits: seq<nat>, dists: seq<nat>, rest: Bits, out: seq<byte>): (r: Option<(seq<byte>, Bits)>)
    ensures r.Some? ==> |r.value.1| <= |rest|
    decreases |rest|
  {
    match DecodeSym(lits, rest)
    case None => None
    case Some((sym, r0)) =>
      if sym < END_OF_BLOCK then ReadCodes(lits, dists, r0, out + [sym])
      else if sym == END_OF_BLOCK then Some((out, r0))
      else
        match ReadLength(sym, r0)
        case None => None
        case Some((len, r1)) =>
          match ReadDistance(dists, r1)
          case None => None
          case Some((dist, r2)) =>
            if dist > |out| then None else ReadCodes(lits, dists, r2, CopyBack(out, dist, len))
  }

  /** n copies of x. */
  function Repeat(x: nat, n: nat): (r: seq<nat>)
    ensures |r| == n && forall i :: 0 <= i < n ==> r[i] == x
  {
    seq(n, _ => x)
  }

  /** What a code length symbol and its extra bits add to the lengths read so far. */
  function Expand(acc: seq<nat>, sym: nat, extra: nat): (r: Option<seq<nat>>)
    requires sym < 19
  {
    if sym < 16 then Some(acc + [sym])
    else if sym == 16 then (if acc == [] then None else Some(acc + Repeat(acc[|acc| - 1], 3 + extra)))
    else if sym == 17 then Some(acc + Repeat(0, 3 + extra))
    else Some(acc + Repeat(0, 11 + extra))
  }

  function ExtraBits(sym: nat): (r: nat)
  {
    if sym == 16 then 2 else if sym == 17 then 3 else if sym == 18 then 7 else 0
  }

  /** Code lengths, themselves sent in a Huffman code, up to total of them. */
  ghost function ReadLengths(code: seq<nat>, total: nat, rest: Bits, acc: seq<nat>): (r: Option<(seq<nat>, Bits)>)
    requires |code| == 19
    ensures r.Some? ==> |r.value.0| == total && |r.value.1| <= |rest|
    decreases |rest|
  {
    if |acc| == total then Some((acc, rest))
    else if |acc| > total then None
    else
      match DecodeSym(code, rest)
      case None => None
      case Some((sym, r0)) =>
        match Take(r0, ExtraBits(sym))
        case None => None
        case Some((extra, r1)) =>
          match Expand(acc, sym, extra)
          case None => None
          case Some(acc') => ReadLengths(code, total, r1, acc')
  }

  /** n code length code lengths of three bits each, put where the order of sending says. */
  function ReadSwizzled(n: nat, i: nat, rest: Bits, code: seq<nat>): (r: Option<(seq<nat>, Bits)>)
    requires i <= n <= 19 == |code|
    ensures r.Some? ==> |r.value.0| == 19 && |r.value.1| <= |rest|
    decreases n - i
  {
    if i == n then Some((code, rest))
    else
      match Take(rest, 3)
      case None => None
      case Some((len, r)) => ReadSwizzled(n, i + 1, r, code[SWIZZLE[i] := len])
  }

  /** The two codes of a dynamic block. */
  ghost function ReadTables(rest: Bits): (r: Option<(seq<nat>, seq<nat>, Bits)>)
    ensures r.Some? ==> |r.value.2| <= |rest|
  {
    match Take(rest, 5)
    case None => None
    case Some((hlit, r0)) =>
      match Take(r0, 5)
      case None => None
      case Some((hdist, r1)) =>
        match Take(r1, 4)
        case None => None
        case Some((hclen, r2)) =>
          if hclen + 4 > 19 then None
          else
            match ReadSwizzled(hclen + 4, 0, r2, Repeat(0, 19))
            case None => None
            case Some((code, r3)) =>
              if !Acceptable(code) then None
              else
                match ReadLengths(code, hlit + 257 + hdist + 1, r3, [])
                case None => None
                case Some((lens, r4)) =>
                  if Acceptable(lens[..hlit + 257]) && Acceptable(lens[hlit + 257..])
                  then Some((lens[..hlit + 257], lens[hlit + 257..], r4)) else None
  }

  /** A stored block: padding to the byte boundary, the length twice, the bytes. */
  ghost function ReadStored(rest: Bits, out: seq<byte>): (r: Option<(seq<byte>, Bits)>)
    ensures r.Some? ==> |r.value.1| <= |rest|
  {
    match Take(rest[|rest| % 8..], 16)
    case None => None
    case Some((len, r0)) =>
      match Take(r0, 16)
      case None => None
      case Some((nlen, r1)) =>
        if len + nlen != 0xFFFF || |r1| < 8 * len then None
        else Some((out + BitsToBytes(r1[..8 * len]), r1[8 * len..]))
  }

  /** The bytes packed in a bit string. */
  function BitsToBytes(b: Bits): (r: seq<byte>)
    requires |b| % 8 == 0
    ensures |r| == |b| / 8
  {
    if b == [] then [] else
    [FromBits(b[..8]) % 256] + BitsToBytes(b[8..])
  }

  /** A block after its first bit: its type and what the type calls for. */
  ghost function ReadBody(rest: Bits, out: seq<byte>): (r: Option<(seq<byte>, Bits)>)
    ensures r.Some? ==> |r.value.1| <= |rest|
  {
    match Take(rest, 2)
    case None => None
    case Some((kind, r)) =>
      if kind == 0 then ReadStored(r, out)
      else if kind == 1 then ReadCodes(FixedLiterals(), FixedDistances(), r, out)
      else if kind == 2 then
        match ReadTables(r)
        case None => None
        case Some((lits, dists, r')) => ReadCodes(lits, dists, r', out)
      else None
  }

  /** All blocks up to the one marked as the last. */
  ghost function Inflate(rest: Bits, out: seq<byte>): (r: Option<(seq<byte>, Bits)>)
    ensures r.Some? ==> |r.value.1| < |rest|
    decreases |rest|
  {
    if rest == [] then None
    else
      match ReadBody(rest[1..], out)
      case None => None
      case Some((out', r)) => if rest[0] then Some((out', r)) else Inflate(r, out')
  }

  /** A whole stream of bytes: what it stands for, if nothing but padding follows the last block. */
  ghost function Decompress(stream: seq<byte>): (r: Option<seq<byte>>)
  {
    match Inflate(BytesToBits(stream), [])
    case None => None
    case Some((out, rest)) => if |rest| < 8 then Some(out) else None
  }
}
