/**
  The points at which inflate can be stopped and resumed: what is left to do from each, how many
  bits its next step needs, and how the points follow each other.
 */
module Points {
  import opened Wrappers
  import opened Bits
  import opened CanonicalCode
  import opened Deflate
  import opened HuffDecode
  import opened Resume
  import opened Halting

  /** What the whole comes to from here. */
  ghost function RestAt(p: Point, todo: Bits, out: seq<byte>): (r: Result)
    requires WellFormed(p)
  {
    match p
    case Head => Inflate(todo, out)
    case Aligning(f) => Then(f, ReadStored(todo, out))
    case RawHeader(f, hdr) => Then(f, HeaderFrom(hdr, todo, out))
    case Stored(f, left) => Then(f, StoredBytes(left, todo, out))
    case StoredOut(f, left, b) => Then(f, StoredBytes(left - 1, todo, out + [b]))
    case Sizes(f, sizes) => Then(f, SizesFrom(sizes, todo, out))
    case CodeLens(f, hlit, hdist, n, i, code) => Then(f, CodeLensFrom(hlit, hdist, n, i, code, todo, out))
    case Lens(f, hlit, hdist, code, acc) => Then(f, LensFrom(hlit, hdist, code, acc, todo, out))
    case Repeated(f, hlit, hdist, code, acc, sym) => Then(f, RepeatFrom(hlit, hdist, code, acc, sym, todo, out))
    case Codes(f, lits, dists) => Then(f, ReadCodes(lits, dists, todo, out))
    case Lit(f, lits, dists, b) => Then(f, ReadCodes(lits, dists, todo, out + [b]))
    case LenExtra(f, lits, dists, base, extra) => Then(f, LengthFrom(lits, dists, base, extra, todo, out))
    case Dist(f, lits, dists, len) => Then(f, DistanceFrom(lits, dists, len, todo, out))
    case DistExtra(f, lits, dists, len, base, extra) => Then(f, DistExtraFrom(lits, dists, len, base, extra, todo, out))
    case Copy(f, lits, dists, dist, len) => Then(f, CopyFrom(lits, dists, dist, len, todo, out))
    case Last => Some((out, todo))
    case Ended(skipped) => if |todo| % 8 == 0 then Some((out, skipped + todo)) else None
    case Broken => None
  }

  /** At this point more than n bits are needed before anything else can happen. */
  ghost predicate Wants(p: Point, todo: Bits, n: int)
  {
    match p
    case Head => n < 3
    case RawHeader(_, _) => n < 8
    case Stored(_, left) => left > 0 && n < 8
    case Sizes(_, sizes) => n < SizeBits(|sizes|)
    case CodeLens(_, _, _, _, _, _) => n < 3
    case Lens(_, _, _, code, _) => WantsCode(code, todo, n)
    case Repeated(_, _, _, _, _, sym) => n < ExtraBits(sym)
    case Codes(_, lits, _) => WantsCode(lits, todo, n)
    case LenExtra(_, _, _, _, extra) => n < extra
    case Dist(_, _, dists, _) => WantsCode(dists, todo, n)
    case DistExtra(_, _, _, _, _, extra) => n < extra
    case _ => false
  }

  ghost predicate WantsCode(lens: seq<nat>, todo: Bits, n: int)
  {
    forall s: nat :: Heads(lens, s, todo) ==> lens[s] > n
  }

  /** What was read before this call leaves less than a byte, once what is wanted is taken. */
  ghost predicate Slack(p: Point, todo: Bits, old_bits: int)
  {
    old_bits < 8 || Wants(p, todo, old_bits)
  }

  /**
    Where there is no saying how the code goes on: the bits begin no code, or a match in a ring
    reaches back beyond the output.
   */
  ghost predicate Lax(ring: bool, p: Point, todo: Bits, out: seq<byte>)
  {
    (AtSymbols(p) && NoCode(CodeAt(p), todo)) || (ring && p.Copy? && !(1 <= p.dist <= |out|))
  }

  /** All the bits lead to such a place. */
  ghost predicate Astray(ring: bool, all: Bits)
  {
    var (p, todo, out) := Halt(ring, Head, all, []);
    Lax(ring, p, todo, out)
  }

  /** A symbol comes that stands for no length in the format, and for a match of nothing in the code. */
  ghost predicate Foreign(p: Point, todo: Bits)
  {
    p.Codes? && DecodeSym(p.lits, todo).Some? && DecodeSym(p.lits, todo).value.0 - 257 >= |LENGTH_BASE|
  }

  /** Here the code leaves the format. */
  ghost predicate Leaves(ring: bool, p: Point, todo: Bits, out: seq<byte>)
  {
    Lax(ring, p, todo, out) || Foreign(p, todo)
  }

  /**
    If the stream is one at all, the result is what the whole comes to; and unless it goes astray,
    with any part of the bits it goes as far from here as from the beginning.
   */
  ghost predicate OnTrack(ring: bool, whole: Result, all: Bits, p: Point, todo: Bits, out: seq<byte>)
  {
    WellFormed(p) && (whole.Some? ==> RestAt(p, todo, out) == whole) &&
    (Astray(ring, all) || SameHalt(ring, Head, all, [], p, todo, out))
  }

  /** Order of the points between which nothing is read or written. */
  ghost function Rank(p: Point): (r: nat)
  {
    match p
    case Broken => 0
    case Last => 5
    case Ended(_) => 3
    case Head => 10
    case Lit(_, _, _, _) => 90
    case Codes(_, _, _) => 100
    case Copy(_, _, _, _, _) => 200
    case DistExtra(_, _, _, _, _, _) => 290
    case Dist(_, _, _, _) => 300
    case LenExtra(_, _, _, _, _) => 310
    case Stored(_, _) => 320
    case StoredOut(_, _, _) => 330
    case RawHeader(_, _) => 340
    case Aligning(_) => 350
    case Lens(_, _, _, _, acc) => if |acc| <= 500 then 1000 - |acc| else 500
    case Repeated(_, _, _, _, _, _) => 1100
    case CodeLens(_, _, _, _, _, _) => 1200
    case Sizes(_, _) => 1300
  }

  /** From p to p' nothing changes about the whole, and about how far it goes with any part of the bits. */
  ghost predicate Keeps(ring: bool, p: Point, todo: Bits, out: seq<byte>, p': Point, todo': Bits, out': seq<byte>)
    requires WellFormed(p) && WellFormed(p')
  {
    RestAt(p', todo', out') == RestAt(p, todo, out) && SameHalt(ring, p, todo, out, p', todo', out')
  }

  /** From p to p' it stays on track. */
  ghost predicate Tracks(ring: bool, p: Point, todo: Bits, out: seq<byte>, p': Point, todo': Bits, out': seq<byte>)
  {
    forall whole: Result, all: Bits ::
      OnTrack(ring, whole, all, p, todo, out) ==> OnTrack(ring, whole, all, p', todo', out')
  }

  /** And with the format, as long as that is not left. */
  ghost predicate Leads(ring: bool, p: Point, todo: Bits, out: seq<byte>, p': Point, todo': Bits, out': seq<byte>)
  {
    WellFormed(p) && WellFormed(p') && (!Leaves(ring, p, todo, out) ==> Keeps(ring, p, todo, out, p', todo', out')) &&
    Tracks(ring, p, todo, out, p', todo', out')
  }

  lemma LeadsTracks(ring: bool, p: Point, todo: Bits, out: seq<byte>, p': Point, todo': Bits, out': seq<byte>)
    requires Leads(ring, p, todo, out, p', todo', out')
    ensures Tracks(ring, p, todo, out, p', todo', out')
  {
    hide Tracks, WellFormed, Keeps, Leaves;
  }

  lemma TrackStep(ring: bool, whole: Result, all: Bits, p: Point, todo: Bits, out: seq<byte>, p': Point, todo': Bits,
                  out': seq<byte>)
    requires OnTrack(ring, whole, all, p, todo, out) && Tracks(ring, p, todo, out, p', todo', out')
    ensures OnTrack(ring, whole, all, p', todo', out')
  {
    hide OnTrack, RestAt, WellFormed, Keeps, Leaves;
  }

  /** Taking what is wanted leaves less than a byte from before. */
  lemma SlackTaken(p: Point, todo: Bits, old_bits: int, k: nat, p': Point, todo': Bits)
    requires Slack(p, todo, old_bits) && (Wants(p, todo, old_bits) ==> k > old_bits)
    ensures Slack(p', todo', old_bits - k)
  {
    hide Wants;
  }

  // ---------------------------------------------------------------- steps

  lemma LeadsIf(ring: bool, p: Point, todo: Bits, out: seq<byte>, p': Point, todo': Bits, out': seq<byte>)
    requires WellFormed(p) && WellFormed(p')
    requires !Lax(ring, p, todo, out) ==> SameHalt(ring, p, todo, out, p', todo', out')
    requires !Leaves(ring, p, todo, out) ==> RestAt(p', todo', out') == RestAt(p, todo, out)
    ensures Leads(ring, p, todo, out, p', todo', out')
  {
    hide *;
    LaxLeaves(ring, p, todo, out);
    if Leaves(ring, p, todo, out) {
      LeavesNone(ring, p, todo, out);
    } else {
      KeepsNow(ring, p, todo, out, p', todo', out');
    }
    forall whole: Result, all: Bits | OnTrack(ring, whole, all, p, todo, out)
      ensures OnTrack(ring, whole, all, p', todo', out')
    {
      if Lax(ring, p, todo, out) { GoneAstray(ring, whole, all, p, todo, out); }
      TrackKept(ring, whole, all, p, todo, out, p', todo', out');
    }
    LeadsNow(ring, p, todo, out, p', todo', out');
  }

  lemma LaxLeaves(ring: bool, p: Point, todo: Bits, out: seq<byte>)
    ensures Lax(ring, p, todo, out) ==> Leaves(ring, p, todo, out)
    ensures Leaves(ring, p, todo, out) <==> Lax(ring, p, todo, out) || Foreign(p, todo)
  {
    hide Lax, Foreign;
  }

  lemma LeadsNow(ring: bool, p: Point, todo: Bits, out: seq<byte>, p': Point, todo': Bits, out': seq<byte>)
    requires WellFormed(p) && WellFormed(p')
    requires !Leaves(ring, p, todo, out) ==> Keeps(ring, p, todo, out, p', todo', out')
    requires forall whole: Result, all: Bits ::
               OnTrack(ring, whole, all, p, todo, out) ==> OnTrack(ring, whole, all, p', todo', out')
    ensures Leads(ring, p, todo, out, p', todo', out')
  {
    hide OnTrack, RestAt, WellFormed, Keeps, Leaves;
  }

  lemma KeepsNow(ring: bool, p: Point, todo: Bits, out: seq<byte>, p': Point, todo': Bits, out': seq<byte>)
    requires WellFormed(p) && WellFormed(p')
    requires RestAt(p', todo', out') == RestAt(p, todo, out) && SameHalt(ring, p, todo, out, p', todo', out')
    ensures Keeps(ring, p, todo, out, p', todo', out')
  {
    hide RestAt, WellFormed, SameHalt;
  }

  lemma TrackKept(ring: bool, whole: Result, all: Bits, p: Point, todo: Bits, out: seq<byte>, p': Point, todo': Bits,
                  out': seq<byte>)
    requires OnTrack(ring, whole, all, p, todo, out) && WellFormed(p')
    requires RestAt(p, todo, out).Some? ==> RestAt(p', todo', out') == RestAt(p, todo, out)
    requires Astray(ring, all) || SameHalt(ring, p, todo, out, p', todo', out')
    ensures OnTrack(ring, whole, all, p', todo', out')
  {
    hide RestAt, WellFormed, SameHalt, Astray;
    if !Astray(ring, all) { SameOn(ring, Head, all, [], p, todo, out, p', todo', out'); }
  }

  /** There is no telling any more. */
  lemma GoneAstray(ring: bool, whole: Result, all: Bits, p: Point, todo: Bits, out: seq<byte>)
    requires OnTrack(ring, whole, all, p, todo, out) && Lax(ring, p, todo, out)
    ensures Astray(ring, all)
  {
    hide RestAt, WellFormed, SameHalt, Lax, Halt;
    if SameHalt(ring, Head, all, [], p, todo, out) {
      SameGives(ring, Head, all, [], p, todo, out, 0);
      ShortNone(all);
      ShortNone(todo);
      LaxHalts(ring, p, todo, out);
    }
  }

  lemma ShortNone(b: Bits)
    ensures Short(b, 0) == b
  {
  }

  lemma LaxHalts(ring: bool, p: Point, todo: Bits, out: seq<byte>)
    requires Lax(ring, p, todo, out)
    ensures Halt(ring, p, todo, out) == (p, todo, out)
  {
    if AtSymbols(p) { NoCodeNone(CodeAt(p), todo); }
    hide NoCode, DecodeSym, CodeAt, AfterSymbol;
    assert Next(ring, p, todo, out).None?;
    hide Next;
  }

  /** Where the code leaves the format, the stream is none. */
  lemma LeavesNone(ring: bool, p: Point, todo: Bits, out: seq<byte>)
    requires WellFormed(p) && Leaves(ring, p, todo, out)
    ensures RestAt(p, todo, out).None?
  {
    hide *;
    LeavesGives(ring, p, todo, out);
    if p.Copy? {
      CopyTooFar(p.lits, p.dists, p.dist, p.len, todo, out);
      RestMatch(p.final, p.lits, p.dists, p.dist, p.len, 0, todo, out);
      RestEnds(p.final, todo, out);
    } else if DecodeSym(CodeAt(p), todo).None? {
      NoSymbol(p, todo, out);
    } else {
      var (sym, r) := DecodeSym(p.lits, todo).value;
      CodesStep(p.lits, p.dists, todo, out, sym, r);
      RestCodes(p.final, p.lits, p.dists, 0, todo, out);
      RestBySymbol(p.final, p.lits, p.dists, sym, r, out);
      RestEnds(p.final, todo, out);
    }
  }

  lemma LeavesGives(ring: bool, p: Point, todo: Bits, out: seq<byte>)
    requires Leaves(ring, p, todo, out)
    ensures p.Copy? ==> !(1 <= p.dist <= |out|)
    ensures !p.Copy? ==> p.Lens? || p.Codes? || p.Dist?
    ensures p.Codes? ==> CodeAt(p) == p.lits
    ensures !p.Copy? && DecodeSym(CodeAt(p), todo).Some? ==>
              p.Codes? && DecodeSym(p.lits, todo).value.0 - 257 >= |LENGTH_BASE|
  {
    if AtSymbols(p) && NoCode(CodeAt(p), todo) { NoCodeNone(CodeAt(p), todo); }
    hide NoCode, DecodeSym;
  }

  /** Where a symbol is decoded, one is there. */
  lemma SymbolThere(ring: bool, p: Point, todo: Bits, out: seq<byte>, sym: nat, todo': Bits)
    requires AtSymbols(p) && Decoded(CodeAt(p), todo, sym, todo') && !Lax(ring, p, todo, out)
    ensures Valid(CodeAt(p)) && DecodeSym(CodeAt(p), todo) == Some((sym, todo'))
    ensures p.Codes? && !Leaves(ring, p, todo, out) ==> sym - 257 < |LENGTH_BASE|
  {
    hide Valid, NoCode, DecodeSym;
  }

  lemma RestStored(f: bool, left: nat, b: byte, todo: Bits, out: seq<byte>)
    ensures WellFormed(Stored(f, left)) && RestAt(Stored(f, left), todo, out) == Then(f, StoredBytes(left, todo, out))
    ensures left > 0 ==>
              WellFormed(StoredOut(f, left, b)) &&
              RestAt(StoredOut(f, left, b), todo, out) == Then(f, StoredBytes(left - 1, todo, out + [b]))
  {
    hide Then, StoredBytes;
  }

  lemma RestHeader(f: bool, hdr: seq<byte>, todo: Bits, out: seq<byte>)
    requires |hdr| < 4
    ensures WellFormed(RawHeader(f, hdr)) && RestAt(RawHeader(f, hdr), todo, out) == Then(f, HeaderFrom(hdr, todo, out))
    ensures WellFormed(Aligning(f)) && RestAt(Aligning(f), todo, out) == Then(f, ReadStored(todo, out))
  {
    hide Then, HeaderFrom, ReadStored;
  }

  lemma RestSizes(f: bool, sizes: seq<nat>, todo: Bits, out: seq<byte>)
    requires |sizes| < 3
    ensures WellFormed(Sizes(f, sizes)) && RestAt(Sizes(f, sizes), todo, out) == Then(f, SizesFrom(sizes, todo, out))
  {
    hide Then, SizesFrom;
  }

  lemma RestCodeLens(f: bool, hlit: nat, hdist: nat, n: nat, i: nat, code: seq<nat>, todo: Bits, out: seq<byte>)
    requires i < n <= 19 == |code|
    ensures WellFormed(CodeLens(f, hlit, hdist, n, i, code))
    ensures RestAt(CodeLens(f, hlit, hdist, n, i, code), todo, out) ==
              Then(f, CodeLensFrom(hlit, hdist, n, i, code, todo, out))
  {
    hide Then, CodeLensFrom;
  }

  lemma RestLens(f: bool, hlit: nat, hdist: nat, code: seq<nat>, acc: seq<nat>, todo: Bits, out: seq<byte>)
    requires |code| == 19 && |acc| < hlit + hdist
    ensures WellFormed(Lens(f, hlit, hdist, code, acc))
    ensures RestAt(Lens(f, hlit, hdist, code, acc), todo, out) == Then(f, LensFrom(hlit, hdist, code, acc, todo, out))
  {
    hide Then, LensFrom;
  }

  lemma RestRepeat(f: bool, hlit: nat, hdist: nat, code: seq<nat>, acc: seq<nat>, sym: nat, todo: Bits, out: seq<byte>)
    requires |code| == 19 && |acc| < hlit + hdist && 16 <= sym < 19
    ensures WellFormed(Repeated(f, hlit, hdist, code, acc, sym))
    ensures RestAt(Repeated(f, hlit, hdist, code, acc, sym), todo, out) ==
              Then(f, RepeatFrom(hlit, hdist, code, acc, sym, todo, out))
  {
    hide Then, RepeatFrom;
  }

  lemma RestCodes(f: bool, lits: seq<nat>, dists: seq<nat>, b: byte, todo: Bits, out: seq<byte>)
    ensures WellFormed(Codes(f, lits, dists))
    ensures RestAt(Codes(f, lits, dists), todo, out) == Then(f, ReadCodes(lits, dists, todo, out))
    ensures WellFormed(Lit(f, lits, dists, b))
    ensures RestAt(Lit(f, lits, dists, b), todo, out) == Then(f, ReadCodes(lits, dists, todo, out + [b]))
  {
    hide Then, ReadCodes;
  }

  lemma RestMatch(f: bool, lits: seq<nat>, dists: seq<nat>, x: nat, y: nat, z: nat, todo: Bits, out: seq<byte>)
    ensures WellFormed(LenExtra(f, lits, dists, x, y))
    ensures RestAt(LenExtra(f, lits, dists, x, y), todo, out) == Then(f, LengthFrom(lits, dists, x, y, todo, out))
    ensures WellFormed(Dist(f, lits, dists, x))
    ensures RestAt(Dist(f, lits, dists, x), todo, out) == Then(f, DistanceFrom(lits, dists, x, todo, out))
    ensures WellFormed(DistExtra(f, lits, dists, x, y, z))
    ensures RestAt(DistExtra(f, lits, dists, x, y, z), todo, out) ==
              Then(f, DistExtraFrom(lits, dists, x, y, z, todo, out))
    ensures WellFormed(Copy(f, lits, dists, x, y))
    ensures RestAt(Copy(f, lits, dists, x, y), todo, out) == Then(f, CopyFrom(lits, dists, x, y, todo, out))
  {
    hide Then, LengthFrom, DistanceFrom, DistExtraFrom, CopyFrom;
  }

  lemma RestEnds(f: bool, todo: Bits, out: seq<byte>)
    ensures WellFormed(After(f)) && RestAt(After(f), todo, out) == Then(f, Some((out, todo)))
    ensures WellFormed(Broken) && RestAt(Broken, todo, out) == None && Then(f, None) == None
    ensures WellFormed(Head) && RestAt(Head, todo, out) == Inflate(todo, out)
  {
    hide Inflate;
  }

  lemma HeadLeads(ring: bool, todo: Bits, out: seq<byte>)
    requires |todo| >= 3
    ensures Leads(ring, Head, todo, out, ByKind(todo[0], FromBits(todo[1..3])), todo[3..], out)
  {
    hide *;
    var f, kind, r := todo[0], FromBits(todo[1..3]), todo[3..];
    BlockBegins(todo, out);
    RestEnds(f, todo, out);
    RestEnds(f, r, out);
    SizesAre(r, out);
    RestByKind(f, kind, r, out);
    HeadSame(ring, todo, out);
    LeadsIf(ring, Head, todo, out, ByKind(f, kind), r, out);
  }

  lemma RestByKind(f: bool, kind: nat, todo: Bits, out: seq<byte>)
    ensures WellFormed(ByKind(f, kind))
    ensures RestAt(ByKind(f, kind), todo, out) == Then(f, KindFrom(kind, todo, out))
  {
    SizesAre(todo, out);
    hide Inflate, ReadStored, ReadCodes, SizesFrom, DynamicFrom, FixedLiterals, FixedDistances;
  }

  lemma AlignLeads(ring: bool, f: bool, todo: Bits, out: seq<byte>)
    ensures |todo| % 8 <= |todo| && Leads(ring, Aligning(f), todo, out, RawHeader(f, []), todo[|todo| % 8..], out)
  {
    var r := todo[|todo| % 8..];
    hide *;
    StoredBegins(todo, out);
    HeaderIs(r, out);
    RestHeader(f, [], todo, out);
    RestHeader(f, [], r, out);
    AlignSame(ring, f, todo, out);
    LeadsIf(ring, Aligning(f), todo, out, RawHeader(f, []), r, out);
  }

  lemma HeaderLeads(ring: bool, f: bool, hdr: seq<byte>, todo: Bits, out: seq<byte>)
    requires |hdr| < 3 && |todo| >= 8
    ensures Leads(ring, RawHeader(f, hdr), todo, out, RawHeader(f, hdr + [FromBits(todo[..8]) % 256]), todo[8..], out)
  {
    var h := hdr + [FromBits(todo[..8]) % 256];
    hide *;
    HeaderNext(hdr, todo, out);
    RestHeader(f, hdr, todo, out);
    RestHeader(f, h, todo[8..], out);
    HeaderSame(ring, f, hdr, todo, out);
    AfterByteIs(RawHeader(f, hdr), FromBits(todo[..8]) % 256);
    LeadsIf(ring, RawHeader(f, hdr), todo, out, RawHeader(f, h), todo[8..], out);
  }

  lemma HeaderLast(ring: bool, f: bool, hdr: seq<byte>, todo: Bits, out: seq<byte>)
    requires |hdr| == 3 && |todo| >= 8
    ensures var h := hdr + [FromBits(todo[..8]) % 256];
            var len, nlen := Number16(h[0], h[1]), Number16(h[2], h[3]);
            Leads(ring, RawHeader(f, hdr), todo, out, if len + nlen != 0xFFFF then Broken else Stored(f, len),
                  todo[8..], out)
  {
    var h := hdr + [FromBits(todo[..8]) % 256];
    hide *;
    var len, nlen, r := Number16(h[0], h[1]), Number16(h[2], h[3]), todo[8..];
    HeaderNext(hdr, todo, out);
    HeaderFull(h, r, out);
    RestHeader(f, hdr, todo, out);
    RestEnds(f, r, out);
    RestStored(f, len, 0, r, out);
    HeaderSame(ring, f, hdr, todo, out);
    AfterByteIs(RawHeader(f, hdr), FromBits(todo[..8]) % 256);
    LeadsIf(ring, RawHeader(f, hdr), todo, out, if len + nlen != 0xFFFF then Broken else Stored(f, len), r, out);
  }

  lemma HeaderFull(h: seq<byte>, r: Bits, out: seq<byte>)
    requires |h| == 4
    ensures HeaderFrom(h, r, out) == if Number16(h[0], h[1]) + Number16(h[2], h[3]) != 0xFFFF then None
            else StoredBytes(Number16(h[0], h[1]), r, out)
  {
    hide StoredBytes, Number16;
  }

  lemma StoredLeads(ring: bool, f: bool, left: nat, todo: Bits, out: seq<byte>)
    requires left > 0 && |todo| >= 8
    ensures Leads(ring, Stored(f, left), todo, out, StoredOut(f, left, FromBits(todo[..8]) % 256), todo[8..], out)
  {
    var b: byte := FromBits(todo[..8]) % 256;
    hide *;
    StoredNext(left, todo, out);
    RestStored(f, left, b, todo, out);
    RestStored(f, left, b, todo[8..], out);
    StoredSame(ring, f, left, todo, out);
    LeadsIf(ring, Stored(f, left), todo, out, StoredOut(f, left, b), todo[8..], out);
  }

  lemma StoredOutLeads(ring: bool, f: bool, left: nat, b: byte, todo: Bits, out: seq<byte>)
    requires left > 0
    ensures Leads(ring, StoredOut(f, left, b), todo, out, Stored(f, left - 1), todo, out + [b])
  {
    hide *;
    RestStored(f, left, b, todo, out);
    RestStored(f, left - 1, b, todo, out + [b]);
    StoredOutSame(ring, f, left, b, todo, out);
    LeadsIf(ring, StoredOut(f, left, b), todo, out, Stored(f, left - 1), todo, out + [b]);
  }

  lemma StoredEnds(ring: bool, f: bool, todo: Bits, out: seq<byte>)
    ensures Leads(ring, Stored(f, 0), todo, out, After(f), todo, out)
  {
    hide *;
    StoredEnd(todo, out);
    RestStored(f, 0, 0, todo, out);
    RestEnds(f, todo, out);
    StoredEndSame(ring, f, todo, out);
    LeadsIf(ring, Stored(f, 0), todo, out, After(f), todo, out);
  }

  lemma SizesLeads(ring: bool, f: bool, sizes: seq<nat>, todo: Bits, out: seq<byte>)
    requires |sizes| < 2 && |todo| >= SizeBits(|sizes|)
    ensures Leads(ring, Sizes(f, sizes), todo, out,
                  Sizes(f, sizes + [FromBits(todo[..SizeBits(|sizes|)]) +
                                    LeastSize(|sizes|)]), todo[SizeBits(|sizes|)..], out)
  {
    hide *;
    var k := SizeBits(|sizes|);
    var s := sizes + [FromBits(todo[..k]) + LeastSize(|sizes|)];
    SizesNext(sizes, todo, out);
    RestSizes(f, sizes, todo, out);
    RestSizes(f, s, todo[k..], out);
    SizesSame(ring, f, sizes, todo, out);
    AfterSizeIs(Sizes(f, sizes), FromBits(todo[..k]));
    LeadsIf(ring, Sizes(f, sizes), todo, out, Sizes(f, s), todo[k..], out);
  }

  lemma SizesEnds(ring: bool, f: bool, sizes: seq<nat>, todo: Bits, out: seq<byte>)
    requires |sizes| == 2 && |todo| >= 4
    ensures FromBits(todo[..4]) < 16 && SizeBits(2) == 4 && LeastSize(2) == 4
    ensures Leads(ring, Sizes(f, sizes), todo, out,
                  CodeLens(f, sizes[0], sizes[1], FromBits(todo[..4]) + 4, 0, Repeat(0, 19)), todo[4..], out)
  {
    ToFromBits(todo[..4]);
    Powers();
    FourBits();
    hide *;
    var x, r := FromBits(todo[..4]), todo[4..];
    SizesNext(sizes, todo, out);
    SizesLast(sizes + [x + 4], r, out);
    RestSizes(f, sizes, todo, out);
    NineteenZeros();
    RestCodeLens(f, sizes[0], sizes[1], x + 4, 0, Repeat(0, 19), r, out);
    SizesSame(ring, f, sizes, todo, out);
    AfterSizeIs(Sizes(f, sizes), x);
    LeadsIf(ring, Sizes(f, sizes), todo, out, CodeLens(f, sizes[0], sizes[1], x + 4, 0, Repeat(0, 19)), r, out);
  }

  lemma FourBits()
    ensures SizeBits(2) == 4 && LeastSize(2) == 4
  {
  }

  lemma NineteenZeros()
    ensures |Repeat(0, 19)| == 19
  {
  }

  lemma CodeLensLeads(ring: bool, f: bool, hlit: nat, hdist: nat, n: nat, i: nat, code: seq<nat>, todo: Bits,
                      out: seq<byte>)
    requires i + 1 < n <= 19 == |code| && |todo| >= 3 && SWIZZLE[i] < 19
    ensures Leads(ring, CodeLens(f, hlit, hdist, n, i, code), todo, out,
                  CodeLens(f, hlit, hdist, n, i + 1, code[SWIZZLE[i] := FromBits(todo[..3])]), todo[3..], out)
  {
    hide *;
    SwizzleSize();
    var code', r := code[SWIZZLE[i] := FromBits(todo[..3])], todo[3..];
    CodeLensNext(hlit, hdist, n, i, code, todo, out);
    RestCodeLens(f, hlit, hdist, n, i, code, todo, out);
    RestCodeLens(f, hlit, hdist, n, i + 1, code', r, out);
    CodeLensSame(ring, f, hlit, hdist, n, i, code, todo, out);
    AfterCodeLenIs(CodeLens(f, hlit, hdist, n, i, code), FromBits(todo[..3]));
    LeadsIf(ring, CodeLens(f, hlit, hdist, n, i, code), todo, out, CodeLens(f, hlit, hdist, n, i + 1, code'), r, out);
  }

  lemma CodeLensEnds(ring: bool, f: bool, hlit: nat, hdist: nat, n: nat, code: seq<nat>, todo: Bits, out: seq<byte>)
    requires 0 < n <= 19 == |code| && |todo| >= 3 && hlit + hdist > 0 && SWIZZLE[n - 1] < 19
    ensures var code' := code[SWIZZLE[n - 1] := FromBits(todo[..3])];
            Leads(ring, CodeLens(f, hlit, hdist, n, n - 1, code), todo, out,
                  if Acceptable(code') then Lens(f, hlit, hdist, code', []) else Broken, todo[3..], out)
  {
    hide *;
    SwizzleSize();
    var code', r := code[SWIZZLE[n - 1] := FromBits(todo[..3])], todo[3..];
    CodeLensNext(hlit, hdist, n, n - 1, code, todo, out);
    CodeLensLast(hlit, hdist, n, code', r, out);
    RestCodeLens(f, hlit, hdist, n, n - 1, code, todo, out);
    RestEnds(f, r, out);
    RestLens(f, hlit, hdist, code', [], r, out);
    CodeLensSame(ring, f, hlit, hdist, n, n - 1, code, todo, out);
    AfterCodeLenIs(CodeLens(f, hlit, hdist, n, n - 1, code), FromBits(todo[..3]));
    LeadsIf(ring, CodeLens(f, hlit, hdist, n, n - 1, code), todo, out,
            if Acceptable(code') then Lens(f, hlit, hdist, code', []) else Broken, r, out);
  }

  lemma RestMoreLens(f: bool, hlit: nat, hdist: nat, code: seq<nat>, acc: seq<nat>, todo: Bits, out: seq<byte>)
    requires |code| == 19
    ensures WellFormed(MoreLens(f, hlit, hdist, code, acc))
    ensures RestAt(MoreLens(f, hlit, hdist, code, acc), todo, out) ==
              Then(f, LensFrom(hlit, hdist, code, acc, todo, out))
  {
    hide *;
    MoreLensIs(f, hlit, hdist, code, acc);
    RestEnds(f, todo, out);
    if |acc| < hlit + hdist {
      RestLens(f, hlit, hdist, code, acc, todo, out);
    } else {
      LensDone(hlit, hdist, code, acc, todo, out);
      if |acc| == hlit + hdist { RestWithLens(f, hlit, acc, todo, out); }
    }
  }

  lemma MoreLensIs(f: bool, hlit: nat, hdist: nat, code: seq<nat>, acc: seq<nat>)
    ensures MoreLens(f, hlit, hdist, code, acc) ==
            if |acc| < hlit + hdist then Lens(f, hlit, hdist, code, acc)
              else if |acc| == hlit + hdist then WithLens(f, hlit, acc) else Broken
  {
    hide WithLens;
  }

  lemma RestWithLens(f: bool, hlit: nat, lens: seq<nat>, todo: Bits, out: seq<byte>)
    requires hlit <= |lens|
    ensures WellFormed(WithLens(f, hlit, lens))
    ensures RestAt(WithLens(f, hlit, lens), todo, out) == Then(f, TablesFrom(lens, hlit, todo, out))
  {
    RestCodes(f, lens[..hlit], lens[hlit..], 0, todo, out);
    RestEnds(f, todo, out);
    hide RestAt, WellFormed, Then, ReadCodes, Acceptable;
  }

  lemma RestBySym(f: bool, hlit: nat, hdist: nat, code: seq<nat>, acc: seq<nat>, sym: nat, todo: Bits, out: seq<byte>)
    requires |code| == 19 && |acc| < hlit + hdist && sym < 19
    ensures WellFormed(BySym(f, hlit, hdist, code, acc, sym))
    ensures RestAt(BySym(f, hlit, hdist, code, acc, sym), todo, out) ==
              Then(f, RepeatFrom(hlit, hdist, code, acc, sym, todo, out))
  {
    hide *;
    BySymIs(f, hlit, hdist, code, acc, sym);
    if sym < 16 {
      RestMoreLens(f, hlit, hdist, code, acc + [sym], todo, out);
      RepeatPlain(hlit, hdist, code, acc, sym, todo, out);
    } else if sym == 16 && acc == [] {
      RepeatNothing(hlit, hdist, code, todo, out);
      RestEnds(f, todo, out);
    } else {
      RestRepeat(f, hlit, hdist, code, acc, sym, todo, out);
    }
  }

  lemma BySymIs(f: bool, hlit: nat, hdist: nat, code: seq<nat>, acc: seq<nat>, sym: nat)
    ensures BySym(f, hlit, hdist, code, acc, sym) ==
            if sym < 16 then MoreLens(f, hlit, hdist, code, acc + [sym])
            else if sym >= 19 || (sym == 16 && acc == []) then Broken
            else Repeated(f, hlit, hdist, code, acc, sym)
  {
    hide MoreLens;
  }

  lemma RepeatNothing(hlit: nat, hdist: nat, code: seq<nat>, todo: Bits, out: seq<byte>)
    requires |code| == 19
    ensures RepeatFrom(hlit, hdist, code, [], 16, todo, out) == None
  {
    hide Take, LensFrom;
  }

  lemma LensLeads(ring: bool, f: bool, hlit: nat, hdist: nat, code: seq<nat>, acc: seq<nat>, sym: nat, todo: Bits,
                  todo': Bits,
                  out: seq<byte>)
    requires |code| == 19 && |acc| < hlit + hdist && sym < 19 && Decoded(code, todo, sym, todo')
    ensures Leads(ring, Lens(f, hlit, hdist, code, acc), todo, out, BySym(f, hlit, hdist, code, acc, sym), todo', out)
  {
    DecodedGives(code, todo, sym, todo');
    hide *;
    RestLens(f, hlit, hdist, code, acc, todo, out);
    RestBySym(f, hlit, hdist, code, acc, sym, todo', out);
    RestEnds(f, todo, out);
    if !Lax(ring, Lens(f, hlit, hdist, code, acc), todo, out) {
      AtCode(Lens(f, hlit, hdist, code, acc));
      SymbolThere(ring, Lens(f, hlit, hdist, code, acc), todo, out, sym, todo');
      LensStep(hlit, hdist, code, acc, todo, out, sym, todo');
      LensSame(ring, f, hlit, hdist, code, acc, todo, out, sym, todo');
    }
    LaxLeaves(ring, Lens(f, hlit, hdist, code, acc), todo, out);
    LeadsIf(ring, Lens(f, hlit, hdist, code, acc), todo, out, BySym(f, hlit, hdist, code, acc, sym), todo', out);
  }

  lemma AtCode(p: Point)
    requires p.Lens? || p.Codes? || p.Dist?
    ensures AtSymbols(p) && CodeAt(p) == match p case Lens(_, _, _, code, _) => code
                                                case Codes(_, lits, _) => lits case Dist(_, _, dists, _) => dists
  {
  }

  lemma DecodedGives(lens: seq<nat>, todo: Bits, sym: nat, todo': Bits)
    requires Decoded(lens, todo, sym, todo')
    ensures Valid(lens) && (DecodeSym(lens, todo).Some? ==> DecodeSym(lens, todo) == Some((sym, todo')))
  {
    hide DecodeSym, Valid;
  }

  lemma LensStuck(hlit: nat, hdist: nat, code: seq<nat>, acc: seq<nat>, todo: Bits, out: seq<byte>)
    requires |code| == 19 && |acc| < hlit + hdist && DecodeSym(code, todo).None?
    ensures LensFrom(hlit, hdist, code, acc, todo, out) == None
  {
    hide DecodeSym, TablesFrom;
  }

  lemma RepeatLeads(ring: bool, f: bool, hlit: nat, hdist: nat, code: seq<nat>, acc: seq<nat>, sym: nat, todo: Bits,
                    out: seq<byte>)
    requires |code| == 19 && |acc| < hlit + hdist && 16 <= sym < 19 && (sym == 16 ==> acc != [])
    requires |todo| >= ExtraBits(sym)
    ensures var k := ExtraBits(sym);
            Leads(ring, Repeated(f, hlit, hdist, code, acc, sym), todo, out,
                  MoreLens(f, hlit, hdist, code, WithRepeat(acc, sym, FromBits(todo[..k]))), todo[k..], out)
  {
    var k := ExtraBits(sym);
    var acc', r := WithRepeat(acc, sym, FromBits(todo[..k])), todo[k..];
    RepeatIs(hlit, hdist, code, acc, sym, todo, out);
    hide *;
    RestRepeat(f, hlit, hdist, code, acc, sym, todo, out);
    RestMoreLens(f, hlit, hdist, code, acc', r, out);
    RepeatSame(ring, f, hlit, hdist, code, acc, sym, todo, out);
    LeadsIf(ring, Repeated(f, hlit, hdist, code, acc, sym), todo, out, MoreLens(f, hlit, hdist, code, acc'), r, out);
  }

  lemma RepeatIs(hlit: nat, hdist: nat, code: seq<nat>, acc: seq<nat>, sym: nat, todo: Bits, out: seq<byte>)
    requires |code| == 19 && 16 <= sym < 19 && (sym == 16 ==> acc != []) && |todo| >= ExtraBits(sym)
    ensures var k := ExtraBits(sym);
            RepeatFrom(hlit, hdist, code, acc, sym, todo, out) ==
              LensFrom(hlit, hdist, code, WithRepeat(acc, sym, FromBits(todo[..k])), todo[k..], out)
  {
    hide LensFrom, FromBits;
  }

  // ---------------------------------------------------------------- the symbols of a block

  lemma RestBySymbol(f: bool, lits: seq<nat>, dists: seq<nat>, sym: nat, todo: Bits, out: seq<byte>)
    ensures WellFormed(BySymbol(f, lits, dists, sym))
    ensures sym - 257 < |LENGTH_BASE| ==>
              RestAt(BySymbol(f, lits, dists, sym), todo, out) == Then(f, SymbolFrom(lits, dists, sym, todo, out))
    ensures sym - 257 >= |LENGTH_BASE| ==> SymbolFrom(lits, dists, sym, todo, out) == None
  {
    if sym < 256 {
      RestCodes(f, lits, dists, sym, todo, out);
    } else if sym == 256 {
      RestEnds(f, todo, out);
    } else {
      var b, e := LengthBase(sym - 257), LengthExtra(sym - 257);
      RestMatch(f, lits, dists, b, e, 0, todo, out);
      NoExtraLength(lits, dists, b, todo, out);
    }
    hide RestAt, WellFormed, Then, LengthFrom, DistanceFrom, ReadCodes;
  }

  lemma NoExtraLength(lits: seq<nat>, dists: seq<nat>, base: nat, todo: Bits, out: seq<byte>)
    ensures LengthFrom(lits, dists, base, 0, todo, out) == DistanceFrom(lits, dists, base, todo, out)
  {
    assert todo[0..] == todo && FromBits(todo[..0]) == 0;
    hide DistanceFrom;
  }

  lemma CodesLeads(ring: bool, f: bool, lits: seq<nat>, dists: seq<nat>, sym: nat, todo: Bits, todo': Bits,
                   out: seq<byte>)
    requires Decoded(lits, todo, sym, todo')
    ensures Leads(ring, Codes(f, lits, dists), todo, out, BySymbol(f, lits, dists, sym), todo', out)
  {
    DecodedGives(lits, todo, sym, todo');
    hide *;
    RestCodes(f, lits, dists, 0, todo, out);
    RestBySymbol(f, lits, dists, sym, todo', out);
    RestEnds(f, todo, out);
    if !Lax(ring, Codes(f, lits, dists), todo, out) {
      AtCode(Codes(f, lits, dists));
      SymbolThere(ring, Codes(f, lits, dists), todo, out, sym, todo');
      CodesStep(lits, dists, todo, out, sym, todo');
      CodesSame(ring, f, lits, dists, todo, out, sym, todo');
    }
    LaxLeaves(ring, Codes(f, lits, dists), todo, out);
    LeadsIf(ring, Codes(f, lits, dists), todo, out, BySymbol(f, lits, dists, sym), todo', out);
  }

  lemma LitLeads(ring: bool, f: bool, lits: seq<nat>, dists: seq<nat>, b: byte, todo: Bits, out: seq<byte>)
    ensures Leads(ring, Lit(f, lits, dists, b), todo, out, Codes(f, lits, dists), todo, out + [b])
  {
    hide *;
    RestCodes(f, lits, dists, b, todo, out);
    RestCodes(f, lits, dists, b, todo, out + [b]);
    LitSame(ring, f, lits, dists, b, todo, out);
    LeadsIf(ring, Lit(f, lits, dists, b), todo, out, Codes(f, lits, dists), todo, out + [b]);
  }

  lemma LenExtraLeads(ring: bool, f: bool, lits: seq<nat>, dists: seq<nat>, base: nat, extra: nat, todo: Bits,
                      out: seq<byte>)
    requires |todo| >= extra
    ensures Leads(ring, LenExtra(f, lits, dists, base, extra), todo, out,
                  Dist(f, lits, dists, base + FromBits(todo[..extra])), todo[extra..], out)
  {
    hide *;
    LengthIs(lits, dists, base, extra, todo, out);
    var x, r := FromBits(todo[..extra]), todo[extra..];
    RestMatch(f, lits, dists, base, extra, 0, todo, out);
    RestMatch(f, lits, dists, base + x, 0, 0, r, out);
    LenExtraSame(ring, f, lits, dists, base, extra, todo, out);
    LeadsIf(ring, LenExtra(f, lits, dists, base, extra), todo, out, Dist(f, lits, dists, base + x), r, out);
  }

  lemma TakeIs(todo: Bits, n: nat)
    requires |todo| >= n
    ensures Take(todo, n) == Some((FromBits(todo[..n]), todo[n..]))
  {
    hide FromBits;
  }

  lemma LengthIs(lits: seq<nat>, dists: seq<nat>, base: nat, extra: nat, todo: Bits, out: seq<byte>)
    requires |todo| >= extra
    ensures LengthFrom(lits, dists, base, extra, todo, out) ==
              DistanceFrom(lits, dists, base + FromBits(todo[..extra]), todo[extra..], out)
  {
    hide DistanceFrom, Take, FromBits;
    TakeIs(todo, extra);
  }

  lemma RestByDist(f: bool, lits: seq<nat>, dists: seq<nat>, len: nat, sym: nat, todo: Bits, out: seq<byte>)
    ensures WellFormed(ByDist(f, lits, dists, len, sym))
    ensures sym < |DIST_BASE| ==>
              RestAt(ByDist(f, lits, dists, len, sym), todo, out) ==
                Then(f, DistExtraFrom(lits, dists, len, DIST_BASE[sym], DIST_EXTRA[sym], todo, out))
    ensures sym >= |DIST_BASE| ==> RestAt(ByDist(f, lits, dists, len, sym), todo, out) == None
  {
    if sym >= |DIST_BASE| {
      CopyTooFar(lits, dists, 0, len, todo, out);
      RestEnds(f, todo, out);
    }
    var b, e := DistBase(sym), DistExtraBits(sym);
    hide RestAt, WellFormed, Then, DistExtraFrom, CopyFrom;
    RestMatch(f, lits, dists, len, b, e, todo, out);
    RestMatch(f, lits, dists, b, len, 0, todo, out);
    NoExtraDist(lits, dists, len, b, todo, out);
    hide RestAt, WellFormed, Then, DistExtraFrom, CopyFrom;
  }

  lemma NoExtraDist(lits: seq<nat>, dists: seq<nat>, len: nat, base: nat, todo: Bits, out: seq<byte>)
    ensures DistExtraFrom(lits, dists, len, base, 0, todo, out) == CopyFrom(lits, dists, base, len, todo, out)
  {
    assert todo[0..] == todo && FromBits(todo[..0]) == 0;
    hide CopyFrom;
  }

  lemma DistLeads(ring: bool, f: bool, lits: seq<nat>, dists: seq<nat>, len: nat, sym: nat, todo: Bits, todo': Bits,
                  out: seq<byte>)
    requires Decoded(dists, todo, sym, todo')
    ensures Leads(ring, Dist(f, lits, dists, len), todo, out, ByDist(f, lits, dists, len, sym), todo', out)
  {
    DecodedGives(dists, todo, sym, todo');
    DistanceIs(lits, dists, len, sym, todo, todo', out);
    hide *;
    RestMatch(f, lits, dists, len, 0, 0, todo, out);
    RestByDist(f, lits, dists, len, sym, todo', out);
    RestEnds(f, todo, out);
    if !Lax(ring, Dist(f, lits, dists, len), todo, out) {
      AtCode(Dist(f, lits, dists, len));
      SymbolThere(ring, Dist(f, lits, dists, len), todo, out, sym, todo');
      DistSame(ring, f, lits, dists, len, todo, out, sym, todo');
    }
    LaxLeaves(ring, Dist(f, lits, dists, len), todo, out);
    LeadsIf(ring, Dist(f, lits, dists, len), todo, out, ByDist(f, lits, dists, len, sym), todo', out);
  }

  lemma DistanceIs(lits: seq<nat>, dists: seq<nat>, len: nat, sym: nat, todo: Bits, todo': Bits, out: seq<byte>)
    requires DecodeSym(dists, todo).Some? ==> DecodeSym(dists, todo) == Some((sym, todo'))
    ensures DistanceFrom(lits, dists, len, todo, out) ==
            if DecodeSym(dists, todo).Some? &&
                   sym < |DIST_BASE| then DistExtraFrom(lits, dists, len, DIST_BASE[sym], DIST_EXTRA[sym], todo', out)
                     else None
  {
    hide DecodeSym, DistExtraFrom;
  }

  lemma DistExtraLeads(ring: bool, f: bool, lits: seq<nat>, dists: seq<nat>, len: nat, base: nat, extra: nat,
                       todo: Bits,
                       out: seq<byte>)
    requires |todo| >= extra
    ensures Leads(ring, DistExtra(f, lits, dists, len, base, extra), todo, out,
                  Copy(f, lits, dists, base + FromBits(todo[..extra]), len), todo[extra..], out)
  {
    hide *;
    DistExtraIs(lits, dists, len, base, extra, todo, out);
    var x, r := FromBits(todo[..extra]), todo[extra..];
    RestMatch(f, lits, dists, len, base, extra, todo, out);
    RestMatch(f, lits, dists, base + x, len, 0, r, out);
    DistExtraSame(ring, f, lits, dists, len, base, extra, todo, out);
    LeadsIf(ring, DistExtra(f, lits, dists, len, base, extra), todo, out, Copy(f, lits, dists, base + x, len), r, out);
  }

  lemma DistExtraIs(lits: seq<nat>, dists: seq<nat>, len: nat, base: nat, extra: nat, todo: Bits, out: seq<byte>)
    requires |todo| >= extra
    ensures DistExtraFrom(lits, dists, len, base, extra, todo, out) ==
              CopyFrom(lits, dists, base + FromBits(todo[..extra]), len, todo[extra..], out)
  {
    hide CopyFrom, Take, FromBits;
    TakeIs(todo, extra);
  }

  /** One byte of a match. */
  lemma CopyLeads(ring: bool, f: bool, lits: seq<nat>, dists: seq<nat>, dist: nat, len: nat, todo: Bits, out: seq<byte>,
                  out': seq<byte>)
    requires len > 0 && (ring || 1 <= dist <= |out|) && (1 <= dist <= |out| ==> out' == out + [out[|out| - dist]])
    ensures Leads(ring, Copy(f, lits, dists, dist, len), todo, out, Copy(f, lits, dists, dist, len - 1), todo, out')
  {
    hide *;
    RestMatch(f, lits, dists, dist, len, 0, todo, out);
    RestMatch(f, lits, dists, dist, len - 1, 0, todo, out');
    RestEnds(f, todo, out);
    if 1 <= dist <= |out| {
      CopyNext(lits, dists, dist, len, todo, out);
      CopyOneSame(ring, f, lits, dists, dist, len, todo, out);
    } else {
      LaxCopy(ring, f, lits, dists, dist, len, todo, out);
    }
    LeadsIf(ring, Copy(f, lits, dists, dist, len), todo, out, Copy(f, lits, dists, dist, len - 1), todo, out');
  }

  lemma LaxCopy(ring: bool, f: bool, lits: seq<nat>, dists: seq<nat>, dist: nat, len: nat, todo: Bits, out: seq<byte>)
    ensures Lax(ring, Copy(f, lits, dists, dist, len), todo, out) <==> ring && !(1 <= dist <= |out|)
    ensures Leaves(ring, Copy(f, lits, dists, dist, len), todo, out) <==> ring && !(1 <= dist <= |out|)
  {
    hide NoCode, DecodeSym, CodeAt;
  }

  lemma CopyTooFar(lits: seq<nat>, dists: seq<nat>, dist: nat, len: nat, todo: Bits, out: seq<byte>)
    requires !(1 <= dist <= |out|)
    ensures CopyFrom(lits, dists, dist, len, todo, out) == None
  {
  }

  /** All of a match. */
  lemma CopyAll(ring: bool, f: bool, lits: seq<nat>, dists: seq<nat>, dist: nat, len: nat, todo: Bits, out: seq<byte>,
                out': seq<byte>)
    requires (ring || 1 <= dist <= |out|) && (1 <= dist <= |out| ==> out' == CopyBack(out, dist, len))
    ensures Leads(ring, Copy(f, lits, dists, dist, len), todo, out, Codes(f, lits, dists), todo, out')
  {
    hide *;
    RestMatch(f, lits, dists, dist, len, 0, todo, out);
    RestCodes(f, lits, dists, 0, todo, out');
    RestEnds(f, todo, out);
    CopyWhole(lits, dists, dist, len, todo, out);
    if 1 <= dist <= |out| {
      CopySame(ring, f, lits, dists, dist, len, todo, out);
    } else {
      LaxCopy(ring, f, lits, dists, dist, len, todo, out);
    }
    LeadsIf(ring, Copy(f, lits, dists, dist, len), todo, out, Codes(f, lits, dists), todo, out');
  }

  lemma CopyWhole(lits: seq<nat>, dists: seq<nat>, dist: nat, len: nat, todo: Bits, out: seq<byte>)
    ensures CopyFrom(lits, dists, dist, len, todo, out) ==
              if 1 <= dist <= |out| then ReadCodes(lits, dists, todo, CopyBack(out, dist, len)) else None
  {
    hide ReadCodes;
  }

  lemma CopyEnd(ring: bool, f: bool, lits: seq<nat>, dists: seq<nat>, dist: nat, todo: Bits, out: seq<byte>)
    requires ring || 1 <= dist <= |out|
    ensures Leads(ring, Copy(f, lits, dists, dist, 0), todo, out, Codes(f, lits, dists), todo, out)
  {
    CopyNothing(out, dist);
    CopyAll(ring, f, lits, dists, dist, 0, todo, out, out);
  }

  lemma CopyNothing(out: seq<byte>, dist: nat)
    ensures 1 <= dist <= |out| ==> CopyBack(out, dist, 0) == out
  {
  }

  /** A match that reaches too far back ends it all. */
  lemma CopyBreaks(ring: bool, f: bool, lits: seq<nat>, dists: seq<nat>, dist: nat, len: nat, todo: Bits,
                   out: seq<byte>)
    requires dist == 0 || dist > |out|
    ensures Leads(ring, Copy(f, lits, dists, dist, len), todo, out, Broken, todo, out)
  {
    hide *;
    RestMatch(f, lits, dists, dist, len, 0, todo, out);
    RestEnds(f, todo, out);
    LaxCopy(ring, f, lits, dists, dist, len, todo, out);
    CopyTooFar(lits, dists, dist, len, todo, out);
    if !ring { FarSame(f, lits, dists, dist, len, todo, out); }
    LeadsIf(ring, Copy(f, lits, dists, dist, len), todo, out, Broken, todo, out);
  }

  /** The bits up to the byte boundary are passed over. */
  lemma LastLeads(ring: bool, todo: Bits, out: seq<byte>, k: nat)
    requires k < 8 && k <= |todo| && (|todo| - k) % 8 == 0
    ensures Leads(ring, Last, todo, out, Ended(todo[..k]), todo[k..], out)
  {
    hide *;
    LastSame(ring, todo, out, k);
    LastRest(todo, out, k);
    LeadsIf(ring, Last, todo, out, Ended(todo[..k]), todo[k..], out);
  }

  lemma LastRest(todo: Bits, out: seq<byte>, k: nat)
    requires k < 8 && k <= |todo| && (|todo| - k) % 8 == 0
    ensures WellFormed(Last) && WellFormed(Ended(todo[..k]))
    ensures RestAt(Last, todo, out) == RestAt(Ended(todo[..k]), todo[k..], out)
  {
    assert todo[..k] + todo[k..] == todo;
  }

  lemma EndedWhole(ring: bool, whole: Result, all: Bits, p: Point, todo: Bits, out: seq<byte>)
    requires OnTrack(ring, whole, all, p, todo, out) && p.Ended? && whole.Some?
    ensures whole == Some((out, p.skipped + todo)) && |p.skipped| < 8 && |todo| % 8 == 0
  {
  }

  // ---------------------------------------------------------------- symbols that are wanted

  lemma WantsSymbol(p: Point, todo: Bits, n: nat)
    requires p.Lens? || p.Codes? || p.Dist?
    ensures Wants(p, todo, n) <==> Unfinished(CodeAt(p), todo, n)
  {
  }

  /** Without a symbol there is nothing more. */
  lemma NoSymbol(p: Point, todo: Bits, out: seq<byte>)
    requires WellFormed(p) && (p.Lens? || p.Codes? || p.Dist?) && DecodeSym(CodeAt(p), todo).None?
    ensures RestAt(p, todo, out).None?
  {
    match p
    case Lens(f, hlit, hdist, code, acc) =>
      LensStuck(hlit, hdist, code, acc, todo, out); RestLens(f, hlit, hdist, code, acc, todo, out);
    case Codes(f, lits, dists) => CodesEnd(lits, dists, todo, out); RestCodes(f, lits, dists, 0, todo, out);
    case Dist(f, lits, dists, len) =>
      NoDistance(lits, dists, len, todo, out); RestMatch(f, lits, dists, len, 0, 0, todo, out);
    hide RestAt, WellFormed, DecodeSym, LensFrom, ReadCodes, DistanceFrom;
  }

  lemma NoDistance(lits: seq<nat>, dists: seq<nat>, len: nat, todo: Bits, out: seq<byte>)
    requires DecodeSym(dists, todo).None?
    ensures DistanceFrom(lits, dists, len, todo, out).None?
  {
  }

  /** A symbol decoded where more than n bits were wanted takes more than n bits. */
  lemma SymbolTakes(ring: bool, whole: Result, all: Bits, p: Point, todo: Bits, out: seq<byte>, n: int, sym: nat,
                    todo': Bits)
    requires (p.Lens? || p.Codes? || p.Dist?) && OnTrack(ring, whole, all, p, todo, out)
    requires Decoded(CodeAt(p), todo, sym, todo')
    ensures whole.Some? && Wants(p, todo, n) ==> |todo| - |todo'| > n
  {
    if whole.Some? && Wants(p, todo, n) {
      if DecodeSym(CodeAt(p), todo).None? { NoSymbol(p, todo, out); }
      hide RestAt, CodeBits;
      WantsSym(p, todo, n);
      SymbolLength(CodeAt(p), todo, sym, todo', n);
    }
  }

  lemma WantsSym(p: Point, todo: Bits, n: int)
    requires (p.Lens? || p.Codes? || p.Dist?) && Wants(p, todo, n)
    ensures WantsCode(CodeAt(p), todo, n)
  {
    hide WantsCode;
  }

  lemma SymbolLength(lens: seq<nat>, todo: Bits, sym: nat, todo': Bits, n: int)
    requires WantsCode(lens, todo, n) && DecodeSym(lens, todo).Some? && Decoded(lens, todo, sym, todo')
    ensures |todo| - |todo'| > n
  {
    hide CodeBits, Valid;
  }

  /** Wanting more bits than there are, there is nothing more. */
  lemma WantsTooMuch(p: Point, todo: Bits, out: seq<byte>)
    requires WellFormed(p) && Wants(p, todo, |todo|)
    ensures RestAt(p, todo, out).None?
  {
    hide *;
    if p.Lens? || p.Codes? || p.Dist? {
      WantsSym(p, todo, |todo|);
      NoSymbolLeft(CodeAt(p), todo);
      NoSymbol(p, todo, out);
    } else {
      WantsTooMuchBits(p, todo, out);
    }
  }

  lemma NoSymbolLeft(lens: seq<nat>, todo: Bits)
    requires WantsCode(lens, todo, |todo|)
    ensures DecodeSym(lens, todo).None?
  {
    hide CodeBits, Valid;
  }

  lemma WantsTooMuchBits(p: Point, todo: Bits, out: seq<byte>)
    requires WellFormed(p) && Wants(p, todo, |todo|) && !p.Lens? && !p.Codes? && !p.Dist?
    ensures RestAt(p, todo, out).None?
  {
    hide *;
    match p {
      case Head => HeadWants(todo); BlockBegins(todo, out); RestEnds(true, todo, out);
      case RawHeader(f, hdr) =>
        PlainWants(p, todo); HeaderNext(hdr, todo, out); RestHeader(f, hdr, todo, out); RestEnds(f, todo, out);
      case Stored(f, left) =>
        PlainWants(p, todo); StoredShort(left, todo, out); RestStored(f, left, 0, todo, out); RestEnds(f, todo, out);
      case Sizes(f, sizes) =>
        PlainWants(p, todo); SizesNext(sizes, todo, out); RestSizes(f, sizes, todo, out); RestEnds(f, todo, out);
      case CodeLens(f, hlit, hdist, n, i, code) =>
        PlainWants(p, todo); CodeLensNext(hlit, hdist, n, i, code, todo, out); RestCodeLens(f, hlit, hdist, n, i, code,
            todo, out); RestEnds(f, todo, out);
      case Repeated(f, hlit, hdist, code, acc, sym) =>
        PlainWants(p, todo); RepeatShort(hlit, hdist, code, acc, sym, todo, out); RestRepeat(f, hlit, hdist, code, acc,
            sym, todo, out); RestEnds(f, todo, out);
      case LenExtra(f, lits, dists, base, extra) =>
        PlainWants(p, todo); ExtraShort(lits, dists, base, extra, 0, todo, out); RestMatch(f, lits, dists, base, extra,
            0, todo, out); RestEnds(f, todo, out);
      case DistExtra(f, lits, dists, len, base, extra) =>
        PlainWants(p, todo); ExtraShort(lits, dists, len, base, extra, todo, out); RestMatch(f, lits, dists, len, base,
            extra, todo, out); RestEnds(f, todo, out);
      case _ => OthersWant(p, todo);
    }
  }

  lemma HeadWants(todo: Bits)
    requires Wants(Head, todo, |todo|)
    ensures |todo| < 3
  {
  }

  lemma OthersWant(p: Point, todo: Bits)
    requires p.Aligning? || p.StoredOut? || p.Lit? || p.Copy? || p.Last? || p.Broken? || p.Ended?
    ensures !Wants(p, todo, |todo|)
  {
  }

  lemma PlainWants(p: Point, todo: Bits)
    requires WellFormed(p) && Wants(p, todo, |todo|)
    ensures p.RawHeader? ==> |p.hdr| < 4 && |todo| < 8
    ensures p.Stored? ==> p.left > 0 && |todo| < 8
    ensures p.Sizes? ==> |p.sizes| < 3 && |todo| < SizeBits(|p.sizes|)
    ensures p.CodeLens? ==> p.i < p.n <= 19 == |p.code| && |todo| < 3
    ensures p.Repeated? ==>
              |p.code| == 19 && 16 <= p.sym < 19 && |p.acc| < p.hlit + p.hdist && |todo| < ExtraBits(p.sym)
    ensures p.LenExtra? || p.DistExtra? ==> |todo| < p.extra
  {
  }

  lemma StoredShort(left: nat, todo: Bits, out: seq<byte>)
    requires left > 0 && |todo| < 8
    ensures StoredBytes(left, todo, out).None?
  {
  }

  lemma RepeatShort(hlit: nat, hdist: nat, code: seq<nat>, acc: seq<nat>, sym: nat, todo: Bits, out: seq<byte>)
    requires |code| == 19 && sym < 19 && |todo| < ExtraBits(sym)
    ensures RepeatFrom(hlit, hdist, code, acc, sym, todo, out).None?
  {
    hide LensFrom;
  }

  lemma ExtraShort(lits: seq<nat>, dists: seq<nat>, x: nat, y: nat, z: nat, todo: Bits, out: seq<byte>)
    ensures |todo| < y ==> LengthFrom(lits, dists, x, y, todo, out).None?
    ensures |todo| < z ==> DistExtraFrom(lits, dists, x, y, z, todo, out).None?
  {
    hide CopyFrom, DistanceFrom;
  }

  // ---------------------------------------------------------------- numbers taken

  lemma AfterByteLeads(ring: bool, p: Point, v: byte, todo: Bits, out: seq<byte>)
    requires p.RawHeader? && |p.hdr| < 4 && |todo| >= 8 && v == FromBits(todo[..8]) % 256
    ensures Leads(ring, p, todo, out, AfterByte(p, v), todo[8..], out)
  {
    hide *;
    AfterByteIs(p, v);
    if |p.hdr| < 3 { HeaderLeads(ring, p.final, p.hdr, todo, out); }
      else { HeaderLast(ring, p.final, p.hdr, todo, out); }
  }

  lemma NeedsMeans(p: Point, todo: Bits, n: int)
    requires Needs(p).Some?
    ensures Wants(p, todo, n) <==> n < Needs(p).value
    ensures !p.Lens? && !p.Codes? && !p.Dist?
  {
  }

  lemma AfterSizeLeads(ring: bool, p: Point, v: nat, todo: Bits, out: seq<byte>)
    requires p.Sizes? && |p.sizes| < 3 && |todo| >= SizeBits(|p.sizes|) && v == FromBits(todo[..SizeBits(|p.sizes|)])
    ensures Leads(ring, p, todo, out, AfterSize(p, v), todo[SizeBits(|p.sizes|)..], out)
  {
    hide *;
    AfterSizeIs(p, v);
    if |p.sizes| < 2 {
      SizesLeads(ring, p.final, p.sizes, todo, out);
    } else {
      FourBits();
      SizesEnds(ring, p.final, p.sizes, todo, out);
    }
  }

  /** A number of codes is within what the format can say. */
  lemma SizesAreFew(sizes: seq<nat>, v: nat)
    requires |sizes| < 3 && SizesFit(sizes) && v < Pow2(SizeBits(|sizes|))
    ensures SizesFit(sizes + [v + LeastSize(|sizes|)])
    ensures |sizes| == 2 ==> 4 <= v + LeastSize(2) <= 19
  {
    Powers();
  }

  lemma AfterCodeLenLeads(ring: bool, p: Point, v: nat, todo: Bits, out: seq<byte>)
    requires p.CodeLens? && p.i < p.n <= 19 == |p.code| && |todo| >= 3 && v == FromBits(todo[..3])
    requires SizesFit([p.hlit, p.hdist])
    ensures Leads(ring, p, todo, out, AfterCodeLen(p, v), todo[3..], out)
  {
    hide *;
    SwizzleSize();
    AfterCodeLenIs(p, v);
    if p.i + 1 < p.n {
      CodeLensLeads(ring, p.final, p.hlit, p.hdist, p.n, p.i, p.code, todo, out);
    } else {
      SomeCodes(p.hlit, p.hdist);
      CodeLensEnds(ring, p.final, p.hlit, p.hdist, p.n, p.code, todo, out);
    }
  }

  lemma SomeCodes(hlit: nat, hdist: nat)
    requires SizesFit([hlit, hdist])
    ensures 0 < hlit + hdist <= 320 && 257 <= hlit <= 288 && 1 <= hdist <= 32
  {
  }

  /** The numbers of codes are within what the format can say. */
  ghost predicate SizesFit(sizes: seq<nat>)
  {
    (|sizes| > 0 ==> 257 <= sizes[0] <= 288) && (|sizes| > 1 ==> 1 <= sizes[1] <= 32)
  }
}
