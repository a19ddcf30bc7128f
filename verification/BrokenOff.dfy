/**
  What comes out of a stream that breaks off: with all that its end needs, all of its output; with
  less, the part of it that those bytes stand for.
 */
module BrokenOff {
  import opened Wrappers
  import opened Bits
  import opened CanonicalCode
  import opened Deflate
  import opened Resume
  import opened HuffDecode
  import opened Halting
  import opened Points
  import opened Growth
  import BlockWriter

  /** Codes at this point are codes, and the numbers of codes are what the format can say. */
  ghost predicate Sound(p: Point)
  {
    match p
    case Sizes(_, sizes) => SizesFit(sizes)
    case CodeLens(_, hlit, hdist, _, _, _) => SizesFit([hlit, hdist])
    case Lens(_, _, _, code, _) => Valid(code)
    case Repeated(_, _, _, code, acc, sym) => Valid(code) && (sym == 16 ==> acc != [])
    case Codes(_, lits, dists) => Valid(lits) && Valid(dists)
    case Lit(_, lits, dists, _) => Valid(lits) && Valid(dists)
    case LenExtra(_, lits, dists, _, _) => Valid(lits) && Valid(dists)
    case Dist(_, lits, dists, _) => Valid(lits) && Valid(dists)
    case DistExtra(_, lits, dists, _, _, _) => Valid(lits) && Valid(dists)
    case Copy(_, lits, dists, _, _) => Valid(lits) && Valid(dists)
    case _ => true
  }

  /** The next point is there, changes nothing about the whole, and is as sound as this one. */
  ghost predicate Goes(ring: bool, p: Point, todo: Bits, out: seq<byte>)
  {
    match Next(ring, p, todo, out)
    case None => false
    case Some((p', todo', out')) => Leads(ring, p, todo, out, p', todo', out') && Sound(p')
  }

  lemma GoesTo(ring: bool, p: Point, todo: Bits, out: seq<byte>, p': Point, todo': Bits, out': seq<byte>)
    requires Next(ring, p, todo, out) == Some((p', todo', out')) && Leads(ring, p, todo, out, p', todo', out')
    requires Sound(p')
    ensures Goes(ring, p, todo, out)
  {
    hide Next, Leads, Sound;
  }

  // ---------------------------------------------------------------- where bits are taken

  lemma NextBits(ring: bool, p: Point, todo: Bits, out: seq<byte>, n: nat)
    requires Needs(p) == Some(n) && !AtSymbols(p) && n <= |todo|
    ensures Next(ring, p, todo, out) == Some((AfterBits(p, todo[..n]), todo[n..], out))
  {
    hide Needs, AfterBits, AtSymbols;
  }

  lemma BitsGoTo(ring: bool, p: Point, todo: Bits, out: seq<byte>, n: nat, p': Point)
    requires Needs(p) == Some(n) && !AtSymbols(p) && n <= |todo| && AfterBits(p, todo[..n]) == p'
    requires Leads(ring, p, todo, out, p', todo[n..], out) && Sound(p')
    ensures Goes(ring, p, todo, out)
  {
    hide *;
    NextBits(ring, p, todo, out, n);
    GoesTo(ring, p, todo, out, p', todo[n..], out);
  }

  lemma HeadGoes(ring: bool, todo: Bits, out: seq<byte>)
    requires |todo| >= 3
    ensures Goes(ring, Head, todo, out)
  {
    NextBits(ring, Head, todo, out, 3);
    assert todo[..3][1..3] == todo[1..3];
    HeadLeads(ring, todo, out);
    SoundKind(todo[0], FromBits(todo[1..3]));
    hide Next, Leads, Sound, ByKind, FromBits;
    GoesTo(ring, Head, todo, out, ByKind(todo[0], FromBits(todo[1..3])), todo[3..], out);
  }

  lemma SoundKind(f: bool, kind: nat)
    ensures Sound(ByKind(f, kind))
  {
    BlockWriter.FixedComplete();
    hide Valid, FilledBy, FixedLiterals, FixedDistances;
  }

  lemma HeaderGoes(ring: bool, f: bool, hdr: seq<byte>, todo: Bits, out: seq<byte>)
    requires |hdr| < 4 && |todo| >= 8
    ensures Goes(ring, RawHeader(f, hdr), todo, out)
  {
    var p, v := RawHeader(f, hdr), FromBits(todo[..8]) % 256;
    assert AfterBits(p, todo[..8]) == AfterByte(p, v);
    AfterByteLeads(ring, p, v, todo, out);
    assert Sound(AfterByte(p, v));
    hide Goes, Leads, Sound, AfterByte, FromBits;
    BitsGoTo(ring, p, todo, out, 8, AfterByte(p, v));
  }

  lemma StoredGoes(ring: bool, f: bool, left: nat, todo: Bits, out: seq<byte>)
    requires left > 0 && |todo| >= 8
    ensures Goes(ring, Stored(f, left), todo, out)
  {
    NextBits(ring, Stored(f, left), todo, out, 8);
    StoredLeads(ring, f, left, todo, out);
    hide Next, Leads, FromBits;
    GoesTo(ring, Stored(f, left), todo, out, StoredOut(f, left, FromBits(todo[..8]) % 256), todo[8..], out);
  }

  lemma SizesGoes(ring: bool, f: bool, sizes: seq<nat>, todo: Bits, out: seq<byte>)
    requires |sizes| < 3 && SizesFit(sizes) && |todo| >= SizeBits(|sizes|)
    ensures Goes(ring, Sizes(f, sizes), todo, out)
  {
    var p, k := Sizes(f, sizes), SizeBits(|sizes|);
    var v := FromBits(todo[..k]);
    assert AfterBits(p, todo[..k]) == AfterSize(p, v);
    AfterSizeLeads(ring, p, v, todo, out);
    ToFromBits(todo[..k]);
    SizesAreFew(sizes, v);
    SoundSize(p, v);
    hide Goes, Leads, Sound, AfterSize, FromBits;
    BitsGoTo(ring, p, todo, out, k, AfterSize(p, v));
  }

  lemma SoundSize(p: Point, v: nat)
    requires p.Sizes? && |p.sizes| < 3 && SizesFit(p.sizes + [v + LeastSize(|p.sizes|)])
    ensures Sound(AfterSize(p, v))
  {
  }

  lemma CodeLensGoes(ring: bool, f: bool, hlit: nat, hdist: nat, n: nat, i: nat, code: seq<nat>, todo: Bits,
                     out: seq<byte>)
    requires i < n <= 19 == |code| && SizesFit([hlit, hdist]) && |todo| >= 3
    ensures Goes(ring, CodeLens(f, hlit, hdist, n, i, code), todo, out)
  {
    var p, v := CodeLens(f, hlit, hdist, n, i, code), FromBits(todo[..3]);
    assert AfterBits(p, todo[..3]) == AfterCodeLen(p, v);
    AfterCodeLenLeads(ring, p, v, todo, out);
    SoundCodeLen(p, v);
    hide Goes, Leads, Sound, AfterCodeLen, FromBits;
    BitsGoTo(ring, p, todo, out, 3, AfterCodeLen(p, v));
  }

  lemma SoundCodeLen(p: Point, v: nat)
    requires p.CodeLens? && p.i < p.n <= 19 == |p.code| && SizesFit([p.hlit, p.hdist])
    ensures Sound(AfterCodeLen(p, v))
  {
    hide Valid, FilledBy, SizesFit;
  }

  lemma RepeatGoes(ring: bool, f: bool, hlit: nat, hdist: nat, code: seq<nat>, acc: seq<nat>, sym: nat, todo: Bits,
                   out: seq<byte>)
    requires |code| == 19 && |acc| < hlit + hdist && 16 <= sym < 19 && (sym == 16 ==> acc != [])
    requires Valid(code) && |todo| >= ExtraBits(sym)
    ensures Goes(ring, Repeated(f, hlit, hdist, code, acc, sym), todo, out)
  {
    var p, k := Repeated(f, hlit, hdist, code, acc, sym), ExtraBits(sym);
    var acc' := WithRepeat(acc, sym, FromBits(todo[..k]));
    assert AfterBits(p, todo[..k]) == MoreLens(f, hlit, hdist, code, acc');
    RepeatLeads(ring, f, hlit, hdist, code, acc, sym, todo, out);
    SoundLens(f, hlit, hdist, code, acc');
    hide Goes, Leads, Sound, MoreLens, WithRepeat, FromBits;
    BitsGoTo(ring, p, todo, out, k, MoreLens(f, hlit, hdist, code, acc'));
  }

  lemma SoundLens(f: bool, hlit: nat, hdist: nat, code: seq<nat>, acc: seq<nat>)
    requires Valid(code)
    ensures Sound(MoreLens(f, hlit, hdist, code, acc))
  {
    hide Valid, FilledBy;
  }

  lemma LenExtraGoes(ring: bool, f: bool, lits: seq<nat>, dists: seq<nat>, base: nat, extra: nat, todo: Bits,
                     out: seq<byte>)
    requires Valid(lits) && Valid(dists) && |todo| >= extra
    ensures Goes(ring, LenExtra(f, lits, dists, base, extra), todo, out)
  {
    hide *;
    LenExtraLeads(ring, f, lits, dists, base, extra, todo, out);
    ExtraTakes(f, lits, dists, base, extra, 0, todo[..extra]);
    BitsGoTo(ring, LenExtra(f, lits, dists, base, extra), todo, out, extra,
             Dist(f, lits, dists, base + FromBits(todo[..extra])));
  }

  lemma DistExtraGoes(ring: bool, f: bool, lits: seq<nat>, dists: seq<nat>, len: nat, base: nat, extra: nat, todo: Bits,
                      out: seq<byte>)
    requires Valid(lits) && Valid(dists) && |todo| >= extra
    ensures Goes(ring, DistExtra(f, lits, dists, len, base, extra), todo, out)
  {
    hide *;
    DistExtraLeads(ring, f, lits, dists, len, base, extra, todo, out);
    ExtraTakes(f, lits, dists, base, extra, len, todo[..extra]);
    BitsGoTo(ring, DistExtra(f, lits, dists, len, base, extra), todo, out, extra,
             Copy(f, lits, dists, base + FromBits(todo[..extra]), len));
  }

  lemma ExtraTakes(f: bool, lits: seq<nat>, dists: seq<nat>, base: nat, extra: nat, len: nat, b: Bits)
    requires |b| == extra && Valid(lits) && Valid(dists)
    ensures var p, p' := LenExtra(f, lits, dists, base, extra), Dist(f, lits, dists, base + FromBits(b));
            Needs(p) == Some(extra) && !AtSymbols(p) && AfterBits(p, b) == p' && Sound(p')
    ensures var p, p' := DistExtra(f, lits, dists, len, base, extra), Copy(f, lits, dists, base + FromBits(b), len);
            Needs(p) == Some(extra) && !AtSymbols(p) && AfterBits(p, b) == p' && Sound(p')
  {
    hide FromBits, Valid;
  }

  // ---------------------------------------------------------------- where a symbol is decoded

  lemma SymbolGoes(ring: bool, p: Point, todo: Bits, out: seq<byte>, sym: nat, todo': Bits)
    requires AtSymbols(p) && WellFormed(p) && Sound(p) && DecodeSym(CodeAt(p), todo) == Some((sym, todo'))
    requires p.Lens? ==> |p.code| == 19
    ensures Goes(ring, p, todo, out)
  {
    assert Next(ring, p, todo, out) == Some((AfterSymbol(p, sym), todo', out));
    SoundSymbol(p, sym);
    SymbolLeads(ring, p, todo, out, sym, todo');
    hide Next, Leads, Sound, AfterSymbol;
    GoesTo(ring, p, todo, out, AfterSymbol(p, sym), todo', out);
  }

  lemma SoundSymbol(p: Point, sym: nat)
    requires AtSymbols(p) && Sound(p)
    ensures Sound(AfterSymbol(p, sym))
  {
    hide Valid, FilledBy, MoreLens;
    if p.Lens? { SoundLens(p.final, p.hlit, p.hdist, p.code, p.acc + [sym]); }
  }

  lemma SymbolLeads(ring: bool, p: Point, todo: Bits, out: seq<byte>, sym: nat, todo': Bits)
    requires AtSymbols(p) && WellFormed(p) && Sound(p) && DecodeSym(CodeAt(p), todo) == Some((sym, todo'))
    ensures Leads(ring, p, todo, out, AfterSymbol(p, sym), todo', out)
  {
    hide Leads, DecodeSym, Valid, BySym, BySymbol, ByDist;
    match p
    case Lens(f, hlit, hdist, code, acc) => LensLeads(ring, f, hlit, hdist, code, acc, sym, todo, todo', out);
    case Codes(f, lits, dists) => CodesLeads(ring, f, lits, dists, sym, todo, todo', out);
    case Dist(f, lits, dists, len) => DistLeads(ring, f, lits, dists, len, sym, todo, todo', out);
    case _ =>
  }

  // ---------------------------------------------------------------- the others

  lemma MovesOn(ring: bool, p: Point, todo: Bits, out: seq<byte>)
    requires WellFormed(p) && Sound(p) && !AtSymbols(p) && Needs(p).None? && !p.Last? && !p.Ended? && !p.Broken?
    requires p.Copy? ==> !ring || 1 <= p.dist <= |out|
    ensures Goes(ring, p, todo, out)
  {
    hide Leads, Next, Valid;
    NextMoves(ring, p, todo, out);
    match p
    case Aligning(f) =>
      AlignLeads(ring, f, todo, out); GoesTo(ring, p, todo, out, RawHeader(f, []), todo[|todo| % 8..], out);
    case Stored(f, left) => StoredEnds(ring, f, todo, out); GoesTo(ring, p, todo, out, After(f), todo, out);
    case StoredOut(f, left, b) =>
      StoredOutLeads(ring, f, left, b, todo, out); GoesTo(ring, p, todo, out, Stored(f, left - 1), todo, out + [b]);
    case Lit(f, lits, dists, b) =>
      LitLeads(ring, f, lits, dists, b, todo, out); GoesTo(ring, p, todo, out, Codes(f, lits, dists), todo, out + [b]);
    case Copy(f, lits, dists, dist, len) => CopyGoes(ring, f, lits, dists, dist, len, todo, out);
    case _ =>
  }

  lemma CopyGoes(ring: bool, f: bool, lits: seq<nat>, dists: seq<nat>, dist: nat, len: nat, todo: Bits, out: seq<byte>)
    requires Valid(lits) && Valid(dists) && (!ring || 1 <= dist <= |out|)
    ensures Goes(ring, Copy(f, lits, dists, dist, len), todo, out)
  {
    var p := Copy(f, lits, dists, dist, len);
    NextMoves(ring, p, todo, out);
    hide Leads, Next, Valid, CopyBack;
    if 1 <= dist <= |out| {
      CopyAll(ring, f, lits, dists, dist, len, todo, out, CopyBack(out, dist, len));
      GoesTo(ring, p, todo, out, Codes(f, lits, dists), todo, CopyBack(out, dist, len));
    } else {
      CopyBreaks(ring, f, lits, dists, dist, len, todo, out);
      GoesTo(ring, p, todo, out, Broken, todo, out);
    }
  }

  lemma NextMoves(ring: bool, p: Point, todo: Bits, out: seq<byte>)
    requires !AtSymbols(p) && Needs(p).None?
    ensures Next(ring, p, todo, out) == Moving(ring, p, todo, out)
  {
    hide AtSymbols, Needs, Moving;
  }

  /** Wherever it goes on, it does so as the format says, as long as that is not left. */
  lemma NextGoes(ring: bool, p: Point, todo: Bits, out: seq<byte>)
    requires WellFormed(p) && Sound(p) && Next(ring, p, todo, out).Some? && !p.Last?
    ensures Goes(ring, p, todo, out)
  {
    if AtSymbols(p) {
      var (sym, todo') := DecodeSym(CodeAt(p), todo).value;
      hide RestAt, WellFormed, Sound, CodeAt, Goes, DecodeSym;
      LensSize(p);
      SymbolGoes(ring, p, todo, out, sym, todo');
    } else if Needs(p).Some? {
      hide Goes, AtSymbols;
      BitsGo(ring, p, todo, out);
    } else {
      hide Goes, Sound;
      MovesOn(ring, p, todo, out);
    }
  }

  /** As long as the rest is some stream's, it goes on up to its end. */
  lemma GoesOn(ring: bool, p: Point, todo: Bits, out: seq<byte>)
    requires WellFormed(p) && Sound(p) && RestAt(p, todo, out).Some? && !p.Last? && !p.Ended?
    ensures Goes(ring, p, todo, out)
  {
    hide *;
    if Next(ring, p, todo, out).None? { NothingNext(ring, p, todo, out); }
    NextGoes(ring, p, todo, out);
  }

  lemma NothingNext(ring: bool, p: Point, todo: Bits, out: seq<byte>)
    requires WellFormed(p) && !p.Last? && !p.Ended? && Next(ring, p, todo, out).None?
    ensures RestAt(p, todo, out).None?
  {
    if AtSymbols(p) {
      hide RestAt, WellFormed, CodeAt, DecodeSym;
      NoSymbol(p, todo, out);
    } else if Needs(p).Some? {
      hide RestAt, AtSymbols;
      NeedsMeans(p, todo, |todo|);
      WantsTooMuch(p, todo, out);
    } else {
      hide RestAt, AtSymbols, Needs;
      if RestAt(p, todo, out).Some? { CopyReaches(p, todo, out); }
    }
  }

  lemma LensSize(p: Point)
    requires WellFormed(p)
    ensures p.Lens? ==> |p.code| == 19
  {
  }

  lemma CopyReaches(p: Point, todo: Bits, out: seq<byte>)
    requires WellFormed(p) && RestAt(p, todo, out).Some?
    ensures !p.Broken? && (p.Copy? ==> 1 <= p.dist <= |out|)
  {
    if p.Copy? && !(1 <= p.dist <= |out|) {
      CopyTooFar(p.lits, p.dists, p.dist, p.len, todo, out);
      RestMatch(p.final, p.lits, p.dists, p.dist, p.len, 0, todo, out);
      RestEnds(p.final, todo, out);
    }
    hide Then, CopyFrom;
  }

  lemma BitsGo(ring: bool, p: Point, todo: Bits, out: seq<byte>)
    requires WellFormed(p) && Sound(p) && Needs(p).Some? && |todo| >= Needs(p).value
    ensures Goes(ring, p, todo, out)
  {
    hide Goes, Valid, SizesFit;
    match p
    case Head => HeadGoes(ring, todo, out);
    case RawHeader(f, hdr) => HeaderGoes(ring, f, hdr, todo, out);
    case Stored(f, left) => StoredGoes(ring, f, left, todo, out);
    case Sizes(f, sizes) => SizesGoes(ring, f, sizes, todo, out);
    case CodeLens(f, hlit, hdist, n, i, code) => CodeLensGoes(ring, f, hlit, hdist, n, i, code, todo, out);
    case Repeated(f, hlit, hdist, code, acc, sym) => RepeatGoes(ring, f, hlit, hdist, code, acc, sym, todo, out);
    case LenExtra(f, lits, dists, base, extra) => LenExtraGoes(ring, f, lits, dists, base, extra, todo, out);
    case DistExtra(f, lits, dists, len, base, extra) =>
      DistExtraGoes(ring, f, lits, dists, len, base, extra, todo, out);
    case _ =>
  }

  // ---------------------------------------------------------------- stopping short

  /** Where more bits are wanted than there are, it stops. */
  lemma WantsStops(ring: bool, p: Point, todo: Bits, out: seq<byte>, j: nat)
    requires WellFormed(p) && 8 * j <= |todo| && Wants(p, todo, |todo| - 8 * j)
    ensures Halt(ring, p, Short(todo, j), out) == (p, Short(todo, j), out)
  {
    ShortSize(todo, j);
    if AtSymbols(p) {
      WantsSym(p, todo, |todo| - 8 * j);
      DecodeTooShort(CodeAt(p), todo, j);
    } else {
      WantsNumber(p, todo, |todo| - 8 * j);
    }
    hide *;
    StopsThere(ring, p, Short(todo, j), out);
  }

  lemma WantsNumber(p: Point, todo: Bits, n: int)
    requires !AtSymbols(p) && Wants(p, todo, n)
    ensures Needs(p).Some? && n < Needs(p).value
  {
  }

  /** A step that takes more than there is cannot be made. */
  lemma NextShort(ring: bool, p: Point, todo: Bits, out: seq<byte>, p': Point, todo': Bits, out': seq<byte>, j: nat)
    requires Sound(p) && Next(ring, p, todo, out) == Some((p', todo', out')) && |todo'| < 8 * j <= |todo|
    ensures Halt(ring, p, Short(todo, j), out) == (p, Short(todo, j), out)
  {
    if AtSymbols(p) {
      SymbolShort(ring, p, todo, out, p', todo', out', j);
    } else {
      MovesKeep(ring, p, todo, out, p', todo', out', j);
    }
    ShortSize(todo, j);
    hide *;
    StopsThere(ring, p, Short(todo, j), out);
  }

  lemma ShortSize(b: Bits, j: nat)
    requires 8 * j <= |b|
    ensures |Short(b, j)| == |b| - 8 * j
  {
  }

  lemma StopsThere(ring: bool, p: Point, avail: Bits, out: seq<byte>)
    requires if AtSymbols(p) then DecodeSym(CodeAt(p), avail).None? else Needs(p).Some? && |avail| < Needs(p).value
    ensures Halt(ring, p, avail, out) == (p, avail, out)
  {
    hide DecodeSym, CodeAt, AfterSymbol, AfterBits, Moving;
    assert Next(ring, p, avail, out).None?;
  }

  lemma SymbolShort(ring: bool, p: Point, todo: Bits, out: seq<byte>, p': Point, todo': Bits, out': seq<byte>, j: nat)
    requires AtSymbols(p) && Sound(p) && Next(ring, p, todo, out) == Some((p', todo', out'))
    requires |todo'| < 8 * j <= |todo|
    ensures DecodeSym(CodeAt(p), Short(todo, j)).None?
  {
    SoundCode(p);
    hide CodeAt, AfterSymbol, Sound, Valid, CodeBits;
    var lens, sym := CodeAt(p), DecodeSym(CodeAt(p), todo).value.0;
    assert Heads(lens, sym, todo) && todo' == todo[lens[sym]..];
    forall s: nat | Heads(lens, s, todo) ensures lens[s] > |todo| - 8 * j {
      PrefixFree(lens, s, sym, todo);
    }
    DecodeTooShort(lens, todo, j);
  }

  lemma SoundCode(p: Point)
    requires AtSymbols(p) && Sound(p)
    ensures Valid(CodeAt(p))
  {
    hide Valid;
  }

  /** Nothing but whole bytes is left once the padding has been passed over. */
  lemma MovesKeep(ring: bool, p: Point, todo: Bits, out: seq<byte>, p': Point, todo': Bits, out': seq<byte>, j: nat)
    requires !AtSymbols(p) && Next(ring, p, todo, out) == Some((p', todo', out')) && |todo'| < 8 * j <= |todo|
    ensures Needs(p).Some? && |todo| - 8 * j < Needs(p).value
  {
    hide AfterBits, CodeAt, AfterSymbol, DecodeSym;
  }

  lemma NextNotEnded(ring: bool, p: Point, todo: Bits, out: seq<byte>)
    ensures Next(ring, p, todo, out).Some? && !p.Last? ==> !Next(ring, p, todo, out).value.0.Ended?
  {
    hide DecodeSym, FromBits, Acceptable;
  }

  /**
    A stream that breaks off j bytes before its end comes to its last block's end if and only if
    those bytes are not part of it, and then all of its output has come out. Nothing is ever wrong.
   */
  lemma {:induction false} HaltsAtEnd(ring: bool, p: Point, todo: Bits, out: seq<byte>, j: nat)
    requires WellFormed(p) && Sound(p) && RestAt(p, todo, out).Some? && 8 * j <= |todo| && !p.Ended?
    ensures var (q, _, o) := Halt(ring, p, Short(todo, j), out);
            var r := RestAt(p, todo, out).value;
            |r.1| <= |todo| && (q.Ended? <==> 8 * j <= |r.1|) && (q.Ended? ==> o == r.0) && !q.Broken?
    decreases |todo|, StepRank(p)
  {
    hide *;
    if p.Last? {
      LastHalts(ring, todo, out, j);
    } else {
      GoesOn(ring, p, todo, out);
      var p', todo', out' := GoesGives(ring, p, todo, out);
      NextNotEnded(ring, p, todo, out);
      HaltsAtEnd(ring, p', todo', out', if 8 * j <= |todo'| then j else 0);
      if 8 * j <= |todo'| {
        SameGives(ring, p, todo, out, p', todo', out', j);
      } else {
        NextShort(ring, p, todo, out, p', todo', out', j);
        CopyReaches(p, todo, out);
      }
    }
  }

  lemma LastHalts(ring: bool, todo: Bits, out: seq<byte>, j: nat)
    requires 8 * j <= |todo|
    ensures var (q, _, o) := Halt(ring, Last, Short(todo, j), out); q.Ended? && o == out
    ensures RestAt(Last, todo, out) == Some((out, todo))
  {
    var b := Short(todo, j);
    var q := Ended(b[..|b| % 8]);
    assert Next(ring, Last, b, out) == Some((q, b[|b| % 8..], out));
    assert Next(ring, q, b[|b| % 8..], out).None?;
    hide Next;
  }

  lemma GoesGives(ring: bool, p: Point, todo: Bits, out: seq<byte>) returns (p': Point, todo': Bits, out': seq<byte>)
    requires WellFormed(p) && Goes(ring, p, todo, out) && RestAt(p, todo, out).Some?
    ensures Next(ring, p, todo, out) == Some((p', todo', out')) && WellFormed(p') && Sound(p')
    ensures RestAt(p', todo', out') == RestAt(p, todo, out) && SameHalt(ring, p, todo, out, p', todo', out')
    ensures |todo'| < |todo| || (|todo'| == |todo| && StepRank(p') < StepRank(p))
  {
    if Leaves(ring, p, todo, out) { LeavesNone(ring, p, todo, out); }
    p', todo', out' := Next(ring, p, todo, out).value.0, Next(ring, p, todo, out).value.1, Next(ring, p, todo,
        out).value.2;
    hide OnTrack, Leaves, Next, RestAt, WellFormed, Sound, SameHalt, StepRank;
  }

  /** How far these bytes of a stream take it, with room for all that comes out. */
  ghost function Upto(ring: bool, bytes: seq<byte>): (r: Place)
  {
    Halt(ring, Head, BytesToBits(bytes), [])
  }

  lemma {:induction false} ShortBytes(bytes: seq<byte>, n: nat)
    requires n <= |bytes|
    ensures BytesToBits(bytes[..n]) == Short(BytesToBits(bytes), |bytes| - n)
  {
    assert bytes[..n] + bytes[n..] == bytes;
    BytesToBitsAppend(bytes[..n], bytes[n..]);
    hide BytesToBits;
  }

  /**
    Of a stream, the first n bytes reach the end if and only if there are as many of them as the
    format takes, and then all of the output comes out.
   */
  lemma UptoEnd(ring: bool, stream: seq<byte>, n: nat)
    requires n <= |stream| && Inflate(BytesToBits(stream), []).Some?
    ensures var (q, _, o) := Upto(ring, stream[..n]);
            var whole := Inflate(BytesToBits(stream), []).value;
            (q.Ended? <==> n >= |stream| - |whole.1| / 8) && (q.Ended? ==> o == whole.0) && !q.Broken?
  {
    hide *;
    ShortBytes(stream, n);
    UptoIs(ring, stream[..n]);
    HeadRest(BytesToBits(stream));
    HaltsAtEnd(ring, Head, BytesToBits(stream), [], |stream| - n);
    BytesLeft(|stream|, n, |Inflate(BytesToBits(stream), []).value.1|);
  }

  lemma UptoIs(ring: bool, bytes: seq<byte>)
    ensures Upto(ring, bytes) == Halt(ring, Head, BytesToBits(bytes), [])
  {
    hide Halt, BytesToBits;
  }

  /** On the way a symbol comes that the format does not have. */
  ghost predicate HasForeign(ring: bool, p: Point, avail: Bits, out: seq<byte>)
    decreases |avail|, StepRank(p)
  {
    Foreign(p, avail) ||
    (var next := Next(ring, p, avail, out);
     next.Some? && HasForeign(ring, next.value.0, next.value.1, next.value.2))
  }

  /** On the way a match reaches back to before the output, or nowhere. */
  ghost predicate HasFar(ring: bool, p: Point, avail: Bits, out: seq<byte>)
    decreases |avail|, StepRank(p)
  {
    (p.Copy? && !(1 <= p.dist <= |out|)) ||
    (var next := Next(ring, p, avail, out);
     next.Some? && HasFar(ring, next.value.0, next.value.1, next.value.2))
  }

  /** Without a ring, such a match ends it all, as soon as the output before it is out. */
  lemma {:induction false} FarBreaks(p: Point, avail: Bits, out: seq<byte>)
    requires HasFar(false, p, avail, out)
    ensures Halt(false, p, avail, out).0.Broken?
    decreases |avail|, StepRank(p)
  {
    if p.Copy? && !(1 <= p.dist <= |out|) {
      FarHalts(p, avail, out);
    } else {
      var next := Next(false, p, avail, out).value;
      hide Next, StepRank;
      FarBreaks(next.0, next.1, next.2);
    }
  }

  lemma FarHalts(p: Point, avail: Bits, out: seq<byte>)
    requires p.Copy? && !(1 <= p.dist <= |out|)
    ensures Halt(false, p, avail, out) == (Broken, avail, out)
  {
    assert Next(false, p, avail, out) == Some((Broken, avail, out));
    assert Next(false, Broken, avail, out).None?;
    hide Next;
  }

  /** What comes to its end without one is a stream. */
  lemma {:induction false} EndIsWhole(ring: bool, p: Point, todo: Bits, out: seq<byte>)
    requires WellFormed(p) && Sound(p) && !p.Ended? && !HasForeign(ring, p, todo, out)
    requires Halt(ring, p, todo, out).0.Ended?
    ensures RestAt(p, todo, out).Some?
    decreases |todo|, StepRank(p)
  {
    hide *;
    if p.Last? {
      LastHalts(ring, todo, out, 0);
    } else {
      StaysInFormat(ring, p, todo, out);
      NextGoes(ring, p, todo, out);
      NextNotEnded(ring, p, todo, out);
      var p', todo', out' := KeepsOn(ring, p, todo, out);
      EndIsWhole(ring, p', todo', out');
    }
  }

  lemma StaysInFormat(ring: bool, p: Point, todo: Bits, out: seq<byte>)
    requires !p.Ended? && !HasForeign(ring, p, todo, out) && Halt(ring, p, todo, out).0.Ended?
    ensures !Leaves(ring, p, todo, out) && Next(ring, p, todo, out).Some?
    ensures var next := Next(ring, p, todo, out).value;
            !HasForeign(ring, next.0, next.1, next.2) && Halt(ring, next.0, next.1, next.2).0.Ended? &&
            (|next.1| < |todo| || (|next.1| == |todo| && StepRank(next.0) < StepRank(p)))
  {
    if Lax(ring, p, todo, out) { LaxHalts(ring, p, todo, out); }
    hide Next, Lax, Foreign, StepRank;
  }

  lemma KeepsOn(ring: bool, p: Point, todo: Bits, out: seq<byte>) returns (p': Point, todo': Bits, out': seq<byte>)
    requires WellFormed(p) && Goes(ring, p, todo, out) && !Leaves(ring, p, todo, out)
    ensures Next(ring, p, todo, out) == Some((p', todo', out')) && WellFormed(p') && Sound(p')
    ensures RestAt(p', todo', out') == RestAt(p, todo, out)
  {
    p', todo', out' := Next(ring, p, todo, out).value.0, Next(ring, p, todo, out).value.1,
      Next(ring, p, todo, out).value.2;
    hide OnTrack, Leaves, Next, RestAt, WellFormed, Sound, SameHalt;
  }

  /** No stream that is one goes astray. */
  lemma NotAstray(ring: bool, all: Bits)
    requires Inflate(all, []).Some?
    ensures !Astray(ring, all)
  {
    hide *;
    HeadRest(all);
    HaltsAtEnd(ring, Head, all, [], 0);
    ShortNone(all);
    EndedNotLax(ring, all);
  }

  lemma EndedNotLax(ring: bool, all: Bits)
    requires Halt(ring, Head, all, []).0.Ended?
    ensures !Astray(ring, all)
  {
    hide Halt;
  }

  lemma HeadRest(todo: Bits)
    ensures WellFormed(Head) && Sound(Head) && RestAt(Head, todo, []) == Inflate(todo, [])
  {
    hide Inflate;
  }

  lemma BytesLeft(size: nat, n: nat, rest: nat)
    requires n <= size
    ensures 8 * (size - n) <= rest <==> n >= size - rest / 8
  {
  }

  // ---------------------------------------------------------------- where it stops

  lemma EndHalts(ring: bool, p: Point, avail: Bits, out: seq<byte>)
    requires p.Ended? || p.Broken?
    ensures Halt(ring, p, avail, out) == (p, avail, out)
  {
  }

  /** Where a byte is to come out, it does not end before it has. */
  lemma MoreComes(ring: bool, p: Point, avail: Bits, out: seq<byte>)
    requires WellFormed(p) && MoreToCome(p) && (p.Copy? ==> ring || 1 <= p.dist <= |out|)
    ensures var (q, _, o) := Halt(ring, p, avail, out); q.Ended? || q.Broken? ==> |o| > |out|
  {
    hide Halt;
    var next := Next(ring, p, avail, out);
    HaltOn(ring, p, avail, out);
    if next.Some? {
      var (p', avail', out') := next.value;
      hide Next;
      HaltGrows(ring, p', avail', out');
      if p.Stored? { HaltOn(ring, p', avail', out'); StoredComes(ring, p', avail', out'); }
    }
  }

  lemma StoredComes(ring: bool, p: Point, avail: Bits, out: seq<byte>)
    requires WellFormed(p) && p.StoredOut?
    ensures |Halt(ring, p, avail, out).2| > |out|
  {
    HaltGrows(ring, Stored(p.final, p.left - 1), avail, out + [p.b]);
    assert Next(ring, p, avail, out) == Some((Stored(p.final, p.left - 1), avail, out + [p.b]));
    hide Next;
  }

  lemma HaltOn(ring: bool, p: Point, avail: Bits, out: seq<byte>)
    ensures Halt(ring, p, avail, out) == match Next(ring, p, avail, out)
            case None => (p, avail, out)
            case Some((p', avail', out')) => Halt(ring, p', avail', out')
  {
    hide Next;
  }
}
