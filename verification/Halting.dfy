/**
  From point to point: what comes next at every point at which inflate can be stopped, how far a
  stream takes it that breaks off, and what has come out by then.
 */
module Halting {
  import opened Wrappers
  import opened Bits
  import opened CanonicalCode
  import opened Deflate
  import opened Resume

  datatype Point =
    | Head
    | Aligning(final: bool)
    | RawHeader(final: bool, hdr: seq<byte>)
    | Stored(final: bool, left: nat)
    | StoredOut(final: bool, left: nat, b: byte)
    | Sizes(final: bool, sizes: seq<nat>)
    | CodeLens(final: bool, hlit: nat, hdist: nat, n: nat, i: nat, code: seq<nat>)
    | Lens(final: bool, hlit: nat, hdist: nat, code: seq<nat>, acc: seq<nat>)
    | Repeated(final: bool, hlit: nat, hdist: nat, code: seq<nat>, acc: seq<nat>, sym: nat)
    | Codes(final: bool, lits: seq<nat>, dists: seq<nat>)
    | Lit(final: bool, lits: seq<nat>, dists: seq<nat>, b: byte)
    | LenExtra(final: bool, lits: seq<nat>, dists: seq<nat>, base: nat, extra: nat)
    | Dist(final: bool, lits: seq<nat>, dists: seq<nat>, len: nat)
    | DistExtra(final: bool, lits: seq<nat>, dists: seq<nat>, len: nat, base: nat, extra: nat)
    | Copy(final: bool, lits: seq<nat>, dists: seq<nat>, dist: nat, len: nat)
    | Last
    | Ended(skipped: Bits)
    | Broken

  ghost predicate WellFormed(p: Point)
  {
    match p
    case RawHeader(_, hdr) => |hdr| < 4
    case StoredOut(_, left, _) => left > 0
    case Sizes(_, sizes) => |sizes| < 3
    case CodeLens(_, hlit, hdist, n, i, code) => i < n <= 19 == |code|
    case Lens(_, hlit, hdist, code, acc) => |code| == 19 && |acc| < hlit + hdist
    case Repeated(_, hlit, hdist, code, acc, sym) => |code| == 19 && 16 <= sym < 19 && |acc| < hlit + hdist
    case Ended(skipped) => |skipped| < 8
    case _ => true
  }

  /** After a block: the next, or the end. */
  function After(f: bool): (r: Point)
  {
    if f then Last else Head
  }

  /** Where a block of some kind begins. */
  ghost function ByKind(f: bool, kind: nat): (r: Point)
  {
    if kind == 0 then Aligning(f) else if kind == 1 then Codes(f, FixedLiterals(), FixedDistances())
      else if kind == 2 then Sizes(f, []) else Broken
  }

  /** After a byte of the lengths of a stored block. */
  ghost function AfterByte(p: Point, v: byte): (r: Point)
    requires p.RawHeader? && |p.hdr| < 4
  {
    var h := p.hdr + [v];
    if |h| < 4 then RawHeader(p.final, h)
    else if Number16(h[0], h[1]) + Number16(h[2], h[3]) != 0xFFFF then Broken else Stored(p.final, Number16(h[0], h[1]))
  }

  /** After a number of codes. */
  ghost function AfterSize(p: Point, v: nat): (r: Point)
    requires p.Sizes? && |p.sizes| < 3
  {
    var s := p.sizes + [v + LeastSize(|p.sizes|)];
    if |s| < 3 then Sizes(p.final, s) else CodeLens(p.final, s[0], s[1], s[2], 0, Repeat(0, 19))
  }

  /** After a length of the code of the code lengths. */
  ghost function AfterCodeLen(p: Point, v: nat): (r: Point)
    requires p.CodeLens? && p.i < p.n <= 19 == |p.code|
  {
    var code := p.code[SWIZZLE[p.i] := v];
    if p.i + 1 < p.n then CodeLens(p.final, p.hlit, p.hdist, p.n, p.i + 1, code)
    else if Acceptable(code) then Lens(p.final, p.hlit, p.hdist, code, []) else Broken
  }

  /** With all the code lengths known. */
  ghost function WithLens(f: bool, hlit: nat, lens: seq<nat>): (r: Point)
    requires hlit <= |lens|
  {
    if Acceptable(lens[..hlit]) && Acceptable(lens[hlit..]) then Codes(f, lens[..hlit], lens[hlit..]) else Broken
  }

  /** With more of the code lengths known. */
  ghost function MoreLens(f: bool, hlit: nat, hdist: nat, code: seq<nat>, acc: seq<nat>): (r: Point)
  {
    if |acc| < hlit + hdist then Lens(f, hlit, hdist, code, acc)
      else if |acc| == hlit + hdist then WithLens(f, hlit, acc) else Broken
  }

  /** After a symbol of the code of the code lengths. */
  ghost function BySym(f: bool, hlit: nat, hdist: nat, code: seq<nat>, acc: seq<nat>, sym: nat): (r: Point)
  {
    if sym < 16 then MoreLens(f, hlit, hdist, code, acc + [sym])
    else if sym >= 19 || (sym == 16 && acc == []) then Broken
    else Repeated(f, hlit, hdist, code, acc, sym)
  }

  /** The code lengths with a repetition. */
  function WithRepeat(acc: seq<nat>, sym: nat, x: nat): (r: seq<nat>)
  {
    acc + Repeat(if sym == 16 && acc != [] then acc[|acc| - 1] else 0, (if sym == 18 then 11 else 3) + x)
  }

  /** The tables of the code: as long as the symbols there can be, zero where the format has none. */
  function LengthBase(k: nat): (r: nat)
  {
    if k < |LENGTH_BASE| then LENGTH_BASE[k] else 0
  }

  function LengthExtra(k: nat): (r: nat)
    ensures r <= 5
  {
    if k < |LENGTH_EXTRA| then LENGTH_EXTRA[k] else 0
  }

  function DistBase(k: nat): (r: nat)
  {
    if k < |DIST_BASE| then DIST_BASE[k] else 0
  }

  function DistExtraBits(k: nat): (r: nat)
    ensures r <= 13
  {
    if k < |DIST_EXTRA| then DIST_EXTRA[k] else 0
  }

  /** After a symbol of the first code. */
  ghost function BySymbol(f: bool, lits: seq<nat>, dists: seq<nat>, sym: nat): (r: Point)
  {
    if sym < 256 then Lit(f, lits, dists, sym)
    else if sym == 256 then After(f)
    else if LengthExtra(sym - 257) > 0 then LenExtra(f, lits, dists, LengthBase(sym - 257), LengthExtra(sym - 257))
    else Dist(f, lits, dists, LengthBase(sym - 257))
  }

  /** After a distance symbol. */
  ghost function ByDist(f: bool, lits: seq<nat>, dists: seq<nat>, len: nat, sym: nat): (r: Point)
  {
    if DistExtraBits(sym) > 0 then DistExtra(f, lits, dists, len, DistBase(sym), DistExtraBits(sym))
      else Copy(f, lits, dists, DistBase(sym), len)
  }

  // ---------------------------------------------------------------- one step after the other

  /** The code of the symbol that comes next, where one does. */
  ghost function CodeAt(p: Point): (r: seq<nat>)
    requires p.Lens? || p.Codes? || p.Dist?
  {
    match p
    case Lens(_, _, _, code, _) => code
    case Codes(_, lits, _) => lits
    case Dist(_, _, dists, _) => dists
  }

  /** Where the next symbol leads. */
  ghost function AfterSymbol(p: Point, sym: nat): (r: Point)
    requires p.Lens? || p.Codes? || p.Dist?
  {
    match p
    case Lens(f, hlit, hdist, code, acc) => BySym(f, hlit, hdist, code, acc, sym)
    case Codes(f, lits, dists) => BySymbol(f, lits, dists, sym)
    case Dist(f, lits, dists, len) => ByDist(f, lits, dists, len, sym)
  }

  /** The number of bits wanted at a point where a number is read. */
  ghost function Needs(p: Point): (r: Option<nat>)
  {
    match p
    case Head => Some(3)
    case RawHeader(_, _) => Some(8)
    case Stored(_, left) => if left > 0 then Some(8) else None
    case Sizes(_, sizes) => Some(SizeBits(|sizes|))
    case CodeLens(_, _, _, _, _, _) => Some(3)
    case Repeated(_, _, _, _, _, sym) => Some(ExtraBits(sym))
    case LenExtra(_, _, _, _, extra) => Some(extra)
    case DistExtra(_, _, _, _, _, extra) => Some(extra)
    case _ => None
  }

  /** Where those bits lead. */
  ghost function AfterBits(p: Point, b: Bits): (r: Point)
    requires Needs(p) == Some(|b|)
  {
    match p
    case Head => ByKind(b[0], FromBits(b[1..3]))
    case RawHeader(_, hdr) => if |hdr| < 4 then AfterByte(p, FromBits(b) % 256) else Broken
    case Stored(f, left) => StoredOut(f, left, FromBits(b) % 256)
    case Sizes(_, sizes) => if |sizes| < 3 then AfterSize(p, FromBits(b)) else Broken
    case CodeLens(_, _, _, n, i, code) => if i < n <= 19 == |code| then AfterCodeLen(p, FromBits(b)) else Broken
    case Repeated(f, hlit, hdist, code, acc, sym) =>
      MoreLens(f, hlit, hdist, code, WithRepeat(acc, sym, FromBits(b)))
    case LenExtra(f, lits, dists, base, _) => Dist(f, lits, dists, base + FromBits(b))
    case DistExtra(f, lits, dists, len, base, _) => Copy(f, lits, dists, base + FromBits(b), len)
  }

  type Place = (Point, Bits, seq<byte>)

  /** Where it goes without reading anything. Without a ring, a match beyond the output ends it all. */
  ghost function Moving(ring: bool, p: Point, avail: Bits, out: seq<byte>): (r: Option<Place>)
  {
    match p
    case Aligning(f) => Some((RawHeader(f, []), avail[|avail| % 8..], out))
    case Last => Some((Ended(avail[..|avail| % 8]), avail[|avail| % 8..], out))
    case Stored(f, left) => Some((After(f), avail, out))
    case StoredOut(f, left, b) => if left > 0 then Some((Stored(f, left - 1), avail, out + [b])) else None
    case Lit(f, lits, dists, b) => Some((Codes(f, lits, dists), avail, out + [b]))
    case Copy(f, lits, dists, dist, len) =>
      if 1 <= dist <= |out| then Some((Codes(f, lits, dists), avail, CopyBack(out, dist, len)))
      else if ring then None else Some((Broken, avail, out))
    case _ => None
  }

  ghost predicate AtSymbols(p: Point)
  {
    p.Lens? || p.Codes? || p.Dist?
  }

  /** The next point with these bits, the bits after it and what has come out; None if they do not take it further. */
  ghost function Next(ring: bool, p: Point, avail: Bits, out: seq<byte>): (r: Option<Place>)
    ensures r.Some? ==>
              |r.value.1| < |avail| || (|r.value.1| == |avail| && StepRank(r.value.0) < StepRank(p))
    ensures r.Some? ==> out <= r.value.2
  {
    if AtSymbols(p) then
      match DecodeSym(CodeAt(p), avail)
      case None => None
      case Some((sym, avail')) => Some((AfterSymbol(p, sym), avail', out))
    else
      match Needs(p)
      case None => Moving(ring, p, avail, out)
      case Some(n) => if |avail| < n then None else Some((AfterBits(p, avail[..n]), avail[n..], out))
  }

  /** Order of the points between which nothing is read. */
  ghost function StepRank(p: Point): (r: nat)
  {
    match p
    case Head => 10
    case Codes(_, _, _) => 100
    case Lit(_, _, _, _) => 150
    case Copy(_, _, _, _, _) => 200
    case DistExtra(_, _, _, _, _, _) => 290
    case Dist(_, _, _, _) => 300
    case LenExtra(_, _, _, _, _) => 310
    case Stored(_, _) => 320
    case StoredOut(_, _, _) => 330
    case RawHeader(_, _) => 340
    case Aligning(_) => 350
    case Lens(_, _, _, _, _) => 400
    case Repeated(_, _, _, _, _, _) => 500
    case CodeLens(_, _, _, _, _, _) => 600
    case Sizes(_, _) => 600
    case Last => 5
    case _ => 0
  }

  /** How far it goes with these bits and room for all that comes out. */
  ghost function Halt(ring: bool, p: Point, avail: Bits, out: seq<byte>): (r: Place)
    decreases |avail|, StepRank(p)
  {
    match Next(ring, p, avail, out)
    case None => (p, avail, out)
    case Some((p', avail', out')) => Halt(ring, p', avail', out')
  }

  lemma {:induction false} HaltGrows(ring: bool, p: Point, avail: Bits, out: seq<byte>)
    ensures out <= Halt(ring, p, avail, out).2
    decreases |avail|, StepRank(p)
  {
    hide Next, StepRank;
    if Next(ring, p, avail, out).Some? {
      var (p', avail', out') := Next(ring, p, avail, out).value;
      HaltGrows(ring, p', avail', out');
    }
  }

  // ---------------------------------------------------------------- streams that break off

  /** Without the last j bytes. */
  ghost function Short(b: Bits, j: nat): (r: Bits)
    requires 8 * j <= |b|
  {
    b[..|b| - 8 * j]
  }

  /** However many bytes of what is left there are, it goes as far from the one point as from the other. */
  ghost predicate SameHalt(ring: bool, p: Point, todo: Bits, out: seq<byte>, p': Point, todo': Bits, out': seq<byte>)
  {
    |todo'| <= |todo| &&
    forall j: nat :: 8 * j <= |todo'| ==> Halt(ring, p, Short(todo, j), out) == Halt(ring, p', Short(todo', j), out')
  }

  lemma SameAtOnce(ring: bool, p: Point, todo: Bits, out: seq<byte>)
    ensures SameHalt(ring, p, todo, out, p, todo, out)
  {
    hide Halt;
  }

  lemma SameOn(ring: bool, p: Point, todo: Bits, out: seq<byte>, p1: Point, todo1: Bits, out1: seq<byte>, p2: Point,
               todo2: Bits,
               out2: seq<byte>)
    requires SameHalt(ring, p, todo, out, p1, todo1, out1) && SameHalt(ring, p1, todo1, out1, p2, todo2, out2)
    ensures SameHalt(ring, p, todo, out, p2, todo2, out2)
  {
    hide Halt;
  }

  lemma SameGives(ring: bool, p: Point, todo: Bits, out: seq<byte>, p': Point, todo': Bits, out': seq<byte>, j: nat)
    requires SameHalt(ring, p, todo, out, p', todo', out') && 8 * j <= |todo'|
    ensures |todo'| <= |todo| && Halt(ring, p, Short(todo, j), out) == Halt(ring, p', Short(todo', j), out')
  {
    hide Halt;
  }

  /** A step that can be made with fewer bytes as well. */
  ghost predicate StepsShort(ring: bool, p: Point, todo: Bits, out: seq<byte>, p': Point, todo': Bits, out': seq<byte>,
                             j: nat)
    requires 8 * j <= |todo'| <= |todo|
  {
    Next(ring, p, Short(todo, j), out) == Some((p', Short(todo', j), out'))
  }

  lemma SameStep(ring: bool, p: Point, todo: Bits, out: seq<byte>, p': Point, todo': Bits, out': seq<byte>)
    requires |todo'| <= |todo|
    requires forall j: nat :: 8 * j <= |todo'| ==> StepsShort(ring, p, todo, out, p', todo', out', j)
    ensures SameHalt(ring, p, todo, out, p', todo', out')
  {
    hide Next;
    forall j: nat | 8 * j <= |todo'| ensures Halt(ring, p, Short(todo, j), out) ==
      Halt(ring, p', Short(todo', j), out') {
      assert StepsShort(ring, p, todo, out, p', todo', out', j);
    }
  }

  lemma ShortTake(b: Bits, n: nat, j: nat)
    requires n + 8 * j <= |b|
    ensures |Short(b, j)| == |b| - 8 * j >= n && Short(b, j)[..n] == b[..n] && Short(b, j)[n..] == Short(b[n..], j)
  {
  }

  /** Bits taken as a number. */
  lemma BitsSame(ring: bool, p: Point, todo: Bits, out: seq<byte>, n: nat)
    requires Needs(p) == Some(n) && !AtSymbols(p) && n <= |todo|
    ensures SameHalt(ring, p, todo, out, AfterBits(p, todo[..n]), todo[n..], out)
  {
    hide Needs, AfterBits, AtSymbols, Halt;
    forall j: nat | 8 * j <= |todo[n..]| ensures StepsShort(ring, p, todo, out, AfterBits(p, todo[..n]), todo[n..], out,
                                                            j) {
      ShortTake(todo, n, j);
    }
    hide StepsShort;
    SameStep(ring, p, todo, out, AfterBits(p, todo[..n]), todo[n..], out);
  }

  /** A symbol decoded. */
  lemma SymbolSame(ring: bool, p: Point, todo: Bits, out: seq<byte>, sym: nat, todo': Bits)
    requires AtSymbols(p) && Valid(CodeAt(p)) && DecodeSym(CodeAt(p), todo) == Some((sym, todo'))
    ensures SameHalt(ring, p, todo, out, AfterSymbol(p, sym), todo', out)
  {
    hide CodeAt, AfterSymbol, Halt, DecodeSym, Valid;
    forall j: nat | 8 * j <= |todo'| ensures StepsShort(ring, p, todo, out, AfterSymbol(p, sym), todo', out, j) {
      DecodeShort(CodeAt(p), todo, sym, todo', j);
    }
    hide StepsShort;
    SameStep(ring, p, todo, out, AfterSymbol(p, sym), todo', out);
  }

  lemma DecodeShort(lens: seq<nat>, todo: Bits, sym: nat, todo': Bits, j: nat)
    requires Valid(lens) && DecodeSym(lens, todo) == Some((sym, todo')) && 8 * j <= |todo'|
    ensures DecodeSym(lens, Short(todo, j)) == Some((sym, Short(todo', j)))
  {
    hide Valid, CodeBits;
    var b := Short(todo, j);
    assert Heads(lens, sym, todo) && todo' == todo[lens[sym]..];
    assert Heads(lens, sym, b);
    forall t: nat | Heads(lens, t, b) ensures t == sym {
      assert Heads(lens, t, todo);
      PrefixFree(lens, sym, t, todo);
    }
    assert b[lens[sym]..] == Short(todo', j);
  }

  /** Without as many bits as the code of the next symbol has, there is none. */
  lemma DecodeTooShort(lens: seq<nat>, todo: Bits, j: nat)
    requires 8 * j <= |todo| && forall s: nat :: Heads(lens, s, todo) ==> lens[s] > |todo| - 8 * j
    ensures DecodeSym(lens, Short(todo, j)).None?
  {
    forall s: nat ensures Heads(lens, s, Short(todo, j)) ==> Heads(lens, s, todo) && lens[s] <= |todo| - 8 * j {
      HeadsLonger(lens, s, todo, j);
    }
    hide Heads;
  }

  lemma HeadsLonger(lens: seq<nat>, s: nat, todo: Bits, j: nat)
    requires 8 * j <= |todo|
    ensures Heads(lens, s, Short(todo, j)) ==> Heads(lens, s, todo) && lens[s] <= |todo| - 8 * j
  {
    hide CodeBits;
  }

  lemma AlignSame(ring: bool, f: bool, todo: Bits, out: seq<byte>)
    ensures |todo| % 8 <= |todo| && SameHalt(ring, Aligning(f), todo, out, RawHeader(f, []), todo[|todo| % 8..], out)
  {
    hide Halt;
    var k := |todo| % 8;
    forall j: nat | 8 * j <= |todo[k..]|
      ensures StepsShort(ring, Aligning(f), todo, out, RawHeader(f, []), todo[k..], out, j)
    {
      ShortTake(todo, k, j);
      assert |Short(todo, j)| % 8 == k;
    }
    hide StepsShort;
    SameStep(ring, Aligning(f), todo, out, RawHeader(f, []), todo[k..], out);
  }

  /** Going on without reading anything. */
  lemma MoveSame(ring: bool, p: Point, todo: Bits, out: seq<byte>, p': Point, out': seq<byte>)
    requires !AtSymbols(p) && Needs(p).None? && !p.Aligning? && !p.Last?
    requires Moving(ring, p, todo, out) == Some((p', todo, out'))
    ensures SameHalt(ring, p, todo, out, p', todo, out')
  {
    hide Halt, After;
    forall j: nat | 8 * j <= |todo| ensures StepsShort(ring, p, todo, out, p', todo, out', j) {
    }
    hide StepsShort, Next, Moving, AtSymbols, Needs;
    SameStep(ring, p, todo, out, p', todo, out');
  }

  /** One byte of a match first. */
  lemma CopyOneSame(ring: bool, f: bool, lits: seq<nat>, dists: seq<nat>, dist: nat, len: nat, todo: Bits,
                    out: seq<byte>)
    requires len > 0 && 1 <= dist <= |out|
    ensures SameHalt(ring, Copy(f, lits, dists, dist, len), todo, out, Copy(f, lits, dists, dist, len - 1), todo,
                      out + [out[|out| - dist]])
  {
    hide *;
    var o := out + [out[|out| - dist]];
    CopyBackOne(out, dist, len);
    forall j: nat | 8 * j <= |todo|
      ensures Halt(ring, Copy(f, lits, dists, dist, len), Short(todo, j), out) ==
              Halt(ring, Copy(f, lits, dists, dist, len - 1), Short(todo, j), o)
    {
      CopyHalts(ring, f, lits, dists, dist, len, Short(todo, j), out);
      CopyHalts(ring, f, lits, dists, dist, len - 1, Short(todo, j), o);
    }
    SameNow(ring, Copy(f, lits, dists, dist, len), todo, out, Copy(f, lits, dists, dist, len - 1), todo, o);
  }

  lemma CopyBackOne(out: seq<byte>, dist: nat, len: nat)
    requires len > 0 && 1 <= dist <= |out|
    ensures CopyBack(out, dist, len) == CopyBack(out + [out[|out| - dist]], dist, len - 1)
  {
  }

  lemma SameNow(ring: bool, p: Point, todo: Bits, out: seq<byte>, p': Point, todo': Bits, out': seq<byte>)
    requires |todo'| <= |todo|
    requires forall j: nat :: 8 * j <= |todo'| ==>
               Halt(ring, p, Short(todo, j), out) == Halt(ring, p', Short(todo', j), out')
    ensures SameHalt(ring, p, todo, out, p', todo', out')
  {
    hide Halt;
  }

  lemma CopyHalts(ring: bool, f: bool, lits: seq<nat>, dists: seq<nat>, dist: nat, len: nat, avail: Bits,
                  out: seq<byte>)
    requires 1 <= dist <= |out|
    ensures Halt(ring, Copy(f, lits, dists, dist, len), avail, out) ==
              Halt(ring, Codes(f, lits, dists), avail, CopyBack(out, dist, len))
  {
    hide CopyBack;
    assert Next(ring, Copy(f, lits, dists, dist, len), avail, out) ==
             Some((Codes(f, lits, dists), avail, CopyBack(out, dist, len)));
    hide Next;
  }

  /** The end of the last block and the byte boundary after it. */
  lemma LastSame(ring: bool, todo: Bits, out: seq<byte>, k: nat)
    requires k < 8 && k <= |todo| && (|todo| - k) % 8 == 0
    ensures SameHalt(ring, Last, todo, out, Ended(todo[..k]), todo[k..], out)
  {
    hide Halt;
    forall j: nat | 8 * j <= |todo[k..]|
      ensures StepsShort(ring, Last, todo, out, Ended(todo[..k]), todo[k..], out, j)
    {
      ShortTake(todo, k, j);
      assert |Short(todo, j)| % 8 == k;
    }
    hide StepsShort;
    SameStep(ring, Last, todo, out, Ended(todo[..k]), todo[k..], out);
  }

  // ---------------------------------------------------------------- the steps of each kind

  lemma SwizzleSize()
    ensures |SWIZZLE| == 19 && forall i :: 0 <= i < 19 ==> SWIZZLE[i] < 19
  {
  }

  lemma AfterByteIs(p: Point, v: byte)
    requires p.RawHeader? && |p.hdr| < 4
    ensures |p.hdr + [v]| == |p.hdr| + 1
    ensures |p.hdr| < 3 ==> AfterByte(p, v) == RawHeader(p.final, p.hdr + [v])
    ensures |p.hdr| == 3 ==> var h := p.hdr + [v];
              AfterByte(p, v) == if Number16(h[0], h[1]) + Number16(h[2], h[3]) != 0xFFFF then Broken
                else Stored(p.final, Number16(h[0], h[1]))
  {
    hide Number16;
  }

  lemma AfterSizeIs(p: Point, v: nat)
    requires p.Sizes? && |p.sizes| < 3
    ensures var s := p.sizes + [v + LeastSize(|p.sizes|)];
            AfterSize(p, v) == if |p.sizes| < 2 then Sizes(p.final, s)
              else CodeLens(p.final, s[0], s[1], s[2], 0, Repeat(0, 19))
  {
    hide LeastSize;
  }

  lemma AfterCodeLenIs(p: Point, v: nat)
    requires p.CodeLens? && p.i < p.n <= 19 == |p.code|
    ensures |SWIZZLE| == 19 && SWIZZLE[p.i] < 19
    ensures var code := p.code[SWIZZLE[p.i] := v];
            AfterCodeLen(p, v) == if p.i + 1 < p.n then CodeLens(p.final, p.hlit, p.hdist, p.n, p.i + 1, code)
                                  else if Acceptable(code) then Lens(p.final, p.hlit, p.hdist, code, []) else Broken
  {
    SwizzleSize();
    hide Acceptable;
  }

  lemma HeadSame(ring: bool, todo: Bits, out: seq<byte>)
    requires |todo| >= 3
    ensures SameHalt(ring, Head, todo, out, ByKind(todo[0], FromBits(todo[1..3])), todo[3..], out)
  {
    BitsSame(ring, Head, todo, out, 3);
    assert todo[..3][1..3] == todo[1..3];
    hide SameHalt, ByKind, FromBits;
  }

  lemma HeaderSame(ring: bool, f: bool, hdr: seq<byte>, todo: Bits, out: seq<byte>)
    requires |hdr| < 4 && |todo| >= 8
    ensures SameHalt(ring, RawHeader(f, hdr), todo, out, AfterByte(RawHeader(f, hdr), FromBits(todo[..8]) % 256),
                     todo[8..],
                      out)
  {
    BitsSame(ring, RawHeader(f, hdr), todo, out, 8);
    hide SameHalt, AfterByte, FromBits;
  }

  lemma StoredSame(ring: bool, f: bool, left: nat, todo: Bits, out: seq<byte>)
    requires left > 0 && |todo| >= 8
    ensures SameHalt(ring, Stored(f, left), todo, out, StoredOut(f, left, FromBits(todo[..8]) % 256), todo[8..], out)
  {
    BitsSame(ring, Stored(f, left), todo, out, 8);
    hide SameHalt, FromBits;
  }

  lemma SizesSame(ring: bool, f: bool, sizes: seq<nat>, todo: Bits, out: seq<byte>)
    requires |sizes| < 3 && |todo| >= SizeBits(|sizes|)
    ensures var k := SizeBits(|sizes|);
            SameHalt(ring, Sizes(f, sizes), todo, out, AfterSize(Sizes(f, sizes), FromBits(todo[..k])), todo[k..], out)
  {
    BitsSame(ring, Sizes(f, sizes), todo, out, SizeBits(|sizes|));
    hide SameHalt, FromBits, AfterSize, SizeBits;
  }

  lemma CodeLensSame(ring: bool, f: bool, hlit: nat, hdist: nat, n: nat, i: nat, code: seq<nat>, todo: Bits,
                     out: seq<byte>)
    requires i < n <= 19 == |code| && |todo| >= 3
    ensures SameHalt(ring, CodeLens(f, hlit, hdist, n, i, code), todo, out,
                      AfterCodeLen(CodeLens(f, hlit, hdist, n, i, code), FromBits(todo[..3])), todo[3..], out)
  {
    BitsSame(ring, CodeLens(f, hlit, hdist, n, i, code), todo, out, 3);
    hide SameHalt, FromBits, AfterCodeLen;
  }

  lemma RepeatSame(ring: bool, f: bool, hlit: nat, hdist: nat, code: seq<nat>, acc: seq<nat>, sym: nat, todo: Bits,
                   out: seq<byte>)
    requires |todo| >= ExtraBits(sym)
    ensures var k := ExtraBits(sym);
            SameHalt(ring, Repeated(f, hlit, hdist, code, acc, sym), todo, out,
                      MoreLens(f, hlit, hdist, code, WithRepeat(acc, sym, FromBits(todo[..k]))), todo[k..], out)
  {
    BitsSame(ring, Repeated(f, hlit, hdist, code, acc, sym), todo, out, ExtraBits(sym));
    hide SameHalt, FromBits, MoreLens, WithRepeat, ExtraBits;
  }

  lemma LenExtraSame(ring: bool, f: bool, lits: seq<nat>, dists: seq<nat>, base: nat, extra: nat, todo: Bits,
                     out: seq<byte>)
    requires |todo| >= extra
    ensures SameHalt(ring, LenExtra(f, lits, dists, base, extra), todo, out,
                      Dist(f, lits, dists, base + FromBits(todo[..extra])), todo[extra..], out)
  {
    BitsSame(ring, LenExtra(f, lits, dists, base, extra), todo, out, extra);
    hide SameHalt, FromBits;
  }

  lemma DistExtraSame(ring: bool, f: bool, lits: seq<nat>, dists: seq<nat>, len: nat, base: nat, extra: nat, todo: Bits,
                      out: seq<byte>)
    requires |todo| >= extra
    ensures SameHalt(ring, DistExtra(f, lits, dists, len, base, extra), todo, out,
                      Copy(f, lits, dists, base + FromBits(todo[..extra]), len), todo[extra..], out)
  {
    BitsSame(ring, DistExtra(f, lits, dists, len, base, extra), todo, out, extra);
    hide SameHalt, FromBits;
  }

  lemma LensSame(ring: bool, f: bool, hlit: nat, hdist: nat, code: seq<nat>, acc: seq<nat>, todo: Bits, out: seq<byte>,
                 sym: nat,
                 todo': Bits)
    requires Valid(code) && DecodeSym(code, todo) == Some((sym, todo'))
    ensures SameHalt(ring, Lens(f, hlit, hdist, code, acc), todo, out, BySym(f, hlit, hdist, code, acc, sym), todo',
                     out)
  {
    SymbolSame(ring, Lens(f, hlit, hdist, code, acc), todo, out, sym, todo');
    hide SameHalt, BySym, DecodeSym, Valid;
  }

  lemma CodesSame(ring: bool, f: bool, lits: seq<nat>, dists: seq<nat>, todo: Bits, out: seq<byte>, sym: nat,
                  todo': Bits)
    requires Valid(lits) && DecodeSym(lits, todo) == Some((sym, todo'))
    ensures SameHalt(ring, Codes(f, lits, dists), todo, out, BySymbol(f, lits, dists, sym), todo', out)
  {
    SymbolSame(ring, Codes(f, lits, dists), todo, out, sym, todo');
    hide SameHalt, BySymbol, DecodeSym, Valid;
  }

  lemma DistSame(ring: bool, f: bool, lits: seq<nat>, dists: seq<nat>, len: nat, todo: Bits, out: seq<byte>, sym: nat,
                 todo': Bits)
    requires Valid(dists) && DecodeSym(dists, todo) == Some((sym, todo'))
    ensures SameHalt(ring, Dist(f, lits, dists, len), todo, out, ByDist(f, lits, dists, len, sym), todo', out)
  {
    SymbolSame(ring, Dist(f, lits, dists, len), todo, out, sym, todo');
    hide SameHalt, ByDist, DecodeSym, Valid;
  }

  lemma StoredOutSame(ring: bool, f: bool, left: nat, b: byte, todo: Bits, out: seq<byte>)
    requires left > 0
    ensures SameHalt(ring, StoredOut(f, left, b), todo, out, Stored(f, left - 1), todo, out + [b])
  {
    MoveSame(ring, StoredOut(f, left, b), todo, out, Stored(f, left - 1), out + [b]);
    hide SameHalt;
  }

  lemma StoredEndSame(ring: bool, f: bool, todo: Bits, out: seq<byte>)
    ensures SameHalt(ring, Stored(f, 0), todo, out, After(f), todo, out)
  {
    MoveSame(ring, Stored(f, 0), todo, out, After(f), out);
    hide SameHalt;
  }

  lemma LitSame(ring: bool, f: bool, lits: seq<nat>, dists: seq<nat>, b: byte, todo: Bits, out: seq<byte>)
    ensures SameHalt(ring, Lit(f, lits, dists, b), todo, out, Codes(f, lits, dists), todo, out + [b])
  {
    MoveSame(ring, Lit(f, lits, dists, b), todo, out, Codes(f, lits, dists), out + [b]);
    hide SameHalt;
  }

  lemma CopySame(ring: bool, f: bool, lits: seq<nat>, dists: seq<nat>, dist: nat, len: nat, todo: Bits, out: seq<byte>)
    requires 1 <= dist <= |out|
    ensures SameHalt(ring, Copy(f, lits, dists, dist, len), todo, out, Codes(f, lits, dists), todo,
                     CopyBack(out, dist, len))
  {
    MoveSame(ring, Copy(f, lits, dists, dist, len), todo, out, Codes(f, lits, dists), CopyBack(out, dist, len));
    hide SameHalt, CopyBack;
  }

  /** Without a ring, a match that reaches back too far ends it all. */
  lemma FarSame(f: bool, lits: seq<nat>, dists: seq<nat>, dist: nat, len: nat, todo: Bits, out: seq<byte>)
    requires !(1 <= dist <= |out|)
    ensures SameHalt(false, Copy(f, lits, dists, dist, len), todo, out, Broken, todo, out)
  {
    MoveSame(false, Copy(f, lits, dists, dist, len), todo, out, Broken, out);
    hide SameHalt;
  }
}
