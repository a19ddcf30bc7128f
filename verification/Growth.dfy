/**
  What has been put out stays: from every point on, the output only grows.
 */
module Growth {
  import opened Wrappers
  import opened Bits
  import opened CanonicalCode
  import opened Deflate
  import opened Resume
  import opened Halting
  import opened Points

  /** Whatever comes of it begins with out. */
  ghost predicate Grows(out: seq<byte>, r: Result)
  {
    r.Some? ==> out <= r.value.0
  }

  lemma GrowsFrom(out: seq<byte>, out': seq<byte>, r: Result)
    requires out <= out' && Grows(out', r)
    ensures Grows(out, r)
  {
  }

  lemma {:induction false} CodesGrow(lits: seq<nat>, dists: seq<nat>, rest: Bits, out: seq<byte>)
    ensures Grows(out, ReadCodes(lits, dists, rest, out))
    decreases |rest|
  {
    hide DecodeSym, ReadLength, ReadDistance, CopyBack;
    match DecodeSym(lits, rest)
    case None =>
    case Some((sym, r0)) =>
      if sym < END_OF_BLOCK {
        CodesGrow(lits, dists, r0, out + [sym]);
      } else if sym > END_OF_BLOCK && ReadLength(sym, r0).Some? {
        var (len, r1) := ReadLength(sym, r0).value;
        if ReadDistance(dists, r1).Some? && ReadDistance(dists, r1).value.0 <= |out| {
          var (dist, r2) := ReadDistance(dists, r1).value;
          CodesGrow(lits, dists, r2, CopyBack(out, dist, len));
        }
      }
  }

  lemma StoredGrows(n: nat, rest: Bits, out: seq<byte>)
    ensures Grows(out, StoredBytes(n, rest, out)) && Grows(out, ReadStored(rest, out))
  {
    hide BitsToBytes, Take;
  }

  lemma {:induction false} HeaderGrows(hdr: seq<byte>, rest: Bits, out: seq<byte>)
    requires |hdr| <= 4
    ensures Grows(out, HeaderFrom(hdr, rest, out))
    decreases 4 - |hdr|
  {
    hide StoredBytes, FromBits, Grows, Number16;
    if |hdr| == 4 {
      StoredGrows(Number16(hdr[0], hdr[1]), rest, out);
      NoneGrows(out);
    } else {
      HeaderNext(hdr, rest, out);
      NoneGrows(out);
      if |rest| >= 8 { HeaderGrows(hdr + [FromBits(rest[..8]) % 256], rest[8..], out); }
    }
  }

  lemma NoneGrows(out: seq<byte>)
    ensures Grows(out, None)
  {
  }

  lemma LensGrow(hlit: nat, hdist: nat, code: seq<nat>, acc: seq<nat>, rest: Bits, out: seq<byte>)
    requires |code| == 19
    ensures Grows(out, LensFrom(hlit, hdist, code, acc, rest, out))
  {
    if ReadLengths(code, hlit + hdist, rest, acc).Some? {
      var (lens, r) := ReadLengths(code, hlit + hdist, rest, acc).value;
      CodesGrow(lens[..hlit], lens[hlit..], r, out);
    }
    hide ReadLengths, ReadCodes, Acceptable;
  }

  lemma CodeLensGrow(hlit: nat, hdist: nat, n: nat, i: nat, code: seq<nat>, rest: Bits, out: seq<byte>)
    requires i <= n <= 19 == |code|
    ensures Grows(out, CodeLensFrom(hlit, hdist, n, i, code, rest, out))
  {
    if ReadSwizzled(n, i, rest, code).Some? {
      var (code', r) := ReadSwizzled(n, i, rest, code).value;
      LensGrow(hlit, hdist, code', [], r, out);
    }
    hide ReadSwizzled, LensFrom, Acceptable;
  }

  lemma {:induction false} SizesGrow(sizes: seq<nat>, rest: Bits, out: seq<byte>)
    requires |sizes| <= 3
    ensures Grows(out, SizesFrom(sizes, rest, out))
    decreases 3 - |sizes|
  {
    hide CodeLensFrom, FromBits, Grows;
    NoneGrows(out);
    if |sizes| == 3 {
      if sizes[2] <= 19 { CodeLensGrow(sizes[0], sizes[1], sizes[2], 0, Repeat(0, 19), rest, out); }
    } else {
      SizesNext(sizes, rest, out);
      var k := SizeBits(|sizes|);
      if |rest| >= k { SizesGrow(sizes + [FromBits(rest[..k]) + LeastSize(|sizes|)], rest[k..], out); }
    }
  }

  lemma RepeatGrows(hlit: nat, hdist: nat, code: seq<nat>, acc: seq<nat>, sym: nat, rest: Bits, out: seq<byte>)
    requires |code| == 19 && sym < 19
    ensures Grows(out, RepeatFrom(hlit, hdist, code, acc, sym, rest, out))
  {
    if Take(rest, ExtraBits(sym)).Some? {
      var (extra, r) := Take(rest, ExtraBits(sym)).value;
      if Expand(acc, sym, extra).Some? { LensGrow(hlit, hdist, code, Expand(acc, sym, extra).value, r, out); }
    }
    hide LensFrom, Expand, Take;
  }

  lemma CopyGrows(lits: seq<nat>, dists: seq<nat>, dist: nat, len: nat, rest: Bits, out: seq<byte>)
    ensures Grows(out, CopyFrom(lits, dists, dist, len, rest, out))
  {
    if 1 <= dist <= |out| { CodesGrow(lits, dists, rest, CopyBack(out, dist, len)); }
    hide ReadCodes, CopyBack;
  }

  lemma DistExtraGrows(lits: seq<nat>, dists: seq<nat>, len: nat, base: nat, extra: nat, rest: Bits, out: seq<byte>)
    ensures Grows(out, DistExtraFrom(lits, dists, len, base, extra, rest, out))
  {
    if Take(rest, extra).Some? {
      var (x, r) := Take(rest, extra).value;
      CopyGrows(lits, dists, base + x, len, r, out);
    }
    hide CopyFrom, Take;
  }

  lemma DistGrows(lits: seq<nat>, dists: seq<nat>, len: nat, rest: Bits, out: seq<byte>)
    ensures Grows(out, DistanceFrom(lits, dists, len, rest, out))
  {
    if DecodeSym(dists, rest).Some? {
      var (sym, r) := DecodeSym(dists, rest).value;
      if sym < |DIST_BASE| { DistExtraGrows(lits, dists, len, DIST_BASE[sym], DIST_EXTRA[sym], r, out); }
    }
    hide DistExtraFrom, DecodeSym;
  }

  lemma LengthGrows(lits: seq<nat>, dists: seq<nat>, base: nat, extra: nat, rest: Bits, out: seq<byte>)
    ensures Grows(out, LengthFrom(lits, dists, base, extra, rest, out))
  {
    if Take(rest, extra).Some? {
      var (x, r) := Take(rest, extra).value;
      DistGrows(lits, dists, base + x, r, out);
    }
    hide DistanceFrom, Take;
  }

  lemma {:induction false} InflateGrows(rest: Bits, out: seq<byte>)
    ensures Grows(out, Inflate(rest, out))
    decreases |rest|
  {
    hide ReadBody, Grows;
    NoneGrows(out);
    if rest != [] && ReadBody(rest[1..], out).Some? {
      BodyGrows(rest[1..], out);
      var (out', r) := ReadBody(rest[1..], out).value;
      BodyGave(rest[1..], out);
      if rest[0] {
        SomeGrows(out, out', r);
      } else {
        InflateGrows(r, out');
        GrowsFrom(out, out', Inflate(rest, out));
      }
    }
  }

  lemma SomeGrows(out: seq<byte>, out': seq<byte>, r: Bits)
    requires out <= out'
    ensures Grows(out, Some((out', r)))
  {
  }

  lemma BodyGave(rest: Bits, out: seq<byte>)
    requires Grows(out, ReadBody(rest, out)) && ReadBody(rest, out).Some?
    ensures out <= ReadBody(rest, out).value.0
  {
    hide ReadBody;
  }

  lemma BodyGrows(rest: Bits, out: seq<byte>)
    ensures Grows(out, ReadBody(rest, out))
  {
    hide *;
    NoneGrows(out);
    BodyIs(rest, out);
    if Take(rest, 2).Some? {
      var (kind, r) := Take(rest, 2).value;
      StoredGrows(0, r, out);
      CodesGrow(FixedLiterals(), FixedDistances(), r, out);
      DynamicGrows(r, out);
    }
  }

  lemma BodyIs(rest: Bits, out: seq<byte>)
    ensures ReadBody(rest, out) == if Take(rest, 2).None? then None
            else KindFrom(Take(rest, 2).value.0, Take(rest, 2).value.1, out)
    ensures forall kind: nat, r: Bits {:trigger KindFrom(kind, r, out)} ::
              KindFrom(kind, r, out) == None || KindFrom(kind, r, out) == ReadStored(r, out) ||
              KindFrom(kind, r, out) == DynamicFrom(r, out) ||
              KindFrom(kind, r, out) == ReadCodes(FixedLiterals(), FixedDistances(), r, out)
  {
    hide Take, ReadStored, ReadCodes, ReadTables, FixedLiterals, FixedDistances;
  }

  lemma DynamicGrows(rest: Bits, out: seq<byte>)
    ensures Grows(out, DynamicFrom(rest, out))
  {
    if ReadTables(rest).Some? {
      var (lits, dists, r) := ReadTables(rest).value;
      CodesGrow(lits, dists, r, out);
    }
    hide ReadTables, ReadCodes;
  }

  lemma ThenGrows(f: bool, out: seq<byte>, r: Result)
    requires Grows(out, r)
    ensures Grows(out, Then(f, r))
  {
    if r.Some? {
      InflateGrows(r.value.1, r.value.0);
    }
    hide Inflate;
  }

  /** At every point, what has been put out is what the rest begins with. */
  lemma RestGrows(p: Point, todo: Bits, out: seq<byte>)
    requires WellFormed(p)
    ensures Grows(out, RestAt(p, todo, out))
  {
    hide Then, Inflate, Grows, HeaderFrom, SizesFrom;
    match p
    case Head => InflateGrows(todo, out);
    case Aligning(f) => StoredGrows(0, todo, out); ThenGrows(f, out, ReadStored(todo, out));
    case RawHeader(f, hdr) => HeaderGrows(hdr, todo, out); ThenGrows(f, out, HeaderFrom(hdr, todo, out));
    case Stored(f, left) => StoredGrows(left, todo, out); ThenGrows(f, out, StoredBytes(left, todo, out));
    case StoredOut(f, left, b) =>
      StoredGrows(left - 1, todo, out + [b]);
      GrowsFrom(out, out + [b], StoredBytes(left - 1, todo, out + [b]));
      ThenGrows(f, out, StoredBytes(left - 1, todo, out + [b]));
    case Sizes(f, sizes) => SizesGrow(sizes, todo, out); ThenGrows(f, out, SizesFrom(sizes, todo, out));
    case CodeLens(f, hlit, hdist, n, i, code) =>
      CodeLensGrow(hlit, hdist, n, i, code, todo, out);
      ThenGrows(f, out, CodeLensFrom(hlit, hdist, n, i, code, todo, out));
    case Lens(f, hlit, hdist, code, acc) =>
      LensGrow(hlit, hdist, code, acc, todo, out);
      ThenGrows(f, out, LensFrom(hlit, hdist, code, acc, todo, out));
    case Repeated(f, hlit, hdist, code, acc, sym) =>
      RepeatGrows(hlit, hdist, code, acc, sym, todo, out);
      ThenGrows(f, out, RepeatFrom(hlit, hdist, code, acc, sym, todo, out));
    case _ => CodesPointGrows(p, todo, out);
  }

  lemma CodesPointGrows(p: Point, todo: Bits, out: seq<byte>)
    requires WellFormed(p)
    requires p.Codes? || p.Lit? || p.LenExtra? || p.Dist? || p.DistExtra? || p.Copy? || p.Last? || p.Ended? || p.Broken?
    ensures Grows(out, RestAt(p, todo, out))
  {
    hide Then, Inflate;
    match p
    case Codes(f, lits, dists) =>
      CodesGrow(lits, dists, todo, out); ThenGrows(f, out, ReadCodes(lits, dists, todo, out));
    case Lit(f, lits, dists, b) =>
      CodesGrow(lits, dists, todo, out + [b]);
      GrowsFrom(out, out + [b], ReadCodes(lits, dists, todo, out + [b]));
      ThenGrows(f, out, ReadCodes(lits, dists, todo, out + [b]));
    case LenExtra(f, lits, dists, base, extra) =>
      LengthGrows(lits, dists, base, extra, todo, out);
      ThenGrows(f, out, LengthFrom(lits, dists, base, extra, todo, out));
    case Dist(f, lits, dists, len) =>
      DistGrows(lits, dists, len, todo, out); ThenGrows(f, out, DistanceFrom(lits, dists, len, todo, out));
    case DistExtra(f, lits, dists, len, base, extra) =>
      DistExtraGrows(lits, dists, len, base, extra, todo, out);
      ThenGrows(f, out, DistExtraFrom(lits, dists, len, base, extra, todo, out));
    case Copy(f, lits, dists, dist, len) =>
      CopyGrows(lits, dists, dist, len, todo, out);
      ThenGrows(f, out, CopyFrom(lits, dists, dist, len, todo, out));
    case _ =>
  }

  /** At these points there is a byte to be put out. */
  ghost predicate MoreToCome(p: Point)
  {
    p.StoredOut? || p.Lit? || (p.Stored? && p.left > 0) || (p.Copy? && p.len > 0)
  }

  /** And so the output so far is not all of it. */
  lemma RestLonger(p: Point, todo: Bits, out: seq<byte>)
    requires WellFormed(p) && MoreToCome(p)
    ensures RestAt(p, todo, out).Some? ==> |RestAt(p, todo, out).value.0| > |out|
  {
    hide *;
    ToComeGives(p);
    match p {
      case StoredOut(f, left, b) =>
        StoredGrows(left - 1, todo, out + [b]);
        ThenGrows(f, out + [b], StoredBytes(left - 1, todo, out + [b]));
        RestStored(f, left, b, todo, out);
        Longer(out, b, RestAt(p, todo, out));
      case Lit(f, lits, dists, b) =>
        CodesGrow(lits, dists, todo, out + [b]);
        ThenGrows(f, out + [b], ReadCodes(lits, dists, todo, out + [b]));
        RestCodes(f, lits, dists, b, todo, out);
        Longer(out, b, RestAt(p, todo, out));
      case Stored(f, left) =>
        if |todo| >= 8 {
          var b: byte := FromBits(todo[..8]) % 256;
          StoredNext(left, todo, out);
          StoredGrows(left - 1, todo[8..], out + [b]);
          RestStored(f, left, b, todo, out);
          ThenGrows(f, out + [b], StoredBytes(left, todo, out));
          Longer(out, b, RestAt(p, todo, out));
        } else {
          StoredShort(left, todo, out);
          RestStored(f, left, 0, todo, out);
          RestEnds(f, todo, out);
        }
      case Copy(f, lits, dists, dist, len) =>
        if 1 <= dist <= |out| {
          var b := out[|out| - dist];
          CopyNext(lits, dists, dist, len, todo, out);
          CopyGrows(lits, dists, dist, len - 1, todo, out + [b]);
          RestMatch(f, lits, dists, dist, len, 0, todo, out);
          ThenGrows(f, out + [b], CopyFrom(lits, dists, dist, len, todo, out));
          Longer(out, b, RestAt(p, todo, out));
        } else {
          CopyTooFar(lits, dists, dist, len, todo, out);
          RestMatch(f, lits, dists, dist, len, 0, todo, out);
          RestEnds(f, todo, out);
        }
      case _ =>
    }
  }

  lemma ToComeGives(p: Point)
    requires WellFormed(p) && MoreToCome(p)
    ensures p.StoredOut? || p.Lit? || p.Stored? || p.Copy?
    ensures p.StoredOut? || p.Stored? ==> p.left > 0
    ensures p.Copy? ==> p.len > 0
  {
  }

  lemma Longer(out: seq<byte>, b: byte, r: Result)
    requires Grows(out + [b], r)
    ensures r.Some? ==> |r.value.0| > |out|
  {
  }
}
