/**
  How long a dynamic block can get: never much longer than the same records written with the fixed
  codes, since a Huffman code is at most as long and limiting the length of its codes costs little.
 */
module DynamicFit {
  import opened Wrappers
  import opened Bits
  import opened CanonicalCode
  import opened Deflate
  import opened HuffmanTree
  import opened HuffmanOptimality
  import opened HuffTables
  import opened LimitedCost
  import opened LzRecords
  import opened LzLayout
  import opened LzBuffer
  import opened CodeLengths
  import opened BlockHeaders

  // ------------------------------------------------------------------------------ the buffer in use

  /** Eight for every payload byte and one for every record: bits of the buffer in use, flags included. */
  ghost function BitsUsed(recs: seq<Lz>, i: nat): (r: nat)
    requires i <= |recs|
  {
    if i == 0 then 0 else BitsUsed(recs, i - 1) + 8 * PayloadSize(recs[i - 1]) + 1
  }

  /** Flag bytes are paid for by the groups they head. */
  lemma {:induction false} UsedFits(recs: seq<Lz>, i: nat)
    requires i <= |recs|
    ensures BitsUsed(recs, i) + (if GroupStart(i) == i then 0 else 8 - (i - GroupStart(i))) <= 8 * ReadPos(recs, i)
  {
    if i > 0 {
      UsedFits(recs, i - 1);
      GroupNext(i - 1);
      hide GroupStart;
    }
  }

  // ------------------------------------------------------------------------------ bits by symbols

  /** Bits of all records. */
  ghost function RecsBits(L: seq<nat>, D: seq<nat>, recs: seq<Lz>): (r: nat)
    requires CoversAll(L, D, recs)
  {
    if recs == [] then 0
    else
      var m := |recs| - 1;
      CoversFront(L, D, recs);
      RecsBits(L, D, recs[..m]) + |RecBits(L, D, recs[m])|
  }

  lemma CoversFront(L: seq<nat>, D: seq<nat>, recs: seq<Lz>)
    requires CoversAll(L, D, recs) && recs != []
    ensures CoversAll(L, D, recs[..|recs| - 1]) && Covers(L, D, recs[|recs| - 1])
  {
  }

  lemma CoversUpTo(L: seq<nat>, D: seq<nat>, recs: seq<Lz>, i: nat)
    requires CoversAll(L, D, recs) && i <= |recs|
    ensures CoversAll(L, D, recs[..i])
  {
  }

  lemma RecsStep(L: seq<nat>, D: seq<nat>, recs: seq<Lz>, i: nat)
    requires CoversAll(L, D, recs) && i < |recs|
    ensures CoversAll(L, D, recs[..i]) && CoversAll(L, D, recs[..i + 1]) && Covers(L, D, recs[i])
    ensures RecsBits(L, D, recs[..i + 1]) == RecsBits(L, D, recs[..i]) + |RecBits(L, D, recs[i])|
  {
    assert recs[..i + 1][..i] == recs[..i];
    hide RecBits;
  }

  lemma {:induction false} BitsFromSize(L: seq<nat>, D: seq<nat>, recs: seq<Lz>, i: nat)
    requires CoversAll(L, D, recs) && i <= |recs|
    ensures CoversAll(L, D, recs[..i]) && RecsBits(L, D, recs[..i]) + |BitsFrom(L, D, recs, i)| == RecsBits(L, D, recs)
    decreases |recs| - i
  {
    CoversUpTo(L, D, recs, i);
    hide RecBits, BitsFrom, RecsBits;
    if i < |recs| {
      BitsFromSize(L, D, recs, i + 1);
      RecsStep(L, D, recs, i);
      BitsStep(L, D, recs, i);
    } else {
      assert recs[..i] == recs;
      NoBitsLeft(L, D, recs);
    }
  }

  lemma NoBitsLeft(L: seq<nat>, D: seq<nat>, recs: seq<Lz>)
    requires CoversAll(L, D, recs)
    ensures BitsFrom(L, D, recs, |recs|) == []
  {
  }

  /** Bits that do not depend on the codes. */
  ghost function Extra(rec: Lz): (r: nat)
  {
    if InRange(rec) && rec.Match? then LenExtra(rec.len - MIN_MATCH_LEN) + DistExtra(rec.dist - 1) else 0
  }

  ghost function Extras(recs: seq<Lz>): (r: nat)
  {
    if recs == [] then 0 else Extras(recs[..|recs| - 1]) + Extra(recs[|recs| - 1])
  }

  ghost function Matches(recs: seq<Lz>): (r: nat)
  {
    if recs == [] then 0 else Matches(recs[..|recs| - 1]) + if recs[|recs| - 1].Match? then 1 else 0
  }

  lemma {:induction false} PriceBump(w: seq<nat>, i: nat, x: seq<nat>)
    requires i < |w| <= |x|
    ensures Price(Bump(w, i), x[..|w|]) == Price(w, x[..|w|]) + x[i]
    decreases |w|
  {
    var m := |w| - 1;
    assert x[..|w|][..m] == x[..m];
    if i == m {
      assert Bump(w, i)[..m] == w[..m];
      assert (w[m] + 1) * x[m] == w[m] * x[m] + x[m];
    } else {
      assert Bump(w, i)[..m] == Bump(w[..m], i);
      PriceBump(w[..m], i, x);
    }
  }

  lemma {:induction false} NoPrice(n: nat, x: seq<nat>)
    requires n <= |x|
    ensures Price(seq(n, _ => 0), x[..n]) == 0
  {
    if n > 0 {
      NoPrice(n - 1, x);
      assert seq(n, _ => 0)[..n - 1] == seq(n - 1, _ => 0) && x[..n][..n - 1] == x[..n - 1];
    }
  }

  /** What a record is written as, symbol by symbol. */
  lemma RecSize(L: seq<nat>, D: seq<nat>, rec: Lz)
    requires Covers(L, D, rec) && InRange(rec) && |L| == 288 && |D| == 32
    ensures LitSym(rec) < 288
    ensures |RecBits(L, D, rec)| == L[LitSym(rec)] + Extra(rec) + if rec.Match? then At(D, DistSym(rec.dist - 1)) else 0
  {
    hide CodeBits, ToBits, Pow2, LenSym, LenExtra, DistSym, DistExtra;
    if rec.Match? { DistInRange(rec); }
  }

  /** All the bits, by how often each symbol is needed. */
  lemma {:induction false} BitsBySymbol(L: seq<nat>, D: seq<nat>, recs: seq<Lz>)
    requires CoversAll(L, D, recs) && |L| == 288 && |D| == 32 && forall i :: 0 <= i < |recs| ==> InRange(recs[i])
    ensures RecsBits(L, D, recs) == Price(LitTally(recs), L) + Price(DistTally(recs)[..32], D) + Extras(recs)
  {
    hide RecBits, CodeBits, Price, LitSym, DistSym, Extra;
    assert L[..288] == L && D[..32] == D;
    if recs == [] {
      assert NoTally() == seq(288, _ => 0) && NoTally()[..32] == seq(32, _ => 0);
      NoPrice(288, L);
      NoPrice(32, D);
    } else {
      var m := |recs| - 1;
      var rec := recs[m];
      CoversFront(L, D, recs);
      BitsBySymbol(L, D, recs[..m]);
      RecSize(L, D, rec);
      assert recs == recs[..m] + [rec];
      TallyMore(recs[..m], rec);
      PriceBump(LitTally(recs[..m]), LitSym(rec), L);
      if rec.Match? { DistBump(DistTally(recs[..m]), rec, D); }
    }
  }

  lemma DistBump(t: seq<nat>, rec: Lz, D: seq<nat>)
    requires |t| == 288 && |D| == 32 && InRange(rec) && rec.Match?
    ensures 0 <= rec.dist - 1 < LZ_DICT_SIZE
    ensures Price(Bump(t, DistSym(rec.dist - 1))[..32], D) == Price(t[..32], D) + At(D, DistSym(rec.dist - 1))
  {
    DistInRange(rec);
    var d := DistSym(rec.dist - 1);
    assert Bump(t, d)[..32] == Bump(t[..32], d) && D[..32] == D;
    hide Price, DistSym;
    PriceBump(t[..32], d, D);
  }

  // ------------------------------------------------------------------------------ compared with the fixed codes

  lemma {:induction false} KraftFront(lens: seq<nat>, n: nat, m: nat)
    requires n < |lens| && lens[n] > 0
    ensures KraftSum(lens[..n + 1], m) == KraftSum(lens[..n], m) + Share(lens[n], m)
  {
    assert lens[..n + 1][..n] == lens[..n];
  }

  lemma {:induction false} KraftSame(lens: seq<nat>, a: nat, n: nat, l: nat, m: nat)
    requires a + n <= |lens| && l > 0 && forall k :: a <= k < a + n ==> lens[k] == l
    ensures KraftSum(lens[..a + n], m) == KraftSum(lens[..a], m) + n * Share(l, m)
  {
    if n > 0 {
      KraftSame(lens, a, n - 1, l, m);
      KraftFront(lens, a + n - 1, m);
      assert (n - 1) * Share(l, m) + Share(l, m) == n * Share(l, m);
    } else {
      assert 0 * Share(l, m) == 0;
    }
  }

  /** The fixed codes are codes for every symbol. */
  lemma FixedRivals(counts: seq<nat>, dists: seq<nat>)
    requires |counts| == 288 && |dists| == 32
    ensures Rival(counts, FixedLiterals(), 9) && Rival(dists, FixedDistances(), 5)
  {
    var L, D := FixedLiterals(), FixedDistances();
    Powers();
    KraftSame(L, 0, 144, 8, 9);
    KraftSame(L, 144, 112, 9, 9);
    KraftSame(L, 256, 24, 7, 9);
    KraftSame(L, 280, 8, 8, 9);
    KraftSame(D, 0, 32, 5, 5);
    assert L[..288] == L && D[..32] == D && L[..0] == [] && D[..0] == [];
  }

  lemma NearlyGives(counts: seq<nat>, lens: seq<nat>, other: seq<nat>, m: nat)
    requires NearlyBest(counts, lens) && Rival(counts, other, m)
    ensures |other| == |lens| == |counts|
    ensures 270 * Price(counts, lens) <= 270 * Price(counts, other) + Sum(counts) * |counts|
  {
    hide Price, Sum, KraftSum;
  }

  lemma {:induction false} SumDists(recs: seq<Lz>)
    requires forall i :: 0 <= i < |recs| ==> InRange(recs[i])
    ensures Sum(DistTally(recs)) == Matches(recs)
  {
    hide DistSym, Sum, Bump;
    if recs == [] {
      NoCounts(NoTally());
    } else {
      var m := |recs| - 1;
      SumDists(recs[..m]);
      assert recs == recs[..m] + [recs[m]];
      TallyMore(recs[..m], recs[m]);
      if recs[m].Match? {
        DistInRange(recs[m]);
        BumpSum(DistTally(recs[..m]), DistSym(recs[m].dist - 1));
      }
    }
  }

  lemma BumpSum(t: seq<nat>, i: nat)
    requires i < |t|
    ensures Sum(Bump(t, i)) == Sum(t) + 1
  {
    hide *;
    BumpIs(t, i);
    SumUpdate(t, i, t[i] + 1);
  }

  lemma BumpIs(t: seq<nat>, i: nat)
    requires i < |t|
    ensures Bump(t, i) == t[i := t[i] + 1]
  {
  }

  /** The end of the block is counted too. */
  lemma EndPrice(w: seq<nat>, x: seq<nat>)
    requires |w| == |x| == 288 && w[END_OF_BLOCK] == 0
    ensures Price(w[END_OF_BLOCK := 1], x) == Price(w, x) + x[END_OF_BLOCK]
  {
    assert w[END_OF_BLOCK := 1] == Bump(w, END_OF_BLOCK) && x[..288] == x;
    hide Price;
    PriceBump(w, END_OF_BLOCK, x);
  }

  /** Codes made for these counts cost little more than the fixed codes. */
  lemma CheapBits(lits: seq<u16>, dists: seq<u16>, recs: seq<Lz>, L: seq<nat>, D: seq<nat>)
    requires Tallied(lits, dists, recs) && CoversAll(L, D, recs) && |L| == 288 && |D| == 32
    requires NearlyBest(lits[END_OF_BLOCK := 1], L) && NearlyBest(dists[..32], D)
    requires CoversAll(FixedLiterals(), FixedDistances(), recs)
    ensures 270 * (RecsBits(L, D, recs) + L[END_OF_BLOCK])
            <= 270 * (RecsBits(FixedLiterals(), FixedDistances(), recs) + 7) + 288 * (|recs| + 1) + 32 * Matches(recs)
  {
    hide *;
    TalliedGives(lits, dists, recs);
    TalliedRange(lits, dists, recs);
    var F, G, c, d := FixedLiterals(), FixedDistances(), lits[END_OF_BLOCK := 1], dists[..32];
    FixedRivals(c, d);
    NearlyGives(c, L, F, 9);
    NearlyGives(d, D, G, 5);
    SumUpdate(lits, END_OF_BLOCK, 1);
    SumDists(recs);
    SumPrefix(dists, 32);
    EndPrice(lits, L);
    EndPrice(lits, F);
    FixedEnd();
    BitsBySymbol(L, D, recs);
    BitsBySymbol(F, G, recs);
    AddUp(Price(lits, L), Price(d, D), Price(lits, F), Price(d, G), Extras(recs), L[END_OF_BLOCK], Sum(c), |recs| + 1,
          Sum(d), Matches(recs));
  }

  lemma TalliedRange(lits: seq<u16>, dists: seq<u16>, recs: seq<Lz>)
    requires Tallied(lits, dists, recs)
    ensures forall i :: 0 <= i < |recs| ==> InRange(recs[i])
    ensures END_OF_BLOCK == 256
  {
    hide Sum, LitTally, DistTally;
    forall i | 0 <= i < |recs| ensures InRange(recs[i]) { assert CountedIn(lits, dists, recs[i]); }
  }

  lemma FixedEnd()
    ensures END_OF_BLOCK == 256 && |FixedLiterals()| == 288 && |FixedDistances()| == 32
    ensures FixedLiterals()[END_OF_BLOCK] == 7
  {
  }

  lemma AddUp(l: nat, d: nat, f: nat, g: nat, x: nat, e: nat, sl: nat, n: nat, sd: nat, m: nat)
    requires 270 * (l + e) <= 270 * (f + 7) + sl * 288 && 270 * d <= 270 * g + sd * 32 && sl == n && sd <= m
    ensures 270 * (l + d + x + e) <= 270 * (f + g + x + 7) + 288 * n + 32 * m
  {
  }

  /** A record, its share of what the limit costs included, against the room it takes in the buffer. */
  lemma RecordRoom(rec: Lz)
    requires InRange(rec) && Covers(FixedLiterals(), FixedDistances(), rec)
    ensures Paid(|RecBits(FixedLiterals(), FixedDistances(), rec)|, 1, if rec.Match? then 1 else 0,
                 8 * PayloadSize(rec) + 1)
  {
    hide CodeBits, ToBits, Pow2, LenSym, LenExtra, DistSym, DistExtra;
  }

  /** Symbols of so many bits in so many records, with so many matches, are paid for by so many bits of the buffer. */
  ghost predicate Paid(symbols: nat, records: nat, matches: nat, used: nat)
  {
    25 * (270 * symbols + 288 * records + 32 * matches) <= 8690 * used
  }

  lemma RoomAdds(a: nat, i: nat, m: nat, u: nat, x: nat, d: nat, y: nat)
    requires Paid(a, i, m, u) && Paid(x, 1, d, y)
    ensures Paid(a + x, i + 1, m + d, u + y)
  {
  }

  lemma {:induction false} RecordsRoom(recs: seq<Lz>, i: nat)
    requires (forall k :: 0 <= k < |recs| ==> InRange(recs[k])) && CoversAll(FixedLiterals(), FixedDistances(), recs)
    requires i <= |recs|
    ensures CoversAll(FixedLiterals(), FixedDistances(), recs[..i])
    ensures Paid(RecsBits(FixedLiterals(), FixedDistances(), recs[..i]), i, Matches(recs[..i]), BitsUsed(recs, i))
  {
    hide *;
    if i == 0 {
      NothingYet(FixedLiterals(), FixedDistances(), recs);
    } else {
      RecordsRoom(recs, i - 1);
      OnePaid(recs, i - 1);
    }
  }

  lemma OnePaid(recs: seq<Lz>, i: nat)
    requires i < |recs| && InRange(recs[i]) && CoversAll(FixedLiterals(), FixedDistances(), recs)
    requires CoversAll(FixedLiterals(), FixedDistances(), recs[..i])
    requires Paid(RecsBits(FixedLiterals(), FixedDistances(), recs[..i]), i, Matches(recs[..i]), BitsUsed(recs, i))
    ensures CoversAll(FixedLiterals(), FixedDistances(), recs[..i + 1])
    ensures Paid(RecsBits(FixedLiterals(), FixedDistances(), recs[..i + 1]), i + 1, Matches(recs[..i + 1]),
                 BitsUsed(recs, i + 1))
  {
    var F, G, rec := FixedLiterals(), FixedDistances(), recs[i];
    hide *;
    RecsStep(F, G, recs, i);
    MatchesStep(recs, i);
    RecordRoom(rec);
    RoomAdds(RecsBits(F, G, recs[..i]), i, Matches(recs[..i]), BitsUsed(recs, i), |RecBits(F, G, rec)|,
             if rec.Match? then 1 else 0, 8 * PayloadSize(rec) + 1);
  }

  lemma NothingYet(L: seq<nat>, D: seq<nat>, recs: seq<Lz>)
    requires CoversAll(L, D, recs)
    ensures CoversAll(L, D, recs[..0]) && RecsBits(L, D, recs[..0]) == 0 && Matches(recs[..0]) == 0
    ensures BitsUsed(recs, 0) == 0 && Paid(0, 0, 0, 0)
  {
  }

  lemma MatchesStep(recs: seq<Lz>, i: nat)
    requires i < |recs|
    ensures Matches(recs[..i + 1]) == Matches(recs[..i]) + if recs[i].Match? then 1 else 0
    ensures BitsUsed(recs, i + 1) == BitsUsed(recs, i) + 8 * PayloadSize(recs[i]) + 1
  {
    assert recs[..i + 1][..i] == recs[..i];
  }

  // ------------------------------------------------------------------------------ the header

  lemma {:induction false} FewTokens(toks: seq<Token>)
    requires AllWellFormed(toks) && Unpack(toks).Some?
    ensures |toks| <= |Unpack(toks).value|
  {
    UnpackPrefix(toks, 0);
    assert toks[..0] == [];
  }

  lemma {:induction false} TokensFit(code: seq<nat>, toks: seq<Token>, i: nat)
    requires Coded(code, toks) && i <= |toks| && forall s :: 0 <= s < 19 ==> code[s] < 8
    ensures |PackedFrom(code, toks, i)| <= 14 * (|toks| - i)
    decreases |toks| - i
  {
    hide CodeBits, ToBits, Pow2;
    if i < |toks| { TokensFit(code, toks, i + 1); }
  }

  lemma {:induction false} SwizzledFit(code: seq<nat>, n: nat, i: nat)
    requires |code| == 19 && i <= n <= 19
    ensures |SwizzledFrom(code, n, i)| == 3 * (n - i)
    decreases n - i
  {
    hide ToBits;
    if i < n { SwizzledFit(code, n, i + 1); }
  }

  /** The header of a dynamic block takes at most 600 bytes. */
  lemma HeaderFits(nlit: nat, ndist: nat, nbl: nat, code: seq<nat>, toks: seq<Token>)
    requires 257 <= nlit <= 288 && 1 <= ndist <= 32 && 4 <= nbl <= 19 && Coded(code, toks)
    requires forall s :: 0 <= s < 19 ==> code[s] < 8
    requires Unpack(toks).Some? && |Unpack(toks).value| == nlit + ndist
    ensures |HeaderBits(nlit, ndist, nbl, code, toks)| <= 4800
  {
    FewTokens(toks);
    TokensFit(code, toks, 0);
    SwizzledFit(code, nbl, 0);
    hide ToBits, PackedFrom, SwizzledFrom, Unpack;
  }

  // ------------------------------------------------------------------------------ the block

  /** No longer than the room the records take in the buffer allows. */
  ghost predicate Compact(bs: Bits, recs: seq<Lz>)
  {
    6750 * |bs| <= 8690 * BitsUsed(recs, |recs|) + 6750 * 4820
  }

  /** A dynamic block is compact. */
  lemma DynamicCompact(lits: seq<u16>, dists: seq<u16>, recs: seq<Lz>, L: seq<nat>, D: seq<nat>, hdr: Bits, bs: Bits)
    requires Tallied(lits, dists, recs) && CoversAll(L, D, recs) && |L| == 288 && |D| == 32
    requires NearlyBest(lits[END_OF_BLOCK := 1], L) && NearlyBest(dists[..32], D)
    requires CoversAll(FixedLiterals(), FixedDistances(), recs) && |hdr| <= 4800
    requires bs == (ToBits(2, 2) + hdr) + (BitsFrom(L, D, recs, 0) + CodeBits(L, END_OF_BLOCK))
    ensures Compact(bs, recs)
  {
    hide *;
    TalliedRange(lits, dists, recs);
    CheapBits(lits, dists, recs, L, D);
    BitsFromSize(L, D, recs, 0);
    NothingYet(L, D, recs);
    RecordsRoom(recs, |recs|);
    assert recs[..|recs|] == recs;
    assert |bs| == 2 + |hdr| + |BitsFrom(L, D, recs, 0)| + L[END_OF_BLOCK];
    CompactNow(bs, recs, RecsBits(L, D, recs) + L[END_OF_BLOCK], RecsBits(FixedLiterals(), FixedDistances(), recs),
               Matches(recs), |hdr|);
  }

  lemma CompactNow(bs: Bits, recs: seq<Lz>, x: nat, f: nat, m: nat, h: nat)
    requires |bs| == 2 + h + x && h <= 4800 && 270 * x <= 270 * (f + 7) + 288 * (|recs| + 1) + 32 * m
    requires Paid(f, |recs|, m, BitsUsed(recs, |recs|))
    ensures Compact(bs, recs)
  {
    hide BitsUsed;
  }
}
