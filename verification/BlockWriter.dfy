/**
  Blocks of compressed data, dynamic and static, and the proof that each reads back as what its
  records stand for.
 */
module BlockWriter {
  import opened Wrappers
  import opened Bits
  import opened CanonicalCode
  import opened Deflate
  import opened HuffmanTree
  import opened HuffTables
  import opened LzRecords
  import opened LzLayout
  import opened LzBuffer
  import opened CodeLengths
  import opened CodeLengthPacker
  import opened BitWriter
  import opened BlockCodes
  import opened BlockHeaders
  import opened LimitedCost
  import opened DynamicFit

  /** bs is the body of a block that stands for the records, whatever follows it. */
  ghost predicate Means(bs: Bits, recs: seq<Lz>)
  {
    forall out: seq<byte>, post: Bits :: AllSound(recs, |out|) ==>
      ReadBody(bs + post, out) == Some((PlayAll(out, recs), post))
  }

  /** The header announces the two codes, whatever follows it. */
  ghost predicate Announces(hdr: Bits, lits: seq<nat>, dists: seq<nat>)
  {
    forall post: Bits :: ReadTables(hdr + post) == Some((lits, dists, post))
  }

  lemma ReadsKind(kind: nat, n: Bits, post: Bits)
    requires kind < 4
    ensures Take((ToBits(kind, 2) + n) + post, 2) == Some((kind, n + post))
  {
    Powers();
    assert (ToBits(kind, 2) + n) + post == ToBits(kind, 2) + (n + post);
    TakeNumber(kind, 2, n + post);
  }

  /** A dynamic block. */
  lemma DynamicMeans(hdr: Bits, lits: seq<nat>, dists: seq<nat>, recs: seq<Lz>)
    requires Announces(hdr, lits, dists) && Valid(lits) && Valid(dists) && CoversAll(lits, dists, recs)
    requires END_OF_BLOCK < |lits| && lits[END_OF_BLOCK] > 0
    ensures Means(ToBits(2, 2) + (hdr + (BitsFrom(lits, dists, recs, 0) + CodeBits(lits, END_OF_BLOCK))), recs)
  {
    var data := BitsFrom(lits, dists, recs, 0) + CodeBits(lits, END_OF_BLOCK);
    hide ReadBody, PlayAll, AllSound, Valid, CoversAll, Announces, ToBits, BitsFrom, CodeBits;
    forall out: seq<byte>, post: Bits | AllSound(recs, |out|)
      ensures ReadBody((ToBits(2, 2) + (hdr + data)) + post, out) == Some((PlayAll(out, recs), post))
    {
      ReadsDynamic(hdr, lits, dists, recs, out, post);
    }
  }

  lemma ReadsDynamic(hdr: Bits, lits: seq<nat>, dists: seq<nat>, recs: seq<Lz>, out: seq<byte>, post: Bits)
    requires Announces(hdr, lits, dists) && Valid(lits) && Valid(dists) && CoversAll(lits, dists, recs)
    requires END_OF_BLOCK < |lits| && lits[END_OF_BLOCK] > 0 && AllSound(recs, |out|)
    ensures ReadBody((ToBits(2, 2) + (hdr + (BitsFrom(lits, dists, recs, 0) + CodeBits(lits, END_OF_BLOCK)))) + post,
                     out)
            == Some((PlayAll(out, recs), post))
  {
    hide *;
    var b, e := BitsFrom(lits, dists, recs, 0), CodeBits(lits, END_OF_BLOCK);
    ReadsAll(lits, dists, recs, out, post);
    ReadsKind(2, hdr + (b + e), post);
    AnnouncesHere(hdr, lits, dists, b + (e + post));
    Regroup(hdr, b, e, post);
    BodyIsDynamic((ToBits(2, 2) + (hdr + (b + e))) + post, hdr + (b + (e + post)), lits, dists, b + (e + post), out);
  }

  lemma Regroup(a: Bits, b: Bits, c: Bits, d: Bits)
    ensures (a + (b + c)) + d == a + (b + (c + d))
  {
  }

  lemma AnnouncesHere(hdr: Bits, lits: seq<nat>, dists: seq<nat>, post: Bits)
    requires Announces(hdr, lits, dists)
    ensures ReadTables(hdr + post) == Some((lits, dists, post))
  {
  }

  lemma BodyIsDynamic(rest: Bits, r: Bits, lits: seq<nat>, dists: seq<nat>, r': Bits, out: seq<byte>)
    requires Take(rest, 2) == Some((2, r)) && ReadTables(r) == Some((lits, dists, r'))
    ensures ReadBody(rest, out) == ReadCodes(lits, dists, r', out)
  {
    hide Take, ReadTables, ReadCodes;
  }

  lemma BodyIsStatic(rest: Bits, r: Bits, out: seq<byte>)
    requires Take(rest, 2) == Some((1, r))
    ensures ReadBody(rest, out) == ReadCodes(FixedLiterals(), FixedDistances(), r, out)
  {
    hide Take, ReadCodes;
  }

  /** A static block. */
  lemma StaticMeans(recs: seq<Lz>)
    requires Valid(FixedLiterals()) && Valid(FixedDistances()) && CoversAll(FixedLiterals(), FixedDistances(), recs)
    ensures Means(ToBits(1, 2) +
                  (BitsFrom(FixedLiterals(), FixedDistances(), recs, 0) +
                   CodeBits(FixedLiterals(), END_OF_BLOCK)), recs)
  {
    var L, D := FixedLiterals(), FixedDistances();
    var b, e := BitsFrom(L, D, recs, 0), CodeBits(L, END_OF_BLOCK);
    hide ReadBody, PlayAll, AllSound, Valid, CoversAll, ToBits, BitsFrom, CodeBits;
    forall out: seq<byte>, post: Bits | AllSound(recs, |out|)
      ensures ReadBody((ToBits(1, 2) + (b + e)) + post, out) == Some((PlayAll(out, recs), post))
    {
      ReadsStatic(recs, out, post);
    }
  }

  lemma FixedShape()
    ensures END_OF_BLOCK < |FixedLiterals()| && FixedLiterals()[END_OF_BLOCK] > 0
  {
  }

  lemma ReadsStatic(recs: seq<Lz>, out: seq<byte>, post: Bits)
    requires Valid(FixedLiterals()) && Valid(FixedDistances()) && CoversAll(FixedLiterals(), FixedDistances(), recs)
    requires AllSound(recs, |out|)
    ensures ReadBody((ToBits(1, 2) +
                      (BitsFrom(FixedLiterals(), FixedDistances(), recs, 0) +
                       CodeBits(FixedLiterals(), END_OF_BLOCK))) + post, out)
            == Some((PlayAll(out, recs), post))
  {
    var L, D := FixedLiterals(), FixedDistances();
    hide *;
    FixedShape();
    var b, e := BitsFrom(L, D, recs, 0), CodeBits(L, END_OF_BLOCK);
    ReadsAll(L, D, recs, out, post);
    ReadsKind(1, b + e, post);
    assert (b + e) + post == b + (e + post);
    BodyIsStatic((ToBits(1, 2) + (b + e)) + post, b + (e + post), out);
  }

  lemma {:induction false} CountSame(x: nat, n: nat, l: nat)
    ensures Count(Repeat(x, n), l) == if l == x then n else 0
  {
    if n > 0 {
      assert Repeat(x, n)[..n - 1] == Repeat(x, n - 1);
      CountSame(x, n - 1, l);
    }
  }

  lemma {:induction false} CountAppend(s: seq<nat>, t: seq<nat>, l: nat)
    ensures Count(s + t, l) == Count(s, l) + Count(t, l)
  {
    if t == [] {
      assert s + t == s;
    } else {
      assert (s + t)[..|s + t| - 1] == s + t[..|t| - 1];
      CountAppend(s, t[..|t| - 1], l);
    }
  }

  lemma FixedCounts(l: nat)
    ensures Count(FixedLiterals(), l) == if l == 7 then 24 else if l == 8 then 152 else if l == 9 then 112 else 0
    ensures Count(FixedDistances(), l) == if l == 5 then 32 else 0
  {
    var a, b, c, d := Repeat(8, 144), Repeat(9, 112), Repeat(7, 24), Repeat(8, 8);
    assert FixedLiterals() == ((a + b) + c) + d;
    CountAppend((a + b) + c, d, l);
    CountAppend(a + b, c, l);
    CountAppend(a, b, l);
    CountSame(8, 144, l);
    CountSame(9, 112, l);
    CountSame(7, 24, l);
    CountSame(8, 8, l);
    assert FixedDistances() == Repeat(5, 32);
    CountSame(5, 32, l);
  }

  lemma {:induction false} FilledZero(lens: seq<nat>, b: nat)
    requires forall l :: 1 <= l <= b ==> Count(lens, l) == 0
    ensures FilledBy(lens, b) == 0
  {
    if b > 0 { FilledZero(lens, b - 1); }
  }

  /** The fixed codes are complete. */
  lemma FixedComplete()
    ensures Complete(FixedLiterals()) && Complete(FixedDistances())
  {
    var L, D := FixedLiterals(), FixedDistances();
    forall l ensures Count(L, l) == (if l == 7 then 24 else if l == 8 then 152 else if l == 9 then 112 else 0) &&
                     Count(D, l) == if l == 5 then 32 else 0 { FixedCounts(l); }
    hide Count;
    FilledZero(L, 6);
    FilledZero(D, 4);
    assert FilledBy(L, 7) == 24;
    assert FilledBy(L, 8) == 200;
    assert FilledBy(L, 9) == 512;
    assert FilledBy(D, 5) == 32;
    Powers();
    FilledAbove(L, 9, MAX_BITS);
    FilledAbove(D, 5, MAX_BITS);
  }

  /** The arrays of the compressor's tables are all different. */
  ghost predicate Separate(lz: LzBuffer, cl: HuffTable, target: array<byte>)
  {
    lz.Shaped() && cl.Shaped() &&
    cl.count != lz.lits.count && cl.count != lz.lits.codes && cl.count != lz.dists.count &&
    cl.count != lz.dists.codes &&
    cl.codes != lz.lits.count && cl.codes != lz.lits.codes && cl.codes != lz.dists.count &&
    cl.codes != lz.dists.codes &&
    cl.sizes != lz.lits.sizes && cl.sizes != lz.dists.sizes && cl.sizes != lz.code_buf &&
    Clear(target, lz.lits) && Clear(target, lz.dists) && Clear(target, cl) && target != lz.code_buf &&
    target as object != lz.lits.count && target as object != lz.dists.count && target as object != cl.count &&
    cl.count as object != lz.code_buf && cl.codes as object != lz.code_buf && cl.count as object != lz.lits.sizes &&
    cl.codes as object != lz.lits.sizes && cl.count as object != lz.dists.sizes &&
    cl.codes as object != lz.dists.sizes &&
    cl.sizes as object != lz.lits.count && cl.sizes as object != lz.lits.codes &&
    cl.sizes as object != lz.dists.count && cl.sizes as object != lz.dists.codes &&
    lz.lits.codes as object != lz.code_buf && lz.dists.codes as object != lz.code_buf &&
    lz.lits.count as object != lz.code_buf && lz.dists.count as object != lz.code_buf
  }

  /** The buffer is ready to be replayed and its records have been counted. */
  ghost predicate Sealable(lz: LzBuffer)
    reads lz, lz.code_buf
  {
    Sealed(lz.code_buf[..], lz.recs) && lz.code_pos == ReadPos(lz.recs, |lz.recs|) && |lz.recs| < 65535 &&
    forall i :: 0 <= i < |lz.recs| ==> InRange(lz.recs[i])
  }

  lemma TrimmedBits(L: seq<nat>, D: seq<nat>, recs: seq<Lz>, n: nat, m: nat)
    requires Serves(L, D, recs) && Acceptable(L) && Acceptable(D) && 257 <= n <= 288 && 1 <= m <= 32
    requires (forall s :: n <= s < 288 ==> L[s] == 0) && (forall s :: m <= s < 32 ==> D[s] == 0)
    ensures Acceptable(L[..n]) && Acceptable(D[..m]) && Valid(L[..n]) && Valid(D[..m])
    ensures CoversAll(L[..n], D[..m], recs) && L[..n][END_OF_BLOCK] > 0
    ensures BitsFrom(L[..n], D[..m], recs, 0) == BitsFrom(L, D, recs, 0)
    ensures CodeBits(L[..n], END_OF_BLOCK) == CodeBits(L, END_OF_BLOCK)
  {
    TrimAcceptable(L, n);
    TrimAcceptable(D, m);
    TrimCode(L, n, END_OF_BLOCK);
    hide Acceptable, CodeBits, Valid;
    assert CoversAll(L[..n], D[..m], recs) by {
      forall i | 0 <= i < |recs| ensures Covers(L[..n], D[..m], recs[i]) {
        assert Covers(L, D, recs[i]);
      }
    }
    TrimmedFrom(L, D, recs, n, m, 0);
  }

  lemma {:induction false} TrimmedFrom(L: seq<nat>, D: seq<nat>, recs: seq<Lz>, n: nat, m: nat, i: nat)
    requires n <= |L| && m <= |D| && (forall s :: n <= s < |L| ==> L[s] == 0)
    requires forall s :: m <= s < |D| ==> D[s] == 0
    requires CoversAll(L, D, recs) && CoversAll(L[..n], D[..m], recs) && i <= |recs|
    ensures BitsFrom(L[..n], D[..m], recs, i) == BitsFrom(L, D, recs, i)
    decreases |recs| - i
  {
    hide *;
    if i < |recs| {
      BitsStep(L, D, recs, i);
      BitsStep(L[..n], D[..m], recs, i);
      TrimmedFrom(L, D, recs, n, m, i + 1);
      TrimmedRec(L, D, recs[i], n, m);
    } else {
      NoBits(L, D, recs);
      NoBits(L[..n], D[..m], recs);
    }
  }

  lemma NoBits(L: seq<nat>, D: seq<nat>, recs: seq<Lz>)
    requires CoversAll(L, D, recs)
    ensures BitsFrom(L, D, recs, |recs|) == []
  {
  }

  lemma TrimmedRec(L: seq<nat>, D: seq<nat>, rec: Lz, n: nat, m: nat)
    requires n <= |L| && m <= |D| && (forall s :: n <= s < |L| ==> L[s] == 0)
    requires forall s :: m <= s < |D| ==> D[s] == 0
    requires Covers(L, D, rec) && Covers(L[..n], D[..m], rec)
    ensures RecBits(L[..n], D[..m], rec) == RecBits(L, D, rec)
  {
    hide CodeBits, ToBits, Pow2;
    if rec.Literal? {
      TrimCode(L, n, rec.lit);
    } else {
      TrimCode(L, n, LenSym(rec.len - MIN_MATCH_LEN));
      TrimCode(D, m, DistSym(rec.dist - 1));
    }
  }

  lemma HeaderAnnounces(nbl: nat, code: seq<nat>, toks: seq<Token>, lits: seq<nat>, dists: seq<nat>)
    requires 257 <= |lits| <= 288 && 1 <= |dists| <= 32 && 4 <= nbl <= 19 && Coded(code, toks)
    requires Acceptable(code) && Acceptable(lits) && Acceptable(dists)
    requires forall s :: 0 <= s < 19 ==> code[s] < 8
    requires forall k :: nbl <= k < 19 ==> SWIZZLE[k] < 19 && code[SWIZZLE[k]] == 0
    requires Unpack(toks) == Some(lits + dists)
    ensures Announces(HeaderBits(|lits|, |dists|, nbl, code, toks), lits, dists)
  {
    var hdr := HeaderBits(|lits|, |dists|, nbl, code, toks);
    hide HeaderBits, ReadTables, Coded, Acceptable, Unpack;
    forall post: Bits ensures ReadTables(hdr + post) == Some((lits, dists, post)) {
      ReadsHeader(nbl, code, toks, lits, dists, post);
    }
  }

  /** The tables, and the lengths to be sent. */
  method GatherTables(lz: LzBuffer, code_sizes: array<byte>)
    returns (ghost L: seq<nat>, ghost D: seq<nat>, num_lit_codes: nat, num_dist_codes: nat)
    requires lz.Shaped() && code_sizes.Length == MAX_PACKED && code_sizes != lz.lits.sizes
    requires code_sizes != lz.dists.sizes
    requires code_sizes as object != lz.lits.codes && code_sizes as object != lz.dists.codes
    requires Tallied(lz.lits.count[..], lz.dists.count[..], lz.recs) && |lz.recs| < 65535
    modifies lz.lits.count, lz.lits.codes, lz.lits.sizes, lz.dists.codes, lz.dists.sizes, code_sizes
    ensures Ready(lz.lits, 288, L) && Ready(lz.dists, 32, D) && Serves(L, D, lz.recs) && Acceptable(L) && Acceptable(D)
    ensures |L| == 288 && |D| == 32 && 257 <= num_lit_codes <= 286 && 1 <= num_dist_codes <= 30
    ensures (forall s :: num_lit_codes <= s < 288 ==> L[s] == 0) && (forall s :: num_dist_codes <= s < 32 ==> D[s] == 0)
    ensures code_sizes[..num_lit_codes + num_dist_codes] == L[..num_lit_codes] + D[..num_dist_codes]
    ensures forall k :: 0 <= k < num_lit_codes + num_dist_codes ==> code_sizes[k] < 16
    ensures CheapCodes(old(lz.lits.count[..]), old(lz.dists.count[..]), L, D)
  {
    hide Tallied, Ready, Serves, Acceptable, CheapCodes;
    L, D := BuildTables(lz);
    num_lit_codes := UsedLength(lz.lits.sizes, 286, 257);
    num_dist_codes := UsedLength(lz.dists.sizes, 30, 1);
    GatherSizes(lz.lits.sizes, num_lit_codes, lz.dists.sizes, num_dist_codes, code_sizes);
    ghost var n, both := num_lit_codes + num_dist_codes, L[..num_lit_codes] + D[..num_dist_codes];
    assert code_sizes[..n] == both;
    forall k | 0 <= k < n ensures code_sizes[k] < 16 { assert code_sizes[k] == both[k]; }
  }

  lemma DynamicHeader(L: seq<nat>, D: seq<nat>, recs: seq<Lz>, n: nat, m: nat, nbl: nat, code: seq<nat>,
                      toks: seq<Token>)
    requires Serves(L, D, recs) && Acceptable(L) && Acceptable(D) && 257 <= n <= 286 && 1 <= m <= 30
    requires (forall s :: n <= s < 288 ==> L[s] == 0) && (forall s :: m <= s < 32 ==> D[s] == 0)
    requires 4 <= nbl <= 19 && Coded(code, toks) && Acceptable(code) && (forall s :: 0 <= s < 19 ==> code[s] < 8)
    requires forall k :: nbl <= k < 19 ==> SWIZZLE[k] < 19 && code[SWIZZLE[k]] == 0
    requires Unpack(toks) == Some(L[..n] + D[..m])
    ensures Announces(HeaderBits(n, m, nbl, code, toks), L[..n], D[..m])
  {
    TrimmedBits(L, D, recs, n, m);
    hide Serves, Acceptable, Announces, Coded, Unpack, HeaderBits;
    HeaderAnnounces(nbl, code, toks, L[..n], D[..m]);
  }

  /** Header of a dynamic block. */
  method StartDynamicBlock(lz: LzBuffer, cl: HuffTable, w: BitWriter)
    returns (ghost L: seq<nat>, ghost D: seq<nat>, ghost n: nat, ghost m: nat, ghost hdr: Bits)
    requires Separate(lz, cl, w.target) && w.Valid()
    requires Tallied(lz.lits.count[..], lz.dists.count[..], lz.recs) && |lz.recs| < 65535
    modifies lz.lits.count, lz.lits.codes, lz.lits.sizes, lz.dists.codes, lz.dists.sizes, cl.count, cl.codes, cl.sizes
    modifies w, w.target
    ensures w.Valid() && w.target == old(w.target) && Extends(old(w.State()), w.State(), ToBits(2, 2) + hdr)
    ensures Ready(lz.lits, 288, L) && Ready(lz.dists, 32, D) && Serves(L, D, lz.recs) && Acceptable(L) && Acceptable(D)
    ensures 257 <= n <= 288 && 1 <= m <= 32 && Announces(hdr, L[..n], D[..m])
    ensures (forall s :: n <= s < 288 ==> L[s] == 0) && (forall s :: m <= s < 32 ==> D[s] == 0)
    ensures |hdr| <= 4800 && CheapCodes(old(lz.lits.count[..]), old(lz.dists.count[..]), L, D)
  {
    hide Extends, Tallied, Ready, Serves, Acceptable, Announces, Coded, Flatten, AllWellFormed, Unpack, HeaderBits;
    hide ToBits, CheapCodes;
    var code_sizes := new byte[MAX_PACKED];
    var packed := new byte[MAX_PACKED];
    var num_lit_codes, num_dist_codes;
    L, D, num_lit_codes, num_dist_codes := GatherTables(lz, code_sizes);
    n, m := num_lit_codes, num_dist_codes;
    var k;
    ghost var toks, code, nbl;
    k, toks, code := PrepareHeader(code_sizes, num_lit_codes + num_dist_codes, packed, cl);
    nbl := SendHeader(w, cl, packed, k, num_lit_codes, num_dist_codes, code, toks);
    hdr := HeaderBits(n, m, nbl, code, toks);
    DynamicHeader(L, D, lz.recs, n, m, nbl, code, toks);
    HeaderFits(n, m, nbl, code, toks);
  }

  /** The lengths of the fixed codes. */
  method SetFixedSizes(lits: array<byte>, dists: array<byte>)
    requires lits.Length == dists.Length == MAX_HUFF_SYMBOLS && lits != dists
    modifies lits, dists
    ensures lits[..288] == FixedLiterals() && dists[..32] == FixedDistances()
  {
    var i := 0;
    while i <= 143
      invariant 0 <= i <= 144 && forall s :: 0 <= s < i ==> lits[s] == 8
    {
      lits[i] := 8;
      i := i + 1;
    }
    while i <= 255
      invariant 144 <= i <= 256 && forall s :: 0 <= s < i ==> lits[s] == if s < 144 then 8 else 9
    {
      lits[i] := 9;
      i := i + 1;
    }
    while i <= 279
      invariant 256 <= i <= 280 && forall s :: 0 <= s < i ==> lits[s] == if s < 144 then 8 else if s < 256 then 9 else 7
    {
      lits[i] := 7;
      i := i + 1;
    }
    while i <= 287
      invariant 280 <= i <= 288
      invariant forall s :: 0 <= s < i ==>
                  lits[s] == if s < 144 then 8 else if s < 256 then 9 else if s < 280 then 7 else 8
    {
      lits[i] := 8;
      i := i + 1;
    }
    forall s | 0 <= s < 32 { dists[s] := 5; }
  }

  /** Header of a static block. */
  method StartStaticBlock(lz: LzBuffer, w: BitWriter)
    requires lz.Shaped() && w.Valid() && Clear(w.target, lz.lits) && Clear(w.target, lz.dists)
    requires lz.lits.sizes as object != lz.dists.codes && lz.dists.sizes as object != lz.lits.codes
    modifies lz.lits.codes, lz.lits.sizes, lz.dists.codes, lz.dists.sizes, w, w.target
    ensures w.Valid() && w.target == old(w.target) && Extends(old(w.State()), w.State(), ToBits(1, 2))
    ensures Ready(lz.lits, 288, FixedLiterals()) && Ready(lz.dists, 32, FixedDistances())
  {
    FixedComplete();
    FixedShort();
    EnoughRoom();
    Powers();
    hide Extends, Ready, ToBits, Valid, Pow2, HoldsCodes;
    SetFixedSizes(lz.lits.sizes, lz.dists.sizes);
    FixedTable(lz.lits, 288, FixedLiterals());
    FixedTable(lz.dists, 32, FixedDistances());
    w.PutBits(1, 2);
  }

  /** The codes for given lengths. */
  method FixedTable(t: HuffTable, n: nat, ghost lens: seq<nat>)
    requires t.Shaped() && n <= 288 && t.sizes[..n] == lens && Valid(lens)
    requires forall s :: 0 <= s < n ==> lens[s] <= MAX_BITS
    modifies t.codes, t.sizes
    ensures Ready(t, n, lens) && t.sizes[..] == old(t.sizes[..])
  {
    EnoughRoom();
    hide Ready, HoldsCodes, Valid, Pow2;
    assert forall s :: 0 <= s < n ==> t.sizes[s] == lens[s];
    t.OptimizeHuffmanTable(n, 15, true);
    assert t.sizes[..n] == t.sizes[..][..n];
    ReadyNow(t, n);
  }

  lemma FixedShort()
    ensures forall s :: 0 <= s < 288 ==> FixedLiterals()[s] <= MAX_BITS
    ensures forall s :: 0 <= s < 32 ==> FixedDistances()[s] <= MAX_BITS
    ensures Complete(FixedLiterals()) ==> Valid(FixedLiterals())
    ensures Complete(FixedDistances()) ==> Valid(FixedDistances())
  {
  }

  lemma FixedCovers(recs: seq<Lz>)
    requires forall i :: 0 <= i < |recs| ==> InRange(recs[i])
    ensures CoversAll(FixedLiterals(), FixedDistances(), recs)
  {
    forall i | 0 <= i < |recs| ensures Covers(FixedLiterals(), FixedDistances(), recs[i]) {
      assert InRange(recs[i]);
    }
  }

  /** The body of a static block. */
  ghost function StaticBits(recs: seq<Lz>): (r: Bits)
    requires forall i :: 0 <= i < |recs| ==> InRange(recs[i])
  {
    FixedCovers(recs);
    ToBits(1, 2) + (BitsFrom(FixedLiterals(), FixedDistances(), recs, 0) + CodeBits(FixedLiterals(), END_OF_BLOCK))
  }

  /** A static block with all the records. */
  method CompressStatic(lz: LzBuffer, w: BitWriter)
    requires lz.Shaped() && w.Valid() && Clear(w.target, lz.lits) && Clear(w.target, lz.dists)
    requires w.target != lz.code_buf
    requires lz.lits.sizes as object != lz.dists.codes && lz.dists.sizes as object != lz.lits.codes
    requires lz.lits.codes as object != lz.code_buf && lz.dists.codes as object != lz.code_buf && Sealable(lz)
    modifies lz.lits.codes, lz.lits.sizes, lz.dists.codes, lz.dists.sizes, w, w.target
    ensures w.Valid() && w.target == old(w.target) && lz.code_buf[..] == old(lz.code_buf[..])
    ensures (forall i :: 0 <= i < |lz.recs| ==> InRange(lz.recs[i])) && Means(StaticBits(lz.recs), lz.recs)
    ensures Extends(old(w.State()), w.State(), StaticBits(lz.recs))
  {
    ghost var a, L, D, recs := w.State(), FixedLiterals(), FixedDistances(), lz.recs;
    SealableGives(lz);
    StaticFacts(recs);
    assert lz.code_buf.Length == LZ_CODE_BUF_SIZE;
    hide Extends, Ready, ToBits, Valid, Means, Sealed, CoversAll, BitsFrom, CodeBits, FixedLiterals, FixedDistances,
      StaticBits,
      ReadPos, Sealable, InRange, Setup, Clear;
    StartStaticBlock(lz, w);
    SetupNow(w, lz, L, D);
    ghost var b := w.State();
    CompressLzCodes(lz, w, L, D);
    ExtendsMore(a, b, w.State(), ToBits(1, 2), BitsFrom(L, D, recs, 0) + CodeBits(L, END_OF_BLOCK));
  }

  lemma SealableGives(lz: LzBuffer)
    requires Sealable(lz)
    ensures Sealed(lz.code_buf[..], lz.recs) && lz.code_pos == ReadPos(lz.recs, |lz.recs|) && |lz.recs| < 65535
    ensures forall i :: 0 <= i < |lz.recs| ==> InRange(lz.recs[i])
  {
  }

  lemma StaticFacts(recs: seq<Lz>)
    requires forall i :: 0 <= i < |recs| ==> InRange(recs[i])
    ensures Valid(FixedLiterals()) && Valid(FixedDistances()) && CoversAll(FixedLiterals(), FixedDistances(), recs)
    ensures END_OF_BLOCK < |FixedLiterals()| && FixedLiterals()[END_OF_BLOCK] > 0
    ensures Means(StaticBits(recs), recs)
    ensures StaticBits(recs) ==
              ToBits(1, 2) + (BitsFrom(FixedLiterals(), FixedDistances(), recs, 0) +
                              CodeBits(FixedLiterals(), END_OF_BLOCK))
  {
    hide *;
    FixedComplete();
    FixedShort();
    FixedShape();
    FixedCovers(recs);
    StaticMeans(recs);
    StaticIs(recs);
  }

  lemma StaticIs(recs: seq<Lz>)
    requires CoversAll(FixedLiterals(), FixedDistances(), recs)
    requires END_OF_BLOCK < |FixedLiterals()|
    ensures StaticBits(recs) ==
              ToBits(1, 2) + (BitsFrom(FixedLiterals(), FixedDistances(), recs, 0) +
                              CodeBits(FixedLiterals(), END_OF_BLOCK))
  {
    hide BitsFrom, CodeBits, ToBits, FixedLiterals, FixedDistances;
  }

  lemma SetupNow(w: BitWriter, lz: LzBuffer, L: seq<nat>, D: seq<nat>)
    requires w.Valid() && Ready(lz.lits, 288, L) && Ready(lz.dists, 32, D) && lz.code_buf.Length == LZ_CODE_BUF_SIZE
    requires Clear(w.target, lz.lits) && Clear(w.target, lz.dists) && w.target != lz.code_buf
    ensures Setup(w, lz, L, D, lz.code_buf[..])
  {
  }

  /** A dynamic block with all the records. */
  method CompressDynamic(lz: LzBuffer, cl: HuffTable, w: BitWriter) returns (ghost bs: Bits)
    requires Separate(lz, cl, w.target) && w.Valid() && Sealable(lz)
    requires Tallied(lz.lits.count[..], lz.dists.count[..], lz.recs)
    modifies lz.lits.count, lz.lits.codes, lz.lits.sizes, lz.dists.codes, lz.dists.sizes, cl.count, cl.codes, cl.sizes
    modifies w, w.target
    ensures w.Valid() && w.target == old(w.target) && lz.code_buf[..] == old(lz.code_buf[..])
    ensures Extends(old(w.State()), w.State(), bs) && Means(bs, lz.recs) && Compact(bs, lz.recs)
  {
    SealableGives(lz);
    SeparateGives(lz, cl, w.target);
    ghost var a, recs, buf := w.State(), lz.recs, lz.code_buf[..];
    ghost var lc, dc := lz.lits.count[..], lz.dists.count[..];
    ghost var L, D, n, m, hdr;
    hide *;
    L, D, n, m, hdr := StartDynamicBlock(lz, cl, w);
    assert lz.code_buf[..] == buf;
    ServesGives(L, D, recs);
    SetupNow(w, lz, L, D);
    ghost var b := w.State();
    CompressLzCodes(lz, w, L, D);
    ghost var data := BitsFrom(L, D, recs, 0) + CodeBits(L, END_OF_BLOCK);
    ExtendsMore(a, b, w.State(), ToBits(2, 2) + hdr, data);
    bs := (ToBits(2, 2) + hdr) + data;
    DynamicDone(L, D, recs, n, m, hdr);
    CheapGives(lc, dc, L, D);
    FixedCovers(recs);
    DynamicCompact(lc, dc, recs, L, D, hdr, bs);
  }

  lemma CheapGives(lits: seq<u16>, dists: seq<u16>, L: seq<nat>, D: seq<nat>)
    requires CheapCodes(lits, dists, L, D)
    ensures |lits| == |dists| == 288 && NearlyBest(lits[END_OF_BLOCK := 1], L) && NearlyBest(dists[..32], D)
  {
    hide NearlyBest;
  }

  lemma SeparateGives(lz: LzBuffer, cl: HuffTable, target: array<byte>)
    requires Separate(lz, cl, target)
    ensures lz.code_buf.Length == LZ_CODE_BUF_SIZE && target != lz.code_buf && Clear(target, lz.lits)
    ensures Clear(target, lz.dists)
    ensures lz.code_buf != lz.lits.sizes && lz.code_buf != lz.dists.sizes && lz.code_buf != cl.sizes
    ensures cl.count as object != lz.code_buf && cl.codes as object != lz.code_buf
    ensures lz.lits.codes as object != lz.code_buf && lz.dists.codes as object != lz.code_buf
    ensures lz.lits.count as object != lz.code_buf && lz.dists.count as object != lz.code_buf
  {
  }

  lemma ServesGives(L: seq<nat>, D: seq<nat>, recs: seq<Lz>)
    requires Serves(L, D, recs)
    ensures |L| == 288 && |D| == 32 && Valid(L) && Valid(D) && CoversAll(L, D, recs) && END_OF_BLOCK < |L|
    ensures L[END_OF_BLOCK] > 0
  {
  }

  lemma DynamicDone(L: seq<nat>, D: seq<nat>, recs: seq<Lz>, n: nat, m: nat, hdr: Bits)
    requires Serves(L, D, recs) && Acceptable(L) && Acceptable(D) && 257 <= n <= 288 && 1 <= m <= 32
    requires Announces(hdr, L[..n], D[..m])
    requires (forall s :: n <= s < 288 ==> L[s] == 0) && (forall s :: m <= s < 32 ==> D[s] == 0)
    ensures CoversAll(L, D, recs) && END_OF_BLOCK < |L|
    ensures Means((ToBits(2, 2) + hdr) + (BitsFrom(L, D, recs, 0) + CodeBits(L, END_OF_BLOCK)), recs)
  {
    TrimmedBits(L, D, recs, n, m);
    ServesGives(L, D, recs);
    EndFits(n);
    hide *;
    DynamicMeans(hdr, L[..n], D[..m], recs);
    var data := BitsFrom(L, D, recs, 0) + CodeBits(L, END_OF_BLOCK);
    assert (ToBits(2, 2) + hdr) + data == ToBits(2, 2) + (hdr + data);
  }

  lemma EndFits(n: nat)
    requires n >= 257
    ensures END_OF_BLOCK < n
  {
  }

  /** A compressed block; the result says whether the output buffer has room to spare. */
  method CompressBlock(lz: LzBuffer, cl: HuffTable, w: BitWriter, static_block: bool)
    returns (fits: bool, ghost bs: Bits)
    requires Separate(lz, cl, w.target) && w.Valid() && Sealable(lz)
    requires !static_block ==> Tallied(lz.lits.count[..], lz.dists.count[..], lz.recs)
    modifies lz.lits.count, lz.lits.codes, lz.lits.sizes, lz.dists.codes, lz.dists.sizes, cl.count, cl.codes, cl.sizes
    modifies w, w.target
    ensures w.Valid() && w.target == old(w.target) && lz.code_buf[..] == old(lz.code_buf[..])
    ensures Extends(old(w.State()), w.State(), bs) && Means(bs, lz.recs)
    ensures (forall i :: 0 <= i < |lz.recs| ==> InRange(lz.recs[i])) && (static_block ==> bs == StaticBits(lz.recs))
    ensures fits == (w.cur < w.end) && (!static_block ==> Compact(bs, lz.recs))
  {
    SealableGives(lz);
    hide Extends, Tallied, Means, StaticBits, Sealed, ReadPos, InRange, Compact;
    if static_block {
      CompressStatic(lz, w);
      bs := StaticBits(lz.recs);
    } else {
      bs := CompressDynamic(lz, cl, w);
    }
    fits := w.cur < w.end;
  }
}
