/**
  Putting blocks together into a stream.
 */
module Stream {
  import opened Wrappers
  import opened Bits
  import opened Deflate
  import opened LzRecords
  import opened BitWriter
  import opened BlockWriter

  /** bs, with n bits before it, is the body of a block that takes the output from o to o', whatever came before o. */
  ghost predicate Body(bs: Bits, n: nat, o: seq<byte>, o': seq<byte>)
  {
    forall p: seq<byte>, post: Bits :: (n + |bs| + |post|) % 8 == 0 ==>
      ReadBody(bs + post, p + o) == Some((p + o', post))
  }

  /** e is whole blocks, none of them the last, and stands for o, whatever came before. */
  ghost predicate Prefix(e: Bits, o: seq<byte>)
  {
    forall p: seq<byte>, post: Bits :: (|e| + |post|) % 8 == 0 ==> Inflate(e + post, p) == Inflate(post, p + o)
  }

  /** e is a whole stream and stands for o, whatever came before. */
  ghost predicate Ended(e: Bits, o: seq<byte>)
  {
    forall p: seq<byte> :: EndsWith(Inflate(e, p), p + o)
  }

  /** All of the output, and nothing behind the last block but what fills its byte. */
  ghost predicate EndsWith(r: Option<(seq<byte>, Bits)>, o: seq<byte>)
  {
    r.Some? && r.value.0 == o && |r.value.1| < 8
  }

  lemma NothingYet()
    ensures Prefix([], [])
  {
    forall p: seq<byte>, post: Bits ensures Inflate([] + post, p) == Inflate(post, p + []) {
      assert [] + post == post && p + [] == p;
    }
  }

  /** Whole blocks behind whole blocks. */
  lemma PrefixJoins(e: Bits, o: seq<byte>, e': Bits, o': seq<byte>)
    requires Prefix(e, o) && Prefix(e', o') && |e| % 8 == 0
    ensures Prefix(e + e', o + o')
  {
    hide *;
    forall p: seq<byte>, post: Bits | FillsByte(e + e', post)
      ensures Inflate((e + e') + post, p) == Inflate(post, p + (o + o'))
    {
      PrefixJoinsHere(e, o, e', o', p, post);
    }
    PrefixFills(e + e', o + o');
  }

  /** Both together are whole bytes. */
  ghost predicate FillsByte(e: Bits, post: Bits)
  {
    (|e| + |post|) % 8 == 0
  }

  lemma PrefixFills(e: Bits, o: seq<byte>)
    requires forall p: seq<byte>, post: Bits :: FillsByte(e, post) ==> Inflate(e + post, p) == Inflate(post, p + o)
    ensures Prefix(e, o)
  {
    hide Inflate;
  }

  lemma FillsGives(e: Bits, e': Bits, post: Bits)
    requires FillsByte(e + e', post)
    ensures (|e| + |e'| + |post|) % 8 == 0
  {
  }

  lemma PrefixJoinsHere(e: Bits, o: seq<byte>, e': Bits, o': seq<byte>, p: seq<byte>, post: Bits)
    requires Prefix(e, o) && Prefix(e', o') && |e| % 8 == 0 && FillsByte(e + e', post)
    ensures Inflate((e + e') + post, p) == Inflate(post, p + (o + o'))
  {
    hide *;
    FillsGives(e, e', post);
    assert (e + e') + post == e + (e' + post) && (p + o) + o' == p + (o + o');
    assert |e' + post| == |e'| + |post|;
    WholePart(|e|, |e'|, |post|);
    PrefixHere(e, o, p, e' + post);
    PrefixHere(e', o', p + o, post);
  }

  lemma WholePart(a: nat, b: nat, c: nat)
    requires a % 8 == 0 && (a + b + c) % 8 == 0
    ensures (a + (b + c)) % 8 == 0 && (b + c) % 8 == 0
  {
    assert b + c == (a + b + c) - 8 * (a / 8);
  }

  /** A whole stream behind whole blocks. */
  lemma EndedJoins(e: Bits, o: seq<byte>, e': Bits, o': seq<byte>)
    requires Prefix(e, o) && Ended(e', o') && |e| % 8 == 0 && |e'| % 8 == 0
    ensures Ended(e + e', o + o')
  {
    hide Prefix, Inflate;
    forall p: seq<byte> ensures EndsWith(Inflate(e + e', p), p + (o + o')) {
      assert (p + o) + o' == p + (o + o');
      PrefixHere(e, o, p, e');
      assert EndsWith(Inflate(e', p + o), (p + o) + o');
    }
  }

  lemma InflateBlock(last: bool, bs: Bits, post: Bits, o: seq<byte>, o': seq<byte>)
    requires ReadBody(bs + post, o) == Some((o', post))
    ensures Inflate(([last] + bs) + post, o) == if last then Some((o', post)) else Inflate(post, o')
  {
    hide ReadBody;
    var rest := ([last] + bs) + post;
    assert rest[1..] == bs + post && rest[0] == last && rest != [];
  }

  /** One more block. */
  lemma AddBlock(e: Bits, o: seq<byte>, bs: Bits, o': seq<byte>)
    requires Prefix(e, o) && Body(bs, |e| + 1, o, o')
    ensures Prefix(e + ([false] + bs), o')
  {
    hide Inflate;
    var e' := e + ([false] + bs);
    hide Prefix, Body;
    forall p: seq<byte>, post: Bits | (|e'| + |post|) % 8 == 0 ensures Inflate(e' + post, p) == Inflate(post, p + o') {
      AddBlockHere(e, o, bs, o', p, post);
    }
    PrefixSo(e', o');
  }

  lemma PrefixSo(e: Bits, o: seq<byte>)
    requires forall p: seq<byte>, post: Bits ::
               (|e| + |post|) % 8 == 0 ==> Inflate(e + post, p) == Inflate(post, p + o)
    ensures Prefix(e, o)
  {
    hide Inflate;
  }

  lemma AddBlockHere(e: Bits, o: seq<byte>, bs: Bits, o': seq<byte>, p: seq<byte>, post: Bits)
    requires Prefix(e, o) && Body(bs, |e| + 1, o, o') && (|e + ([false] + bs)| + |post|) % 8 == 0
    ensures Inflate((e + ([false] + bs)) + post, p) == Inflate(post, p + o')
  {
    hide *;
    assert (e + ([false] + bs)) + post == e + (([false] + bs) + post);
    PrefixHere(e, o, p, ([false] + bs) + post);
    BodyHere(bs, |e| + 1, o, o', p, post);
    InflateBlock(false, bs, post, p + o, p + o');
  }

  lemma PrefixHere(e: Bits, o: seq<byte>, p: seq<byte>, post: Bits)
    requires Prefix(e, o) && (|e| + |post|) % 8 == 0
    ensures Inflate(e + post, p) == Inflate(post, p + o)
  {
  }

  lemma BodyHere(bs: Bits, n: nat, o: seq<byte>, o': seq<byte>, p: seq<byte>, post: Bits)
    requires Body(bs, n, o, o') && (n + |bs| + |post|) % 8 == 0
    ensures ReadBody(bs + post, p + o) == Some((p + o', post))
  {
  }

  lemma PadsToByte(n: nat)
    ensures (n + |Padding(n)|) % 8 == 0 && |Padding(n)| < 8
  {
    hide ToBits;
    var r := n % 8;
    assert |Padding(n)| == if r == 0 then 0 else 8 - r;
  }

  /** The last block, padded to a whole byte. */
  lemma AddLastBlock(e: Bits, o: seq<byte>, bs: Bits, o': seq<byte>)
    requires Prefix(e, o) && Body(bs, |e| + 1, o, o')
    ensures var e' := e + ([true] + bs);
            (|e'| + |Padding(|e'|)|) % 8 == 0 && Ended(e' + Padding(|e'|), o')
  {
    hide *;
    var e' := e + ([true] + bs);
    var post := Padding(|e'|);
    PadsToByte(|e'|);
    assert |(e' + post)| == |e'| + |post|;
    forall p: seq<byte> ensures EndsWith(Inflate(e' + post, p), p + o') {
      LastBlockHere(e, o, bs, o', p, post);
    }
    EndedNow(e' + post, o');
  }

  lemma LastBlockHere(e: Bits, o: seq<byte>, bs: Bits, o': seq<byte>, p: seq<byte>, post: Bits)
    requires Prefix(e, o) && Body(bs, |e| + 1, o, o') && (|e + ([true] + bs)| + |post|) % 8 == 0 && |post| < 8
    ensures EndsWith(Inflate((e + ([true] + bs)) + post, p), p + o')
  {
    hide *;
    assert (e + ([true] + bs)) + post == e + (([true] + bs) + post);
    PrefixHere(e, o, p, ([true] + bs) + post);
    BodyHere(bs, |e| + 1, o, o', p, post);
    InflateBlock(true, bs, post, p + o, p + o');
    EndsNow(Inflate((e + ([true] + bs)) + post, p), p + o', post);
  }

  lemma EndsNow(r: Option<(seq<byte>, Bits)>, o: seq<byte>, rest: Bits)
    requires r == Some((o, rest)) && |rest| < 8
    ensures EndsWith(r, o)
  {
  }

  lemma EndedNow(e: Bits, o: seq<byte>)
    requires forall p: seq<byte> :: EndsWith(Inflate(e, p), p + o)
    ensures Ended(e, o)
  {
    hide Inflate;
  }

  /** A copy does not care what came before what it copies from. */
  lemma {:induction false} CopyBehind(p: seq<byte>, o: seq<byte>, dist: nat, len: nat)
    requires 1 <= dist <= |o|
    ensures CopyBack(p + o, dist, len) == p + CopyBack(o, dist, len)
    decreases len
  {
    if len > 0 {
      var c := [o[|o| - dist]];
      assert (p + o)[|p + o| - dist] == o[|o| - dist] && (p + o) + c == p + (o + c);
      CopyBehind(p, o + c, dist, len - 1);
      CopyStep(p + o, dist, len);
      CopyStep(o, dist, len);
    } else {
      CopyNone(p + o, dist);
      CopyNone(o, dist);
    }
    hide CopyBack;
  }

  lemma CopyStep(o: seq<byte>, dist: nat, len: nat)
    requires 1 <= dist <= |o| && len > 0
    ensures CopyBack(o, dist, len) == CopyBack(o + [o[|o| - dist]], dist, len - 1)
  {
  }

  lemma CopyNone(o: seq<byte>, dist: nat)
    requires 1 <= dist <= |o|
    ensures CopyBack(o, dist, 0) == o
  {
  }

  /** Nor do records that are sound without it. */
  lemma {:induction false} PlayBehind(p: seq<byte>, o: seq<byte>, recs: seq<Lz>)
    requires AllSound(recs, |o|)
    ensures AllSound(recs, |p + o|) && PlayAll(p + o, recs) == p + PlayAll(o, recs)
  {
    if recs != [] {
      var init, rec := recs[..|recs| - 1], recs[|recs| - 1];
      PlayBehind(p, o, init);
      var o' := PlayAll(o, init);
      if rec.Match? {
        CopyBehind(p, o', rec.dist, rec.len);
      } else {
        assert (p + o') + [rec.lit] == p + (o' + [rec.lit]);
      }
    }
  }

  /** A compressed block does not care where it begins. */
  lemma MeansBody(bs: Bits, recs: seq<Lz>, n: nat, o: seq<byte>)
    requires Means(bs, recs) && AllSound(recs, |o|)
    ensures Body(bs, n, o, PlayAll(o, recs))
  {
    hide ReadBody, PlayAll, AllSound;
    var o' := PlayAll(o, recs);
    forall p: seq<byte>, post: Bits ensures ReadBody(bs + post, p + o) == Some((p + o', post)) {
      PlayBehind(p, o, recs);
    }
  }

  lemma ByteBack(b: byte)
    ensures FromBits(ToBits(b, 8)) % 256 == b
  {
    hide ToBits, FromBits;
    Powers();
    FromToBits(b, 8);
  }

  lemma {:induction false} BytesBack(s: seq<byte>)
    ensures BitsToBytes(BytesToBits(s)) == s
  {
    if s != [] {
      var b := BytesToBits(s);
      ByteBack(s[0]);
      BytesBack(s[1..]);
      hide ToBits, FromBits;
      assert b == ToBits(s[0], 8) + BytesToBits(s[1..]);
      assert b[..8] == ToBits(s[0], 8) && b[8..] == BytesToBits(s[1..]);
      assert s == [s[0]] + s[1..];
    }
  }

  /** The body of a stored block that begins after n bits. */
  ghost function StoredBits(n: nat, data: seq<byte>): (r: Bits)
    requires |data| < 65536
  {
    ToBits(0, 2) + Padding(n + 2) + ToBits(|data|, 16) + ToBits(65535 - |data|, 16) + BytesToBits(data)
  }

  ghost function PlaceInByte(n: nat): (r: nat)
    ensures r <= n
  {
    n % 8
  }

  lemma StoredParts(rest: Bits, pad: nat, len: nat, r0: Bits, r1: Bits, o: seq<byte>)
    requires PlaceInByte(|rest|) == pad && Take(rest[pad..], 16) == Some((len, r0)) && len < 65536
    requires Take(r0, 16) == Some((65535 - len, r1)) && 8 * len <= |r1|
    ensures ReadStored(rest, o) == Some((o + BitsToBytes(r1[..8 * len]), r1[8 * len..]))
  {
    hide Take, BitsToBytes;
  }

  lemma ReadsStored(pad: Bits, data: seq<byte>, o: seq<byte>, post: Bits)
    requires |data| < 65536 && |pad| < 8 && PlaceInByte(|post|) == 0
    ensures ReadStored(pad + (ToBits(|data|, 16) + (ToBits(65535 - |data|, 16) + (BytesToBits(data) + post))), o) ==
              Some((o + data, post))
  {
    hide *;
    var d := BytesToBits(data);
    var r1 := d + post;
    var r0 := ToBits(65535 - |data|, 16) + r1;
    var rest := pad + (ToBits(|data|, 16) + r0);
    Powers();
    TakeNumber(|data|, 16, r0);
    TakeNumber(65535 - |data|, 16, r1);
    BytesBack(data);
    EightRem(|data|);
    SplitStored(pad, ToBits(|data|, 16), ToBits(65535 - |data|, 16), d, post);
    StoredParts(rest, |pad|, |data|, r0, r1, o);
  }

  lemma SplitStored(pad: Bits, a: Bits, b: Bits, d: Bits, post: Bits)
    requires |pad| < 8 && |a| == |b| == 16 && PlaceInByte(|d|) == 0 && PlaceInByte(|post|) == 0
    ensures var rest := pad + (a + (b + (d + post)));
            PlaceInByte(|rest|) == |pad| && rest[|pad|..] == a + (b + (d + post)) &&
            (d + post)[..|d|] == d && (d + post)[|d|..] == post
  {
    RestPlace(|pad|, |d| / 8, |post|);
  }

  lemma EightRem(n: nat)
    ensures PlaceInByte(8 * n) == 0
  {
  }

  lemma RestPlace(pad: nat, data: nat, post: nat)
    requires pad < 8 && post % 8 == 0
    ensures (pad + (16 + (16 + (8 * data + post)))) % 8 == pad
  {
  }

  lemma BodyIsStored(rest: Bits, r: Bits, o: seq<byte>)
    requires Take(rest, 2) == Some((0, r))
    ensures ReadBody(rest, o) == ReadStored(r, o)
  {
    hide Take, ReadStored;
  }

  lemma StoredShape(n: nat, data: seq<byte>, post: Bits)
    requires |data| < 65536
    ensures StoredBits(n, data) + post ==
            (ToBits(0, 2) + (Padding(n + 2) +
                             (ToBits(|data|, 16) + (ToBits(65535 - |data|, 16) + BytesToBits(data))))) + post
    ensures (Padding(n + 2) + (ToBits(|data|, 16) + (ToBits(65535 - |data|, 16) + BytesToBits(data)))) + post ==
            Padding(n + 2) + (ToBits(|data|, 16) + (ToBits(65535 - |data|, 16) + (BytesToBits(data) + post)))
    ensures |StoredBits(n, data)| == 34 + |Padding(n + 2)| + 8 * |data|
  {
    hide ToBits, Padding, BytesToBits;
  }

  /** A stored block stands for its bytes. */
  lemma StoredBody(n: nat, data: seq<byte>, o: seq<byte>)
    requires |data| < 65536
    ensures Body(StoredBits(n, data), n, o, o + data)
  {
    hide ReadBody, StoredBits;
    var bs := StoredBits(n, data);
    forall p: seq<byte>, post: Bits | (n + |bs| + |post|) % 8 == 0
      ensures ReadBody(bs + post, p + o) == Some((p + (o + data), post))
    {
      StoredHere(n, data, p + o, post);
      assert (p + o) + data == p + (o + data);
    }
  }

  lemma StoredHere(n: nat, data: seq<byte>, o: seq<byte>, post: Bits)
    requires |data| < 65536 && (n + |StoredBits(n, data)| + |post|) % 8 == 0
    ensures ReadBody(StoredBits(n, data) + post, o) == Some((o + data, post))
  {
    hide *;
    var pad, d := Padding(n + 2), BytesToBits(data);
    StoredShape(n, data, post);
    PadsToByte(n + 2);
    Rest(n, |pad|, |data|, |post|);
    ReadsKind(0, pad + (ToBits(|data|, 16) + (ToBits(65535 - |data|, 16) + d)), post);
    ReadsStored(pad, data, o, post);
    BodyIsStored(StoredBits(n, data) + post, pad + (ToBits(|data|, 16) + (ToBits(65535 - |data|, 16) + (d + post))), o);
  }

  lemma Rest(n: nat, pad: nat, data: nat, post: nat)
    requires (n + (34 + pad + 8 * data) + post) % 8 == 0 && (n + 2 + pad) % 8 == 0
    ensures PlaceInByte(post) == 0
  {
  }
}
