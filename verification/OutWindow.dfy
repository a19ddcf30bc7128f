/**
  The output buffer of inflate, which is also the window matches are copied from: either all of the
  output, or a ring of a size that is a power of two.
 */
module OutWindow {
  import opened Bits
  import opened Deflate

  /** TINFL_LZ_DICT_SIZE: no match reaches further back. */
  const WINDOW: nat := 32768

  /** A place in the output, or x places from its beginning, as a place in the buffer. */
  function Masked(x: int, size: nat, wrap: bool): (r: int)
    requires wrap ==> size > 0
  {
    if wrap then x % size else x
  }

  /** Where position p of the output is, as far as it is still there. */
  ghost predicate ShowsAt(bytes: seq<byte>, out: seq<byte>, size: nat, wrap: bool, p: nat)
    requires p < |out| && (wrap ==> size > 0)
  {
    0 <= Masked(p, size, wrap) < |bytes| && bytes[Masked(p, size, wrap)] == out[p]
  }

  /** The buffer holds the last of the output, and cur is where the next byte goes. */
  ghost predicate Shows(bytes: seq<byte>, out: seq<byte>, size: nat, wrap: bool, cur: nat)
  {
    cur <= size <= |bytes| && (if wrap then size >= WINDOW && |out| % size == cur % size else cur == |out|) &&
    forall p :: 0 <= p < |out| && (wrap ==> p >= |out| - size) ==> ShowsAt(bytes, out, size, wrap, p)
  }

  lemma OtherPlace(p: nat, q: nat, size: nat)
    requires size > 0 && p < q < p + size
    ensures p % size != q % size
  {
    var a, b := p / size, q / size;
    if p % size == q % size {
      assert p == a * size + p % size && q == b * size + q % size;
      MulCancelStrict(a, b, size);
      MulMono(a + 1, b, size);
    }
  }

  /** One more byte. */
  lemma ShowsMore(bytes: seq<byte>, out: seq<byte>, size: nat, wrap: bool, cur: nat, b: byte)
    requires Shows(bytes, out, size, wrap, cur) && cur < size
    ensures Shows(bytes[cur := b], out + [b], size, wrap, cur + 1)
  {
    var bytes', out' := bytes[cur := b], out + [b];
    if wrap { NextPlace(|out|, cur, size); }
    forall p | 0 <= p < |out'| && (wrap ==> p >= |out'| - size) ensures ShowsAt(bytes', out', size, wrap, p) {
      if p < |out| {
        assert ShowsAt(bytes, out, size, wrap, p);
        if wrap { OtherPlace(p, |out|, size); }
      }
    }
  }

  lemma NextPlace(n: nat, cur: nat, size: nat)
    requires 0 <= cur < size && n % size == cur % size
    ensures n % size == cur && (n + 1) % size == (cur + 1) % size
  {
    RemIs(cur, size, 0, cur);
    SameRem(n, cur, 1, size);
  }

  /** The byte dist back. */
  lemma ShowsBack(bytes: seq<byte>, out: seq<byte>, size: nat, wrap: bool, cur: nat, dist: nat)
    requires Shows(bytes, out, size, wrap, cur) && 1 <= dist <= |out| && (wrap ==> dist <= size)
    ensures 0 <= Masked(|out| - dist, size, wrap) < |bytes|
    ensures bytes[Masked(|out| - dist, size, wrap)] == out[|out| - dist]
  {
    assert ShowsAt(bytes, out, size, wrap, |out| - dist);
  }

  /** from counts the output like |out| does, give or take whole rings. */
  ghost predicate Counts(from: int, n: nat, size: nat, wrap: bool)
  {
    if wrap then size > 0 && from % size == n % size else from == n
  }

  lemma SameRem(a: int, b: int, k: int, size: nat)
    requires size > 0 && a % size == b % size
    ensures (a + k) % size == (b + k) % size
  {
    var qa, qb := a / size, b / size;
    assert a == qa * size + a % size && b == qb * size + b % size;
    assert a + k == (b + k) + (qa - qb) * size;
    AddTurns(b + k, qa - qb, size);
  }

  lemma AddTurns(x: int, q: int, size: nat)
    requires size > 0
    ensures (x + q * size) % size == x % size
  {
    var y := x + q * size;
    var d := y / size - q;
    assert y == y / size * size + y % size;
    assert x == (y / size) * size - q * size + y % size;
    assert (y / size) * size - q * size == d * size;
    RemIs(x, size, d, y % size);
  }

  lemma CountsBack(from: int, n: nat, size: nat, wrap: bool, dist: int)
    requires Counts(from, n, size, wrap)
    ensures wrap ==> size > 0 && 0 <= Masked(from - dist, size, wrap) < size
    ensures wrap ==> Masked(from - dist, size, wrap) == Masked(n - dist, size, wrap)
    ensures !wrap ==> from - dist == n - dist
    ensures Counts(from + 1, n + 1, size, wrap)
  {
    if wrap {
      SameRem(from, n, -dist, size);
      SameRem(from, n, 1, size);
    }
  }

  class OutWindow {
    /** The buffer of this call, where the next byte goes in it, and where it ends. */
    var buf: array<byte>
    var cur: nat
    var end: nat
    /** Whether it is a ring. */
    var wrap: bool
    /** All the output so far. */
    ghost var out: seq<byte>

    constructor (b: array<byte>)
      ensures out == [] && buf == b
    {
      buf, cur, end, wrap, out := b, 0, 0, false, [];
    }

    ghost predicate Valid()
      reads this, buf
    {
      Shows(buf[..], out, end, wrap, cur)
    }

    lemma ValidGives()
      requires Valid()
      ensures cur <= end <= buf.Length && (wrap ==> end >= WINDOW > 0 && |out| % end == cur % end)
      ensures !wrap ==> cur == |out|
    {
    }

    /** The buffer of the next call. */
    method Begin(b: array<byte>, next: nat, e: nat, w: bool)
      requires Shows(b[..], out, e, w, next)
      modifies this`buf, this`cur, this`end, this`wrap
      ensures Valid() && buf == b && cur == next && end == e && wrap == w
    {
      buf, cur, end, wrap := b, next, e, w;
    }

    /** What a match at this distance has to be copied from is still there. */
    ghost predicate Reaches(dist: nat)
      reads this
    {
      1 <= dist <= |out| && (wrap ==> dist <= end)
    }

    method Put(b: byte)
      requires Valid() && cur < end
      modifies this`cur, this`out, buf
      ensures Valid() && cur == old(cur) + 1 && out == old(out) + [b]
    {
      ghost var bytes := buf[..];
      ShowsMore(bytes, out, end, wrap, cur, b);
      hide Shows;
      assert cur < buf.Length by { ValidGives(); }
      buf[cur] := b;
      assert buf[..] == bytes[cur := b];
      cur := cur + 1;
      out := out + [b];
    }

    /** Copies one byte from a place in the buffer. */
    method CopyFrom(src: nat, ghost dist: nat)
      requires Valid() && cur < end && src < buf.Length
      requires Reaches(dist) ==> src == Masked(|out| - dist, end, wrap)
      modifies this`cur, this`out, buf
      ensures Valid() && cur == old(cur) + 1 && |out| == |old(out)| + 1 && out[..|old(out)|] == old(out)
      ensures old(Reaches(dist)) ==> out == old(out) + [old(out)[|old(out)| - dist]]
    {
      if Reaches(dist) { ShowsBack(buf[..], out, end, wrap, cur, dist); }
      hide Shows;
      ghost var o := out;
      Put(buf[src]);
      assert (o + [buf[src]])[..|o|] == o;
    }

    /** Of a match of len bytes, counter are still to be copied, from src on. */
    ghost predicate Copying(out0: seq<byte>, len: nat, dist: nat, src: nat, counter: nat, reaches: bool)
      reads this, buf
    {
      Valid() && cur + counter <= end && src + counter <= end && counter <= len && |out| == |out0| + (len - counter) &&
      out0 <= out &&
      (reaches ==> Reaches(dist) && dist <= |out0| && (counter > 0 ==> src == Masked(|out| - dist, end, wrap)) &&
                   CopyBack(out, dist, counter) == CopyBack(out0, dist, len))
    }

    /** A match of which source and target do not run over the end of the buffer, three bytes at a time. */
    method CopyFast(src0: nat, len: nat, ghost dist: nat)
      requires Valid() && cur + len <= end && src0 + len <= end
      requires Reaches(dist) ==> src0 == Masked(|out| - dist, end, wrap)
      modifies this`cur, this`out, buf
      ensures Valid() && cur == old(cur) + len && |out| == |old(out)| + len && old(out) <= out
      ensures old(Reaches(dist)) ==> out == CopyBack(old(out), dist, len)
    {
      ghost var out0, reaches := out, Reaches(dist);
      CopyBegins(len, dist, src0, reaches);
      hide *;
      var src: nat, counter: nat := src0, len;
      while counter > 2
        invariant Copying(out0, len, dist, src, counter, reaches) && cur == old(cur) + (len - counter)
      {
        CopyStep(out0, len, dist, src, counter, reaches);
        CopyStep(out0, len, dist, src + 1, counter - 1, reaches);
        CopyStep(out0, len, dist, src + 2, counter - 2, reaches);
        src := src + 3;
        counter := counter - 3;
      }
      if counter > 0 {
        CopyStep(out0, len, dist, src, counter, reaches);
        if counter > 1 {
          CopyStep(out0, len, dist, src + 1, counter - 1, reaches);
        }
        CopyEnds(out0, len, dist, src + counter, reaches);
      } else {
        CopyEnds(out0, len, dist, src, reaches);
      }
    }

    lemma CopyBegins(len: nat, dist: nat, src: nat, reaches: bool)
      requires Valid() && cur + len <= end && src + len <= end && reaches == Reaches(dist)
      requires Reaches(dist) ==> src == Masked(|out| - dist, end, wrap)
      ensures Copying(out, len, dist, src, len, reaches)
      ensures reaches ==> 1 <= dist <= |out|
    {
      hide Shows;
    }

    lemma CopyEnds(out0: seq<byte>, len: nat, dist: nat, src: nat, reaches: bool)
      requires Copying(out0, len, dist, src, 0, reaches)
      ensures Valid() && |out| == |out0| + len && out0 <= out
      ensures reaches ==> 1 <= dist <= |out0| && out == CopyBack(out0, dist, len)
    {
      hide Shows;
      CopyNone(out, dist);
    }

    /** One byte of a fast copy. */
    method CopyStep(ghost out0: seq<byte>, ghost len: nat, ghost dist: nat, src: nat, ghost counter: nat,
                    ghost reaches: bool)
      requires Copying(out0, len, dist, src, counter, reaches) && counter > 0
      modifies this`cur, this`out, buf
      ensures Copying(out0, len, dist, src + 1, counter - 1, reaches) && cur == old(cur) + 1
    {
      ValidGives();
      if reaches { Along(|out| - dist, end, wrap, src, counter); }
      hide Shows, Masked;
      CopyFrom(src, if reaches then dist else 0);
    }
  }

  lemma CopyNone(out: seq<byte>, dist: nat)
    ensures 1 <= dist <= |out| ==> CopyBack(out, dist, 0) == out
  {
  }

  lemma Along(x: int, size: nat, wrap: bool, src: nat, counter: nat)
    requires 0 <= x && 0 < counter && src + counter <= size && src == Masked(x, size, wrap)
    ensures counter > 1 ==> Masked(x + 1, size, wrap) == src + 1
  {
    if wrap && counter > 1 {
      SameRem(x, src, 1, size);
      RemIs(src, size, 0, src);
      RemIs(src + 1, size, 0, src + 1);
    }
  }

  lemma ShowsGives(bytes: seq<byte>, out: seq<byte>, size: nat, wrap: bool, cur: nat)
    requires Shows(bytes, out, size, wrap, cur)
    ensures cur <= size <= |bytes| && (wrap ==> size >= WINDOW) && InPlace(out, size, wrap, cur)
  {
  }

  /** What comes after out goes to cur. */
  ghost predicate InPlace(out: seq<byte>, size: nat, wrap: bool, cur: nat)
  {
    if wrap then size > 0 && |out| % size == cur % size else cur == |out|
  }

  /** What has come out since the buffer was at cur is what was put there. */
  lemma ShowsNew(bytes: seq<byte>, out: seq<byte>, out': seq<byte>, size: nat, wrap: bool, cur: nat, cur': nat)
    requires Shows(bytes, out', size, wrap, cur') && cur <= cur' && out <= out' && |out'| == |out| + (cur' - cur)
    requires InPlace(out, size, wrap, cur)
    ensures cur' <= |bytes| && out' == out + bytes[cur..cur']
  {
    hide Masked;
    var a, b := bytes[cur..cur'], out'[|out|..];
    forall i | 0 <= i < cur' - cur ensures a[i] == b[i] {
      assert ShowsAt(bytes, out', size, wrap, |out| + i);
      SamePlace(|out|, cur, i, size, wrap);
    }
    assert out' == out + b;
  }

  lemma SamePlace(n: nat, cur: nat, i: nat, size: nat, wrap: bool)
    requires cur + i < size && (if wrap then n % size == cur % size else cur == n)
    ensures Masked(n + i, size, wrap) == cur + i
  {
    if wrap {
      SameRem(n, cur, i, size);
      RemIs(cur + i, size, 0, cur + i);
    }
  }
}
