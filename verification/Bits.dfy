/**
  Bit strings as DEFLATE sees them: numbers are packed starting with the least
  significant bit, Huffman codes starting with the most significant bit
  (section 3.1.1 of RFC 1951).
 */
module Bits {

  type byte = x: nat | x < 256
  type u16 = x: nat | x < 65536
  type Bits = seq<bool>

  function Pow2(n: nat): (r: nat)
    ensures r >= 1
  {
    if n == 0 then 1 else 2 * Pow2(n - 1)
  }

  lemma Powers()
    ensures Pow2(0) == 1 && Pow2(1) == 2 && Pow2(2) == 4 && Pow2(3) == 8 && Pow2(4) == 16 && Pow2(5) == 32
    ensures Pow2(6) == 64 && Pow2(7) == 128 && Pow2(8) == 256 && Pow2(9) == 512 && Pow2(10) == 1024
    ensures Pow2(11) == 2048 && Pow2(12) == 4096 && Pow2(13) == 8192 && Pow2(14) == 16384 && Pow2(15) == 32768
    ensures Pow2(16) == 65536
  {
  }

  lemma MorePowers()
    ensures Pow2(23) == 8388608 && Pow2(24) == 16777216 && Pow2(32) == 0x1_0000_0000
  {
    Powers();
    Pow2Add(16, 7);
    Pow2Add(16, 8);
    Pow2Add(16, 16);
  }

  /** The low n bits of v, least significant bit first. */
  function ToBits(v: nat, n: nat): (r: Bits)
    ensures |r| == n
  {
    if n == 0 then [] else [v % 2 == 1] + ToBits(v / 2, n - 1)
  }

  /** The low n bits of v, most significant bit first. */
  function MsbBits(v: nat, n: nat): (r: Bits)
    ensures |r| == n
  {
    if n == 0 then [] else MsbBits(v / 2, n - 1) + [v % 2 == 1]
  }

  /** The number whose least significant bit comes first. */
  function FromBits(b: Bits): (r: nat)
  {
    if b == [] then 0 else (if b[0] then 1 else 0) + 2 * FromBits(b[1..])
  }

  function BytesToBits(s: seq<byte>): (r: Bits)
    ensures |r| == 8 * |s|
  {
    if s == [] then [] else ToBits(s[0], 8) + BytesToBits(s[1..])
  }

  lemma MulMono(a: int, b: int, c: nat)
    requires a <= b
    ensures a * c <= b * c
  {
  }

  lemma MulCancel(a: int, b: int, c: nat)
    requires a * c <= b * c && c > 0
    ensures a <= b
  {
    if a > b {
      MulMono(b + 1, a, c);
    }
  }

  lemma MulCancelStrict(a: int, b: int, c: nat)
    requires a * c < b * c
    ensures a < b
  {
    if b <= a {
      MulMono(b, a, c);
    }
  }

  lemma Pow2Half(a: int, d: nat)
    requires d > 0
    ensures a * Pow2(d) == 2 * (a * Pow2(d - 1))
  {
  }

  lemma {:induction false} Pow2Add(a: nat, b: nat)
    ensures Pow2(a + b) == Pow2(a) * Pow2(b)
  {
    if a == 0 {
    } else {
      Pow2Add(a - 1, b);
      assert Pow2(a + b) == 2 * (Pow2(a - 1) * Pow2(b));
      assert 2 * (Pow2(a - 1) * Pow2(b)) == (2 * Pow2(a - 1)) * Pow2(b);
    }
  }

  lemma {:induction false} Pow2Mono(a: nat, b: nat)
    requires a <= b
    ensures Pow2(a) <= Pow2(b)
  {
    if a < b {
      Pow2Mono(a, b - 1);
    }
  }

  lemma {:induction false} FromToBits(v: nat, n: nat)
    requires v < Pow2(n)
    ensures FromBits(ToBits(v, n)) == v
  {
    if n > 0 {
      FromToBits(v / 2, n - 1);
      assert ToBits(v, n)[1..] == ToBits(v / 2, n - 1);
    }
  }

  lemma {:induction false} ToFromBits(b: Bits)
    ensures FromBits(b) < Pow2(|b|)
    ensures ToBits(FromBits(b), |b|) == b
  {
    if b != [] {
      ToFromBits(b[1..]);
      assert FromBits(b) / 2 == FromBits(b[1..]);
      assert b == [b[0]] + b[1..];
    }
  }

  lemma {:induction false} ToBitsAppend(v: nat, n: nat, w: nat, m: nat)
    requires v < Pow2(n)
    ensures ToBits(v + w * Pow2(n), n + m) == ToBits(v, n) + ToBits(w, m)
  {
    if n > 0 {
      ToBitsAppend(v / 2, n - 1, w, m);
      var p := Pow2(n - 1);
      assert w * Pow2(n) == 2 * (w * p);
      var x := v + w * Pow2(n);
      assert x / 2 == v / 2 + w * p;
      assert x % 2 == v % 2;
      assert n + m - 1 == (n - 1) + m;
    } else {
      assert w * Pow2(0) == w;
    }
  }

  lemma {:induction false} BytesToBitsAppend(a: seq<byte>, b: seq<byte>)
    ensures BytesToBits(a + b) == BytesToBits(a) + BytesToBits(b)
  {
    if a == [] {
      assert a + b == b;
    } else {
      assert (a + b)[1..] == a[1..] + b;
      BytesToBitsAppend(a[1..], b);
    }
  }

  lemma BytesToBitsSnoc(a: seq<byte>, b: byte)
    ensures BytesToBits(a + [b]) == BytesToBits(a) + ToBits(b, 8)
  {
    BytesToBitsAppend(a, [b]);
    assert [b][1..] == [];
    assert BytesToBits([b]) == ToBits(b, 8) + [];
  }

  /** v with its low k bits dropped. */
  function Shr(v: nat, k: nat): (r: nat)
    ensures r * Pow2(k) <= v < (r + 1) * Pow2(k)
  {
    if k == 0 then v else
    var r := Shr(v / 2, k - 1);
    Pow2Half(r, k);
    Pow2Half(r + 1, k);
    r
  }

  lemma {:induction false} MsbPrefix(c: nat, n: nat, m: nat)
    requires m <= n
    ensures MsbBits(c, n)[..m] == MsbBits(Shr(c, n - m), m)
  {
    if m < n {
      MsbPrefix(c / 2, n - 1, m);
    }
  }

  lemma {:induction false} MsbInjective(a: nat, b: nat, n: nat)
    requires a < Pow2(n) && b < Pow2(n)
    requires MsbBits(a, n) == MsbBits(b, n)
    ensures a == b
  {
    if n > 0 {
      var x, y := MsbBits(a / 2, n - 1), MsbBits(b / 2, n - 1);
      assert x == (x + [a % 2 == 1])[..n - 1];
      assert y == (y + [b % 2 == 1])[..n - 1];
      assert MsbBits(a, n)[n - 1] == (a % 2 == 1);
      assert MsbBits(b, n)[n - 1] == (b % 2 == 1);
      MsbInjective(a / 2, b / 2, n - 1);
    }
  }

  /** Where numbers wrap around. */
  const U32: nat := 0x1_0000_0000

  lemma RemIs(x: int, p: nat, q: int, r: int)
    requires p > 0 && 0 <= r < p && x == q * p + r
    ensures x % p == r
  {
    if x / p < q { MulMono(x / p + 1, q, p); }
    if x / p > q { MulMono(q + 1, x / p, p); }
  }
}
