/**
  Numbers and strings of bytes in the records kept in flash.
 */
module Records {
  import opened Wrappers
  import opened Bits
  import opened Vault

  const MAX_ALLOWED_SIGNERS: nat := 15
  const MAX_PATH_LEN: nat := 16

  /** As the processor keeps them, the low byte first. */
  function Le2(n: nat): (r: seq<byte>)
    requires n < 65536
    ensures |r| == 2
  {
    [n % 256, n / 256]
  }

  function FromLe2(b: seq<byte>): (r: nat)
    requires |b| == 2
    ensures r < 65536
  {
    b[0] as nat + 256 * b[1] as nat
  }

  lemma Le2Back(n: nat)
    requires n < 65536
    ensures FromLe2(Le2(n)) == n
  {
  }

  function Le4(n: nat): (r: seq<byte>)
    requires n < 0x1_0000_0000
    ensures |r| == 4
  {
    [n % 256, n / 256 % 256, n / 65536 % 256, n / 0x100_0000]
  }

  function FromLe4(b: seq<byte>): (r: nat)
    requires |b| == 4
    ensures r < 0x1_0000_0000
  {
    b[0] as nat + 256 * b[1] as nat + 65536 * b[2] as nat + 0x100_0000 * b[3] as nat
  }

  lemma Le4Back(n: nat)
    requires n < 0x1_0000_0000
    ensures FromLe4(Le4(n)) == n
  {
    var a, b, c := n / 256, n / 65536, n / 0x100_0000;
    assert b == a / 256 && c == b / 256;
  }

  /** The elements of a path fit in 32 bits. */
  predicate IsPath32(p: seq<nat>)
  {
    forall i :: 0 <= i < |p| ==> p[i] < 0x1_0000_0000
  }

  function Le4s(p: seq<nat>): (r: seq<byte>)
    requires IsPath32(p)
    ensures |r| == 4 * |p|
  {
    if p == [] then [] else Le4(p[0]) + Le4s(p[1..])
  }

  function FromLe4s(b: seq<byte>): (r: seq<nat>)
    requires |b| % 4 == 0
    ensures |r| == |b| / 4 && IsPath32(r)
  {
    if b == [] then [] else [FromLe4(b[..4])] + FromLe4s(b[4..])
  }

  lemma {:induction false} Le4sBack(p: seq<nat>)
    requires IsPath32(p)
    ensures FromLe4s(Le4s(p)) == p
  {
    if p != [] {
      Le4sBack(p[1..]);
      Le4Back(p[0]);
      hide Le4, FromLe4;
      assert Le4s(p)[..4] == Le4(p[0]) && Le4s(p)[4..] == Le4s(p[1..]);
    }
  }

  lemma Le4Only(b: seq<byte>)
    requires |b| == 4
    ensures Le4(FromLe4(b)) == b
  {
    var n := FromLe4(b);
    assert n / 256 == b[1] as nat + 256 * b[2] as nat + 65536 * b[3] as nat;
    assert n / 65536 == b[2] as nat + 256 * b[3] as nat;
    assert n / 0x100_0000 == b[3] as nat;
  }

  lemma {:induction false} Le4sOnly(b: seq<byte>)
    requires |b| % 4 == 0
    ensures Le4s(FromLe4s(b)) == b
  {
    if b != [] {
      Le4sOnly(b[4..]);
      Le4Only(b[..4]);
      hide Le4, FromLe4;
      assert FromLe4s(b)[1..] == FromLe4s(b[4..]);
      assert b == b[..4] + b[4..];
    }
  }

  lemma Le2Only(b: seq<byte>)
    requires |b| == 2
    ensures Le2(FromLe2(b)) == b
  {
  }

  lemma CutOnly(b: seq<byte>, n: nat)
    ensures Cut(b, n).Some? ==> Cut(b, n).value.0 + Cut(b, n).value.1 == b && |Cut(b, n).value.0| == n
  {
  }

  /** The first n bytes and the rest, if there are so many. */
  function Cut(b: seq<byte>, n: nat): (r: Option<(seq<byte>, seq<byte>)>)
  {
    if |b| < n then None else Some((b[..n], b[n..]))
  }

  lemma CutJoined(a: seq<byte>, b: seq<byte>)
    ensures Cut(a + b, |a|) == Some((a, b))
  {
    assert (a + b)[..|a|] == a && (a + b)[|a|..] == b;
  }

  /** Copies bytes to where write_ptr stands. */
  method PutBytes(output: array<byte>, write_ptr: nat, bytes: seq<byte>)
    requires write_ptr + |bytes| <= output.Length
    modifies output
    ensures output[..write_ptr + |bytes|] == old(output[..write_ptr]) + bytes
  {
    ghost var o := output[..write_ptr];
    var i := 0;
    while i < |bytes|
      invariant 0 <= i <= |bytes| && output[..write_ptr] == o
      invariant forall k :: 0 <= k < i ==> output[write_ptr + k] == bytes[k]
    {
      output[write_ptr + i] := bytes[i];
      i := i + 1;
    }
    assert output[write_ptr..write_ptr + |bytes|] == bytes;
  }

  /** Ends a record with the HMAC of all before it. */
  method PutMac(lib: Services, output: array<byte>, write_ptr: nat) returns (ok: bool)
    requires write_ptr + HMAC_SHA256_LEN == output.Length
    requires forall m :: lib.hmac(m).Some? ==> |lib.hmac(m).value| == HMAC_SHA256_LEN
    modifies output
    ensures ok <==> lib.hmac(old(output[..write_ptr])).Some?
    ensures ok ==> output[..] == old(output[..write_ptr]) + lib.hmac(old(output[..write_ptr])).value
  {
    var mac := lib.hmac(output[..write_ptr]);
    ok := mac.Some?;
    if ok {
      PutBytes(output, write_ptr, mac.value);
      assert output[..] == output[..write_ptr + |mac.value|];
    }
  }

  /** What the libraries are called for: an HMAC, strings of extended keys, derived keys. None where a call fails. */
  datatype Services = Services(
    hmac: seq<byte> -> Option<seq<byte>>,
    from_base58: string -> Option<seq<byte>>,
    to_base58: seq<byte> -> Option<string>,
    derive: (seq<byte>, seq<nat>) -> Option<seq<byte>>)
}
