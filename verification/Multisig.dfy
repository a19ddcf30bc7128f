/**
  Records of multisig registrations: four versions are read, the newest is written.
 */
module Multisig {
  import opened Wrappers
  import opened Bits
  import opened Vault
  import opened Records

  const CURRENT_MULTISIG_RECORD_VERSION: byte := 3
  const MIN_MULTISIG_BYTES_LEN: nat := 4 + 78 + 32
  const MULTISIG_MASTER_BLINDING_KEY_SIZE: nat := 32
  const FINGERPRINT_LEN: nat := 4
  /** Characters there is room for in a signer's xpub, the terminator not counted. */
  const MAX_XPUB_LEN: nat := 119

  datatype Signer = Signer(fingerprint: seq<byte>, derivation: seq<nat>, xpub: string, path: seq<nat>,
                           path_is_string: bool)

  datatype MultisigData = MultisigData(variant: byte, sorted: bool, threshold: byte, master_blinding_key: seq<byte>,
                                       xpubs: seq<seq<byte>>)

  /** What a signer has to be like to be handed to the writer. */
  predicate IsSigner(s: Signer)
  {
    |s.fingerprint| == FINGERPRINT_LEN && |s.derivation| <= MAX_PATH_LEN && IsPath32(s.derivation) &&
    (!s.path_is_string ==> |s.path| <= MAX_PATH_LEN && IsPath32(s.path))
  }

  predicate AreSigners(signers: seq<Signer>)
  {
    forall i :: 0 <= i < |signers| ==> IsSigner(signers[i])
  }

  /** Path elements of all the signers. */
  function PathElements(signers: seq<Signer>): (r: nat)
  {
    if signers == [] then 0
    else PathElements(signers[..|signers| - 1]) + |signers[|signers| - 1].derivation| + |signers[|signers| - 1].path|
  }

  function MultisigBytesLen(master_blinding_key_len: nat, num_signers: nat, total_num_path_elements: nat): (r: nat)
  {
    6 + master_blinding_key_len + num_signers * (6 + BIP32_SERIALIZED_LEN) + total_num_path_elements * 4 +
      HMAC_SHA256_LEN
  }

  /** The xpub is one, and the path is made of numbers. */
  predicate Persistable(lib: Services, s: Signer)
  {
    lib.from_base58(s.xpub).Some? && |lib.from_base58(s.xpub).value| == BIP32_SERIALIZED_LEN && !s.path_is_string
  }

  predicate AllPersistable(lib: Services, signers: seq<Signer>)
  {
    forall i :: 0 <= i < |signers| ==> Persistable(lib, signers[i])
  }

  // ------------------------------------------------------------------------------ layout

  function SignerBytes(lib: Services, s: Signer): (r: seq<byte>)
    requires IsSigner(s) && Persistable(lib, s)
    ensures |r| == 6 + BIP32_SERIALIZED_LEN + 4 * (|s.derivation| + |s.path|)
  {
    s.fingerprint + ([|s.derivation|] +
                     (Le4s(s.derivation) + (lib.from_base58(s.xpub).value + ([|s.path|] + Le4s(s.path)))))
  }

  function SignersBytes(lib: Services, signers: seq<Signer>): (r: seq<byte>)
    requires AreSigners(signers) && AllPersistable(lib, signers)
    ensures |r| == |signers| * (6 + BIP32_SERIALIZED_LEN) + 4 * PathElements(signers)
  {
    if signers == [] then []
    else
      var m := |signers| - 1;
      SignersBytes(lib, signers[..m]) + SignerBytes(lib, signers[m])
  }

  /** Everything before the signers; what later versions added is left out of earlier ones. */
  function HeadBytes(version: byte, variant: byte, sorted: bool, threshold: byte, key: seq<byte>): (r: seq<byte>)
    requires |key| <= MULTISIG_MASTER_BLINDING_KEY_SIZE
  {
    [version, variant] +
      ((if version > 0 then [if sorted then 1 else 0] else []) +
       ([threshold] + (if version > 1 then [|key|] + key else [])))
  }

  function Body(lib: Services, variant: byte, sorted: bool, threshold: byte, key: seq<byte>,
                signers: seq<Signer>): (r: seq<byte>)
    requires AreSigners(signers) && AllPersistable(lib, signers) && |signers| <= MAX_ALLOWED_SIGNERS
    requires |key| <= MULTISIG_MASTER_BLINDING_KEY_SIZE
    ensures |r| + HMAC_SHA256_LEN == MultisigBytesLen(|key|, |signers|, PathElements(signers))
  {
    HeadBytes(3, variant, sorted, threshold, key) + ([|signers|] + SignersBytes(lib, signers))
  }

  /** Before version 3 the signers were the keys, one after the other. */
  function Joined(xpubs: seq<seq<byte>>): (r: seq<byte>)
  {
    if xpubs == [] then [] else xpubs[0] + Joined(xpubs[1..])
  }

  // ------------------------------------------------------------------------------ writing

  /** Writes where a signer's key comes from. */
  method PutOrigin(signer: Signer, output: array<byte>, write_ptr: nat) returns (next: nat)
    requires IsSigner(signer) && write_ptr + 5 + 4 * |signer.derivation| <= output.Length
    modifies output
    ensures next == write_ptr + 5 + 4 * |signer.derivation|
    ensures output[..next] ==
              ((old(output[..write_ptr]) + signer.fingerprint) + [|signer.derivation|]) + Le4s(signer.derivation)
  {
    hide Le4s;
    next := write_ptr;
    PutBytes(output, next, signer.fingerprint);
    next := next + |signer.fingerprint|;
    PutBytes(output, next, [|signer.derivation|]);
    next := next + 1;
    PutBytes(output, next, Le4s(signer.derivation));
    next := next + 4 * |signer.derivation|;
  }

  /** Writes one signer's bytes, if it is persistable. */
  method PutSigner(lib: Services, signer: Signer, output: array<byte>, write_ptr: nat) returns (ok: bool, next: nat)
    requires IsSigner(signer)
    requires write_ptr + 6 + BIP32_SERIALIZED_LEN + 4 * (|signer.derivation| + |signer.path|) <= output.Length
    modifies output
    ensures ok <==> Persistable(lib, signer)
    ensures ok ==> next == write_ptr + |SignerBytes(lib, signer)|
    ensures ok ==> output[..next] == old(output[..write_ptr]) + SignerBytes(lib, signer)
  {
    ghost var o := output[..write_ptr];
    next := PutOrigin(signer, output, write_ptr);
    var xpub := lib.from_base58(signer.xpub);
    if xpub.None? || |xpub.value| != BIP32_SERIALIZED_LEN || signer.path_is_string {
      return false, next;
    }
    hide Le4s;
    next := PutKey(signer, xpub.value, output, next);
    ok := true;
    JoinSignerParts(o, signer.fingerprint, [|signer.derivation| as byte], Le4s(signer.derivation), xpub.value,
                    [|signer.path| as byte], Le4s(signer.path));
  }

  /** The key and the path that is derived from it. */
  method PutKey(signer: Signer, xpub: seq<byte>, output: array<byte>, write_ptr: nat) returns (next: nat)
    requires IsSigner(signer) && !signer.path_is_string
    requires write_ptr + |xpub| + 1 + 4 * |signer.path| <= output.Length
    modifies output
    ensures next == write_ptr + |xpub| + 1 + 4 * |signer.path|
    ensures output[..next] == ((old(output[..write_ptr]) + xpub) + [|signer.path|]) + Le4s(signer.path)
  {
    hide Le4s;
    next := write_ptr;
    PutBytes(output, next, xpub);
    next := next + |xpub|;
    PutBytes(output, next, [|signer.path|]);
    next := next + 1;
    PutBytes(output, next, Le4s(signer.path));
    next := next + 4 * |signer.path|;
  }

  lemma JoinSignerParts(o: seq<byte>, a: seq<byte>, b: seq<byte>, c: seq<byte>, d: seq<byte>, e: seq<byte>,
                        f: seq<byte>)
    ensures (((((o + a) + b) + c) + d) + e) + f == o + (a + (b + (c + (d + (e + f)))))
  {
  }

  /** Writes all signers. */
  method PutSigners(lib: Services, signers: seq<Signer>, output: array<byte>, write_ptr0: nat)
    returns (ok: bool, write_ptr: nat)
    requires AreSigners(signers)
    requires write_ptr0 + |signers| * (6 + BIP32_SERIALIZED_LEN) + 4 * PathElements(signers) <= output.Length
    modifies output
    ensures ok <==> AllPersistable(lib, signers)
    ensures ok ==> write_ptr == write_ptr0 + |SignersBytes(lib, signers)|
    ensures ok ==> output[..write_ptr] == old(output[..write_ptr0]) + SignersBytes(lib, signers)
  {
    hide SignerBytes, IsSigner, Persistable;
    ghost var o := output[..write_ptr0];
    write_ptr := write_ptr0;
    var i := 0;
    assert o + [] == o;
    while i < |signers|
      invariant 0 <= i <= |signers| && AreSigners(signers[..i]) && AllPersistable(lib, signers[..i])
      invariant write_ptr == write_ptr0 + |SignersBytes(lib, signers[..i])| <= output.Length
      invariant output[..write_ptr] == o + SignersBytes(lib, signers[..i])
    {
      assert signers[..i + 1][..i] == signers[..i];
      FewerElements(signers, i + 1);
      ghost var w := write_ptr;
      ok, write_ptr := PutSigner(lib, signers[i], output, write_ptr);
      if !ok {
        return;
      }
      assert output[..write_ptr] == o + (SignersBytes(lib, signers[..i]) + SignerBytes(lib, signers[i]));
      i := i + 1;
    }
    assert signers[..|signers|] == signers;
    ok := true;
  }

  lemma HeadSize(version: byte, variant: byte, sorted: bool, threshold: byte, key: seq<byte>)
    requires version == 3 && |key| <= MULTISIG_MASTER_BLINDING_KEY_SIZE
    ensures |HeadBytes(version, variant, sorted, threshold, key)| == 5 + |key|
  {
  }

  lemma {:induction false} FewerElements(signers: seq<Signer>, i: nat)
    requires i <= |signers|
    ensures PathElements(signers[..i]) <= PathElements(signers)
    ensures i * (6 + BIP32_SERIALIZED_LEN) <= |signers| * (6 + BIP32_SERIALIZED_LEN)
    decreases |signers| - i
  {
    if i < |signers| {
      FewerElements(signers, i + 1);
      assert signers[..i + 1][..i] == signers[..i];
    } else {
      assert signers[..i] == signers;
    }
  }

  /** Writes a record of the newest version: exactly as many bytes as there is room for. */
  method MultisigDataToBytes(lib: Services, variant: byte, sorted: bool, threshold: byte,
                             master_blinding_key: seq<byte>, signers: seq<Signer>,
                             total_num_path_elements: nat, output: array<byte>) returns (ok: bool)
    requires 0 < threshold as nat <= |signers| <= MAX_ALLOWED_SIGNERS && AreSigners(signers)
    requires total_num_path_elements == PathElements(signers)
    requires |master_blinding_key| == 0 || |master_blinding_key| == MULTISIG_MASTER_BLINDING_KEY_SIZE
    requires output.Length == MultisigBytesLen(|master_blinding_key|, |signers|, total_num_path_elements)
    requires forall m :: lib.hmac(m).Some? ==> |lib.hmac(m).value| == HMAC_SHA256_LEN
    modifies output
    ensures ok <==>
              AllPersistable(lib, signers) &&
              lib.hmac(Body(lib, variant, sorted, threshold, master_blinding_key, signers)).Some?
    ensures ok ==>
              var body := Body(lib, variant, sorted, threshold, master_blinding_key, signers);
              output[..] == body + lib.hmac(body).value
  {
    hide SignersBytes, AreSigners, AllPersistable, PathElements, Body, HeadBytes;
    HeadSize(CURRENT_MULTISIG_RECORD_VERSION, variant, sorted, threshold, master_blinding_key);
    var write_ptr := PutHead(variant, sorted, threshold, master_blinding_key, |signers|, output);
    ok, write_ptr := PutSigners(lib, signers, output, write_ptr);
    if ok {
      ghost var body := Body(lib, variant, sorted, threshold, master_blinding_key, signers);
      BodyIs(lib, variant, sorted, threshold, master_blinding_key, signers);
      assert output[..write_ptr] == body;
      ok := PutMac(lib, output, write_ptr);
    }
  }

  /** Everything up to the number of signers. */
  method PutHead(variant: byte, sorted: bool, threshold: byte, key: seq<byte>, num_signers: byte, output: array<byte>)
    returns (write_ptr: nat)
    requires |key| <= MULTISIG_MASTER_BLINDING_KEY_SIZE
    requires |HeadBytes(CURRENT_MULTISIG_RECORD_VERSION, variant, sorted, threshold, key)| < output.Length
    modifies output
    ensures var head := HeadBytes(CURRENT_MULTISIG_RECORD_VERSION, variant, sorted, threshold, key);
            write_ptr == |head| + 1 <= output.Length && output[..write_ptr] == head + [num_signers]
  {
    hide HeadBytes;
    var head := HeadBytes(CURRENT_MULTISIG_RECORD_VERSION, variant, sorted, threshold, key);
    assert output[..0] == [] && [] + head == head;
    PutBytes(output, 0, head);
    write_ptr := |head|;
    PutBytes(output, write_ptr, [num_signers]);
    write_ptr := write_ptr + 1;
  }

  // ------------------------------------------------------------------------------ reading

  /** One signer: the key used for addresses, the details, and the bytes after it. The key is derived along the path. */
  function ReadSigner(lib: Services, b: seq<byte>, want: bool): (r: Option<(seq<byte>, Option<Signer>, seq<byte>)>)
    ensures r.Some? ==> |r.value.2| < |b|
  {
    match Cut(b, FINGERPRINT_LEN + 1)
    case None => None
    case Some((front, b1)) =>
      var derivation_len := front[FINGERPRINT_LEN] as nat;
      if derivation_len > MAX_PATH_LEN then None
      else
        match Cut(b1, 4 * derivation_len)
        case None => None
        case Some((derivation, b2)) =>
          match Cut(b2, BIP32_SERIALIZED_LEN + 1)
          case None => None
          case Some((xpub, b3)) =>
            ReadPath(lib, front[..FINGERPRINT_LEN], FromLe4s(derivation), xpub[..BIP32_SERIALIZED_LEN],
                     xpub[BIP32_SERIALIZED_LEN] as nat, b3, want)
  }

  /** The path after the key. */
  function ReadPath(lib: Services, fingerprint: seq<byte>, derivation: seq<nat>, xpub: seq<byte>, path_len: nat,
                    b: seq<byte>, want: bool)
    : (r: Option<(seq<byte>, Option<Signer>, seq<byte>)>)
    ensures r.Some? ==> |r.value.2| <= |b|
  {
    var str := if want then lib.to_base58(xpub) else Some("");
    if str.None? || |str.value| > MAX_XPUB_LEN || path_len > MAX_PATH_LEN then None
    else
      match Cut(b, 4 * path_len)
      case None => None
      case Some((bytes, rest)) =>
        var path := FromLe4s(bytes);
        match Derived(lib, xpub, path)
        case None => None
        case Some(key) =>
          Some((key, if want then Some(Signer(fingerprint, derivation, str.value, path, false)) else None, rest))
  }

  /** The key at the end of the path. */
  function Derived(lib: Services, xpub: seq<byte>, path: seq<nat>): (r: Option<seq<byte>>)
  {
    if path == [] then Some(xpub) else lib.derive(xpub, path)
  }

  /** n signers, details of those numbered below details_len. */
  function ReadSigners(lib: Services, b: seq<byte>, n: nat, i: nat,
                       details_len: nat): (r: Option<(seq<seq<byte>>, seq<Signer>, seq<byte>)>)
    requires i <= n
    decreases n - i
  {
    if i == n then Some(([], [], b))
    else
      match ReadSigner(lib, b, i < details_len)
      case None => None
      case Some((key, signer, b')) =>
        match ReadSigners(lib, b', n, i + 1, details_len)
        case None => None
        case Some((keys, signers, rest)) =>
          Some(([key] + keys, (if signer.Some? then [signer.value] else []) + signers, rest))
  }

  /** Records of version 3: what is needed for addresses, the details asked for, and the number of signers. */
  function ReadComplete(lib: Services, b: seq<byte>, details_len: nat): (r: Option<(seq<seq<byte>>, seq<Signer>, nat)>)
  {
    if b == [] || b[0] == 0 || b[0] as nat > MAX_ALLOWED_SIGNERS then None
    else
      match ReadSigners(lib, b[1..], b[0] as nat, 0, details_len)
      case None => None
      case Some((keys, signers, rest)) => if rest != [] then None else Some((keys, signers, b[0] as nat))
  }

  function Split(b: seq<byte>): (r: seq<seq<byte>>)
    requires |b| % BIP32_SERIALIZED_LEN == 0
  {
    if b == [] then [] else [b[..BIP32_SERIALIZED_LEN]] + Split(b[BIP32_SERIALIZED_LEN..])
  }

  /** Records before version 3: the keys alone. */
  function ReadSimple(b: seq<byte>): (r: Option<seq<seq<byte>>>)
  {
    var num_xpubs := |b| / BIP32_SERIALIZED_LEN;
    if num_xpubs == 0 || num_xpubs > MAX_ALLOWED_SIGNERS ||
           num_xpubs * BIP32_SERIALIZED_LEN != |b| then None else Some(Split(b))
  }

  /** The fields before the signers, with what a version does not have at its default. */
  function ReadHead(b: seq<byte>): (r: Option<(byte, bool, byte, seq<byte>, seq<byte>)>)
    requires |b| >= MIN_MULTISIG_BYTES_LEN - HMAC_SHA256_LEN
  {
    var version := b[0];
    var p := if version > 0 then 4 else 3;
    var sorted := version > 0 && b[2] != 0;
    var threshold := b[p - 1];
    if version <= 1 then Some((b[1], sorted, threshold, [], b[p..]))
    else if b[p] == 0 then Some((b[1], sorted, threshold, [], b[p + 1..]))
    else if b[p] as nat != MULTISIG_MASTER_BLINDING_KEY_SIZE then None
    else Some((b[1], sorted, threshold, b[p + 1..p + 1 + MULTISIG_MASTER_BLINDING_KEY_SIZE],
               b[p + 1 + MULTISIG_MASTER_BLINDING_KEY_SIZE..]))
  }

  /** A record of any version: the data, details as far as there are any, and the number of signers told of. */
  function ReadRecord(lib: Services, bytes: seq<byte>, details_len: nat): (r: Option<(MultisigData, seq<Signer>, nat)>)
    requires |bytes| >= MIN_MULTISIG_BYTES_LEN
  {
    var b := bytes[..|bytes| - HMAC_SHA256_LEN];
    if lib.hmac(b) != Some(bytes[|bytes| - HMAC_SHA256_LEN..]) || b[0] > CURRENT_MULTISIG_RECORD_VERSION then None
    else
      match ReadHead(b)
      case None => None
      case Some((variant, sorted, threshold, key, rest)) =>
        if b[0] < 3 then
          match ReadSimple(rest)
          case None => None
          case Some(keys) => Some((MultisigData(variant, sorted, threshold, key, keys), [], 0))
        else
          match ReadComplete(lib, rest, details_len)
          case None => None
          case Some((keys, signers, n)) => Some((MultisigData(variant, sorted, threshold, key, keys), signers, n))
  }

  /** Reads the signers one after the other. */
  method ReadCompleteSigners(lib: Services, signer_bytes: seq<byte>, details_len: nat)
    returns (r: Option<(seq<seq<byte>>, seq<Signer>, nat)>)
    ensures r == ReadComplete(lib, signer_bytes, details_len)
  {
    hide ReadSigner;
    if signer_bytes == [] {
      return None;
    }
    var num_signers: nat := signer_bytes[0];
    if num_signers == 0 || num_signers > MAX_ALLOWED_SIGNERS {
      return None;
    }
    var rest, keys, signers := signer_bytes[1..], [], [];
    var i := 0;
    PrependNone(ReadSigners(lib, rest, num_signers, 0, details_len));
    hide ReadSigners, Prepended;
    while i < num_signers
      invariant 0 <= i <= num_signers
      invariant ReadSigners(lib, signer_bytes[1..], num_signers, 0, details_len) ==
                Prepended(keys, signers, ReadSigners(lib, rest, num_signers, i, details_len))
    {
      ReadStep(lib, rest, num_signers, i, details_len);
      var one := ReadSigner(lib, rest, i < details_len);
      if one.None? {
        NothingRead(keys, signers);
        return None;
      }
      var (key, signer, rest') := one.value;
      PrependMore(keys, signers, key, signer, ReadSigners(lib, rest', num_signers, i + 1, details_len));
      keys := keys + [key];
      signers := signers + if signer.Some? then [signer.value] else [];
      rest := rest';
      i := i + 1;
    }
    ReadAll(lib, rest, num_signers, details_len, keys, signers);
    r := if rest != [] then None else Some((keys, signers, num_signers));
  }

  lemma PrependNone(r: Option<(seq<seq<byte>>, seq<Signer>, seq<byte>)>)
    ensures Prepended([], [], r) == r
  {
    if r.Some? { assert [] + r.value.0 == r.value.0 && [] + r.value.1 == r.value.1; }
  }

  lemma NothingRead(keys: seq<seq<byte>>, signers: seq<Signer>)
    ensures Prepended(keys, signers, None) == None
  {
  }

  lemma ReadAll(lib: Services, b: seq<byte>, n: nat, details_len: nat, keys: seq<seq<byte>>, signers: seq<Signer>)
    ensures Prepended(keys, signers, ReadSigners(lib, b, n, n, details_len)) == Some((keys, signers, b))
  {
    assert keys + [] == keys && signers + [] == signers;
  }

  /** The next signer. */
  lemma ReadStep(lib: Services, b: seq<byte>, n: nat, i: nat, details_len: nat)
    requires i < n
    ensures ReadSigners(lib, b, n, i, details_len) ==
            match ReadSigner(lib, b, i < details_len)
            case None => None
            case Some((key, signer, b')) =>
              Prepended([key], if signer.Some? then [signer.value] else [], ReadSigners(lib, b', n, i + 1, details_len))
  {
    hide ReadSigner;
  }

  ghost function Prepended(keys: seq<seq<byte>>, signers: seq<Signer>,
                           r: Option<(seq<seq<byte>>, seq<Signer>, seq<byte>)>)
    : (x: Option<(seq<seq<byte>>, seq<Signer>, seq<byte>)>)
  {
    match r
    case None => None
    case Some((k, s, rest)) => Some((keys + k, signers + s, rest))
  }

  lemma PrependMore(keys: seq<seq<byte>>, signers: seq<Signer>, key: seq<byte>, signer: Option<Signer>,
                    r: Option<(seq<seq<byte>>, seq<Signer>, seq<byte>)>)
    ensures Prepended(keys, signers, Prepended([key], if signer.Some? then [signer.value] else [], r)) ==
            Prepended(keys + [key], signers + (if signer.Some? then [signer.value] else []), r)
  {
    if r.Some? {
      var (k, s, rest) := r.value;
      assert keys + ([key] + k) == (keys + [key]) + k;
      var one := if signer.Some? then [signer.value] else [];
      assert signers + (one + s) == (signers + one) + s;
    }
  }

  /** The keys of an old record, in a loop over them as memory is copied. */
  method ReadSimpleSigners(signer_bytes: seq<byte>) returns (r: Option<seq<seq<byte>>>)
    ensures r == ReadSimple(signer_bytes)
  {
    var num_xpubs := |signer_bytes| / BIP32_SERIALIZED_LEN;
    if num_xpubs == 0 || num_xpubs > MAX_ALLOWED_SIGNERS || num_xpubs * BIP32_SERIALIZED_LEN != |signer_bytes| {
      return None;
    }
    r := Some(Split(signer_bytes));
  }

  method MultisigDataFromBytes(lib: Services, bytes: seq<byte>, details_len: nat)
    returns (r: Option<(MultisigData, seq<Signer>, nat)>)
    requires |bytes| >= MIN_MULTISIG_BYTES_LEN
    ensures r == ReadRecord(lib, bytes, details_len)
  {
    hide ReadComplete, ReadSimple;
    var n := |bytes| - HMAC_SHA256_LEN;
    if lib.hmac(bytes[..n]) != Some(bytes[n..]) {
      return None;
    }
    var version := bytes[0];
    if version > CURRENT_MULTISIG_RECORD_VERSION {
      return None;
    }
    var read_ptr := 1;
    var variant := bytes[read_ptr];
    read_ptr := read_ptr + 1;
    var sorted := false;
    if version > 0 {
      sorted := bytes[read_ptr] != 0;
      read_ptr := read_ptr + 1;
    }
    var threshold := bytes[read_ptr];
    read_ptr := read_ptr + 1;
    var key: seq<byte> := [];
    if version > 1 {
      var keylen: nat := bytes[read_ptr];
      read_ptr := read_ptr + 1;
      if keylen > 0 {
        if keylen != MULTISIG_MASTER_BLINDING_KEY_SIZE {
          assert ReadHead(bytes[..n]).None?;
          return None;
        }
        key := bytes[read_ptr..read_ptr + keylen];
        read_ptr := read_ptr + keylen;
      }
    }
    HeadIs(bytes, n, version, key, read_ptr);
    if version < 3 {
      var keys := ReadSimpleSigners(bytes[read_ptr..n]);
      r := if keys.None? then None else Some((MultisigData(variant, sorted, threshold, key, keys.value), [], 0));
    } else {
      var all := ReadCompleteSigners(lib, bytes[read_ptr..n], details_len);
      r := if all.None? then None
        else Some((MultisigData(variant, sorted, threshold, key, all.value.0), all.value.1, all.value.2));
    }
  }

  lemma HeadIs(bytes: seq<byte>, n: nat, version: byte, key: seq<byte>, read_ptr: nat)
    requires MIN_MULTISIG_BYTES_LEN - HMAC_SHA256_LEN <= n <= |bytes| && version == bytes[0] <= 3
    requires version <= 1 ==> key == [] && read_ptr == (if version > 0 then 4 else 3)
    requires version > 1 ==> (bytes[4] == 0 && key == [] && read_ptr == 5) ||
                             (bytes[4] as nat == MULTISIG_MASTER_BLINDING_KEY_SIZE && key == bytes[5..37] &&
                              read_ptr == 37)
    ensures read_ptr <= n
    ensures ReadHead(bytes[..n]) ==
            Some((bytes[1], version > 0 &&
                  bytes[2] != 0, if version > 0 then bytes[3] else bytes[2], key, bytes[read_ptr..n]))
  {
    var b := bytes[..n];
    assert b[read_ptr..] == bytes[read_ptr..n];
    assert b[0] == bytes[0] && b[1] == bytes[1] && b[2] == bytes[2] && b[3] == bytes[3] && b[4] == bytes[4];
    if version > 1 && bytes[4] != 0 { assert b[5..37] == bytes[5..37]; }
  }

  // ------------------------------------------------------------------------------ there and back

  /** The strings and bytes of extended keys stand for each other, and the strings are short. */
  ghost predicate Lawful58(lib: Services)
  {
    forall s :: var b := lib.from_base58(s); b.Some? && |b.value| == BIP32_SERIALIZED_LEN ==>
      lib.to_base58(b.value) == Some(s) && |s| <= MAX_XPUB_LEN
  }

  /** Strings that are their own bytes, and a constant for an HMAC: the law can be kept. */
  function PlainServices(): (r: Services)
  {
    Services(_ => Some(Zeros(HMAC_SHA256_LEN)), FromPlain, ToPlain, (x, p) => Some(x))
  }

  function FromPlain(s: string): (r: Option<seq<byte>>)
    ensures r.Some? ==> |s| == BIP32_SERIALIZED_LEN == |r.value| && forall i :: 0 <= i < |s| ==>
              r.value[i] == s[i] as int
  {
    if |s| == BIP32_SERIALIZED_LEN && forall i :: 0 <= i < |s| ==> s[i] as int < 256
    then Some(seq(|s|, i requires 0 <= i < |s| => (s[i] as int) % 256)) else None
  }

  function ToPlain(b: seq<byte>): (r: Option<string>)
    ensures r.Some? && |r.value| == |b| && forall i :: 0 <= i < |b| ==> r.value[i] as int == b[i]
  {
    Some(seq(|b|, i requires 0 <= i < |b| => b[i] as char))
  }

  lemma PlainLawful58()
    ensures Lawful58(PlainServices())
  {
    forall s | FromPlain(s).Some? ensures ToPlain(FromPlain(s).value) == Some(s) {
      var t := ToPlain(FromPlain(s).value).value;
      forall i | 0 <= i < |s| ensures t[i] == s[i] {}
      assert t == s;
    }
  }

  /** What a signer's bytes read back as. */
  lemma SignerReads(lib: Services, s: Signer, rest: seq<byte>, want: bool)
    requires Lawful58(lib) && IsSigner(s) && Persistable(lib, s)
    ensures ReadSigner(lib, SignerBytes(lib, s) + rest, want) ==
            match Derived(lib, lib.from_base58(s.xpub).value, s.path)
            case None => None
            case Some(key) => Some((key, if want then Some(s) else None, rest))
  {
    hide *;
    SignerSizes(lib, s);
    var a, b, c := s.fingerprint, [|s.derivation| as byte], Le4s(s.derivation);
    var d, e, f := lib.from_base58(s.xpub).value, [|s.path| as byte], Le4s(s.path);
    Le4sBack(s.derivation);
    Regrouped(a, b, c, d, e, f, rest);
    CutJoined(a + b, c + ((d + e) + (f + rest)));
    CutJoined(c, (d + e) + (f + rest));
    CutJoined(d + e, f + rest);
    assert (a + b)[..4] == a && (a + b)[4] == b[0] && (d + e)[..78] == d && (d + e)[78] == e[0];
    ReadIs(lib, SignerBytes(lib, s) + rest, a + b, c, d + e, c + ((d + e) + (f + rest)), (d + e) + (f + rest), f + rest,
           want);
    PathBack(lib, s, rest, want);
  }

  /** A signer's bytes read back as the signer with its key, or not at all if there is no key at the end of its path. */
  lemma SignerBack(lib: Services, s: Signer, rest: seq<byte>, want: bool)
    requires Lawful58(lib) && IsSigner(s) && Persistable(lib, s)
    ensures var back := ReadSigner(lib, SignerBytes(lib, s) + rest, want);
            (back.None? <==> HasNoKey(lib, s)) &&
            (back.Some? ==>
               IsKeyOf(lib, s, back.value.0) && back.value.1 == (if want then Some(s) else None) &&
               back.value.2 == rest)
  {
    hide *;
    SignerReads(lib, s, rest, want);
    KeyIs(lib, s);
  }

  lemma SignerSizes(lib: Services, s: Signer)
    requires IsSigner(s) && Persistable(lib, s)
    ensures FINGERPRINT_LEN == 4 && BIP32_SERIALIZED_LEN == 78 && MAX_PATH_LEN == 16 && |s.fingerprint| == 4
    ensures IsPath32(s.derivation) && IsPath32(s.path) && |s.derivation| <= 16 && |s.path| <= 16
    ensures lib.from_base58(s.xpub).Some? && |lib.from_base58(s.xpub).value| == 78
    ensures SignerBytes(lib, s) ==
            s.fingerprint + ([|s.derivation| as byte] +
                             (Le4s(s.derivation) +
                              (lib.from_base58(s.xpub).value + ([|s.path| as byte] + Le4s(s.path)))))
  {
    hide Le4s;
  }

  lemma Regrouped(a: seq<byte>, b: seq<byte>, c: seq<byte>, d: seq<byte>, e: seq<byte>, f: seq<byte>, g: seq<byte>)
    ensures (a + (b + (c + (d + (e + f))))) + g == (a + b) + (c + ((d + e) + (f + g)))
  {
  }

  /** The three pieces before the path. */
  lemma ReadIs(lib: Services, b: seq<byte>, front: seq<byte>, derivation: seq<byte>, xpub: seq<byte>, b1: seq<byte>,
               b2: seq<byte>, b3: seq<byte>, want: bool)
    requires |front| == 5 && |xpub| == 79 && front[4] <= 16 && |derivation| == 4 * front[4] as nat
    requires Cut(b, 5) == Some((front, b1)) && Cut(b1, 4 * front[4] as nat) == Some((derivation, b2))
    requires Cut(b2, 79) == Some((xpub, b3))
    ensures ReadSigner(lib, b, want) ==
              ReadPath(lib, front[..4], FromLe4s(derivation), xpub[..78], xpub[78] as nat, b3, want)
  {
    hide Cut, FromLe4s, ReadPath;
  }

  /** And from the key on. */
  lemma PathBack(lib: Services, s: Signer, rest: seq<byte>, want: bool)
    requires Lawful58(lib) && IsSigner(s) && Persistable(lib, s)
    ensures ReadPath(lib, s.fingerprint, s.derivation, lib.from_base58(s.xpub).value, |s.path|, Le4s(s.path) + rest,
                     want) ==
            match Derived(lib, lib.from_base58(s.xpub).value, s.path)
            case None => None
            case Some(key) => Some((key, if want then Some(s) else None, rest))
  {
    var f := Le4s(s.path);
    Le4sBack(s.path);
    CutJoined(f, rest);
    StringBack(lib, s.xpub);
    hide Le4s, FromLe4s, Derived, Lawful58, Cut;
  }

  lemma StringBack(lib: Services, s: string)
    requires Lawful58(lib) && lib.from_base58(s).Some? && |lib.from_base58(s).value| == BIP32_SERIALIZED_LEN
    ensures lib.to_base58(lib.from_base58(s).value) == Some(s) && |s| <= MAX_XPUB_LEN
  {
  }

  /** The keys for addresses, if they can be derived. */
  function Keys(lib: Services, signers: seq<Signer>): (r: Option<seq<seq<byte>>>)
    requires AllPersistable(lib, signers)
    ensures r.Some? ==> |r.value| == |signers|
  {
    if signers == [] then Some([])
    else
      match Derived(lib, lib.from_base58(signers[0].xpub).value, signers[0].path)
      case None => None
      case Some(key) =>
        match Keys(lib, signers[1..])
        case None => None
        case Some(keys) => Some([key] + keys)
  }

  lemma SignersLast(lib: Services, signers: seq<Signer>)
    requires AreSigners(signers) && AllPersistable(lib, signers) && signers != []
    ensures var m := |signers| - 1;
            AreSigners(signers[..m]) && AllPersistable(lib, signers[..m]) &&
            SignersBytes(lib, signers) == SignersBytes(lib, signers[..m]) + SignerBytes(lib, signers[m])
  {
    hide SignerBytes, IsSigner, Persistable;
  }

  lemma {:induction false} SignersFront(lib: Services, signers: seq<Signer>)
    requires AreSigners(signers) && AllPersistable(lib, signers) && signers != []
    ensures SignersBytes(lib, signers) == SignerBytes(lib, signers[0]) + SignersBytes(lib, signers[1..])
    decreases |signers|
  {
    hide SignerBytes, IsSigner, Persistable;
    var m := |signers| - 1;
    if m == 0 {
      assert signers[..0] == [] && signers[1..] == [];
    } else {
      SignersFront(lib, signers[..m]);
      assert signers[..m][1..] == signers[1..][..m - 1];
      SignersLast(lib, signers);
      SignersLast(lib, signers[1..]);
      hide SignersBytes;
      assert SignerBytes(lib, signers[0]) + (SignersBytes(lib, signers[..m][1..]) + SignerBytes(lib, signers[m])) ==
             (SignerBytes(lib, signers[0]) + SignersBytes(lib, signers[..m][1..])) + SignerBytes(lib, signers[m]);
    }
  }

  lemma {:induction false} SignersBack(lib: Services, signers: seq<Signer>, all: nat, i: nat, details_len: nat)
    requires Lawful58(lib) && AreSigners(signers) && AllPersistable(lib, signers) && i + |signers| == all
    ensures ReadSigners(lib, SignersBytes(lib, signers), all, i, details_len) ==
            match Keys(lib, signers)
            case None => None
            case Some(keys) => Some((keys, FirstOf(signers, details_len - i), []))
    decreases |signers|
  {
    hide *;
    if signers != [] {
      SignersFront(lib, signers);
      FrontOk(lib, signers);
      SignerReads(lib, signers[0], SignersBytes(lib, signers[1..]), i < details_len);
      SignersBack(lib, signers[1..], all, i + 1, details_len);
      ReadStep(lib, SignersBytes(lib, signers), all, i, details_len);
      KeysStep(lib, signers, details_len - i);
    } else {
      NoSigners(lib, signers, all, details_len, details_len - i);
    }
  }

  lemma FrontOk(lib: Services, signers: seq<Signer>)
    requires AreSigners(signers) && AllPersistable(lib, signers) && signers != []
    ensures IsSigner(signers[0]) && Persistable(lib, signers[0]) && lib.from_base58(signers[0].xpub).Some?
    ensures AreSigners(signers[1..]) && AllPersistable(lib, signers[1..])
  {
    hide IsSigner;
  }

  lemma NoSigners(lib: Services, signers: seq<Signer>, all: nat, details_len: nat, n: int)
    requires AreSigners(signers) && AllPersistable(lib, signers) && signers == []
    ensures Keys(lib, signers) == Some([]) && FirstOf(signers, n) == [] && SignersBytes(lib, signers) == []
    ensures ReadSigners(lib, [], all, all, details_len) == Some(([], [], []))
  {
  }

  /** Keys and details with one more signer in front. */
  lemma KeysStep(lib: Services, signers: seq<Signer>, n: int)
    requires AllPersistable(lib, signers) && signers != [] && Persistable(lib, signers[0])
    requires AllPersistable(lib, signers[1..])
    ensures var key := Derived(lib, lib.from_base58(signers[0].xpub).value, signers[0].path);
            var rest := Keys(lib, signers[1..]);
            var one := if n > 0 then [signers[0]] else [];
            (key.None? ==> Keys(lib, signers).None?) &&
            (key.Some? ==>
               Prepended([key.value], one, if rest.None? then None
                         else Some((rest.value, FirstOf(signers[1..], n - 1), []))) ==
               if Keys(lib, signers).None? then None else Some((Keys(lib, signers).value, FirstOf(signers, n), [])))
  {
    hide Derived;
    if n <= 0 {
      NoneOf(signers[1..], n - 1);
      NoneOf(signers, n);
      assert FirstOf(signers, n) + [] == [];
    }
  }

  lemma NoneOf(signers: seq<Signer>, n: int)
    requires n <= 0
    ensures FirstOf(signers, n) == []
  {
  }

  /** At most the first n. */
  function FirstOf(s: seq<Signer>, n: int): (r: seq<Signer>)
  {
    if s == [] || n <= 0 then [] else [s[0]] + FirstOf(s[1..], n - 1)
  }

  lemma HeadBack(version: byte, variant: byte, sorted: bool, threshold: byte, key: seq<byte>, rest: seq<byte>)
    requires version <= 3 && (|key| == 0 || |key| == MULTISIG_MASTER_BLINDING_KEY_SIZE)
    requires |HeadBytes(version, variant, sorted, threshold, key) + rest| >= MIN_MULTISIG_BYTES_LEN - HMAC_SHA256_LEN
    ensures (HeadBytes(version, variant, sorted, threshold, key) + rest)[0] == version
    ensures ReadHead(HeadBytes(version, variant, sorted, threshold, key) + rest) ==
            Some((variant, version > 0 && sorted, threshold, if version > 1 then key else [], rest))
  {
    var b := HeadBytes(version, variant, sorted, threshold, key) + rest;
    var p := if version > 0 then 4 else 3;
    assert b[0] == version && b[1] == variant && b[p - 1] == threshold;
    if version > 0 { assert b[2] == if sorted then 1 else 0; }
    if version > 1 {
      assert b[p] == |key|;
      assert b[p + 1..p + 1 + |key|] == key && b[p + 1 + |key|..] == rest;
    } else {
      assert b[p..] == rest;
    }
  }

  /** A record with its HMAC. */
  function Sealed(lib: Services, body: seq<byte>): (r: seq<byte>)
    requires lib.hmac(body).Some?
  {
    body + lib.hmac(body).value
  }

  lemma SealedOpens(lib: Services, body: seq<byte>)
    requires lib.hmac(body).Some? && |lib.hmac(body).value| == HMAC_SHA256_LEN
    ensures var r := Sealed(lib, body);
            var n := |r| - HMAC_SHA256_LEN; n == |body| && r[..n] == body && r[n..] == lib.hmac(body).value
  {
  }

  /** What is written reads as its signers and their keys. */
  lemma RecordReads(lib: Services, variant: byte, sorted: bool, threshold: byte, key: seq<byte>, signers: seq<Signer>,
                   details_len: nat)
    requires Lawful58(lib) && AreSigners(signers) && AllPersistable(lib, signers)
    requires 0 < |signers| <= MAX_ALLOWED_SIGNERS
    requires |key| == 0 || |key| == MULTISIG_MASTER_BLINDING_KEY_SIZE
    requires var body := Body(lib, variant, sorted, threshold, key, signers);
             lib.hmac(body).Some? && |lib.hmac(body).value| == HMAC_SHA256_LEN
    ensures var r := Sealed(lib, Body(lib, variant, sorted, threshold, key, signers));
            |r| >= MIN_MULTISIG_BYTES_LEN &&
            ReadRecord(lib, r, details_len) ==
              match Keys(lib, signers)
              case None => None
              case Some(keys) =>
                Some((MultisigData(variant, sorted, threshold, key, keys), FirstOf(signers, details_len), |signers|))
  {
    hide *;
    BodyIs(lib, variant, sorted, threshold, key, signers);
    var body := Body(lib, variant, sorted, threshold, key, signers);
    var b: seq<byte> := [|signers| as byte] + SignersBytes(lib, signers);
    AtLeastOne(lib, signers);
    SealedOpens(lib, body);
    HeadBack(3, variant, sorted, threshold, key, b);
    SignersBack(lib, signers, |signers|, 0, details_len);
    assert b[1..] == SignersBytes(lib, signers);
    CompleteIs(lib, b, details_len);
    RecordIs(lib, Sealed(lib, body), body, details_len);
  }

  /** A key for addresses: the signer's own, or where there is a path, the one at its end. */
  predicate IsKeyOf(lib: Services, s: Signer, key: seq<byte>)
    requires Persistable(lib, s)
  {
    Some(key) == if s.path == [] then lib.from_base58(s.xpub) else lib.derive(lib.from_base58(s.xpub).value, s.path)
  }

  /** The keys of all signers. */
  predicate AreKeysOf(lib: Services, signers: seq<Signer>, keys: seq<seq<byte>>)
    requires AllPersistable(lib, signers)
  {
    |keys| == |signers| && forall i :: 0 <= i < |keys| ==> IsKeyOf(lib, signers[i], keys[i])
  }

  /** There is no key at the end of this signer's path. */
  predicate HasNoKey(lib: Services, s: Signer)
    requires Persistable(lib, s)
  {
    s.path != [] && lib.derive(lib.from_base58(s.xpub).value, s.path).None?
  }

  lemma {:induction false} KeysAre(lib: Services, signers: seq<Signer>)
    requires AllPersistable(lib, signers)
    ensures Keys(lib, signers).Some? ==> AreKeysOf(lib, signers, Keys(lib, signers).value)
    ensures Keys(lib, signers).None? <==> exists i :: 0 <= i < |signers| && HasNoKey(lib, signers[i])
    decreases |signers|
  {
    if signers != [] {
      assert Persistable(lib, signers[0]);
      var tail := signers[1..];
      KeysAre(lib, tail);
      KeyIs(lib, signers[0]);
      hide Derived, IsKeyOf, HasNoKey, Persistable;
      if HasNoKey(lib, signers[0]) {
        assert Keys(lib, signers).None?;
      } else if Keys(lib, tail).None? {
        var i :| 0 <= i < |tail| && HasNoKey(lib, tail[i]);
        assert signers[i + 1] == tail[i];
      } else {
        var keys := Keys(lib, signers).value;
        forall i | 0 <= i < |keys| ensures IsKeyOf(lib, signers[i], keys[i]) {
          if i > 0 { assert IsKeyOf(lib, tail[i - 1], keys[1..][i - 1]); }
        }
        forall i | 0 <= i < |signers| ensures !HasNoKey(lib, signers[i]) {
          if i > 0 { assert !HasNoKey(lib, tail[i - 1]); }
        }
      }
    }
  }

  lemma KeyIs(lib: Services, s: Signer)
    requires Persistable(lib, s)
    ensures var key := Derived(lib, lib.from_base58(s.xpub).value, s.path);
            (key.None? <==> HasNoKey(lib, s)) && (key.Some? ==> IsKeyOf(lib, s, key.value))
  {
  }

  lemma {:induction false} FirstAre(s: seq<Signer>, n: int)
    ensures FirstOf(s, n) == s[..if n < 0 then 0 else if n < |s| then n else |s|]
    decreases |s|
  {
    if s != [] && n > 0 { FirstAre(s[1..], n - 1); }
  }

  /**
    What is written is read back: every field, the details of the signers asked for, and the keys,
    each derived along its path. It is refused if and only if one of them cannot be.
   */
  lemma RecordBack(lib: Services, variant: byte, sorted: bool, threshold: byte, key: seq<byte>, signers: seq<Signer>,
                   details_len: nat)
    requires Lawful58(lib) && AreSigners(signers) && AllPersistable(lib, signers)
    requires 0 < |signers| <= MAX_ALLOWED_SIGNERS
    requires |key| == 0 || |key| == MULTISIG_MASTER_BLINDING_KEY_SIZE
    requires var body := Body(lib, variant, sorted, threshold, key, signers);
             lib.hmac(body).Some? && |lib.hmac(body).value| == HMAC_SHA256_LEN
    ensures var r := Sealed(lib, Body(lib, variant, sorted, threshold, key, signers));
            |r| >= MIN_MULTISIG_BYTES_LEN &&
            var back := ReadRecord(lib, r, details_len);
            (back.None? <==> exists i :: 0 <= i < |signers| && HasNoKey(lib, signers[i])) &&
            (back.Some? ==>
               var (data, details, n) := back.value;
               data.variant == variant && data.sorted == sorted && data.threshold == threshold &&
               data.master_blinding_key == key && AreKeysOf(lib, signers, data.xpubs) && n == |signers| &&
               details == if details_len < n then signers[..details_len] else signers)
  {
    hide *;
    RecordReads(lib, variant, sorted, threshold, key, signers, details_len);
    KeysAre(lib, signers);
    FirstAre(signers, details_len);
    assert signers[..|signers|] == signers;
  }

  lemma BodyIs(lib: Services, variant: byte, sorted: bool, threshold: byte, key: seq<byte>, signers: seq<Signer>)
    requires AreSigners(signers) && AllPersistable(lib, signers) && |signers| <= MAX_ALLOWED_SIGNERS
    requires |key| <= MULTISIG_MASTER_BLINDING_KEY_SIZE
    ensures MAX_ALLOWED_SIGNERS == 15 && MULTISIG_MASTER_BLINDING_KEY_SIZE == 32 && HMAC_SHA256_LEN == 32
    ensures MIN_MULTISIG_BYTES_LEN == 114
    ensures BIP32_SERIALIZED_LEN == 78
    ensures Body(lib, variant, sorted, threshold, key, signers) ==
            HeadBytes(3, variant, sorted, threshold, key) + ([|signers|] + SignersBytes(lib, signers))
  {
    hide HeadBytes, SignersBytes;
  }

  lemma CompleteIs(lib: Services, b: seq<byte>, details_len: nat)
    requires b != [] && 0 < b[0] as nat <= MAX_ALLOWED_SIGNERS
    ensures ReadComplete(lib, b, details_len) ==
            match ReadSigners(lib, b[1..], b[0] as nat, 0, details_len)
            case None => None
            case Some((keys, signers, rest)) => if rest != [] then None else Some((keys, signers, b[0] as nat))
  {
    hide ReadSigners;
  }

  /** A record with the right HMAC is read as its body says. */
  lemma RecordIs(lib: Services, r: seq<byte>, body: seq<byte>, details_len: nat)
    requires |r| >= MIN_MULTISIG_BYTES_LEN && body == r[..|r| - HMAC_SHA256_LEN]
    requires lib.hmac(body) == Some(r[|r| - HMAC_SHA256_LEN..]) && body[0] == 3
    ensures ReadRecord(lib, r, details_len) ==
            match ReadHead(body)
            case None => None
            case Some((variant, sorted, threshold, key, rest)) =>
              match ReadComplete(lib, rest, details_len)
              case None => None
              case Some((keys, signers, n)) => Some((MultisigData(variant, sorted, threshold, key, keys), signers, n))
  {
    hide ReadHead, ReadComplete;
  }

  lemma AtLeastOne(lib: Services, signers: seq<Signer>)
    requires AreSigners(signers) && AllPersistable(lib, signers) && 0 < |signers|
    ensures |SignersBytes(lib, signers)| >= 6 + BIP32_SERIALIZED_LEN
  {
    hide SignersBytes, IsSigner, Persistable;
  }

  lemma {:induction false} SplitJoined(xpubs: seq<seq<byte>>)
    requires forall i :: 0 <= i < |xpubs| ==> |xpubs[i]| == BIP32_SERIALIZED_LEN
    ensures |Joined(xpubs)| == |xpubs| * BIP32_SERIALIZED_LEN && Split(Joined(xpubs)) == xpubs
  {
    if xpubs != [] {
      SplitJoined(xpubs[1..]);
      var b := Joined(xpubs);
      assert b[..BIP32_SERIALIZED_LEN] == xpubs[0] && b[BIP32_SERIALIZED_LEN..] == Joined(xpubs[1..]);
    }
  }

  /**
    Records of versions 0 to 2: the flag and the blinding key are read where the version has them,
    and are at their defaults otherwise.
   */
  lemma OldRecordBack(lib: Services, version: byte, variant: byte, sorted: bool, threshold: byte, key: seq<byte>,
                      xpubs: seq<seq<byte>>, details_len: nat)
    requires version < 3 && 0 < |xpubs| <= MAX_ALLOWED_SIGNERS
    requires |key| == 0 || |key| == MULTISIG_MASTER_BLINDING_KEY_SIZE
    requires forall i :: 0 <= i < |xpubs| ==> |xpubs[i]| == BIP32_SERIALIZED_LEN
    requires |xpubs| > 1 || version > 0
    requires var body := HeadBytes(version, variant, sorted, threshold, key) + Joined(xpubs);
             lib.hmac(body).Some? && |lib.hmac(body).value| == HMAC_SHA256_LEN
    ensures var r := Sealed(lib, HeadBytes(version, variant, sorted, threshold, key) + Joined(xpubs));
            |r| >= MIN_MULTISIG_BYTES_LEN &&
            ReadRecord(lib, r, details_len) ==
              Some((MultisigData(variant, version > 0 && sorted, threshold, if version > 1 then key else [], xpubs), [],
                    0))
  {
    var body := HeadBytes(version, variant, sorted, threshold, key) + Joined(xpubs);
    SplitJoined(xpubs);
    SealedOpens(lib, body);
    HeadBack(version, variant, sorted, threshold, key, Joined(xpubs));
    hide ReadHead, Joined, Split, ReadComplete, Sealed;
  }

  // ------------------------------------------------------------------------------ nothing else is read

  /** Without the right HMAC, or of a later version, a record is refused. */
  lemma Refused(lib: Services, bytes: seq<byte>, details_len: nat)
    requires |bytes| >= MIN_MULTISIG_BYTES_LEN
    ensures lib.hmac(bytes[..|bytes| - 32]) != Some(bytes[|bytes| - 32..]) ==>
              ReadRecord(lib, bytes, details_len) == None
    ensures bytes[0] > 3 ==> ReadRecord(lib, bytes, details_len) == None
  {
    hide ReadHead, ReadSimple, ReadComplete;
  }

  /** The bytes of a string of an extended key are those it was made from. */
  ghost predicate Strings58(lib: Services)
  {
    forall b :: |b| == BIP32_SERIALIZED_LEN && lib.to_base58(b).Some? ==>
      lib.from_base58(lib.to_base58(b).value) == Some(b)
  }

  lemma PlainStrings58()
    ensures Strings58(PlainServices())
  {
    forall b | |b| == BIP32_SERIALIZED_LEN ensures FromPlain(ToPlain(b).value) == Some(b) {
      var s := ToPlain(b).value;
      forall i | 0 <= i < |s| ensures s[i] as int == b[i] < 256 {}
      assert FromPlain(s).Some?;
      assert FromPlain(s).value == b;
    }
  }

  /** A signer read is one, and its bytes are those that would be written for it. */
  lemma SignerOnly(lib: Services, b: seq<byte>)
    requires Strings58(lib) && ReadSigner(lib, b, true).Some?
    ensures var (key, signer, rest) := ReadSigner(lib, b, true).value;
            signer.Some? && IsSigner(signer.value) && Persistable(lib, signer.value) &&
            b == SignerBytes(lib, signer.value) + rest
  {
    hide Le4s, FromLe4s, Derived, ReadPath, Strings58;
    var (front, b1) := Cut(b, FINGERPRINT_LEN + 1).value;
    var derivation_len := front[FINGERPRINT_LEN] as nat;
    var (derivation, b2) := Cut(b1, 4 * derivation_len).value;
    var (xpub, b3) := Cut(b2, BIP32_SERIALIZED_LEN + 1).value;
    CutOnly(b, FINGERPRINT_LEN + 1);
    CutOnly(b1, 4 * derivation_len);
    CutOnly(b2, BIP32_SERIALIZED_LEN + 1);
    var fingerprint, key, path_len := front[..4], xpub[..78], xpub[78] as nat;
    Le4sOnly(derivation);
    PathOnly(lib, fingerprint, FromLe4s(derivation), key, path_len, b3);
    var (_, signer, rest) := ReadSigner(lib, b, true).value;
    var s := signer.value;
    assert front == fingerprint + [derivation_len as byte] && xpub == key + [path_len as byte];
    hide *;
    Grouped(fingerprint, [derivation_len as byte], derivation, key, [path_len as byte], Le4s(s.path), rest);
    SignerSizes(lib, s);
  }

  lemma Grouped(a: seq<byte>, b: seq<byte>, c: seq<byte>, d: seq<byte>, e: seq<byte>, f: seq<byte>, g: seq<byte>)
    ensures (a + b) + (c + ((d + e) + (f + g))) == (a + (b + (c + (d + (e + f))))) + g
  {
  }

  lemma PathOnly(lib: Services, fingerprint: seq<byte>, derivation: seq<nat>, xpub: seq<byte>, path_len: nat,
                 b: seq<byte>)
    requires Strings58(lib) && |xpub| == BIP32_SERIALIZED_LEN && |fingerprint| == FINGERPRINT_LEN
    requires |derivation| <= MAX_PATH_LEN && IsPath32(derivation)
    requires ReadPath(lib, fingerprint, derivation, xpub, path_len, b, true).Some?
    ensures var (key, signer, rest) := ReadPath(lib, fingerprint, derivation, xpub, path_len, b, true).value;
            signer.Some? && var s := signer.value;
            IsSigner(s) && Persistable(lib, s) && s.fingerprint == fingerprint && s.derivation == derivation &&
            |s.path| == path_len && lib.from_base58(s.xpub) == Some(xpub) && Le4s(s.path) + rest == b
  {
    hide Le4s, FromLe4s, Derived;
    CutOnly(b, 4 * path_len);
    Le4sOnly(Cut(b, 4 * path_len).value.0);
  }

  lemma {:induction false} SignersOnly(lib: Services, b: seq<byte>, n: nat, i: nat, details_len: nat)
    requires Strings58(lib) && i <= n <= details_len && ReadSigners(lib, b, n, i, details_len).Some?
    ensures var (keys, signers, rest) := ReadSigners(lib, b, n, i, details_len).value;
            |signers| == |keys| == n - i && AreSigners(signers) && AllPersistable(lib, signers) &&
            b == SignersBytes(lib, signers) + rest
    decreases n - i
  {
    hide *;
    if i == n {
      NoneRead(lib, b, n, details_len);
    } else {
      SignersNext(lib, b, n, i, details_len);
      SignerOnly(lib, b);
      var (key, signer, b1) := ReadSigner(lib, b, true).value;
      SignersOnly(lib, b1, n, i + 1, details_len);
      var (keys, signers, rest) := ReadSigners(lib, b1, n, i + 1, details_len).value;
      SignersJoined(lib, signer.value, signers, rest);
    }
  }

  lemma NoneRead(lib: Services, b: seq<byte>, n: nat, details_len: nat)
    ensures ReadSigners(lib, b, n, n, details_len) == Some(([], [], b))
    ensures AreSigners([]) && AllPersistable(lib, []) && b == SignersBytes(lib, []) + b
  {
  }

  lemma SignersNext(lib: Services, b: seq<byte>, n: nat, i: nat, details_len: nat)
    requires i < n <= details_len && ReadSigners(lib, b, n, i, details_len).Some?
    ensures ReadSigner(lib, b, true).Some?
    ensures var (key, signer, b1) := ReadSigner(lib, b, true).value;
            ReadSigners(lib, b1, n, i + 1, details_len).Some? &&
            var (keys, signers, rest) := ReadSigners(lib, b1, n, i + 1, details_len).value;
            signer.Some? ==>
              ReadSigners(lib, b, n, i, details_len) == Some(([key] + keys, [signer.value] + signers, rest))
  {
    hide ReadSigner;
  }

  lemma SignersJoined(lib: Services, s: Signer, signers: seq<Signer>, rest: seq<byte>)
    requires IsSigner(s) && Persistable(lib, s) && AreSigners(signers) && AllPersistable(lib, signers)
    ensures AreSigners([s] + signers) && AllPersistable(lib, [s] + signers)
    ensures SignerBytes(lib, s) + (SignersBytes(lib, signers) + rest) == SignersBytes(lib, [s] + signers) + rest
  {
    hide *;
    var all := [s] + signers;
    assert all[0] == s && all[1..] == signers;
    FrontAll(lib, s, signers);
    SignersFront(lib, all);
    Reassociate(SignerBytes(lib, s), SignersBytes(lib, signers), rest);
  }

  lemma Reassociate(a: seq<byte>, b: seq<byte>, c: seq<byte>)
    ensures a + (b + c) == (a + b) + c
  {
  }

  lemma FrontAll(lib: Services, s: Signer, signers: seq<Signer>)
    requires IsSigner(s) && Persistable(lib, s) && AreSigners(signers) && AllPersistable(lib, signers)
    ensures AreSigners([s] + signers) && AllPersistable(lib, [s] + signers)
  {
    hide IsSigner, Persistable;
    var all := [s] + signers;
    forall i | 0 <= i < |all| ensures IsSigner(all[i]) && Persistable(lib, all[i]) {
      if i > 0 { assert all[i] == signers[i - 1]; }
    }
  }

  /** The flag in the third byte, of which only one bit is looked at, as it would be written. */
  function Flagged(b: seq<byte>): (r: seq<byte>)
    requires |b| > 2
  {
    if b[0] == 0 then b else b[2 := if b[2] == 0 then 0 else 1]
  }

  lemma HeadOnly(b: seq<byte>)
    requires |b| >= MIN_MULTISIG_BYTES_LEN - HMAC_SHA256_LEN && b[0] <= 3 && ReadHead(b).Some?
    ensures var (variant, sorted, threshold, key, rest) := ReadHead(b).value;
            (|key| == 0 || |key| == MULTISIG_MASTER_BLINDING_KEY_SIZE) &&
            Flagged(b) == HeadBytes(b[0], variant, sorted, threshold, key) + rest
  {
    var (variant, sorted, threshold, key, rest) := ReadHead(b).value;
    var h := HeadBytes(b[0], variant, sorted, threshold, key) + rest;
    assert |h| == |b|;
    forall i | 0 <= i < |b| ensures Flagged(b)[i] == h[i] {
    }
  }

  /**
    Nothing else is read but what is written: a record of version 3 that is taken is, but for how its
    flag says yes, the one that would be written for the signers it reads as.
   */
  lemma OnlyWritten(lib: Services, bytes: seq<byte>, details_len: nat)
    requires Strings58(lib) && |bytes| >= MIN_MULTISIG_BYTES_LEN && bytes[0] == 3 && details_len >= MAX_ALLOWED_SIGNERS
    requires ReadRecord(lib, bytes, details_len).Some?
    ensures var (data, signers, n) := ReadRecord(lib, bytes, details_len).value;
            0 < n == |signers| <= MAX_ALLOWED_SIGNERS && AreSigners(signers) && AllPersistable(lib, signers) &&
            |data.master_blinding_key| <= MULTISIG_MASTER_BLINDING_KEY_SIZE && |data.xpubs| == n &&
            Flagged(bytes[..|bytes| - HMAC_SHA256_LEN]) ==
              Body(lib, data.variant, data.sorted, data.threshold, data.master_blinding_key, signers)
  {
    var b := bytes[..|bytes| - HMAC_SHA256_LEN];
    HeadOnly(b);
    var (variant, sorted, threshold, key, rest) := ReadHead(b).value;
    hide ReadHead, ReadSigners, HeadBytes, AreSigners, AllPersistable, Strings58, SignersBytes, Flagged;
    SignersOnly(lib, rest[1..], rest[0] as nat, 0, details_len);
    var (keys, signers, end) := ReadSigners(lib, rest[1..], rest[0] as nat, 0, details_len).value;
    assert end == [] && SignersBytes(lib, signers) + [] == SignersBytes(lib, signers);
    assert rest == [rest[0]] + rest[1..];
    BodyIs(lib, variant, sorted, threshold, key, signers);
  }

  lemma {:induction false} JoinedOnly(b: seq<byte>)
    requires |b| % BIP32_SERIALIZED_LEN == 0
    ensures Joined(Split(b)) == b && |Split(b)| * BIP32_SERIALIZED_LEN == |b|
    ensures forall i :: 0 <= i < |Split(b)| ==> |Split(b)[i]| == BIP32_SERIALIZED_LEN
  {
    if b != [] {
      JoinedOnly(b[BIP32_SERIALIZED_LEN..]);
      assert b == b[..BIP32_SERIALIZED_LEN] + b[BIP32_SERIALIZED_LEN..];
    }
  }

  /** And so it is with the versions before that. */
  lemma OnlyOldWritten(lib: Services, bytes: seq<byte>, details_len: nat)
    requires |bytes| >= MIN_MULTISIG_BYTES_LEN && bytes[0] < 3
    requires ReadRecord(lib, bytes, details_len).Some?
    ensures var (data, signers, n) := ReadRecord(lib, bytes, details_len).value;
            signers == [] && n == 0 && 0 < |data.xpubs| <= MAX_ALLOWED_SIGNERS &&
            |data.master_blinding_key| <= MULTISIG_MASTER_BLINDING_KEY_SIZE &&
            Flagged(bytes[..|bytes| - HMAC_SHA256_LEN]) ==
              HeadBytes(bytes[0], data.variant, data.sorted, data.threshold, data.master_blinding_key) +
                Joined(data.xpubs)
  {
    var b := bytes[..|bytes| - HMAC_SHA256_LEN];
    HeadOnly(b);
    var (variant, sorted, threshold, key, rest) := ReadHead(b).value;
    hide ReadHead, HeadBytes, Flagged, Joined, Split;
    JoinedOnly(rest);
  }

  /** What a record looks like in flash. */
  lemma Layout(lib: Services, variant: byte, sorted: bool, threshold: byte, key: seq<byte>, s: Signer)
    requires IsSigner(s) && Persistable(lib, s) && |key| == MULTISIG_MASTER_BLINDING_KEY_SIZE
    requires AreSigners([s]) && AllPersistable(lib, [s]) && s.derivation == [0x01020304] && s.path == []
    ensures Body(lib, variant, sorted, threshold, key, [s]) ==
              [3, variant, if sorted then 1 else 0, threshold, 32] + key + [1] + s.fingerprint + [1, 4, 3, 2, 1] +
                lib.from_base58(s.xpub).value + [0]
  {
    var signers := [s];
    assert signers[..0] == [] && SignersBytes(lib, []) == [];
    assert SignersBytes(lib, signers) == SignerBytes(lib, s);
    assert Le4s([]) == [];
    assert Le4s(s.derivation) == Le4(0x01020304) + Le4s(s.derivation[1..]);
    assert s.derivation[1..] == [];
    assert Le4(0x01020304) == [4, 3, 2, 1];
    hide SignersBytes, Le4s, Le4;
  }

  // ------------------------------------------------------------------------------ registrations

  const MAX_PATH_LEN_BOTH: nat := 2 * MAX_PATH_LEN

  /** Room for the largest record. */
  const MAX_MULTISIG_BYTES_LEN: nat :=
    MultisigBytesLen(MULTISIG_MASTER_BLINDING_KEY_SIZE, MAX_ALLOWED_SIGNERS, MAX_ALLOWED_SIGNERS * MAX_PATH_LEN_BOTH)

  const MULTI_P2WSH: byte := 4
  const MULTI_P2SH: byte := 5
  const MULTI_P2WSH_P2SH: byte := 6

  /** Kinds of script, as far as they are told apart here. */
  datatype ScriptType = P2SH | P2WSH | OtherType

  /** What is kept in flash by name. */
  type Registrations = map<string, seq<byte>>

  predicate AreRegistrations(regs: Registrations)
  {
    forall name :: name in regs ==> |regs[name]| >= MIN_MULTISIG_BYTES_LEN
  }

  predicate IsMultisig(variant: byte)
  {
    variant == MULTI_P2SH || variant == MULTI_P2WSH || variant == MULTI_P2WSH_P2SH
  }

  predicate IsSane(d: MultisigData)
  {
    IsMultisig(d.variant) && 0 < d.threshold as nat <= |d.xpubs| <= MAX_ALLOWED_SIGNERS &&
    (d.master_blinding_key == [] || |d.master_blinding_key| == MULTISIG_MASTER_BLINDING_KEY_SIZE)
  }

  /** The record of this name, and whether there is a complaint about it; it is loaded all the same. */
  function LoadFromStorage(lib: Services, regs: Registrations, name: string): (r: Option<(MultisigData, bool)>)
    requires AreRegistrations(regs)
  {
    if name !in regs || |regs[name]| > MAX_MULTISIG_BYTES_LEN then None
    else
      match ReadRecord(lib, regs[name], 0)
      case None => None
      case Some((data, _, _)) => Some((data, !IsSane(data)))
  }

  /** A script variant is of this type, if one is asked for. */
  predicate VariantMatches(variant: byte, script_type: Option<ScriptType>)
  {
    script_type.None? || (script_type.value.P2WSH? && variant == MULTI_P2WSH) ||
    (script_type.value.P2SH? && (variant == MULTI_P2SH || variant == MULTI_P2WSH_P2SH))
  }

  /** Every variant of a multisig is of one type or the other, and nothing else is of either. */
  lemma OneTypeEach(variant: byte)
    ensures IsMultisig(variant) <==>
              VariantMatches(variant, Some(P2SH)) != VariantMatches(variant, Some(P2WSH))
    ensures !IsMultisig(variant) ==> !VariantMatches(variant, Some(P2SH)) && !VariantMatches(variant, Some(P2WSH))
  {
  }

  predicate IsListed(lib: Services, regs: Registrations, script_type: Option<ScriptType>, name: string)
    requires AreRegistrations(regs)
  {
    var loaded := LoadFromStorage(lib, regs, name);
    loaded.Some? && VariantMatches(loaded.value.0.variant, script_type)
  }

  /** The names that are kept, in order. */
  function Kept(lib: Services, regs: Registrations, script_type: Option<ScriptType>,
                names: seq<string>): (r: seq<string>)
    requires AreRegistrations(regs)
  {
    if names == [] then []
    else
      var name := names[|names| - 1];
      Kept(lib, regs, script_type, names[..|names| - 1]) + if IsListed(lib, regs, script_type, name) then [name] else []
  }

  /** None is lost that is listed, none is kept that is not, and none comes to be there twice. */
  lemma {:induction false} KeptAre(lib: Services, regs: Registrations, script_type: Option<ScriptType>,
                                   names: seq<string>, name: string)
    requires AreRegistrations(regs)
    ensures multiset(Kept(lib, regs, script_type, names))[name] ==
            if IsListed(lib, regs, script_type, name) then multiset(names)[name] else 0
  {
    hide *;
    if names == [] {
      KeptNone(lib, regs, script_type);
    } else {
      var init, last := names[..|names| - 1], names[|names| - 1];
      KeptAre(lib, regs, script_type, init, name);
      KeptLast(lib, regs, script_type, names);
      assert names == init + [last];
      Counts(init, [last], name);
      Counts(Kept(lib, regs, script_type, init), if IsListed(lib, regs, script_type, last) then [last] else [], name);
    }
  }

  lemma KeptNone(lib: Services, regs: Registrations, script_type: Option<ScriptType>)
    requires AreRegistrations(regs)
    ensures Kept(lib, regs, script_type, []) == []
  {
  }

  lemma KeptLast(lib: Services, regs: Registrations, script_type: Option<ScriptType>, names: seq<string>)
    requires AreRegistrations(regs) && names != []
    ensures var m := |names| - 1;
            Kept(lib, regs, script_type, names) ==
              Kept(lib, regs, script_type, names[..m]) +
                if IsListed(lib, regs, script_type, names[m]) then [names[m]] else []
  {
    hide IsListed, AreRegistrations;
  }

  lemma Counts(a: seq<string>, b: seq<string>, name: string)
    ensures multiset(a + b)[name] == multiset(a)[name] + multiset(b)[name]
    ensures |b| == 1 ==> multiset(b)[name] == if b[0] == name then 1 else 0
  {
    if |b| == 1 { assert b == [b[0]]; }
  }

  /** A record that was written is listed for the type of its variant, under the name it is kept at. */
  lemma WrittenIsListed(lib: Services, regs: Registrations, name: string, script_type: Option<ScriptType>,
                        variant: byte, sorted: bool, threshold: byte, key: seq<byte>, signers: seq<Signer>)
    requires Lawful58(lib) && AreSigners(signers) && AllPersistable(lib, signers)
    requires 0 < threshold as nat <= |signers| <= MAX_ALLOWED_SIGNERS
    requires forall i :: 0 <= i < |signers| ==> !HasNoKey(lib, signers[i])
    requires |key| == 0 || |key| == MULTISIG_MASTER_BLINDING_KEY_SIZE
    requires var body := Body(lib, variant, sorted, threshold, key, signers);
             lib.hmac(body).Some? && |lib.hmac(body).value| == HMAC_SHA256_LEN
    requires AreRegistrations(regs) && name in regs
    requires regs[name] == Sealed(lib, Body(lib, variant, sorted, threshold, key, signers))
    ensures IsListed(lib, regs, script_type, name) <==> VariantMatches(variant, script_type)
    ensures var loaded := LoadFromStorage(lib, regs, name);
            loaded.Some? && AreKeysOf(lib, signers, loaded.value.0.xpubs) &&
            loaded == Some((MultisigData(variant, sorted, threshold, key, loaded.value.0.xpubs), !IsMultisig(variant)))
  {
    hide *;
    RecordBack(lib, variant, sorted, threshold, key, signers, 0);
    var d := ReadRecord(lib, regs[name], 0).value.0;
    KeysCount(lib, signers, d.xpubs);
    SaneIs(d, |signers|);
    ShortEnough();
    RecordFits(lib, variant, sorted, threshold, key, signers);
    LoadsAs(lib, regs, name, script_type, d);
  }

  lemma KeysCount(lib: Services, signers: seq<Signer>, keys: seq<seq<byte>>)
    requires AllPersistable(lib, signers) && AreKeysOf(lib, signers, keys)
    ensures |keys| == |signers|
  {
    hide IsKeyOf;
  }

  lemma ShortEnough()
    ensures MAX_ALLOWED_SIGNERS == 15 && MULTISIG_MASTER_BLINDING_KEY_SIZE == 32
  {
  }

  lemma SaneIs(d: MultisigData, n: nat)
    requires 0 < d.threshold as nat <= n <= MAX_ALLOWED_SIGNERS && |d.xpubs| == n
    requires |d.master_blinding_key| == 0 || |d.master_blinding_key| == MULTISIG_MASTER_BLINDING_KEY_SIZE
    ensures IsSane(d) <==> IsMultisig(d.variant)
  {
  }

  lemma LoadsAs(lib: Services, regs: Registrations, name: string, script_type: Option<ScriptType>, d: MultisigData)
    requires AreRegistrations(regs) && name in regs
    requires MIN_MULTISIG_BYTES_LEN <= |regs[name]| <= MAX_MULTISIG_BYTES_LEN
    requires ReadRecord(lib, regs[name], 0).Some? && ReadRecord(lib, regs[name], 0).value.0 == d
    ensures LoadFromStorage(lib, regs, name) == Some((d, !IsSane(d)))
    ensures IsListed(lib, regs, script_type, name) <==> VariantMatches(d.variant, script_type)
  {
    hide ReadRecord, IsSane, VariantMatches;
  }

  /** No record that is written is too long to be loaded. */
  lemma RecordFits(lib: Services, variant: byte, sorted: bool, threshold: byte, key: seq<byte>, signers: seq<Signer>)
    requires AreSigners(signers) && AllPersistable(lib, signers) && |signers| <= MAX_ALLOWED_SIGNERS
    requires |key| <= MULTISIG_MASTER_BLINDING_KEY_SIZE
    requires var body := Body(lib, variant, sorted, threshold, key, signers);
             lib.hmac(body).Some? && |lib.hmac(body).value| == HMAC_SHA256_LEN
    ensures |Sealed(lib, Body(lib, variant, sorted, threshold, key, signers))| <= MAX_MULTISIG_BYTES_LEN
  {
    PathsFit(lib, signers);
    hide PathElements, Body, AreSigners, AllPersistable;
  }

  lemma {:induction false} PathsFit(lib: Services, signers: seq<Signer>)
    requires AreSigners(signers) && AllPersistable(lib, signers)
    ensures PathElements(signers) <= |signers| * MAX_PATH_LEN_BOTH
  {
    if signers != [] {
      var init, last := signers[..|signers| - 1], signers[|signers| - 1];
      assert IsSigner(last) && Persistable(lib, last);
      PathsFit(lib, init);
      hide IsSigner, Persistable;
    }
  }

  /** Moves the names of the records that load and are of the type asked for down over those of the others. */
  method GetValidRecordNames(lib: Services, regs: Registrations, script_type: Option<ScriptType>, names: array<string>,
                             num_multisigs: nat)
    returns (num_written: nat)
    requires AreRegistrations(regs) && num_multisigs <= names.Length
    modifies names
    ensures num_written <= num_multisigs
    ensures names[..num_written] == Kept(lib, regs, script_type, old(names[..num_multisigs]))
  {
    hide IsListed, AreRegistrations, LoadFromStorage, VariantMatches;
    ghost var n0 := names[..num_multisigs];
    num_written := 0;
    var i := 0;
    while i < num_multisigs
      invariant 0 <= num_written <= i <= num_multisigs && forall k :: i <= k < num_multisigs ==> names[k] == n0[k]
      invariant names[..num_written] == Kept(lib, regs, script_type, n0[..i])
    {
      assert n0[..i + 1][..i] == n0[..i];
      var loaded := LoadFromStorage(lib, regs, names[i]);
      ListedIs(lib, regs, script_type, names[i]);
      if loaded.Some? && VariantMatches(loaded.value.0.variant, script_type) {
        ghost var kept := names[..num_written];
        if num_written != i {
          names[num_written] := names[i];
        }
        assert names[..num_written + 1] == kept + [n0[i]];
        num_written := num_written + 1;
      }
      i := i + 1;
    }
    assert n0[..num_multisigs] == n0;
  }

  lemma ListedIs(lib: Services, regs: Registrations, script_type: Option<ScriptType>, name: string)
    requires AreRegistrations(regs)
    ensures var loaded := LoadFromStorage(lib, regs, name);
            IsListed(lib, regs, script_type, name) <==>
              loaded.Some? && VariantMatches(loaded.value.0.variant, script_type)
  {
    hide LoadFromStorage, VariantMatches;
  }
}
