/**
  What the keychain keeps in flash: secrets, serialized, encrypted and authenticated.
 */
module Vault {
  import opened Wrappers
  import opened Bits

  const AES_BLOCK_LEN: nat := 16
  const AES_KEY_LEN_256: nat := 32
  const HMAC_SHA256_LEN: nat := 32
  const HMAC_SHA512_LEN: nat := 64
  const BIP32_SERIALIZED_LEN: nat := 78
  const BIP39_ENTROPY_LEN_128: nat := 16
  const BIP39_ENTROPY_LEN_256: nat := 32
  const GASERVICE_PATH_LEN: nat := 32
  const SERIALIZED_KEY_LEN: nat := BIP32_SERIALIZED_LEN + HMAC_SHA512_LEN + HMAC_SHA512_LEN

  /** Exact multiples are rounded up to the next multiple. */
  function AesPaddedLen(len: nat): (r: nat)
    ensures len < r <= len + AES_BLOCK_LEN
  {
    (len / AES_BLOCK_LEN + 1) * AES_BLOCK_LEN
  }

  function EncryptedDataLen(len: nat): (r: nat)
  {
    AES_BLOCK_LEN + AesPaddedLen(len) + HMAC_SHA256_LEN
  }

  /** What a BIP32 serialization holds. */
  datatype ExtKey = ExtKey(version: nat, depth: byte, fingerprint: seq<byte>, child_num: nat, chain_code: seq<byte>,
                           priv_key: seq<byte>)

  /** The fields have the widths of the serialization format of BIP32. */
  predicate IsKey(x: ExtKey)
  {
    x.version < 0x1_0000_0000 && x.child_num < 0x1_0000_0000 && |x.fingerprint| == 4 && |x.chain_code| == 32 &&
    |x.priv_key| == 32
  }

  /** The service path: as many unhardened path elements as fit, of 16 bits each. */
  predicate IsPath(p: seq<nat>)
  {
    |p| == GASERVICE_PATH_LEN && forall i :: 0 <= i < |p| ==> p[i] < 65536
  }

  datatype KeyData = KeyData(xpriv: ExtKey, gaservice_path: seq<nat>, master_unblinding_key: seq<byte>, seed: seq<byte>)

  predicate IsKeyData(k: KeyData)
  {
    IsKey(k.xpriv) && IsPath(k.gaservice_path) && |k.master_unblinding_key| == HMAC_SHA512_LEN
  }

  /** The cryptography the keychain relies on, and the serialization of keys. */
  datatype Library = Library(
    encrypt: (seq<byte>, seq<byte>, seq<byte>) -> seq<byte>,
    decrypt: (seq<byte>, seq<byte>, seq<byte>) -> Option<seq<byte>>,
    hmac: (seq<byte>, seq<byte>) -> seq<byte>,
    key_bytes: ExtKey -> seq<byte>,
    bytes_key: seq<byte> -> Option<ExtKey>)

  /** What is assumed of them: sizes, and that each undoes the other. */
  ghost predicate Lawful(c: Library)
  {
    (forall k, iv, p :: |c.encrypt(k, iv, p)| == AesPaddedLen(|p|)) &&
    (forall k, iv, p :: c.decrypt(k, iv, c.encrypt(k, iv, p)) == Some(p)) &&
    (forall k, m :: |c.hmac(k, m)| == HMAC_SHA256_LEN) &&
    (forall x :: IsKey(x) ==> |c.key_bytes(x)| == BIP32_SERIALIZED_LEN && c.bytes_key(c.key_bytes(x)) == Some(x)) &&
    (forall b :: c.bytes_key(b).Some? ==> IsKey(c.bytes_key(b).value))
  }

  /** No two keys give a message the same HMAC. */
  ghost predicate TellsKeys(c: Library)
  {
    forall k, k', m :: |k| == AES_KEY_LEN_256 && |k'| == AES_KEY_LEN_256 && c.hmac(k, m) == c.hmac(k', m) ==> k == k'
  }

  /** The iv, the encrypted bytes, and the HMAC of both. */
  function Seal(c: Library, key: seq<byte>, iv: seq<byte>, payload: seq<byte>): (r: seq<byte>)
  {
    var body := iv + c.encrypt(key, iv, payload);
    body + c.hmac(key, body)
  }

  /** The HMAC at the end is checked before anything is decrypted; the output must fit. */
  function Open(c: Library, key: seq<byte>, blob: seq<byte>, output_len: nat): (r: Option<seq<byte>>)
    requires |blob| >= HMAC_SHA256_LEN + AES_BLOCK_LEN
    ensures r.Some? ==> |r.value| <= output_len && c.hmac(key, blob[..|blob| - 32]) == blob[|blob| - 32..]
    ensures r.Some? ==> c.decrypt(key, blob[..16], blob[16..|blob| - 32]) == r
  {
    var n := |blob| - HMAC_SHA256_LEN;
    if c.hmac(key, blob[..n]) != blob[n..] then None
    else
      match c.decrypt(key, blob[..AES_BLOCK_LEN], blob[AES_BLOCK_LEN..n])
      case None => None
      case Some(p) => if |p| > output_len then None else Some(p)
  }

  /** The key it was sealed with opens a blob, whatever the iv. */
  lemma OpenSeal(c: Library, key: seq<byte>, iv: seq<byte>, payload: seq<byte>, output_len: nat)
    requires Lawful(c) && |iv| == AES_BLOCK_LEN && |payload| <= output_len
    ensures |Seal(c, key, iv, payload)| == EncryptedDataLen(|payload|)
    ensures |Seal(c, key, iv, payload)| >= HMAC_SHA256_LEN + AES_BLOCK_LEN
    ensures Open(c, key, Seal(c, key, iv, payload), output_len) == Some(payload)
  {
    var e := c.encrypt(key, iv, payload);
    var body := iv + e;
    var blob := Seal(c, key, iv, payload);
    assert |e| == AesPaddedLen(|payload|) && |c.hmac(key, body)| == HMAC_SHA256_LEN;
    assert blob[..|body|] == body && blob[|body|..] == c.hmac(key, body);
    assert blob[..AES_BLOCK_LEN] == iv && blob[AES_BLOCK_LEN..|body|] == e;
  }

  /** Byte by byte, a sealed blob is the iv, what was encrypted with it, and the HMAC of both. */
  lemma SealLayout(c: Library, key: seq<byte>, iv: seq<byte>, payload: seq<byte>)
    requires Lawful(c) && |iv| == AES_BLOCK_LEN
    ensures var blob := Seal(c, key, iv, payload);
            |blob| >= 48 && blob[..16] == iv && blob[16..|blob| - 32] == c.encrypt(key, iv, payload) &&
            blob[|blob| - 32..] == c.hmac(key, blob[..|blob| - 32])
  {
    var body := iv + c.encrypt(key, iv, payload);
    var blob := Seal(c, key, iv, payload);
    assert |c.encrypt(key, iv, payload)| == AesPaddedLen(|payload|) && |c.hmac(key, body)| == HMAC_SHA256_LEN;
    assert blob[..|body|] == body && blob[|body|..] == c.hmac(key, body);
  }

  /** If the HMAC tells keys apart, no other key opens a blob. */
  lemma OnlyRightKeyOpens(c: Library, key: seq<byte>, blob: seq<byte>, s: Sealed, output_len: nat)
    requires Lawful(c) && TellsKeys(c) && IsSeal(c, blob, s) && |blob| >= HMAC_SHA256_LEN + AES_BLOCK_LEN
    requires |key| == AES_KEY_LEN_256 && |s.key| == AES_KEY_LEN_256 && SERIALIZED_KEY_LEN <= output_len
    ensures Open(c, key, blob, output_len) == if key == s.key then Some(s.payload) else None
  {
    OpenSeal(c, s.key, s.iv, s.payload, output_len);
    var body := s.iv + c.encrypt(s.key, s.iv, s.payload);
    assert blob[..|blob| - HMAC_SHA256_LEN] == body && blob[|blob| - HMAC_SHA256_LEN..] == c.hmac(s.key, body);
  }

  /** What a blob in flash was made from. */
  datatype Sealed = Sealed(key: seq<byte>, iv: seq<byte>, payload: seq<byte>)

  ghost predicate IsSeal(c: Library, blob: seq<byte>, s: Sealed)
  {
    |s.iv| == AES_BLOCK_LEN && 0 < |s.payload| <= SERIALIZED_KEY_LEN && blob == Seal(c, s.key, s.iv, s.payload)
  }

  lemma LengthsFit()
    ensures EncryptedDataLen(BIP39_ENTROPY_LEN_128) == 80 && EncryptedDataLen(BIP39_ENTROPY_LEN_256) == 96
    ensures EncryptedDataLen(SERIALIZED_KEY_LEN) == 256 && AesPaddedLen(SERIALIZED_KEY_LEN) == 208
  {
  }

  lemma LongerPayload(a: nat, b: nat)
    requires a <= b
    ensures EncryptedDataLen(a) <= EncryptedDataLen(b)
  {
  }

  /** A blob fits where it is read to, and its key opens it. */
  lemma OpensToPayload(c: Library, blob: seq<byte>, s: Sealed)
    requires Lawful(c) && IsSeal(c, blob, s)
    ensures HMAC_SHA256_LEN + AES_BLOCK_LEN <= |blob| <= EncryptedDataLen(SERIALIZED_KEY_LEN)
    ensures Open(c, s.key, blob, AesPaddedLen(SERIALIZED_KEY_LEN)) == Some(s.payload)
  {
    OpenSeal(c, s.key, s.iv, s.payload, AesPaddedLen(SERIALIZED_KEY_LEN));
    LengthsFit();
    LongerPayload(|s.payload|, SERIALIZED_KEY_LEN);
    hide Seal, Open;
  }

  // ------------------------------------------------------------------------------ serialization

  /** Two bytes for each path element, the high one first. */
  function PathBytes(p: seq<nat>): (r: seq<byte>)
    requires forall i :: 0 <= i < |p| ==> p[i] < 65536
    ensures |r| == 2 * |p|
  {
    if p == [] then [] else [p[0] / 256, p[0] % 256] + PathBytes(p[1..])
  }

  function BytesPath(b: seq<byte>): (r: seq<nat>)
    requires |b| % 2 == 0
    ensures |r| == |b| / 2 && forall i :: 0 <= i < |r| ==> r[i] < 65536
  {
    if b == [] then [] else [b[0] as nat * 256 + b[1] as nat] + BytesPath(b[2..])
  }

  lemma {:induction false} PathBack(p: seq<nat>)
    requires forall i :: 0 <= i < |p| ==> p[i] < 65536
    ensures BytesPath(PathBytes(p)) == p
  {
    if p != [] {
      PathBack(p[1..]);
      assert PathBytes(p)[2..] == PathBytes(p[1..]);
    }
  }

  /** What is kept of the keys in flash: everything but the seed. */
  function Serialize(c: Library, keys: KeyData): (r: seq<byte>)
    requires IsKeyData(keys)
  {
    c.key_bytes(keys.xpriv) + PathBytes(keys.gaservice_path) + keys.master_unblinding_key
  }

  lemma {:induction false} PathAt(p: seq<nat>, i: nat)
    requires i < |p| && forall j :: 0 <= j < |p| ==> p[j] < 65536
    ensures PathBytes(p)[2 * i] == p[i] / 256 && PathBytes(p)[2 * i + 1] == p[i] % 256
  {
    if i > 0 {
      PathAt(p[1..], i - 1);
      assert PathBytes(p) == [p[0] / 256, p[0] % 256] + PathBytes(p[1..]);
    }
  }

  /** The serialized key, then the path in big-endian numbers of two bytes, then the unblinding key. */
  lemma SerializedLayout(c: Library, k: KeyData, i: nat)
    requires Lawful(c) && IsKeyData(k) && i < 32
    ensures var b := Serialize(c, k);
            |b| == 206 && b[..78] == c.key_bytes(k.xpriv) && b[142..] == k.master_unblinding_key &&
            b[78 + 2 * i] as nat * 256 + b[79 + 2 * i] as nat == k.gaservice_path[i]
  {
    PathAt(k.gaservice_path, i);
    hide PathBytes;
    var a, b := c.key_bytes(k.xpriv), PathBytes(k.gaservice_path);
    assert |a| == 78 && |b| == 64;
    var all := a + b + k.master_unblinding_key;
    assert all[78 + 2 * i] == b[2 * i] && all[79 + 2 * i] == b[2 * i + 1];
  }

  /** None where the library does not take the key. */
  function Unserialize(c: Library, bytes: seq<byte>): (r: Option<KeyData>)
    requires |bytes| == SERIALIZED_KEY_LEN
  {
    match c.bytes_key(bytes[..BIP32_SERIALIZED_LEN])
    case None => None
    case Some(x) => Some(KeyData(x, BytesPath(bytes[BIP32_SERIALIZED_LEN..BIP32_SERIALIZED_LEN + HMAC_SHA512_LEN]),
                                 bytes[BIP32_SERIALIZED_LEN + HMAC_SHA512_LEN..], []))
  }

  lemma UnserializedOk(c: Library, bytes: seq<byte>)
    requires Lawful(c) && |bytes| == SERIALIZED_KEY_LEN && Unserialize(c, bytes).Some?
    ensures IsKeyData(Unserialize(c, bytes).value)
  {
    hide IsKey;
  }

  lemma SerializeBack(c: Library, k: KeyData)
    requires Lawful(c) && IsKeyData(k)
    ensures |Serialize(c, k)| == SERIALIZED_KEY_LEN && Unserialize(c, Serialize(c, k)) == Some(k.(seed := []))
  {
    PathBack(k.gaservice_path);
    var a, b, d := c.key_bytes(k.xpriv), PathBytes(k.gaservice_path), k.master_unblinding_key;
    hide PathBytes, BytesPath;
    assert |a| == BIP32_SERIALIZED_LEN && |b| == HMAC_SHA512_LEN;
    var bytes := a + b + d;
    assert bytes[..BIP32_SERIALIZED_LEN] == a;
    assert bytes[BIP32_SERIALIZED_LEN..BIP32_SERIALIZED_LEN + HMAC_SHA512_LEN] == b;
    assert bytes[BIP32_SERIALIZED_LEN + HMAC_SHA512_LEN..] == d;
  }

  /** The secrets in memory. */
  datatype Secrets = Secrets(keys: Option<KeyData>, entropy: seq<byte>)

  const NOTHING: Secrets := Secrets(None, [])

  predicate WellFormed(s: Secrets)
  {
    (|s.entropy| == 0 || IsEntropy(s.entropy)) && (s.keys.Some? ==> IsKeyData(s.keys.value))
  }

  /** Only mnemonics of 12 or 24 words are supported. */
  predicate IsEntropy(e: seq<byte>)
  {
    |e| == BIP39_ENTROPY_LEN_128 || |e| == BIP39_ENTROPY_LEN_256
  }

  /** What a store puts in flash: the entropy if there is any, otherwise the keys. */
  function Payload(c: Library, s: Secrets): (r: seq<byte>)
    requires s != NOTHING && WellFormed(s)
  {
    if s.entropy != [] then s.entropy else Serialize(c, s.keys.value)
  }

  /** What a load makes of it, going by its length alone. */
  function Loaded(c: Library, payload: seq<byte>): (r: Option<Secrets>)
  {
    if IsEntropy(payload) then Some(Secrets(None, payload))
    else if |payload| != SERIALIZED_KEY_LEN then None
    else
      match Unserialize(c, payload)
      case None => None
      case Some(k) => Some(Secrets(Some(k), []))
  }

  /** What can be had back of secrets: the entropy alone, or the keys without the seed. */
  function Kept(s: Secrets): (r: Secrets)
  {
    if s.entropy != [] then Secrets(None, s.entropy)
    else if s.keys.Some? then Secrets(Some(s.keys.value.(seed := [])), [])
    else NOTHING
  }

  /** A load gives back what a store kept: one kind of secret, never both. */
  lemma LoadStored(c: Library, s: Secrets)
    requires Lawful(c) && WellFormed(s) && s != NOTHING
    ensures Loaded(c, Payload(c, s)) == Some(Kept(s))
    ensures Kept(s).keys.Some? != (Kept(s).entropy != [])
    ensures 0 < |Payload(c, s)| <= SERIALIZED_KEY_LEN
  {
    if s.entropy == [] { SerializeBack(c, s.keys.value); }
    hide Serialize, Unserialize, IsKeyData;
  }

  lemma LoadedOk(c: Library, payload: seq<byte>)
    requires Lawful(c) && Loaded(c, payload).Some?
    ensures WellFormed(Loaded(c, payload).value)
    ensures Loaded(c, payload).value.keys.Some? != (Loaded(c, payload).value.entropy != [])
  {
    if |payload| == SERIALIZED_KEY_LEN && Unserialize(c, payload).Some? { UnserializedOk(c, payload); }
    hide Unserialize, IsKeyData;
  }

  // ------------------------------------------------------------------------------ there is such a library

  /** Four bytes, the high one first. */
  function Big4(n: nat): (r: seq<byte>)
    requires n < 0x1_0000_0000
    ensures |r| == 4
  {
    [n / 0x100_0000, n / 0x1_0000 % 256, n / 0x100 % 256, n % 256]
  }

  function FromBig4(b: seq<byte>): (r: nat)
    requires |b| == 4
    ensures r < 0x1_0000_0000
  {
    b[0] as nat * 0x100_0000 + b[1] as nat * 0x1_0000 + b[2] as nat * 0x100 + b[3] as nat
  }

  lemma Big4Back(n: nat)
    requires n < 0x1_0000_0000
    ensures FromBig4(Big4(n)) == n
  {
    var a, b, c := n / 0x100, n / 0x1_0000, n / 0x100_0000;
    assert b == a / 256 && c == b / 256;
  }

  function Zeros(n: nat): (r: seq<byte>)
    ensures |r| == n
  {
    seq(n, _ => 0)
  }

  /** The serialization format of BIP32. */
  function KeyBytes(x: ExtKey): (r: seq<byte>)
    ensures |r| == BIP32_SERIALIZED_LEN
  {
    if IsKey(x) then Big4(x.version) + [x.depth] + x.fingerprint + Big4(x.child_num) + x.chain_code + [0] + x.priv_key
    else Zeros(BIP32_SERIALIZED_LEN)
  }

  function BytesKey(b: seq<byte>): (r: Option<ExtKey>)
    ensures r.Some? ==> IsKey(r.value)
  {
    if |b| != BIP32_SERIALIZED_LEN then None
    else Some(ExtKey(FromBig4(b[..4]), b[4], b[5..9], FromBig4(b[9..13]), b[13..45], b[46..]))
  }

  lemma KeyBack(x: ExtKey)
    requires IsKey(x)
    ensures BytesKey(KeyBytes(x)) == Some(x)
  {
    Big4Back(x.version);
    Big4Back(x.child_num);
    var b := KeyBytes(x);
    hide Big4, FromBig4;
    assert b[..4] == Big4(x.version) && b[4] == x.depth && b[5..9] == x.fingerprint && b[9..13] == Big4(x.child_num);
    assert b[13..45] == x.chain_code && b[46..] == x.priv_key;
  }

  /** The padding of PKCS #7. */
  function Pad(p: seq<byte>): (r: seq<byte>)
    ensures |r| == AesPaddedLen(|p|)
  {
    var n := AesPaddedLen(|p|) - |p|;
    p + seq(n, _ => n)
  }

  function Unpad(e: seq<byte>): (r: Option<seq<byte>>)
  {
    if e == [] || e[|e| - 1] as nat > |e| then None else Some(e[..|e| - e[|e| - 1] as nat])
  }

  lemma PadBack(p: seq<byte>)
    ensures Unpad(Pad(p)) == Some(p)
  {
  }

  /** A library that hides nothing, but keeps the laws. */
  function Plain(): (r: Library)
  {
    Library((k, iv, p) => Pad(p), (k, iv, e) => Unpad(e), (k, m) => if |k| == HMAC_SHA256_LEN then k
            else Zeros(HMAC_SHA256_LEN), KeyBytes, BytesKey)
  }

  /** So the laws can be kept, all of them at once. */
  lemma PlainIsLawful()
    ensures Lawful(Plain()) && TellsKeys(Plain())
  {
    hide Pad, Unpad, KeyBytes, BytesKey, IsKey, AesPaddedLen;
    forall p: seq<byte> ensures Unpad(Pad(p)) == Some(p) { PadBack(p); }
    forall x | IsKey(x) ensures BytesKey(KeyBytes(x)) == Some(x) { KeyBack(x); }
  }
}
