/**
  The keychain of the device: keys or mnemonic entropy in memory, an encrypted blob in flash, and
  the counter of attempts left.
 */
module Keychain {
  import opened Wrappers
  import opened Bits
  import opened Vault
  import opened Attempts

  class Flash {
    var counter: Option<byte>
    var blob: Option<seq<byte>>
    var network_type: NetworkType
    var powered: bool
    /** What goes wrong with the next operations, as long as anything does. */
    var faults: seq<Fault>
    /** What the blob was made from, and what has happened so far. */
    ghost var sealed: Sealed
    ghost var trace: seq<Event>

    ghost function Now(): (r: Chip)
      reads this
    {
      Chip(counter, blob, network_type, powered, faults, sealed, trace)
    }

    constructor ()
      ensures Now() == Chip(None, None, Unrestricted, true, [], Sealed([], [], []), [])
    {
      counter, blob, network_type, powered, faults := None, None, Unrestricted, true, [];
      sealed, trace := Sealed([], [], []), [];
    }

    /** Whether an operation has its effect, and whether it goes through. */
    method Try() returns (done: bool, ok: bool)
      modifies this`powered, this`faults
      ensures (Now(), done, ok) == Attempt(old(Now()))
    {
      if !powered {
        return false, false;
      }
      if faults == [] {
        return true, true;
      }
      var fault := faults[0];
      faults := faults[1..];
      if fault == PowerLoss { powered := false; }
      done, ok := fault == Fine || fault == Late, fault == Fine;
    }

    method RestoreCounter() returns (ok: bool)
      modifies this`powered, this`faults, this`counter
      ensures (Now(), ok) == SetCounter(old(Now()), ATTEMPTS)
    {
      ok := StoreCounter(3);
    }

    method StoreCounter(n: byte) returns (ok: bool)
      modifies this`powered, this`faults, this`counter
      ensures (Now(), ok) == SetCounter(old(Now()), n)
    {
      var done;
      done, ok := Try();
      if done { counter := Some(n); }
    }

    method EraseEncryptedBlob()
      modifies this`powered, this`faults, this`counter, this`blob
      ensures Now() == EraseBlob(old(Now()))
    {
      var done, ok := Try();
      if done { counter := None; }
      done, ok := Try();
      if done { blob := None; }
    }

    method DecrementCounter() returns (ok: bool)
      modifies this`powered, this`faults, this`counter, this`blob
      ensures (Now(), ok) == Decrement(old(Now()))
    {
      var n := if counter.Some? then counter.value else 0;
      if n == 0 || n > 3 {
        EraseEncryptedBlob();
        return false;
      }
      ok := StoreCounter(n - 1);
      if !ok { EraseEncryptedBlob(); }
    }

    method SetEncryptedBlob(encrypted: seq<byte>, ghost s: Sealed) returns (ok: bool)
      modifies this`powered, this`faults, this`counter, this`blob, this`sealed, this`trace
      ensures (Now(), ok) == SetBlob(old(Now()), encrypted, s)
    {
      ok := RestoreCounter();
      if ok {
        var done;
        done, ok := Try();
        if done {
          blob := Some(encrypted);
          sealed, trace := s, trace + [Stored];
        }
      }
    }

    method GetEncryptedBlob(max_len: nat) returns (r: Option<seq<byte>>)
      modifies this`powered, this`faults
      ensures (Now(), r) == GetBlob(old(Now()), max_len)
    {
      var done, ok := Try();
      r := if ok && blob.Some? && |blob.value| <= max_len then blob else None;
    }
  }

  class Keychain {
    const lib: Library
    const flash: Flash
    var keychain_data: Option<KeyData>
    var mnemonic_entropy: seq<byte>
    var network_type_restriction: NetworkType
    var has_encrypted_blob: bool
    var keychain_temporary: bool

    ghost predicate Valid()
      reads this, flash
    {
      Lawful(lib) && WellFormed(Secrets(keychain_data, mnemonic_entropy)) && Holds(lib, flash.Now())
    }

    /** Flash and memory together. */
    ghost function Now(): (r: Device)
      reads this, flash
    {
      Device(flash.Now(),
             Memory(Secrets(keychain_data, mnemonic_entropy), network_type_restriction, has_encrypted_blob,
                    keychain_temporary))
    }

    /** A device with this flash is switched on. */
    constructor (library: Library, device: Flash)
      requires Lawful(library) && device.powered && Holds(library, device.Now())
      ensures lib == library && flash == device && Valid() && Now() == SwitchOn(device.Now())
    {
      lib, flash := library, device;
      keychain_data, mnemonic_entropy, keychain_temporary := None, [], false;
      network_type_restriction, has_encrypted_blob := device.network_type, device.counter.Some? &&
      device.counter.value > 0;
    }

    method InitCache()
      modifies this`network_type_restriction, this`has_encrypted_blob
      ensures network_type_restriction == flash.network_type
      ensures has_encrypted_blob == (flash.counter.Some? && flash.counter.value > 0)
    {
      network_type_restriction := flash.network_type;
      has_encrypted_blob := flash.counter.Some? && flash.counter.value > 0;
    }

    method Reboot()
      requires Valid()
      modifies this, flash`powered
      ensures Valid() && Now() == SwitchOn(old(flash.Now()))
    {
      flash.powered := true;
      keychain_data, mnemonic_entropy, keychain_temporary := None, [], false;
      InitCache();
    }

    method Clear()
      requires Valid()
      modifies this`keychain_data, this`mnemonic_entropy, this`keychain_temporary
      ensures Valid() && Now() == Attempts.Clear(old(Now()))
    {
      keychain_data, mnemonic_entropy, keychain_temporary := None, [], false;
    }

    /** Takes keys over into memory; None stands for those already there. */
    method Set(src: Option<KeyData>, temporary: bool)
      requires Valid() && (src.None? ==> keychain_data.Some?) && (src.Some? ==> IsKeyData(src.value))
      modifies this`keychain_data, this`mnemonic_entropy, this`keychain_temporary
      ensures Valid() && Now() == Attempts.Set(old(Now()), src, temporary)
    {
      if src.Some? {
        Clear();
        keychain_data := src;
      }
      mnemonic_entropy := [];
      keychain_temporary := temporary;
    }

    /** Keeps the entropy of a mnemonic while the passphrase is entered. */
    method CacheMnemonicEntropy(entropy: seq<byte>)
      requires Valid()
      modifies this`mnemonic_entropy, flash`powered
      ensures Valid() && Now() == CacheEntropy(old(Now()), entropy)
    {
      if keychain_temporary || mnemonic_entropy != [] ||
             (|entropy| != BIP39_ENTROPY_LEN_128 && |entropy| != BIP39_ENTROPY_LEN_256) {
        flash.powered := false;
      } else {
        mnemonic_entropy := entropy;
      }
    }

    method ClearNetworkTypeRestriction()
      modifies this`network_type_restriction, flash`network_type, flash`powered, flash`faults
      ensures Now() == ClearRestriction(old(Now()))
    {
      if !keychain_temporary {
        var done, ok := flash.Try();
        if done { flash.network_type := Unrestricted; }
      }
      network_type_restriction := Unrestricted;
    }

    method EraseEncrypted()
      requires Valid()
      modifies this`network_type_restriction, this`has_encrypted_blob
      modifies flash`powered, flash`faults, flash`counter, flash`blob, flash`network_type
      ensures Valid() && Now() == Attempts.EraseEncrypted(old(Now()))
    {
      hide IsSeal, Lawful, WellFormed;
      BlobErase(flash.Now());
      flash.EraseEncryptedBlob();
      ClearKeeps(Now());
      ClearNetworkTypeRestriction();
      has_encrypted_blob := false;
    }

    /** The check of a key against the blob, and what is made of the blob if the key is right. */
    method GetDecryptedPayload(aeskey: seq<byte>, encrypted: seq<byte>) returns (r: Option<seq<byte>>)
      requires |encrypted| >= HMAC_SHA256_LEN + AES_BLOCK_LEN
      modifies flash`trace
      ensures (flash.Now(), r) == Check(lib, old(flash.Now()), aeskey, encrypted)
    {
      r := Open(lib, aeskey, encrypted, AesPaddedLen(SERIALIZED_KEY_LEN));
      flash.trace := flash.trace + [if r.Some? then Right else Wrong];
    }

    /** Spends an attempt, then checks the key. */
    method LoadAndDecryptBlob(aeskey: seq<byte>) returns (r: Option<seq<byte>>)
      requires Valid()
      modifies this`network_type_restriction, this`has_encrypted_blob, flash
      ensures Valid() && (Now(), r) == LoadBlob(lib, old(Now()), aeskey)
    {
      hide Open, IsSeal, Lawful, Seal, AesPaddedLen, EncryptedDataLen, Decrement, EraseBlob, GetBlob;
      hide Attempts.EraseEncrypted, WellFormed, Check, SetCounter;
      LoadBlobKeeps(lib, Now(), aeskey);
      if |aeskey| != AES_KEY_LEN_256 || !has_encrypted_blob {
        return None;
      }
      var ok := flash.DecrementCounter();
      if !ok {
        return None;
      }
      var encrypted := flash.GetEncryptedBlob(EncryptedDataLen(SERIALIZED_KEY_LEN));
      if encrypted.None? {
        flash.EraseEncryptedBlob();
        has_encrypted_blob := false;
        return None;
      }
      if |encrypted.value| < HMAC_SHA256_LEN + AES_BLOCK_LEN {
        flash.powered := false;
        return None;
      }
      r := Judge(aeskey, encrypted.value);
    }

    /** A right key restores the counter, the last wrong one erases everything. */
    method Judge(aeskey: seq<byte>, encrypted: seq<byte>) returns (r: Option<seq<byte>>)
      requires |encrypted| >= HMAC_SHA256_LEN + AES_BLOCK_LEN
      modifies this`network_type_restriction, this`has_encrypted_blob, flash
      ensures var (c, p) := Check(lib, old(flash.Now()), aeskey, encrypted);
              r == p && Now() == if p.Some? then old(Now()).(chip := SetCounter(c, ATTEMPTS).0)
                                 else if Left(c) == 0 then Attempts.EraseEncrypted(old(Now()).(chip := c))
                                 else old(Now()).(chip := c)
      ensures flash.sealed == old(flash.sealed)
    {
      hide Open, AesPaddedLen;
      r := GetDecryptedPayload(aeskey, encrypted);
      if r.None? {
        if flash.counter.None? || flash.counter.value == 0 || flash.counter.value > 3 {
          BlobErase(flash.Now());
          flash.EraseEncryptedBlob();
          ClearKeeps(Now());
          ClearNetworkTypeRestriction();
          has_encrypted_blob := false;
        }
      } else {
        var ok := flash.RestoreCounter();
      }
    }

    /** The iv is the random number drawn for this encryption. */
    method EncryptAndSaveBlob(aeskey: seq<byte>, payload: seq<byte>, iv: seq<byte>) returns (ok: bool)
      requires Valid() && |iv| == AES_BLOCK_LEN
      modifies flash
      ensures Valid() && (Now(), ok) == SaveBlob(lib, old(Now()), aeskey, payload, iv)
    {
      hide Seal, Lawful, WellFormed, SetBlob, IsSeal;
      SaveHolds(lib, Now(), aeskey, payload, iv);
      if |aeskey| != AES_KEY_LEN_256 || |payload| > SERIALIZED_KEY_LEN {
        return false;
      }
      if payload == [] {
        flash.powered := false;
        return false;
      }
      ok := flash.SetEncryptedBlob(Seal(lib, aeskey, iv, payload), Sealed(aeskey, iv, payload));
    }

    /** Keeps the entropy in memory, or else the keys, in flash under a key. */
    method Store(aeskey: seq<byte>, iv: seq<byte>) returns (ok: bool)
      requires Valid() && |iv| == AES_BLOCK_LEN
      modifies this`network_type_restriction, this`has_encrypted_blob, flash
      ensures Valid() && (Now(), ok) == Attempts.Store(lib, old(Now()), aeskey, iv)
    {
      hide Seal, Lawful, WellFormed, SaveBlob, IsSeal, Serialize;
      if |aeskey| != AES_KEY_LEN_256 || (keychain_data.None? && mnemonic_entropy == []) {
        return false;
      }
      var serialized := Payload(lib, Secrets(keychain_data, mnemonic_entropy));
      ok := EncryptAndSaveBlob(aeskey, serialized, iv);
      if !ok {
        return false;
      }
      ClearKeeps(Now());
      ClearNetworkTypeRestriction();
      has_encrypted_blob := true;
    }

    /** Gets back what the flash holds, if there is nothing in memory yet. */
    method Load(aeskey: seq<byte>) returns (ok: bool)
      requires Valid()
      modifies this, flash
      ensures Valid() && (Now(), ok) == Attempts.Load(lib, old(Now()), aeskey)
    {
      hide Lawful, LoadBlob, IsSeal, Unserialize, IsKeyData;
      if |aeskey| != AES_KEY_LEN_256 || keychain_data.Some? || mnemonic_entropy != [] || !has_encrypted_blob {
        NoBlob(lib, Now(), aeskey);
        return false;
      }
      var serialized := LoadAndDecryptBlob(aeskey);
      if serialized.None? {
        return false;
      }
      if |serialized.value| == BIP39_ENTROPY_LEN_128 || |serialized.value| == BIP39_ENTROPY_LEN_256 {
        mnemonic_entropy := serialized.value;
        return true;
      }
      if |serialized.value| != SERIALIZED_KEY_LEN {
        return false;
      }
      var keydata := Unserialize(lib, serialized.value);
      if keydata.None? {
        flash.powered := false;
        return false;
      }
      UnserializedOk(lib, serialized.value);
      Set(keydata, false);
      ok := true;
    }

    /** The blob again, under another key. */
    method Reencrypt(curr_aeskey: seq<byte>, new_aeskey: seq<byte>, iv: seq<byte>) returns (ok: bool)
      requires Valid() && |iv| == AES_BLOCK_LEN
      modifies this`network_type_restriction, this`has_encrypted_blob, flash
      ensures Valid() && (Now(), ok) == Attempts.Reencrypt(lib, old(Now()), curr_aeskey, new_aeskey, iv)
    {
      hide Lawful, LoadBlob, IsSeal, WellFormed, SaveBlob;
      if |curr_aeskey| != AES_KEY_LEN_256 || |new_aeskey| != AES_KEY_LEN_256 || !has_encrypted_blob {
        if |new_aeskey| == AES_KEY_LEN_256 { NoBlob(lib, Now(), curr_aeskey); }
        return false;
      }
      var serialized := LoadAndDecryptBlob(curr_aeskey);
      if serialized.None? {
        return false;
      }
      ok := EncryptAndSaveBlob(new_aeskey, serialized.value, iv);
    }
  }

  /** Lifting the restriction touches neither the blob nor the secrets. */
  lemma ClearKeeps(d: Device)
    ensures var d' := ClearRestriction(d);
            d'.chip.blob == d.chip.blob && d'.chip.sealed == d.chip.sealed && d'.mem.secrets == d.mem.secrets
  {
    AttemptKeeps(d.chip);
    hide Attempt;
  }

  lemma NoBlob(lib: Library, d: Device, key: seq<byte>)
    requires |key| != AES_KEY_LEN_256 || !d.mem.has_blob || d.mem.secrets != NOTHING
    ensures Attempts.Load(lib, d, key) == (d, false)
    ensures |key| != AES_KEY_LEN_256 || !d.mem.has_blob ==> LoadBlob(lib, d, key) == (d, None)
  {
  }

  /** A run of operations on the device itself, with whatever goes wrong in each. */
  method DoAll(k: Keychain, ops: Ops)
    requires k.Valid() && AreOps(ops)
    modifies k, k.flash
    ensures k.Valid() && k.Now() == Run(k.lib, old(k.Now()), ops)
  {
    ghost var d0 := k.Now();
    var i := 0;
    while i < |ops|
      invariant 0 <= i <= |ops| && k.Valid() && WellFormed(d0.mem.secrets)
      invariant Run(k.lib, d0, ops) == Run(k.lib, k.Now(), ops[i..])
    {
      RunStep(k.lib, k.Now(), ops[i..]);
      assert ops[i..][1..] == ops[i + 1..];
      DoOne(k, ops[i].0, ops[i].1);
      i := i + 1;
    }
  }

  method DoOne(k: Keychain, op: Op, faults: seq<Fault>)
    requires k.Valid() && IsOp(op)
    modifies k, k.flash
    ensures k.Valid() && k.Now() == Step(k.lib, old(k.Now()), op, faults)
  {
    hide Lawful, IsSeal, Attempts.Store, Attempts.Load, Attempts.Reencrypt, Attempts.EraseEncrypted;
    var powered := k.flash.powered;
    k.flash.faults := faults;
    if op == DoSwitchOn {
      k.Reboot();
    } else if powered {
      match op {
        case DoStore(key, iv) => var ok := k.Store(key, iv);
        case DoLoad(key) => var ok := k.Load(key);
        case DoReencrypt(curr, new_key, iv) => var ok := k.Reencrypt(curr, new_key, iv);
        case DoErase => k.EraseEncrypted();
        case DoClear => k.Clear();
        case DoSet(keys, temporary) => k.Set(Some(keys), temporary);
        case DoCache(entropy) => k.CacheMnemonicEntropy(entropy);
        case DoSwitchOn => assert false;
      }
    }
  }
}
