/**
  What becomes of a stored wallet when nothing goes wrong with the flash: what each operation makes
  of the device, and that the wallet stays until it is erased or wrong keys have used it up.
 */
module Lifetime {
  import opened Wrappers
  import opened Bits
  import opened Vault
  import opened Attempts

  /** Power is on, and nothing will go wrong. */
  predicate Smooth(d: Device)
  {
    d.chip.powered && d.chip.faults == []
  }

  /** What lifting the restriction leaves in flash. */
  function Lifted(d: Device): (r: NetworkType)
  {
    if d.mem.temporary then d.chip.network_type else Unrestricted
  }

  // ------------------------------------------------------------------------------ single operations

  /** A store succeeds: all attempts, the payload sealed under the key, the restriction lifted. */
  lemma StoreWorks(lib: Library, d: Device, key: seq<byte>, iv: seq<byte>)
    requires Lawful(lib) && WellFormed(d.mem.secrets) && Smooth(d) && d.mem.secrets != NOTHING
    requires |key| == AES_KEY_LEN_256 && |iv| == AES_BLOCK_LEN
    ensures var payload := Payload(lib, d.mem.secrets);
            Store(lib, d, key, iv) ==
              (Device(d.chip.(counter := Some(3), blob := Some(Seal(lib, key, iv, payload)),
                              sealed := Sealed(key, iv, payload), trace := d.chip.trace + [Stored],
                              network_type := Lifted(d)),
                      d.mem.(restriction := Unrestricted, has_blob := true)), true)
  {
    LoadStored(lib, d.mem.secrets);
    hide Payload, Seal, Lawful, WellFormed;
  }

  /** The right key gets the payload and renews the attempts; nothing else changes. */
  lemma RightKey(lib: Library, d: Device, key: seq<byte>, payload: seq<byte>)
    requires Lawful(lib) && Smooth(d) && StoredIn(lib, d, key, payload) && |key| == AES_KEY_LEN_256
    ensures LoadBlob(lib, d, key) ==
              (d.(chip := d.chip.(counter := Some(3), trace := d.chip.trace + [Right])), Some(payload))
  {
    OpensToPayload(lib, d.chip.blob.value, d.chip.sealed);
    hide Lawful, Seal, Open, EncryptedDataLen, AesPaddedLen, IsSeal;
    Decremented(d.chip);
    hide Decrement;
  }

  lemma Decremented(c: Chip)
    requires c.powered && c.faults == [] && Left(c) > 0
    ensures Decrement(c) == (c.(counter := Some(Left(c) - 1)), true)
  {
  }

  /** What an erase leaves. */
  function Erased(d: Device): (r: Device)
  {
    Device(d.chip.(counter := None, blob := None, network_type := Lifted(d)),
           d.mem.(restriction := Unrestricted, has_blob := false))
  }

  /** An erase leaves neither counter nor blob. */
  lemma EraseWorks(d: Device)
    requires Smooth(d)
    ensures EraseEncrypted(d) == Erased(d)
  {
  }

  /** A wrong key costs an attempt, and with the last of them everything is erased. */
  lemma WrongKey(lib: Library, d: Device, key: seq<byte>)
    requires Lawful(lib) && TellsKeys(lib) && Smooth(d) && d.mem.has_blob && Left(d.chip) > 0 && d.chip.blob.Some?
    requires Holds(lib, d.chip) && |key| == AES_KEY_LEN_256 && |d.chip.sealed.key| == AES_KEY_LEN_256
    requires key != d.chip.sealed.key
    ensures var d' := d.(chip := d.chip.(counter := Some(Left(d.chip) - 1), trace := d.chip.trace + [Wrong]));
            LoadBlob(lib, d, key) == (if Left(d.chip) > 1 then d' else Erased(d'), None)
  {
    OpensToPayload(lib, d.chip.blob.value, d.chip.sealed);
    LengthsFit();
    OnlyRightKeyOpens(lib, key, d.chip.blob.value, d.chip.sealed, AesPaddedLen(SERIALIZED_KEY_LEN));
    Decremented(d.chip);
    var d' := d.(chip := d.chip.(counter := Some(Left(d.chip) - 1), trace := d.chip.trace + [Wrong]));
    EraseWorks(d');
    hide Lawful, TellsKeys, Seal, Open, EncryptedDataLen, AesPaddedLen, IsSeal, Decrement, EraseEncrypted, Erased;
  }

  /** A blob that is missing or too long is erased, one that is too short restarts the device. */
  lemma DamagedBlob(lib: Library, d: Device, key: seq<byte>)
    requires Smooth(d) && d.mem.has_blob && |key| == AES_KEY_LEN_256
    ensures Left(d.chip) == 0 ==> LoadBlob(lib, d, key) == (d.(chip := d.chip.(counter := None, blob := None)), None)
    ensures Left(d.chip) > 0 && (d.chip.blob.None? || |d.chip.blob.value| > 256) ==>
              LoadBlob(lib, d, key) ==
                (Device(d.chip.(counter := None, blob := None), d.mem.(has_blob := false)), None)
    ensures Left(d.chip) > 0 && d.chip.blob.Some? && |d.chip.blob.value| < 48 ==>
              LoadBlob(lib, d, key) ==
                (d.(chip := d.chip.(counter := Some(Left(d.chip) - 1), powered := false)), None)
  {
    LengthsFit();
    if Left(d.chip) > 0 { Decremented(d.chip); }
    hide EncryptedDataLen, AesPaddedLen, Open;
  }

  /** With the right key a re-encryption succeeds, and leaves the payload under the new one. */
  lemma ReencryptWorks(lib: Library, d: Device, curr: seq<byte>, new_key: seq<byte>, iv: seq<byte>, payload: seq<byte>)
    requires Lawful(lib) && Smooth(d) && StoredIn(lib, d, curr, payload)
    requires |curr| == AES_KEY_LEN_256 && |new_key| == AES_KEY_LEN_256 && |iv| == AES_BLOCK_LEN
    ensures Reencrypt(lib, d, curr, new_key, iv) ==
              (d.(chip := d.chip.(counter := Some(3), blob := Some(Seal(lib, new_key, iv, payload)),
                                  sealed := Sealed(new_key, iv, payload),
                                  trace := d.chip.trace + [Right] + [Stored])), true)
    ensures StoredIn(lib, Reencrypt(lib, d, curr, new_key, iv).0, new_key, payload)
  {
    RightKey(lib, d, curr, payload);
    assert 0 < |payload| <= SERIALIZED_KEY_LEN;
    hide Lawful, Seal, LoadBlob;
  }

  /** Keys taken over, stored, and loaded after switching off and on: without the seed, they are the same. */
  lemma KeysSurvive(lib: Library, d: Device, keys: KeyData, temporary: bool, key: seq<byte>, iv: seq<byte>)
    requires Lawful(lib) && WellFormed(d.mem.secrets) && Smooth(d) && IsKeyData(keys)
    requires |key| == AES_KEY_LEN_256 && |iv| == AES_BLOCK_LEN
    ensures var d1 := Set(d, Some(keys), temporary);
            WellFormed(d1.mem.secrets) && Store(lib, d1, key, iv).1 &&
            Restores(lib, SwitchOn(Store(lib, d1, key, iv).0.chip), key, Secrets(Some(keys.(seed := [])), [])) &&
            Store(lib, d1, key, iv).0.chip.network_type == if temporary then d.chip.network_type else Unrestricted
  {
    var d1 := Set(d, Some(keys), temporary);
    hide IsKeyData;
    StoreWorks(lib, d1, key, iv);
    ComesBack(lib, d1, key, iv);
    hide Store, Restores, SwitchOn;
  }

  /** Entropy that has been cached takes precedence over keys in memory. */
  lemma EntropySurvives(lib: Library, d: Device, entropy: seq<byte>, key: seq<byte>, iv: seq<byte>)
    requires Lawful(lib) && WellFormed(d.mem.secrets) && Smooth(d) && IsEntropy(entropy)
    requires !d.mem.temporary && d.mem.secrets.entropy == []
    requires |key| == AES_KEY_LEN_256 && |iv| == AES_BLOCK_LEN
    ensures var d1 := CacheEntropy(d, entropy);
            WellFormed(d1.mem.secrets) && Store(lib, d1, key, iv).1 &&
            Restores(lib, SwitchOn(Store(lib, d1, key, iv).0.chip), key, Secrets(None, entropy))
  {
    var d1 := CacheEntropy(d, entropy);
    hide IsKeyData;
    StoreWorks(lib, d1, key, iv);
    ComesBack(lib, d1, key, iv);
    hide Store, Restores, SwitchOn;
  }

  lemma ComesBack(lib: Library, d: Device, key: seq<byte>, iv: seq<byte>)
    requires Lawful(lib) && WellFormed(d.mem.secrets) && |iv| == AES_BLOCK_LEN && Store(lib, d, key, iv).1
    ensures Restores(lib, SwitchOn(Store(lib, d, key, iv).0.chip), key, Kept(d.mem.secrets))
  {
    var d1 := Store(lib, d, key, iv).0;
    StoreHolds(lib, d, key, iv);
    StoreKey(lib, d, key, iv);
    LoadStored(lib, d.mem.secrets);
    var p := Payload(lib, d.mem.secrets);
    hide Store, Payload, Lawful, WellFormed, Restores, Loaded, IsSeal, IsKeyData;
    Comes(lib, SwitchOn(d1.chip), key, p);
  }

  // ------------------------------------------------------------------------------ runs without a store

  /** The payload is in flash under this key, with as many attempts as wrong keys in a row have left. */
  ghost predicate Intact(lib: Library, d: Device, key: seq<byte>, payload: seq<byte>)
  {
    Trailing(d.chip.trace) < ATTEMPTS && d.chip.counter == Some(ATTEMPTS - Trailing(d.chip.trace)) &&
    StoredIn(lib, d, key, payload)
  }

  /** Nothing is left in flash. */
  predicate Gone(d: Device)
  {
    d.chip.counter == None && d.chip.blob == None && !d.mem.has_blob
  }

  /** A wallet that has just been stored is intact. */
  lemma StoredIntact(lib: Library, d: Device, key: seq<byte>, iv: seq<byte>)
    requires Lawful(lib) && WellFormed(d.mem.secrets) && Smooth(d) && d.mem.secrets != NOTHING
    requires |key| == AES_KEY_LEN_256 && |iv| == AES_BLOCK_LEN
    ensures Store(lib, d, key, iv).1 && Intact(lib, Store(lib, d, key, iv).0, key, Payload(lib, d.mem.secrets))
    ensures Loaded(lib, Payload(lib, d.mem.secrets)) == Some(Kept(d.mem.secrets))
  {
    StoreWorks(lib, d, key, iv);
    StoreHolds(lib, d, key, iv);
    LoadStored(lib, d.mem.secrets);
    TrailingMore(d.chip.trace, Stored);
    hide Store, Payload, Lawful, WellFormed, Trailing, Loaded, StoredIn;
  }

  /** Loads, and what is done with memory alone. */
  predicate Gentle(op: Op)
  {
    Quiet(op) || op.DoLoad?
  }

  predicate AreGentle(ops: Ops)
  {
    forall i :: 0 <= i < |ops| ==> Gentle(ops[i].0) && IsOp(ops[i].0) && ops[i].1 == []
  }

  lemma GentleStep(lib: Library, d: Device, op: Op, key: seq<byte>, payload: seq<byte>)
    requires Lawful(lib) && TellsKeys(lib) && WellFormed(d.mem.secrets) && IsOp(op) && Gentle(op)
    requires |key| == AES_KEY_LEN_256 && Loaded(lib, payload).Some? && Intact(lib, d, key, payload)
    ensures var d' := Step(lib, d, op, []);
            Intact(lib, d', key, payload) || (Gone(d') && Trailing(d'.chip.trace) == ATTEMPTS)
    ensures op.DoLoad? && op.key == key ==> Intact(lib, Step(lib, d, op, []), key, payload)
    ensures Quiet(op) ==> Intact(lib, Step(lib, d, op, []), key, payload)
  {
    if op.DoLoad? {
      LoadStep(lib, d, op.key, key, payload);
    } else {
      QuietStep(lib, d, op, [], key, payload);
      hide WellFormed, Lawful, TellsKeys, StoredIn, IsKeyData, Trailing, Loaded;
    }
  }

  lemma LoadStep(lib: Library, d: Device, k: seq<byte>, key: seq<byte>, payload: seq<byte>)
    requires Lawful(lib) && TellsKeys(lib) && WellFormed(d.mem.secrets)
    requires |key| == AES_KEY_LEN_256 && Loaded(lib, payload).Some? && Intact(lib, d, key, payload)
    ensures var d' := Step(lib, d, DoLoad(k), []);
            Intact(lib, d', key, payload) || (k != key && Gone(d') && Trailing(d'.chip.trace) == ATTEMPTS)
  {
    if d.chip.powered && |k| == AES_KEY_LEN_256 && d.mem.secrets == NOTHING {
      hide *;
      if k == key { LoadRight(lib, d, key, payload); } else { LoadWrong(lib, d, k, key, payload); }
    } else {
      hide Trailing, Lawful, TellsKeys, IsSeal, Loaded, WellFormed, LoadBlob;
    }
  }

  lemma LoadRight(lib: Library, d: Device, key: seq<byte>, payload: seq<byte>)
    requires Lawful(lib) && WellFormed(d.mem.secrets) && Intact(lib, d, key, payload)
    requires |key| == AES_KEY_LEN_256 && Loaded(lib, payload).Some?
    requires d.chip.powered && d.mem.secrets == NOTHING
    ensures Intact(lib, Step(lib, d, DoLoad(key), []), key, payload)
  {
    hide WellFormed, Trailing, Loaded, Lawful, IsSeal;
    TrailingMore(d.chip.trace, Right);
    LoadedLength(lib, payload);
    RightKey(lib, d.(chip := d.chip.(faults := [])), key, payload);
    hide LoadBlob, IsEntropy;
  }

  lemma LoadWrong(lib: Library, d: Device, k: seq<byte>, key: seq<byte>, payload: seq<byte>)
    requires Lawful(lib) && TellsKeys(lib) && WellFormed(d.mem.secrets) && Intact(lib, d, key, payload)
    requires |key| == AES_KEY_LEN_256 && |k| == AES_KEY_LEN_256 && k != key
    requires d.chip.powered && d.mem.secrets == NOTHING
    ensures var d' := Step(lib, d, DoLoad(k), []);
            Intact(lib, d', key, payload) || (Gone(d') && Trailing(d'.chip.trace) == ATTEMPTS)
  {
    hide WellFormed, Trailing, Loaded, Lawful, TellsKeys, IsSeal;
    TrailingMore(d.chip.trace, Wrong);
    WrongKey(lib, d.(chip := d.chip.(faults := [])), k);
    hide LoadBlob, IsEntropy;
  }

  /**
    As long as nothing fails, the wallet is there if and only if no three wrong keys in a row have
    been tried since it was stored, whatever else has been tried, and however often the power went.
   */
  lemma {:induction false} WalletStays(lib: Library, d: Device, ops: Ops, key: seq<byte>, payload: seq<byte>)
    requires Lawful(lib) && TellsKeys(lib) && WellFormed(d.mem.secrets) && AreOps(ops) && AreGentle(ops)
    requires |key| == AES_KEY_LEN_256 && Loaded(lib, payload).Some?
    requires Intact(lib, d, key, payload) || (Gone(d) && Trailing(d.chip.trace) == ATTEMPTS)
    ensures var d' := Run(lib, d, ops);
            if Trailing(d'.chip.trace) < ATTEMPTS then Intact(lib, d', key, payload)
            else Gone(d') && Trailing(d'.chip.trace) == ATTEMPTS
    decreases |ops|
  {
    hide *;
    IntactOrGone(lib, d, key, payload);
    if ops == [] {
      RunNone(lib, d, ops);
    } else {
      var op := ops[0].0;
      FirstGentle(ops);
      RunStep(lib, d, ops);
      if Intact(lib, d, key, payload) {
        GentleStep(lib, d, op, key, payload);
      } else {
        GoneStep(lib, d, op, []);
      }
      WalletStays(lib, Step(lib, d, op, []), ops[1..], key, payload);
    }
  }

  lemma IntactOrGone(lib: Library, d: Device, key: seq<byte>, payload: seq<byte>)
    ensures Intact(lib, d, key, payload) ==> Trailing(d.chip.trace) < ATTEMPTS
  {
    hide Trailing, StoredIn;
  }

  lemma FirstGentle(ops: Ops)
    requires ops != [] && AreGentle(ops)
    ensures Gentle(ops[0].0) && IsOp(ops[0].0) && ops[0].1 == [] && AreGentle(ops[1..])
    ensures !ops[0].0.DoStore?
  {
    hide IsOp;
  }

  /** Whoever has the right key gets the wallet back, however often it has been loaded. */
  lemma {:induction false} RightKeyAlways(lib: Library, d: Device, ops: Ops, key: seq<byte>, payload: seq<byte>)
    requires Lawful(lib) && TellsKeys(lib) && WellFormed(d.mem.secrets) && AreOps(ops) && AreGentle(ops)
    requires forall i :: 0 <= i < |ops| ==> ops[i].0.DoLoad? ==> ops[i].0.key == key
    requires |key| == AES_KEY_LEN_256 && Loaded(lib, payload).Some? && Intact(lib, d, key, payload)
    ensures var d' := Run(lib, d, ops);
            Intact(lib, d', key, payload) &&
            (d'.chip.powered && d'.mem.secrets == NOTHING ==> Restores(lib, d', key, Loaded(lib, payload).value))
    decreases |ops|
  {
    hide *;
    IntactStored(lib, d, key, payload);
    if ops == [] {
      RunNone(lib, d, ops);
      if d.chip.powered && d.mem.secrets == NOTHING { Comes(lib, d, key, payload); }
    } else {
      FirstGentle(ops);
      RunStep(lib, d, ops);
      EitherKind(ops[0].0);
      GentleStep(lib, d, ops[0].0, key, payload);
      RightKeyAlways(lib, Step(lib, d, ops[0].0, []), ops[1..], key, payload);
    }
  }

  lemma EitherKind(op: Op)
    requires Gentle(op)
    ensures Quiet(op) || op.DoLoad?
  {
    hide Quiet;
  }

  lemma IntactStored(lib: Library, d: Device, key: seq<byte>, payload: seq<byte>)
    requires Intact(lib, d, key, payload)
    ensures StoredIn(lib, d, key, payload)
  {
    hide Trailing, StoredIn;
  }

  // ------------------------------------------------------------------------------ after an erase

  lemma GoneStep(lib: Library, d: Device, op: Op, faults: seq<Fault>)
    requires Lawful(lib) && WellFormed(d.mem.secrets) && IsOp(op) && !op.DoStore? && Gone(d)
    ensures var d' := Step(lib, d, op, faults);
            Gone(d') && d'.chip.trace == d.chip.trace
    ensures op.DoLoad? ==> Step(lib, d, op, faults).mem.secrets == d.mem.secrets
  {
    var d0 := d.(chip := d.chip.(faults := faults));
    GoneErase(d0);
    hide LoadBlob, WellFormed, Lawful, Loaded, EraseBlob, ClearRestriction, EraseEncrypted;
    if op.DoLoad? { NothingToLoad(lib, d0, op.key); }
    if op.DoReencrypt? { NothingToLoad(lib, d0, op.curr); }
  }

  lemma NothingToLoad(lib: Library, d: Device, key: seq<byte>)
    requires !d.mem.has_blob
    ensures LoadBlob(lib, d, key) == (d, None) && Load(lib, d, key) == (d, false)
  {
  }

  lemma GoneErase(d: Device)
    requires Gone(d)
    ensures Gone(EraseEncrypted(d)) && EraseEncrypted(d).chip.trace == d.chip.trace
  {
    EraseLeft(d.chip);
    BlobErase(d.chip);
    ClearSame(d.(chip := EraseBlob(d.chip)));
    CounterErased(d.chip);
    hide EraseBlob, ClearRestriction;
  }

  lemma CounterErased(c: Chip)
    requires c.counter == None
    ensures EraseBlob(c).counter == None
  {
    AttemptKeeps(c);
    var (c1, done1, _) := Attempt(c);
    AttemptKeeps(if done1 then c1.(counter := None) else c1);
    hide Attempt;
  }

  lemma ClearSame(d: Device)
    ensures var d' := ClearRestriction(d);
            d'.chip.counter == d.chip.counter && d'.chip.blob == d.chip.blob && d'.chip.trace == d.chip.trace
  {
    AttemptKeeps(d.chip);
    hide Attempt;
  }

  /**
    What has been erased is gone for good: whatever is done, short of a store, and whatever fails, no
    key is ever checked again, nothing is loaded, and nothing comes back to flash.
   */
  lemma {:induction false} GoneForGood(lib: Library, d: Device, ops: Ops, key: seq<byte>)
    requires Lawful(lib) && WellFormed(d.mem.secrets) && AreOps(ops) && NoStores(ops) && Gone(d)
    ensures var d' := Run(lib, d, ops);
            Gone(d') && d'.chip.trace == d.chip.trace && Load(lib, d', key) == (d', false)
    decreases |ops|
  {
    hide *;
    if ops == [] {
      RunNone(lib, d, ops);
      GoneHas(d);
      NothingToLoad(lib, d, key);
    } else {
      FirstNoStore(ops);
      RunStep(lib, d, ops);
      GoneStep(lib, d, ops[0].0, ops[0].1);
      GoneForGood(lib, Step(lib, d, ops[0].0, ops[0].1), ops[1..], key);
    }
  }

  lemma GoneHas(d: Device)
    requires Gone(d)
    ensures !d.mem.has_blob
  {
  }

  lemma FirstNoStore(ops: Ops)
    requires ops != [] && NoStores(ops) && AreOps(ops)
    ensures !ops[0].0.DoStore? && NoStores(ops[1..]) && IsOp(ops[0].0)
  {
    hide IsOp;
  }

  /** After an erase in which nothing fails, that is how it is. */
  lemma EraseIsForGood(lib: Library, d: Device, ops: Ops, key: seq<byte>)
    requires Lawful(lib) && WellFormed(d.mem.secrets) && AreOps(ops) && NoStores(ops) && Smooth(d)
    ensures WellFormed(EraseEncrypted(d).mem.secrets)
    ensures var d' := Run(lib, EraseEncrypted(d), ops);
            d'.chip.blob == None && d'.chip.counter == None && d'.chip.trace == d.chip.trace &&
            Load(lib, d', key) == (d', false)
  {
    EraseWorks(d);
    hide EraseEncrypted, WellFormed, Lawful, Load, NoStores, AreOps;
    GoneForGood(lib, EraseEncrypted(d), ops, key);
  }
}
