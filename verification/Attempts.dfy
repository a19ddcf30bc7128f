/**
  What every keychain operation makes of the flash and of the memory, given what goes wrong and
  when; and how many wrong keys can be tried over a whole run of operations.
 */
module Attempts {
  import opened Wrappers
  import opened Bits
  import opened Vault

  /** Attempts that a store or a successful check allows. */
  const ATTEMPTS: nat := 3

  /**
    What becomes of an operation of the flash: it goes through, it has no effect and says so, it has
    its effect but says that it has not, or power goes before it.
   */
  datatype Fault = Fine | Fails | Late | PowerLoss

  datatype NetworkType = Unrestricted | MainNet | TestNet

  /** Keys checked against the blob, right ones and wrong ones, and blobs stored. */
  datatype Event = Right | Wrong | Stored

  /** The flash, what will go wrong with it, and what has happened to it. */
  datatype Chip = Chip(counter: Option<byte>, blob: Option<seq<byte>>, network_type: NetworkType, powered: bool,
                       faults: seq<Fault>,
                       sealed: Sealed, trace: seq<Event>)

  datatype Memory = Memory(secrets: Secrets, restriction: NetworkType, has_blob: bool, temporary: bool)

  datatype Device = Device(chip: Chip, mem: Memory)

  // ------------------------------------------------------------------------------ the flash

  /** The next operation: whether it has its effect, and whether it says so. */
  function Attempt(c: Chip): (r: (Chip, bool, bool))
  {
    if !c.powered then (c, false, false)
    else if c.faults == [] then (c, true, true)
    else
      var c' := c.(faults := c.faults[1..]);
      match c.faults[0]
      case Fine => (c', true, true)
      case Fails => (c', false, false)
      case Late => (c', true, false)
      case PowerLoss => (c'.(powered := false), false, false)
  }

  /** Attempts the counter in flash allows. */
  function Left(c: Chip): (r: nat)
  {
    if c.counter.Some? && c.counter.value <= ATTEMPTS then c.counter.value else 0
  }

  function SetCounter(c: Chip, n: byte): (r: (Chip, bool))
  {
    var (c', done, ok) := Attempt(c);
    (if done then c'.(counter := Some(n)) else c', ok)
  }

  /** The counter is erased first, then the blob. */
  function EraseBlob(c: Chip): (r: Chip)
  {
    var (c1, done1, _) := Attempt(c);
    var (c2, done2, _) := Attempt(if done1 then c1.(counter := None) else c1);
    if done2 then c2.(blob := None) else c2
  }

  /** The new count is in flash before the attempt it stands for is made. */
  function Decrement(c: Chip): (r: (Chip, bool))
  {
    if Left(c) == 0 then (EraseBlob(c), false)
    else
      var (c', ok) := SetCounter(c, c.counter.value - 1);
      if ok then (c', true) else (EraseBlob(c'), false)
  }

  /** The counter is restored first, then the blob replaced. */
  function SetBlob(c: Chip, blob: seq<byte>, s: Sealed): (r: (Chip, bool))
  {
    var (c1, ok1) := SetCounter(c, ATTEMPTS);
    if !ok1 then (c1, false)
    else
      var (c2, done, ok) := Attempt(c1);
      (if done then c2.(blob := Some(blob), sealed := s, trace := c2.trace + [Stored]) else c2, ok)
  }

  function GetBlob(c: Chip, max_len: nat): (r: (Chip, Option<seq<byte>>))
  {
    var (c', _, ok) := Attempt(c);
    (c', if ok && c.blob.Some? && |c.blob.value| <= max_len then c.blob else None)
  }

  // ------------------------------------------------------------------------------ the keychain

  /** The restriction is lifted in flash only if the keys in memory are those in flash. */
  function ClearRestriction(d: Device): (r: Device)
  {
    var (c, done, _) := if d.mem.temporary then (d.chip, false, false) else Attempt(d.chip);
    Device(if done then c.(network_type := Unrestricted) else c, d.mem.(restriction := Unrestricted))
  }

  function EraseEncrypted(d: Device): (r: Device)
  {
    var d' := ClearRestriction(d.(chip := EraseBlob(d.chip)));
    d'.(mem := d'.mem.(has_blob := false))
  }

  /** The check of a key against the blob. */
  function Check(lib: Library, c: Chip, key: seq<byte>, blob: seq<byte>): (r: (Chip, Option<seq<byte>>))
    requires |blob| >= HMAC_SHA256_LEN + AES_BLOCK_LEN
  {
    var p := Open(lib, key, blob, AesPaddedLen(SERIALIZED_KEY_LEN));
    (c.(trace := c.trace + [if p.Some? then Right else Wrong]), p)
  }

  /** An assertion that does not hold restarts the device. */
  function Abort(d: Device): (r: Device)
  {
    d.(chip := d.chip.(powered := false))
  }

  /** Spends an attempt, then checks the key; the last attempt that fails erases everything. */
  function LoadBlob(lib: Library, d: Device, key: seq<byte>): (r: (Device, Option<seq<byte>>))
  {
    if |key| != AES_KEY_LEN_256 || !d.mem.has_blob then (d, None)
    else
      var (c1, ok) := Decrement(d.chip);
      if !ok then (d.(chip := c1), None)
      else
        var (c2, blob) := GetBlob(c1, EncryptedDataLen(SERIALIZED_KEY_LEN));
        if blob.None? then (Device(EraseBlob(c2), d.mem.(has_blob := false)), None)
        else if |blob.value| < HMAC_SHA256_LEN + AES_BLOCK_LEN then (Abort(d.(chip := c2)), None)
        else
          var (c3, p) := Check(lib, c2, key, blob.value);
          if p.Some? then (d.(chip := SetCounter(c3, ATTEMPTS).0), p)
          else if Left(c3) == 0 then (EraseEncrypted(d.(chip := c3)), None)
          else (d.(chip := c3), None)
  }

  function SaveBlob(lib: Library, d: Device, key: seq<byte>, payload: seq<byte>, iv: seq<byte>): (r: (Device, bool))
  {
    if |key| != AES_KEY_LEN_256 || |payload| > SERIALIZED_KEY_LEN then (d, false)
    else if payload == [] then (Abort(d), false)
    else
      var (c, ok) := SetBlob(d.chip, Seal(lib, key, iv, payload), Sealed(key, iv, payload));
      (d.(chip := c), ok)
  }

  /** Keeps the entropy in memory, or else the keys, in flash under a key. */
  function Store(lib: Library, d: Device, key: seq<byte>, iv: seq<byte>): (r: (Device, bool))
    requires WellFormed(d.mem.secrets)
  {
    if |key| != AES_KEY_LEN_256 || d.mem.secrets == NOTHING then (d, false)
    else
      var (d1, ok) := SaveBlob(lib, d, key, Payload(lib, d.mem.secrets), iv);
      if !ok then (d1, false)
      else
        var d2 := ClearRestriction(d1);
        (d2.(mem := d2.mem.(has_blob := true)), true)
  }

  /** Gets back what the flash holds, if there is nothing in memory yet. */
  function Load(lib: Library, d: Device, key: seq<byte>): (r: (Device, bool))
  {
    if |key| != AES_KEY_LEN_256 || d.mem.secrets != NOTHING then (d, false)
    else
      var (d1, p) := LoadBlob(lib, d, key);
      if p.None? then (d1, false)
      else if !IsEntropy(p.value) && |p.value| != SERIALIZED_KEY_LEN then (d1, false)
      else
        match Loaded(lib, p.value)
        case None => (Abort(d1), false)
        case Some(s) =>
          (d1.(mem := d1.mem.(secrets := s, temporary := if s.keys.Some? then false else d1.mem.temporary)), true)
  }

  /** The blob again, under another key. */
  function Reencrypt(lib: Library, d: Device, curr: seq<byte>, new_key: seq<byte>, iv: seq<byte>): (r: (Device, bool))
  {
    if |new_key| != AES_KEY_LEN_256 then (d, false)
    else
      var (d1, p) := LoadBlob(lib, d, curr);
      if p.None? then (d1, false) else SaveBlob(lib, d1, new_key, p.value, iv)
  }

  /** Memory is cleared of secrets. */
  function Clear(d: Device): (r: Device)
  {
    d.(mem := d.mem.(secrets := NOTHING, temporary := false))
  }

  /** Keys are taken over into memory; None stands for those already there. */
  function Set(d: Device, src: Option<KeyData>, temporary: bool): (r: Device)
    requires src.Some? || d.mem.secrets.keys.Some?
  {
    d.(mem := d.mem.(secrets := Secrets(if src.Some? then src else d.mem.secrets.keys, []), temporary := temporary))
  }

  /** The entropy is kept while the passphrase is entered. */
  function CacheEntropy(d: Device, entropy: seq<byte>): (r: Device)
  {
    if d.mem.temporary || d.mem.secrets.entropy != [] || !IsEntropy(entropy) then Abort(d)
    else d.(mem := d.mem.(secrets := d.mem.secrets.(entropy := entropy)))
  }

  /** Power comes back: memory is lost, flash is not. */
  function SwitchOn(c: Chip): (r: Device)
  {
    Device(c.(powered := true), Memory(NOTHING, c.network_type, c.counter.Some? && c.counter.value > 0, false))
  }

  // ------------------------------------------------------------------------------ whole runs

  datatype Op =
    | DoStore(key: seq<byte>, iv: seq<byte>)
    | DoLoad(key: seq<byte>)
    | DoReencrypt(curr: seq<byte>, new_key: seq<byte>, iv: seq<byte>)
    | DoErase
    | DoClear
    | DoSet(keys: KeyData, temporary: bool)
    | DoCache(entropy: seq<byte>)
    | DoSwitchOn

  /** What a caller may ask for. */
  predicate IsOp(op: Op)
  {
    match op
    case DoStore(_, iv) => |iv| == AES_BLOCK_LEN
    case DoReencrypt(_, _, iv) => |iv| == AES_BLOCK_LEN
    case DoSet(keys, _) => IsKeyData(keys)
    case _ => true
  }

  /** One operation, with what goes wrong during it. Without power only switching on does anything. */
  function Step(lib: Library, d: Device, op: Op, faults: seq<Fault>): (r: Device)
    requires WellFormed(d.mem.secrets)
  {
    var d0 := d.(chip := d.chip.(faults := faults));
    if op.DoSwitchOn? then SwitchOn(d0.chip)
    else if !d.chip.powered then d0
    else
      match op
      case DoStore(key, iv) => Store(lib, d0, key, iv).0
      case DoLoad(key) => Load(lib, d0, key).0
      case DoReencrypt(curr, new_key, iv) => Reencrypt(lib, d0, curr, new_key, iv).0
      case DoErase => EraseEncrypted(d0)
      case DoClear => Clear(d0)
      case DoSet(keys, temporary) => Set(d0, Some(keys), temporary)
      case DoCache(entropy) => CacheEntropy(d0, entropy)
  }

  type Ops = seq<(Op, seq<Fault>)>

  predicate AreOps(ops: Ops)
  {
    forall i :: 0 <= i < |ops| ==> IsOp(ops[i].0)
  }

  /** The whole of a run. */
  function Run(lib: Library, d: Device, ops: Ops): (r: Device)
    requires Lawful(lib) && WellFormed(d.mem.secrets) && AreOps(ops)
    ensures WellFormed(r.mem.secrets)
    decreases |ops|
  {
    if ops == [] then d
    else
      StepWellFormed(lib, d, ops[0].0, ops[0].1);
      Run(lib, Step(lib, d, ops[0].0, ops[0].1), ops[1..])
  }

  lemma StepWellFormed(lib: Library, d: Device, op: Op, faults: seq<Fault>)
    requires Lawful(lib) && WellFormed(d.mem.secrets) && IsOp(op)
    ensures WellFormed(Step(lib, d, op, faults).mem.secrets)
  {
    var d0 := d.(chip := d.chip.(faults := faults));
    if op.DoLoad? {
      MemKept(lib, d0, op.key);
      var p := LoadBlob(lib, d0, op.key).1;
      if p.Some? && Loaded(lib, p.value).Some? { LoadedOk(lib, p.value); }
    }
    if op.DoReencrypt? { MemKept(lib, d0, op.curr); }
    hide LoadBlob, Lawful, Loaded, Payload, Seal, IsKeyData, SetBlob, EraseBlob, Attempt;
  }

  /** Spending an attempt leaves the secrets in memory alone. */
  lemma MemKept(lib: Library, d: Device, key: seq<byte>)
    ensures LoadBlob(lib, d, key).0.mem.secrets == d.mem.secrets
    ensures LoadBlob(lib, d, key).0.mem.temporary == d.mem.temporary
  {
    hide Attempt, Open, Decrement, EraseBlob;
  }

  // ------------------------------------------------------------------------------ wrong keys

  /** Wrong keys checked since the last right one, or the last blob stored. */
  function Trailing(trace: seq<Event>): (r: nat)
  {
    if trace == [] || trace[|trace| - 1] != Wrong then 0 else 1 + Trailing(trace[..|trace| - 1])
  }

  /** At no time have there been more of them than attempts allowed. */
  ghost predicate Bounded(trace: seq<Event>)
  {
    forall n :: 0 <= n <= |trace| ==> Trailing(trace[..n]) <= ATTEMPTS
  }

  /** As long as there is a blob, wrong keys and attempts left make no more than the attempts allowed. */
  ghost predicate Safe(c: Chip)
  {
    Bounded(c.trace) && (c.blob.Some? ==> Trailing(c.trace) + Left(c) <= ATTEMPTS)
  }

  /** What a caller can see of the flash: no blob, or all attempts left. */
  predicate Fresh(c: Chip)
  {
    c.blob.None? || Left(c) == ATTEMPTS
  }

  /** Every store of the run begins like that. */
  predicate StoresFresh(lib: Library, d: Device, ops: Ops)
    requires Lawful(lib) && WellFormed(d.mem.secrets) && AreOps(ops)
    decreases |ops|
  {
    ops == [] || (
      StepWellFormed(lib, d, ops[0].0, ops[0].1);
      (ops[0].0.DoStore? ==> Fresh(d.chip)) && StoresFresh(lib, Step(lib, d, ops[0].0, ops[0].1), ops[1..])
    )
  }

  lemma TrailingMore(trace: seq<Event>, e: Event)
    ensures Trailing(trace + [e]) == if e == Wrong then Trailing(trace) + 1 else 0
  {
    assert (trace + [e])[..|trace|] == trace;
  }

  lemma BoundedMore(trace: seq<Event>, e: Event)
    requires Bounded(trace) && (e == Wrong ==> Trailing(trace) < ATTEMPTS)
    ensures Bounded(trace + [e])
  {
    TrailingMore(trace, e);
    var t := trace + [e];
    forall n | 0 <= n <= |t| ensures Trailing(t[..n]) <= ATTEMPTS {
      if n <= |trace| { assert t[..n] == trace[..n]; } else { assert t[..n] == t; }
    }
    hide Trailing;
  }

  lemma BoundedNow(trace: seq<Event>)
    requires Bounded(trace)
    ensures Trailing(trace) <= ATTEMPTS
  {
    assert trace[..|trace|] == trace;
  }

  lemma AttemptKeeps(c: Chip)
    ensures var c' := Attempt(c).0;
            c'.counter == c.counter && c'.blob == c.blob && c'.sealed == c.sealed && c'.trace == c.trace &&
            c'.network_type == c.network_type
    ensures Attempt(c).2 ==> Attempt(c).1 && Attempt(c).0.powered
    ensures Attempt(c).0.powered ==> c.powered
  {
  }

  lemma EraseSafe(c: Chip)
    requires Safe(c)
    ensures var c' := EraseBlob(c);
            Safe(c') && c'.trace == c.trace && Left(c') <= Left(c) && (c'.blob == None || c'.blob == c.blob) &&
            c'.sealed == c.sealed
  {
    BoundedNow(c.trace);
    var (c1, done1, ok1) := Attempt(c);
    AttemptKeeps(c);
    AttemptKeeps(if done1 then c1.(counter := None) else c1);
    hide Attempt, Trailing, Bounded;
  }

  lemma DecrementSafe(c: Chip)
    requires Safe(c)
    ensures var (c', ok) := Decrement(c);
            Safe(c') && c'.trace == c.trace && (c'.blob == None || c'.blob == c.blob) && c'.sealed == c.sealed
    ensures var (c', ok) := Decrement(c); ok ==> Left(c) > 0 && Left(c') == Left(c) - 1 && c'.blob == c.blob
    ensures Left(c) == 0 ==> !Decrement(c).1 && Left(Decrement(c).0) == 0
  {
    hide Attempt, Trailing, Bounded, EraseBlob;
    if Left(c) == 0 {
      EraseSafe(c);
    } else {
      AttemptKeeps(c);
      EraseSafe(SetCounter(c, c.counter.value - 1).0);
    }
  }

  /** Nothing in a load or a re-encryption spoils the count. */
  lemma LoadBlobSafe(lib: Library, d: Device, key: seq<byte>)
    requires Safe(d.chip)
    ensures var (d', p) := LoadBlob(lib, d, key); Safe(d'.chip) && (p.Some? ==> Trailing(d'.chip.trace) == 0)
    ensures Left(d.chip) == 0 ==>
              LoadBlob(lib, d, key).1 == None && LoadBlob(lib, d, key).0.chip.trace == d.chip.trace &&
              Left(LoadBlob(lib, d, key).0.chip) == 0
  {
    hide Attempt, Trailing, Bounded, EraseBlob, Decrement, Open, ClearRestriction;
    if |key| == AES_KEY_LEN_256 && d.mem.has_blob {
      DecrementSafe(d.chip);
      var (c1, ok) := Decrement(d.chip);
      if ok {
        var (c2, blob) := GetBlob(c1, EncryptedDataLen(SERIALIZED_KEY_LEN));
        AttemptKeeps(c1);
        EraseSafe(c2);
        if blob.Some? && |blob.value| >= HMAC_SHA256_LEN + AES_BLOCK_LEN {
          var (c3, p) := Check(lib, c2, key, blob.value);
          TrailingMore(c2.trace, if p.Some? then Right else Wrong);
          BoundedMore(c2.trace, if p.Some? then Right else Wrong);
          AttemptKeeps(c3);
          EraseSafe(c3);
          ClearSafe(d.(chip := EraseBlob(c3)));
        }
      }
    }
  }

  lemma ClearSafe(d: Device)
    requires Safe(d.chip)
    ensures Safe(ClearRestriction(d).chip) && ClearRestriction(d).chip.trace == d.chip.trace
    ensures Left(ClearRestriction(d).chip) == Left(d.chip)
    ensures ClearRestriction(d).chip.blob == d.chip.blob && ClearRestriction(d).chip.sealed == d.chip.sealed
    ensures ClearRestriction(d).chip.counter == d.chip.counter
  {
    AttemptKeeps(d.chip);
    hide Attempt, Trailing, Bounded;
  }

  /** Nor does a save, if no wrong key has been tried or there is no blob. */
  lemma SaveSafe(lib: Library, d: Device, key: seq<byte>, payload: seq<byte>, iv: seq<byte>)
    requires Safe(d.chip) && (d.chip.blob.Some? ==> Trailing(d.chip.trace) == 0)
    ensures Safe(SaveBlob(lib, d, key, payload, iv).0.chip)
  {
    hide Attempt, Trailing, Bounded, Seal;
    var c := d.chip;
    AttemptKeeps(c);
    var c1 := SetCounter(c, ATTEMPTS).0;
    AttemptKeeps(c1);
    TrailingMore(c1.trace, Stored);
    BoundedMore(c1.trace, Stored);
  }

  lemma FreshMeans(c: Chip)
    requires Safe(c) && Fresh(c)
    ensures c.blob.Some? ==> Trailing(c.trace) == 0
  {
    hide Trailing, Bounded;
  }

  lemma StepSafe(lib: Library, d: Device, op: Op, faults: seq<Fault>)
    requires WellFormed(d.mem.secrets) && Safe(d.chip) && (op.DoStore? ==> Fresh(d.chip))
    ensures Safe(Step(lib, d, op, faults).chip)
  {
    hide Trailing, Bounded, EraseBlob, LoadBlob, SaveBlob, ClearRestriction, Payload, Loaded, WellFormed;
    var d0 := d.(chip := d.chip.(faults := faults));
    match op
    case DoStore(key, iv) =>
      FreshMeans(d0.chip);
      if d0.mem.secrets != NOTHING {
        SaveSafe(lib, d0, key, Payload(lib, d0.mem.secrets), iv);
        ClearSafe(SaveBlob(lib, d0, key, Payload(lib, d0.mem.secrets), iv).0);
      }
    case DoLoad(key) => LoadBlobSafe(lib, d0, key);
    case DoReencrypt(curr, new_key, iv) =>
      LoadBlobSafe(lib, d0, curr);
      var (d1, p) := LoadBlob(lib, d0, curr);
      if p.Some? { SaveSafe(lib, d1, new_key, p.value, iv); }
    case DoErase =>
      EraseSafe(d0.chip);
      ClearSafe(d0.(chip := EraseBlob(d0.chip)));
    case _ =>
  }

  /**
    Over a whole run, whatever fails and wherever power goes: if every store begins with no blob in
    flash or with all attempts left, there are never more wrong keys tried in a row than attempts.
   */
  lemma {:induction false} RunSafe(lib: Library, d: Device, ops: Ops)
    requires Lawful(lib) && WellFormed(d.mem.secrets) && AreOps(ops) && Safe(d.chip) && StoresFresh(lib, d, ops)
    ensures Safe(Run(lib, d, ops).chip) && Bounded(Run(lib, d, ops).chip.trace)
    decreases |ops|
  {
    if ops != [] {
      StepWellFormed(lib, d, ops[0].0, ops[0].1);
      StepSafe(lib, d, ops[0].0, ops[0].1);
      RunSafe(lib, Step(lib, d, ops[0].0, ops[0].1), ops[1..]);
    }
    hide Step, Trailing, WellFormed, IsOp, Lawful;
  }

  // ------------------------------------------------------------------------------ no attempts left

  predicate NoStores(ops: Ops)
  {
    forall i :: 0 <= i < |ops| ==> !ops[i].0.DoStore?
  }

  lemma UsedUpStep(lib: Library, d: Device, op: Op, faults: seq<Fault>)
    requires Lawful(lib) && WellFormed(d.mem.secrets) && IsOp(op) && !op.DoStore? && Left(d.chip) == 0
    ensures Left(Step(lib, d, op, faults).chip) == 0 && Step(lib, d, op, faults).chip.trace == d.chip.trace
  {
    var d0 := d.(chip := d.chip.(faults := faults));
    UsedUpLoad(lib, d0, if op.DoLoad? then op.key else if op.DoReencrypt? then op.curr else []);
    EraseLeft(d0.chip);
    ClearLeft(d0.(chip := EraseBlob(d0.chip)));
    hide LoadBlob, SaveBlob, EraseBlob, ClearRestriction, WellFormed, Lawful, Loaded, Left;
    LeftPowered(d0.chip);
  }

  lemma LeftPowered(c: Chip)
    ensures Left(c.(powered := true)) == Left(c)
  {
  }

  lemma EraseLeft(c: Chip)
    ensures Left(EraseBlob(c)) <= Left(c) && EraseBlob(c).trace == c.trace
  {
    var (c1, done1, ok1) := Attempt(c);
    AttemptKeeps(c);
    AttemptKeeps(if done1 then c1.(counter := None) else c1);
    hide Attempt;
  }

  lemma ClearLeft(d: Device)
    ensures Left(ClearRestriction(d).chip) == Left(d.chip) && ClearRestriction(d).chip.trace == d.chip.trace
  {
    AttemptKeeps(d.chip);
    hide Attempt;
  }

  lemma UsedUpLoad(lib: Library, d: Device, key: seq<byte>)
    requires Left(d.chip) == 0
    ensures var (d', p) := LoadBlob(lib, d, key); p == None && Left(d'.chip) == 0 && d'.chip.trace == d.chip.trace
  {
    EraseLeft(d.chip);
    hide EraseBlob;
  }

  /** Once the attempts are used up, no key is checked before something is stored again. */
  lemma {:induction false} UsedUp(lib: Library, d: Device, ops: Ops)
    requires Lawful(lib) && WellFormed(d.mem.secrets) && AreOps(ops) && NoStores(ops) && Left(d.chip) == 0
    ensures Run(lib, d, ops).chip.trace == d.chip.trace
    decreases |ops|
  {
    if ops != [] {
      StepWellFormed(lib, d, ops[0].0, ops[0].1);
      UsedUpStep(lib, d, ops[0].0, ops[0].1);
      UsedUp(lib, Step(lib, d, ops[0].0, ops[0].1), ops[1..]);
    }
    hide Step, WellFormed, IsOp, Lawful, Left;
  }

  // ------------------------------------------------------------------------------ a store that fails

  /** Nothing in memory, and a blob of a length there can be that this key does not open. */
  ghost predicate Refuses(lib: Library, d: Device, wrong: seq<byte>)
  {
    d.mem.secrets == NOTHING && d.mem.has_blob && d.chip.powered && |wrong| == AES_KEY_LEN_256 && d.chip.blob.Some? &&
    Blocks(lib, d.chip.blob.value, wrong)
  }

  ghost predicate Blocks(lib: Library, blob: seq<byte>, wrong: seq<byte>)
  {
    HMAC_SHA256_LEN + AES_BLOCK_LEN <= |blob| <= EncryptedDataLen(SERIALIZED_KEY_LEN) &&
    Open(lib, wrong, blob, AesPaddedLen(SERIALIZED_KEY_LEN)).None?
  }

  lemma WrongLoad(lib: Library, d: Device, wrong: seq<byte>)
    requires Lawful(lib) && WellFormed(d.mem.secrets) && Refuses(lib, d, wrong) && Left(d.chip) > 0
    ensures var d' := Step(lib, d, DoLoad(wrong), []);
            d'.chip.trace == d.chip.trace + [Wrong] &&
            (Left(d.chip) > 1 ==>
             Refuses(lib, d', wrong) && Left(d'.chip) == Left(d.chip) - 1 && d'.chip.blob == d.chip.blob)
  {
    var c := d.chip.(faults := []);
    var c1 := Decrement(c).0;
    assert c1 == c.(counter := Some(c.counter.value - 1)) && Decrement(c).1;
    var (c2, blob) := GetBlob(c1, EncryptedDataLen(SERIALIZED_KEY_LEN));
    assert c2 == c1 && blob == c.blob;
    var c3 := Check(lib, c2, wrong, blob.value).0;
    hide Open, Decrement, GetBlob, WellFormed, Lawful, EncryptedDataLen, AesPaddedLen;
    EraseLeft(c3);
    ClearLeft(d.(chip := EraseBlob(c3)));
  }

  /** Three wrong keys. */
  function ThreeLoads(wrong: seq<byte>): (r: Ops)
  {
    [(DoLoad(wrong), []), (DoLoad(wrong), []), (DoLoad(wrong), [])]
  }

  lemma ThreeWrong(lib: Library, d: Device, wrong: seq<byte>)
    requires Lawful(lib) && WellFormed(d.mem.secrets) && Refuses(lib, d, wrong) && Left(d.chip) == ATTEMPTS
    ensures Run(lib, d, ThreeLoads(wrong)).chip.trace == d.chip.trace + [Wrong, Wrong, Wrong]
    ensures Trailing(Run(lib, d, ThreeLoads(wrong)).chip.trace) == Trailing(d.chip.trace) + ATTEMPTS
    ensures StoresFresh(lib, d, ThreeLoads(wrong))
  {
    hide *;
    var op := DoLoad(wrong);
    var ops := ThreeLoads(wrong);
    ThreeAre(wrong);
    WrongLoad(lib, d, wrong);
    StepWellFormed(lib, d, op, []);
    var d1 := Step(lib, d, op, []);
    WrongLoad(lib, d1, wrong);
    StepWellFormed(lib, d1, op, []);
    var d2 := Step(lib, d1, op, []);
    WrongLoad(lib, d2, wrong);
    RunThree(lib, d, ops);
    ThreeTrail(d.chip.trace);
  }

  lemma ThreeAre(wrong: seq<byte>)
    ensures ATTEMPTS == 3 && AreOps(ThreeLoads(wrong)) && NoStores(ThreeLoads(wrong)) && |ThreeLoads(wrong)| == 3
    ensures IsOp(DoLoad(wrong)) && forall i :: 0 <= i < 3 ==> ThreeLoads(wrong)[i] == (DoLoad(wrong), [])
  {
  }

  lemma ThreeTrail(t: seq<Event>)
    ensures t + [Wrong] + [Wrong] + [Wrong] == t + [Wrong, Wrong, Wrong]
    ensures Trailing(t + [Wrong, Wrong, Wrong]) == Trailing(t) + ATTEMPTS
  {
    TrailingMore(t, Wrong);
    TrailingMore(t + [Wrong], Wrong);
    TrailingMore(t + [Wrong] + [Wrong], Wrong);
    hide Trailing;
  }

  /** A run of three, step by step. */
  lemma RunThree(lib: Library, d: Device, ops: Ops)
    requires Lawful(lib) && WellFormed(d.mem.secrets) && AreOps(ops) && |ops| == 3 && NoStores(ops)
    ensures var d1 := Step(lib, d, ops[0].0, ops[0].1);
            WellFormed(d1.mem.secrets) && var d2 := Step(lib, d1, ops[1].0, ops[1].1);
            WellFormed(d2.mem.secrets) && Run(lib, d, ops) == Step(lib, d2, ops[2].0, ops[2].1)
    ensures StoresFresh(lib, d, ops)
  {
    hide *;
    var a, b := ops[1..], ops[1..][1..];
    assert a[0] == ops[1] && b[0] == ops[2] && b[1..] == [];
    RunStep(lib, d, ops);
    var d1 := Step(lib, d, ops[0].0, ops[0].1);
    RunStep(lib, d1, a);
    var d2 := Step(lib, d1, a[0].0, a[0].1);
    RunStep(lib, d2, b);
    RunNone(lib, Step(lib, d2, b[0].0, b[0].1), b[1..]);
    LastStores(ops);
  }

  lemma LastStores(ops: Ops)
    requires |ops| == 3 && NoStores(ops)
    ensures !ops[0].0.DoStore? && !ops[1].0.DoStore? && !ops[2].0.DoStore?
  {
  }

  lemma RunStep(lib: Library, d: Device, ops: Ops)
    requires Lawful(lib) && WellFormed(d.mem.secrets) && AreOps(ops) && ops != []
    ensures AreOps(ops[1..]) && WellFormed(Step(lib, d, ops[0].0, ops[0].1).mem.secrets)
    ensures Run(lib, d, ops) == Run(lib, Step(lib, d, ops[0].0, ops[0].1), ops[1..])
    ensures StoresFresh(lib, d, ops) <==>
              (ops[0].0.DoStore? ==> Fresh(d.chip)) && StoresFresh(lib, Step(lib, d, ops[0].0, ops[0].1), ops[1..])
  {
    StepWellFormed(lib, d, ops[0].0, ops[0].1);
    hide Step, WellFormed, Lawful, IsOp, Fresh;
  }

  lemma RunNone(lib: Library, d: Device, ops: Ops)
    requires Lawful(lib) && WellFormed(d.mem.secrets) && ops == []
    ensures AreOps(ops) && Run(lib, d, ops) == d && StoresFresh(lib, d, ops)
  {
  }

  /** Power goes between the counter and the blob of a store; then come three wrong keys. */
  function LostStore(key: seq<byte>, iv: seq<byte>, wrong: seq<byte>): (r: Ops)
  {
    [(DoStore(key, iv), [Fine, PowerLoss]), (DoSwitchOn, [])] + ThreeLoads(wrong)
  }

  /** The attempts made before the store are then forgotten, although the blob is still the same. */
  lemma StoreForgets(lib: Library, d: Device, key: seq<byte>, iv: seq<byte>, wrong: seq<byte>)
    requires Lawful(lib) && WellFormed(d.mem.secrets) && d.mem.secrets != NOTHING && d.chip.powered
    requires |key| == AES_KEY_LEN_256 && |iv| == AES_BLOCK_LEN && |wrong| == AES_KEY_LEN_256 && d.chip.blob.Some?
    requires Blocks(lib, d.chip.blob.value, wrong)
    ensures var d1 := Step(lib, d, DoStore(key, iv), [Fine, PowerLoss]);
            WellFormed(d1.mem.secrets) && StoresFresh(lib, d1, LostStore(key, iv, wrong)[1..])
    ensures Trailing(Run(lib, d, LostStore(key, iv, wrong)).chip.trace) == Trailing(d.chip.trace) + ATTEMPTS
    ensures Run(lib, d, LostStore(key, iv, wrong)).chip.trace == d.chip.trace + [Wrong, Wrong, Wrong]
  {
    var ops := LostStore(key, iv, wrong);
    assert ops[1..] == [(DoSwitchOn, [])] + ThreeLoads(wrong) && ops[1..][1..] == ThreeLoads(wrong);
    StepWellFormed(lib, d, DoStore(key, iv), [Fine, PowerLoss]);
    var d1 := Step(lib, d, DoStore(key, iv), [Fine, PowerLoss]);
    StoreLoses(lib, d, key, iv);
    StepWellFormed(lib, d1, DoSwitchOn, []);
    var d2 := Step(lib, d1, DoSwitchOn, []);
    hide Blocks, Store, WellFormed, Lawful, Trailing, ThreeLoads;
    ThreeWrong(lib, d2, wrong);
  }

  lemma StoreLoses(lib: Library, d: Device, key: seq<byte>, iv: seq<byte>)
    requires Lawful(lib) && WellFormed(d.mem.secrets) && d.mem.secrets != NOTHING && d.chip.powered
    requires |key| == AES_KEY_LEN_256
    ensures var c := Step(lib, d, DoStore(key, iv), [Fine, PowerLoss]).chip;
            c.counter == Some(ATTEMPTS) && c.blob == d.chip.blob && c.trace == d.chip.trace && !c.powered
  {
    LoadStored(lib, d.mem.secrets);
    hide Payload, Lawful, WellFormed, Seal, Loaded;
    var c := d.chip.(faults := [Fine, PowerLoss]);
    assert [Fine, PowerLoss][1..] == [PowerLoss] && [PowerLoss][1..] == [];
    var c1 := SetCounter(c, ATTEMPTS).0;
    assert c1 == c.(faults := [PowerLoss], counter := Some(ATTEMPTS));
    assert Attempt(c1) == (c1.(powered := false, faults := []), false, false);
  }

  /** A store, and after it a run of which every store is as it should be. */
  ghost predicate FreshAfter(lib: Library, d: Device, key: seq<byte>, iv: seq<byte>, faults: seq<Fault>, ops: Ops)
    requires Lawful(lib) && WellFormed(d.mem.secrets) && |iv| == AES_BLOCK_LEN
    ensures FreshAfter(lib, d, key, iv, faults, ops) ==> AreOps([(DoStore(key, iv), faults)] + ops)
  {
    StepWellFormed(lib, d, DoStore(key, iv), faults);
    AreOps(ops) && StoresFresh(lib, Step(lib, d, DoStore(key, iv), faults), ops)
  }

  /** After this store, whatever fails in it and whatever comes then, the attempts are kept to. */
  ghost predicate NeverTooMany(lib: Library, d: Device, key: seq<byte>, iv: seq<byte>)
    requires Lawful(lib) && WellFormed(d.mem.secrets) && |iv| == AES_BLOCK_LEN
  {
    forall ops: Ops, faults :: FreshAfter(lib, d, key, iv, faults, ops) ==>
      Bounded(Run(lib, d, [(DoStore(key, iv), faults)] + ops).chip.trace)
  }

  /** That is so exactly when there is no blob, or no wrong key has been tried on it. */
  lemma StoreSafeIff(lib: Library, d: Device, key: seq<byte>, iv: seq<byte>, wrong: seq<byte>)
    requires Lawful(lib) && WellFormed(d.mem.secrets) && d.mem.secrets != NOTHING && d.chip.powered && Safe(d.chip)
    requires |key| == AES_KEY_LEN_256 && |iv| == AES_BLOCK_LEN
    requires d.chip.blob.Some? ==> |wrong| == AES_KEY_LEN_256 && Blocks(lib, d.chip.blob.value, wrong)
    ensures NeverTooMany(lib, d, key, iv) <==> d.chip.blob.None? || Trailing(d.chip.trace) == 0
  {
    hide Safe, Trailing, Blocks, WellFormed, Lawful, Step, StoresFresh, Run;
    if d.chip.blob.None? || Trailing(d.chip.trace) == 0 {
      forall ops: Ops, faults | FreshAfter(lib, d, key, iv, faults, ops)
        ensures Bounded(Run(lib, d, [(DoStore(key, iv), faults)] + ops).chip.trace)
      {
        StepWellFormed(lib, d, DoStore(key, iv), faults);
        RunAfterStore(lib, d, key, iv, faults, ops);
      }
    } else {
      var ops := LostStore(key, iv, wrong);
      StoreForgets(lib, d, key, iv, wrong);
      StepWellFormed(lib, d, DoStore(key, iv), [Fine, PowerLoss]);
      assert ops == [(DoStore(key, iv), [Fine, PowerLoss])] + ops[1..];
      if Bounded(Run(lib, d, ops).chip.trace) { BoundedNow(Run(lib, d, ops).chip.trace); }
    }
  }

  lemma RunAfterStore(lib: Library, d: Device, key: seq<byte>, iv: seq<byte>, faults: seq<Fault>, ops: Ops)
    requires Lawful(lib) && WellFormed(d.mem.secrets) && |iv| == AES_BLOCK_LEN && Safe(d.chip)
    requires d.chip.blob.Some? ==> Trailing(d.chip.trace) == 0
    requires var d1 := Step(lib, d, DoStore(key, iv), faults);
             WellFormed(d1.mem.secrets) && AreOps(ops) && StoresFresh(lib, d1, ops)
    ensures AreOps([(DoStore(key, iv), faults)] + ops)
    ensures Bounded(Run(lib, d, [(DoStore(key, iv), faults)] + ops).chip.trace)
  {
    var all := [(DoStore(key, iv), faults)] + ops;
    assert all[1..] == ops;
    StoreStepSafe(lib, d, key, iv, faults);
    hide Safe, Trailing, WellFormed, Lawful, Step, StoresFresh;
    RunSafe(lib, Step(lib, d, DoStore(key, iv), faults), ops);
    AreAll(key, iv, faults, ops);
  }

  lemma AreAll(key: seq<byte>, iv: seq<byte>, faults: seq<Fault>, ops: Ops)
    requires |iv| == AES_BLOCK_LEN && AreOps(ops)
    ensures AreOps([(DoStore(key, iv), faults)] + ops)
  {
  }

  lemma StoreStepSafe(lib: Library, d: Device, key: seq<byte>, iv: seq<byte>, faults: seq<Fault>)
    requires WellFormed(d.mem.secrets) && Safe(d.chip) && (d.chip.blob.Some? ==> Trailing(d.chip.trace) == 0)
    ensures Safe(Step(lib, d, DoStore(key, iv), faults).chip)
  {
    hide Trailing, Bounded, SaveBlob, ClearRestriction, Payload, WellFormed;
    var d0 := d.(chip := d.chip.(faults := faults));
    if d0.mem.secrets != NOTHING {
      SaveSafe(lib, d0, key, Payload(lib, d0.mem.secrets), iv);
      ClearSafe(SaveBlob(lib, d0, key, Payload(lib, d0.mem.secrets), iv).0);
    }
  }

  /** n wrong keys. */
  function Wrongs(n: nat): (r: seq<Event>)
  {
    if n == 0 then [] else Wrongs(n - 1) + [Wrong]
  }

  lemma {:induction false} WrongsTrail(n: nat)
    requires n <= ATTEMPTS
    ensures Trailing(Wrongs(n)) == n && Bounded(Wrongs(n))
  {
    if n > 0 {
      WrongsTrail(n - 1);
      TrailingMore(Wrongs(n - 1), Wrong);
      BoundedMore(Wrongs(n - 1), Wrong);
    }
    hide Bounded;
  }

  /**
    What the caller can see before the call tells just that: a store is safe, whatever may have
    happened so far, if and only if there is no blob in flash or all attempts are left.
   */
  lemma FreshIff(lib: Library, d: Device, key: seq<byte>, iv: seq<byte>, wrong: seq<byte>)
    requires Lawful(lib) && WellFormed(d.mem.secrets) && d.mem.secrets != NOTHING && d.chip.powered
    requires |key| == AES_KEY_LEN_256 && |iv| == AES_BLOCK_LEN
    requires d.chip.blob.Some? ==> |wrong| == AES_KEY_LEN_256 && Blocks(lib, d.chip.blob.value, wrong)
    ensures Fresh(d.chip) <==>
              forall trace :: Safe(d.chip.(trace := trace)) ==>
                NeverTooMany(lib, d.(chip := d.chip.(trace := trace)), key, iv)
  {
    hide Trailing, Bounded, Blocks, WellFormed, Lawful, NeverTooMany;
    forall trace | Safe(d.chip.(trace := trace))
      ensures NeverTooMany(lib, d.(chip := d.chip.(trace := trace)), key, iv) <==>
                d.chip.blob.None? || Trailing(trace) == 0
    {
      StoreSafeIff(lib, d.(chip := d.chip.(trace := trace)), key, iv, wrong);
    }
    if !Fresh(d.chip) {
      var w := Wrongs(ATTEMPTS - Left(d.chip));
      WrongsTrail(ATTEMPTS - Left(d.chip));
      assert Safe(d.chip.(trace := w));
    }
  }

  /** A device never used before. */
  function New(): (r: Device)
  {
    SwitchOn(Chip(None, None, Unrestricted, true, [], Sealed([], [], []), []))
  }

  function Ones(n: nat): (r: seq<byte>)
    ensures |r| == n
  {
    seq(n, _ => 1)
  }

  /** Secrets are stored, and two wrong keys tried. */
  function FirstPart(): (r: Ops)
  {
    [(DoCache(Zeros(16)), []), (DoStore(Zeros(32), Zeros(16)), []), (DoSwitchOn, []), (DoLoad(Ones(32)), []),
     (DoLoad(Ones(32)), [])]
  }

  /** Everything is erased, but power goes between counter and blob; the user starts over, and the store is lost too. */
  function SecondPart(): (r: Ops)
  {
    [(DoErase, [Fine, PowerLoss]), (DoSwitchOn, []), (DoCache(Zeros(16)), [])] +
      LostStore(Zeros(32), Zeros(16), Ones(32))
  }

  lemma {:induction false} RunBoth(lib: Library, d: Device, a: Ops, b: Ops)
    requires Lawful(lib) && WellFormed(d.mem.secrets) && AreOps(a) && AreOps(b)
    ensures AreOps(a + b) && Run(lib, d, a + b) == Run(lib, Run(lib, d, a), b)
    decreases |a|
  {
    if a == [] {
      assert a + b == b;
    } else {
      StepWellFormed(lib, d, a[0].0, a[0].1);
      RunBoth(lib, Step(lib, d, a[0].0, a[0].1), a[1..], b);
      assert (a + b)[1..] == a[1..] + b && (a + b)[0] == a[0];
      assert AreOps(a + b);
    }
    hide Step, WellFormed, Lawful, IsOp;
  }

  /** The blob of the first part. */
  function FirstBlob(): (r: seq<byte>)
  {
    Seal(Plain(), Zeros(32), Zeros(16), Zeros(16))
  }

  lemma FirstBlocks()
    ensures Lawful(Plain()) && Blocks(Plain(), FirstBlob(), Ones(32))
  {
    PlainIsLawful();
    var s := Sealed(Zeros(32), Zeros(16), Zeros(16));
    LengthsFit();
    OpensToPayload(Plain(), FirstBlob(), s);
    assert Ones(32)[0] != Zeros(32)[0];
    OnlyRightKeyOpens(Plain(), Ones(32), FirstBlob(), s, AesPaddedLen(SERIALIZED_KEY_LEN));
    hide Seal, Open, Lawful, TellsKeys, Plain;
  }

  /** The flash of the first part: this counter, and these events. */
  function FirstChip(counter: Option<byte>, trace: seq<Event>): (r: Chip)
  {
    Chip(counter, Some(FirstBlob()), Unrestricted, true, [], Sealed(Zeros(32), Zeros(16), Zeros(16)), trace)
  }

  lemma FirstStored()
    requires Lawful(Plain())
    ensures AreOps(FirstPart()[..3]) && WellFormed(New().mem.secrets)
    ensures Run(Plain(), New(), FirstPart()[..3]) == SwitchOn(FirstChip(Some(3), [Stored]))
  {
    var ops := FirstPart()[..3];
    var e := Secrets(None, Zeros(16));
    assert ops == [(DoCache(Zeros(16)), []), (DoStore(Zeros(32), Zeros(16)), []), (DoSwitchOn, [])];
    hide Plain, Lawful, Seal;
    var d1 := Step(Plain(), New(), ops[0].0, []);
    assert d1 == New().(mem := New().mem.(secrets := e));
    FirstStore(d1);
    var d2 := Step(Plain(), d1, ops[1].0, []);
    RunSteps(Plain(), New(), ops);
  }

  lemma FirstStore(d: Device)
    requires d == New().(mem := New().mem.(secrets := Secrets(None, Zeros(16))))
    ensures Step(Plain(), d, DoStore(Zeros(32), Zeros(16)), []) ==
              Device(FirstChip(Some(3), [Stored]), d.mem.(has_blob := true))
  {
    hide Plain, Seal;
    var c := d.chip;
    assert [] + [Stored] == [Stored];
    assert Payload(Plain(), d.mem.secrets) == Zeros(16);
    assert SetBlob(c, FirstBlob(), Sealed(Zeros(32), Zeros(16), Zeros(16))) == (FirstChip(Some(3), [Stored]), true);
    hide SetBlob;
  }

  /** A run of three, without asking about stores. */
  lemma RunSteps(lib: Library, d: Device, ops: Ops)
    requires Lawful(lib) && WellFormed(d.mem.secrets) && AreOps(ops) && |ops| == 3
    ensures var d1 := Step(lib, d, ops[0].0, ops[0].1);
            WellFormed(d1.mem.secrets) && var d2 := Step(lib, d1, ops[1].0, ops[1].1);
            WellFormed(d2.mem.secrets) && Run(lib, d, ops) == Step(lib, d2, ops[2].0, ops[2].1)
  {
    hide *;
    var a, b := ops[1..], ops[1..][1..];
    assert a[0] == ops[1] && b[0] == ops[2] && b[1..] == [];
    RunStep(lib, d, ops);
    var d1 := Step(lib, d, ops[0].0, ops[0].1);
    RunStep(lib, d1, a);
    var d2 := Step(lib, d1, a[0].0, a[0].1);
    RunStep(lib, d2, b);
    RunNone(lib, Step(lib, d2, b[0].0, b[0].1), b[1..]);
  }

  /** One wrong key on the first blob. */
  lemma FirstWrong(n: byte, trace: seq<Event>)
    requires Lawful(Plain()) && Blocks(Plain(), FirstBlob(), Ones(32)) && 2 <= n <= 3
    ensures var d := Device(FirstChip(Some(n), trace), Memory(NOTHING, Unrestricted, true, false));
            Step(Plain(), d, DoLoad(Ones(32)), []) == d.(chip := FirstChip(Some(n - 1), trace + [Wrong]))
  {
    hide Plain, Open, EncryptedDataLen, AesPaddedLen, FirstBlob, Lawful;
  }

  lemma FirstDone()
    ensures Lawful(Plain()) && AreOps(FirstPart()) && WellFormed(New().mem.secrets)
    ensures Run(Plain(), New(), FirstPart()) ==
              Device(FirstChip(Some(1), [Stored, Wrong, Wrong]), Memory(NOTHING, Unrestricted, true, false))
  {
    FirstBlocks();
    FirstStored();
    var m := Memory(NOTHING, Unrestricted, true, false);
    var d3 := Device(FirstChip(Some(3), [Stored]), m);
    FirstWrong(3, [Stored]);
    FirstWrong(2, [Stored, Wrong]);
    assert [Stored] + [Wrong] == [Stored, Wrong] && [Stored, Wrong] + [Wrong] == [Stored, Wrong, Wrong];
    var rest := FirstPart()[3..];
    assert rest == [(DoLoad(Ones(32)), []), (DoLoad(Ones(32)), [])] && FirstPart() == FirstPart()[..3] + rest;
    assert rest[1..] == [(DoLoad(Ones(32)), [])] && rest[1..][1..] == [];
    assert SwitchOn(FirstChip(Some(3), [Stored])) == d3;
    hide Plain, Lawful, Blocks, FirstBlob, Step, FirstPart, FirstChip;
    RunStep(Plain(), d3, rest);
    var d4 := Device(FirstChip(Some(2), [Stored, Wrong]), m);
    RunStep(Plain(), d4, rest[1..]);
    RunNone(Plain(), Device(FirstChip(Some(1), [Stored, Wrong, Wrong]), m), rest[1..][1..]);
    RunBoth(Plain(), New(), FirstPart()[..3], rest);
  }

  lemma StartedOver()
    requires Lawful(Plain())
    ensures var d := Device(FirstChip(Some(1), [Stored, Wrong, Wrong]), Memory(NOTHING, Unrestricted, true, false));
            var ops := [(DoErase, [Fine, PowerLoss]), (DoSwitchOn, []), (DoCache(Zeros(16)), [])];
            AreOps(ops) && Run(Plain(), d, ops) ==
              Device(FirstChip(None, [Stored, Wrong, Wrong]),
                     Memory(Secrets(None, Zeros(16)), Unrestricted, false, false))
  {
    var d := Device(FirstChip(Some(1), [Stored, Wrong, Wrong]), Memory(NOTHING, Unrestricted, true, false));
    var ops := [(DoErase, [Fine, PowerLoss]), (DoSwitchOn, []), (DoCache(Zeros(16)), [])];
    hide Plain, Lawful, FirstBlob;
    assert [Fine, PowerLoss][1..] == [PowerLoss] && [PowerLoss][1..] == [];
    var c := d.chip.(faults := [Fine, PowerLoss]);
    assert EraseBlob(c) == c.(counter := None, faults := [], powered := false);
    RunSteps(Plain(), d, ops);
  }

  /**
    Five wrong keys in a row, with three attempts allowed: the count is lost with the power that
    goes in the middle of an erase, and then of a store.
   */
  lemma FiveWrongKeys()
    ensures Lawful(Plain()) && WellFormed(New().mem.secrets) && AreOps(FirstPart() + SecondPart())
    ensures Run(Plain(), New(), FirstPart() + SecondPart()).chip.trace == [Stored, Wrong, Wrong, Wrong, Wrong, Wrong]
    ensures Trailing([Stored, Wrong, Wrong, Wrong, Wrong, Wrong]) == 5
  {
    hide *;
    FirstDone();
    SecondDone();
    RunBoth(Plain(), New(), FirstPart(), SecondPart());
    FiveTrail();
  }

  lemma SecondDone()
    ensures var d := Device(FirstChip(Some(1), [Stored, Wrong, Wrong]), Memory(NOTHING, Unrestricted, true, false));
            Lawful(Plain()) && WellFormed(d.mem.secrets) && AreOps(SecondPart()) &&
            Run(Plain(), d, SecondPart()).chip.trace == [Stored, Wrong, Wrong, Wrong, Wrong, Wrong]
  {
    hide *;
    FirstBlocks();
    StartedOver();
    var t := [Stored, Wrong, Wrong];
    var m := Memory(Secrets(None, Zeros(16)), Unrestricted, false, false);
    var d := Device(FirstChip(None, t), m);
    var d1 := Device(FirstChip(Some(1), t), Memory(NOTHING, Unrestricted, true, false));
    var ops := [(DoErase, [Fine, PowerLoss]), (DoSwitchOn, []), (DoCache(Zeros(16)), [])];
    var lost := LostStore(Zeros(32), Zeros(16), Ones(32));
    SecondIs();
    ChipIs(None, t);
    StoreForgets(Plain(), d, Zeros(32), Zeros(16), Ones(32));
    LostAreOps();
    RunBoth(Plain(), d1, ops, lost);
    assert t + [Wrong, Wrong, Wrong] == [Stored, Wrong, Wrong, Wrong, Wrong, Wrong];
  }

  lemma SecondIs()
    ensures SecondPart() ==
              [(DoErase, [Fine, PowerLoss]), (DoSwitchOn, []), (DoCache(Zeros(16)), [])] +
                LostStore(Zeros(32), Zeros(16), Ones(32))
    ensures WellFormed(NOTHING) && WellFormed(Secrets(None, Zeros(16))) && Secrets(None, Zeros(16)) != NOTHING
    ensures AES_KEY_LEN_256 == 32 && AES_BLOCK_LEN == 16
  {
    assert |Zeros(16)| == 16;
  }

  lemma LostAreOps()
    ensures AreOps(LostStore(Zeros(32), Zeros(16), Ones(32)))
  {
  }

  lemma ChipIs(counter: Option<byte>, trace: seq<Event>)
    ensures var c := FirstChip(counter, trace); c.powered && c.blob == Some(FirstBlob()) && c.trace == trace
  {
    hide FirstBlob;
  }

  lemma FiveTrail()
    ensures Trailing([Stored, Wrong, Wrong, Wrong, Wrong, Wrong]) == 5
  {
    var t := [Stored, Wrong, Wrong];
    assert t == [Stored] + [Wrong] + [Wrong];
    TrailingMore([], Stored);
    assert [] + [Stored] == [Stored];
    TrailingMore([Stored], Wrong);
    TrailingMore([Stored] + [Wrong], Wrong);
    ThreeTrail(t);
    assert t + [Wrong, Wrong, Wrong] == [Stored, Wrong, Wrong, Wrong, Wrong, Wrong];
    hide Trailing;
  }

  // ------------------------------------------------------------------------------ what is stored can be loaded

  /** The blob in flash is what sealed says it is. */
  ghost predicate Holds(lib: Library, c: Chip)
  {
    c.blob.Some? ==> IsSeal(lib, c.blob.value, c.sealed)
  }

  /** This payload is in flash under this key, and there are attempts left. */
  ghost predicate StoredIn(lib: Library, d: Device, key: seq<byte>, payload: seq<byte>)
  {
    d.mem.has_blob && Left(d.chip) > 0 && d.chip.blob.Some? && Holds(lib, d.chip) && d.chip.sealed.key == key &&
    d.chip.sealed.payload == payload
  }

  /** Everything that is done with memory alone. */
  predicate Quiet(op: Op)
  {
    op.DoClear? || op.DoSet? || op.DoCache? || op.DoSwitchOn?
  }

  lemma QuietStep(lib: Library, d: Device, op: Op, faults: seq<Fault>, key: seq<byte>, payload: seq<byte>)
    requires WellFormed(d.mem.secrets) && IsOp(op) && Quiet(op) && StoredIn(lib, d, key, payload)
    ensures StoredIn(lib, Step(lib, d, op, faults), key, payload)
  {
    hide IsSeal, WellFormed, IsKeyData;
  }

  lemma {:induction false} QuietRun(lib: Library, d: Device, ops: Ops, key: seq<byte>, payload: seq<byte>)
    requires Lawful(lib) && WellFormed(d.mem.secrets) && AreOps(ops) && (forall i :: 0 <= i < |ops| ==> Quiet(ops[i].0))
    requires StoredIn(lib, d, key, payload)
    ensures StoredIn(lib, Run(lib, d, ops), key, payload)
    decreases |ops|
  {
    if ops != [] {
      StepWellFormed(lib, d, ops[0].0, ops[0].1);
      QuietStep(lib, d, ops[0].0, ops[0].1, key, payload);
      QuietRun(lib, Step(lib, d, ops[0].0, ops[0].1), ops[1..], key, payload);
    }
    hide Step, WellFormed, IsOp, Lawful, StoredIn;
  }

  lemma StoreHolds(lib: Library, d: Device, key: seq<byte>, iv: seq<byte>)
    requires Lawful(lib) && WellFormed(d.mem.secrets) && |iv| == AES_BLOCK_LEN && Store(lib, d, key, iv).1
    ensures d.mem.secrets != NOTHING && StoredIn(lib, Store(lib, d, key, iv).0, key, Payload(lib, d.mem.secrets))
    ensures Store(lib, d, key, iv).0.mem.secrets == d.mem.secrets
  {
    LoadStored(lib, d.mem.secrets);
    hide Payload, Lawful, WellFormed, Seal, Loaded;
    var p := Payload(lib, d.mem.secrets);
    AttemptKeeps(d.chip);
    AttemptKeeps(SetCounter(d.chip, ATTEMPTS).0);
    AttemptKeeps(SaveBlob(lib, d, key, p, iv).0.chip);
    hide Attempt;
  }

  /** With nothing in memory, and if nothing fails, the key finds the payload. */
  lemma LoadFinds(lib: Library, d: Device, key: seq<byte>, payload: seq<byte>)
    requires Lawful(lib) && StoredIn(lib, d, key, payload) && |key| == AES_KEY_LEN_256 && d.mem.secrets == NOTHING
    requires d.chip.powered && d.chip.faults == []
    requires Loaded(lib, payload).Some?
    ensures Load(lib, d, key).1 && Load(lib, d, key).0.mem.secrets == Loaded(lib, payload).value
  {
    OpensToPayload(lib, d.chip.blob.value, d.chip.sealed);
    LoadedLength(lib, payload);
    hide Lawful, Seal, Open, EncryptedDataLen, AesPaddedLen, Loaded, IsSeal, IsEntropy;
    var c1 := Decrement(d.chip).0;
    assert c1 == d.chip.(counter := Some(d.chip.counter.value - 1)) && Decrement(d.chip).1;
  }

  lemma LoadedLength(lib: Library, payload: seq<byte>)
    requires Loaded(lib, payload).Some?
    ensures IsEntropy(payload) || |payload| == SERIALIZED_KEY_LEN
  {
    hide Unserialize;
  }

  /** If nothing goes wrong, a load with this key brings these secrets back. */
  predicate Restores(lib: Library, d: Device, key: seq<byte>, s: Secrets)
  {
    var (d', ok) := Load(lib, d.(chip := d.chip.(faults := [])), key);
    ok && d'.mem.secrets == s
  }

  /**
    What was stored comes back: after a store, and whatever is done with memory, a load with the
    same key restores the entropy or else the keys, as soon as power is on and memory holds nothing.
    So it does after a clear, and after switching off and on.
   */
  lemma StoreThenLoad(lib: Library, d: Device, key: seq<byte>, iv: seq<byte>, ops: Ops)
    requires Lawful(lib) && WellFormed(d.mem.secrets) && |iv| == AES_BLOCK_LEN && Store(lib, d, key, iv).1
    requires AreOps(ops) && forall i :: 0 <= i < |ops| ==> Quiet(ops[i].0)
    ensures WellFormed(Store(lib, d, key, iv).0.mem.secrets)
    ensures var d' := Run(lib, Store(lib, d, key, iv).0, ops);
            d'.chip.powered ==>
              (d'.mem.secrets == NOTHING ==> Restores(lib, d', key, Kept(d.mem.secrets))) &&
              Restores(lib, Run(lib, Store(lib, d, key, iv).0, ops + [(DoClear, [])]), key, Kept(d.mem.secrets))
    ensures Restores(lib, Run(lib, Store(lib, d, key, iv).0, ops + [(DoSwitchOn, [])]), key, Kept(d.mem.secrets))
  {
    hide *;
    StoreHolds(lib, d, key, iv);
    StoreKey(lib, d, key, iv);
    LoadStored(lib, d.mem.secrets);
    var d1, p := Store(lib, d, key, iv).0, Payload(lib, d.mem.secrets);
    QuietRun(lib, d1, ops, key, p);
    var d2 := Run(lib, d1, ops);
    if d2.chip.powered && d2.mem.secrets == NOTHING { Comes(lib, d2, key, p); }
    if d2.chip.powered { OneMoreQuiet(lib, d1, ops, DoClear, key, p); }
    OneMoreQuiet(lib, d1, ops, DoSwitchOn, key, p);
  }

  /** The payload under this key comes back from where memory holds nothing. */
  lemma Comes(lib: Library, d: Device, key: seq<byte>, payload: seq<byte>)
    requires Lawful(lib) && StoredIn(lib, d, key, payload) && |key| == AES_KEY_LEN_256
    requires d.mem.secrets == NOTHING && d.chip.powered && Loaded(lib, payload).Some?
    ensures Restores(lib, d, key, Loaded(lib, payload).value)
  {
    hide Lawful, Load, Loaded, IsSeal;
    LoadFinds(lib, d.(chip := d.chip.(faults := [])), key, payload);
  }

  /** Memory is cleared, with power on, or lost, with power off. */
  lemma OneMoreQuiet(lib: Library, d: Device, ops: Ops, op: Op, key: seq<byte>, payload: seq<byte>)
    requires Lawful(lib) && WellFormed(d.mem.secrets) && StoredIn(lib, d, key, payload) && |key| == AES_KEY_LEN_256
    requires AreOps(ops) && (forall i :: 0 <= i < |ops| ==> Quiet(ops[i].0)) && Loaded(lib, payload).Some?
    requires op.DoSwitchOn? || (op.DoClear? && Run(lib, d, ops).chip.powered)
    ensures AreOps(ops + [(op, [])])
    ensures Restores(lib, Run(lib, d, ops + [(op, [])]), key, Loaded(lib, payload).value)
  {
    hide *;
    QuietRun(lib, d, ops, key, payload);
    var last: Ops := [(op, [])];
    JustOne(op);
    RunBoth(lib, d, ops, last);
    var d2 := Run(lib, d, ops);
    QuietRun(lib, d2, last, key, payload);
    RunStep(lib, d2, last);
    RunNone(lib, Step(lib, d2, op, []), last[1..]);
    MemoryEmpty(lib, d2, op);
    Comes(lib, Run(lib, d2, last), key, payload);
  }

  lemma JustOne(op: Op)
    requires op.DoClear? || op.DoSwitchOn?
    ensures var last: Ops := [(op, [])];
            AreOps(last) && (forall i :: 0 <= i < |last| ==> Quiet(last[i].0)) && last[1..] == []
  {
  }

  lemma MemoryEmpty(lib: Library, d: Device, op: Op)
    requires WellFormed(d.mem.secrets) && (op.DoSwitchOn? || (op.DoClear? && d.chip.powered))
    ensures var d' := Step(lib, d, op, []); d'.mem.secrets == NOTHING && d'.chip.powered
  {
  }

  lemma StoreKey(lib: Library, d: Device, key: seq<byte>, iv: seq<byte>)
    requires WellFormed(d.mem.secrets) && Store(lib, d, key, iv).1
    ensures |key| == AES_KEY_LEN_256
  {
    hide SaveBlob, ClearRestriction, WellFormed, Payload;
  }

  /** Spending an attempt leaves the blob as it is, or erases it. */
  lemma LoadBlobKeeps(lib: Library, d: Device, key: seq<byte>)
    requires Lawful(lib) && Holds(lib, d.chip)
    ensures var (d', p) := LoadBlob(lib, d, key);
            Holds(lib, d'.chip) && (d'.chip.blob == None || d'.chip.blob == d.chip.blob) &&
            d'.chip.sealed == d.chip.sealed &&
            (p.Some? ==> d'.chip.blob == d.chip.blob && d.mem.has_blob && d'.mem.has_blob) &&
            (p.Some? ==> d.chip.blob.Some? && |key| == AES_KEY_LEN_256) &&
            (p.Some? && key == d.chip.sealed.key ==> p.value == d.chip.sealed.payload)
  {
    if d.chip.blob.Some? { OpensToPayload(lib, d.chip.blob.value, d.chip.sealed); }
    if |key| == AES_KEY_LEN_256 && d.mem.has_blob {
      BlobDecrement(d.chip);
      var (c1, ok) := Decrement(d.chip);
      var (c2, blob) := GetBlob(c1, EncryptedDataLen(SERIALIZED_KEY_LEN));
      AttemptKeeps(c1);
      BlobErase(c2);
      if ok && blob.Some? && |blob.value| >= HMAC_SHA256_LEN + AES_BLOCK_LEN {
        var c3 := Check(lib, c2, key, blob.value).0;
        AttemptKeeps(c3);
        BlobErase(c3);
        AttemptKeeps(EraseBlob(c3));
      }
    }
    hide Lawful, Seal, Open, EncryptedDataLen, AesPaddedLen, IsSeal, Decrement, EraseBlob, Attempt;
  }

  lemma BlobErase(c: Chip)
    ensures var c' := EraseBlob(c); (c'.blob == None || c'.blob == c.blob) && c'.sealed == c.sealed
  {
    var (c1, done1, ok1) := Attempt(c);
    AttemptKeeps(c);
    AttemptKeeps(if done1 then c1.(counter := None) else c1);
    hide Attempt;
  }

  lemma BlobDecrement(c: Chip)
    ensures var (c', ok) := Decrement(c);
            (c'.blob == None || c'.blob == c.blob) && c'.sealed == c.sealed && (ok ==> c'.blob == c.blob)
  {
    BlobErase(c);
    AttemptKeeps(c);
    if Left(c) > 0 { BlobErase(SetCounter(c, c.counter.value - 1).0); }
    hide Attempt, EraseBlob;
  }

  /** A save that goes through leaves its payload under its key, one that does not leaves that or what was there. */
  lemma SaveHolds(lib: Library, d: Device, key: seq<byte>, payload: seq<byte>, iv: seq<byte>)
    requires Lawful(lib) && Holds(lib, d.chip) && |iv| == AES_BLOCK_LEN
    ensures var (d', ok) := SaveBlob(lib, d, key, payload, iv);
            Holds(lib, d'.chip) && d'.mem == d.mem && (ok ==> |key| == AES_KEY_LEN_256) &&
            (ok ==> d'.chip.blob.Some? && d'.chip.sealed == Sealed(key, iv, payload) && Left(d'.chip) == ATTEMPTS) &&
            ((d'.chip.blob == d.chip.blob && d'.chip.sealed == d.chip.sealed) ||
             d'.chip.sealed == Sealed(key, iv, payload))
  {
    AttemptKeeps(d.chip);
    AttemptKeeps(SetCounter(d.chip, ATTEMPTS).0);
    hide Attempt, Lawful, Seal;
  }

  /** After a re-encryption, a load with the new key gives what one with the old key would have. */
  lemma ReencryptThenLoad(lib: Library, d: Device, curr: seq<byte>, new_key: seq<byte>, iv: seq<byte>)
    requires Lawful(lib) && Holds(lib, d.chip) && |iv| == AES_BLOCK_LEN && d.chip.blob.Some?
    requires curr == d.chip.sealed.key
    requires Reencrypt(lib, d, curr, new_key, iv).1 && Loaded(lib, d.chip.sealed.payload).Some?
    ensures var d1 := SwitchOn(d.chip.(faults := []));
            var d2 := SwitchOn(Reencrypt(lib, d, curr, new_key, iv).0.chip.(faults := []));
            Load(lib, d2, new_key).1 && Load(lib, d1, curr).1 &&
            Load(lib, d2, new_key).0.mem.secrets == Load(lib, d1, curr).0.mem.secrets
  {
    var p := d.chip.sealed.payload;
    if Left(d.chip) == 0 { UsedUpLoad(lib, d, curr); }
    LoadBlobKeeps(lib, d, curr);
    var d' := LoadBlob(lib, d, curr).0;
    SaveHolds(lib, d', new_key, p, iv);
    var d1 := SwitchOn(d.chip.(faults := []));
    var d2 := SwitchOn(Reencrypt(lib, d, curr, new_key, iv).0.chip.(faults := []));
    hide Lawful, Seal, Open, EncryptedDataLen, AesPaddedLen, IsSeal, LoadBlob, SaveBlob, Load, Loaded;
    assert StoredIn(lib, d2, new_key, p);
    LoadFinds(lib, d2, new_key, p);
    assert StoredIn(lib, d1, curr, p);
    LoadFinds(lib, d1, curr, p);
  }

  /** A key that is not the blob's never gets anything out of it, if the HMAC tells keys apart. */
  lemma WrongKeyGetsNothing(lib: Library, d: Device, key: seq<byte>)
    requires Lawful(lib) && TellsKeys(lib) && Holds(lib, d.chip)
    requires |key| == AES_KEY_LEN_256 && |d.chip.sealed.key| == AES_KEY_LEN_256 && key != d.chip.sealed.key
    ensures LoadBlob(lib, d, key).1 == None && !Load(lib, d, key).1 && Load(lib, d, key).0.mem.secrets == d.mem.secrets
  {
    MemKept(lib, d, key);
    if d.chip.blob.Some? {
      OpensToPayload(lib, d.chip.blob.value, d.chip.sealed);
      LengthsFit();
      OnlyRightKeyOpens(lib, key, d.chip.blob.value, d.chip.sealed, AesPaddedLen(SERIALIZED_KEY_LEN));
    }
    BlobDecrement(d.chip);
    AttemptKeeps(Decrement(d.chip).0);
    hide Lawful, TellsKeys, Seal, Open, EncryptedDataLen, AesPaddedLen, IsSeal, Decrement, EraseBlob, Attempt, Loaded;
  }
}
