/**
  Records of descriptor registrations: a script and the strings it refers to.
 */
module Descriptor {
  import opened Wrappers
  import opened Bits
  import opened Vault
  import opened Records

  const CURRENT_DESCRIPTOR_RECORD_VERSION: byte := 0
  /** What the reader asks of its callers; the HMAC is not counted. */
  const MIN_DESCRIPTOR_BYTES_LEN: nat := 2 + 2 + 4 + 1
  const MAX_DESCRIPTOR_SCRIPT_LEN: nat := 512
  const MAX_KEY_LEN: nat := 16
  const MAX_VALUE_LEN: nat := 160

  datatype StringValue = StringValue(key: seq<byte>, value: seq<byte>)

  datatype DescriptorData = DescriptorData(script: seq<byte>, values: seq<StringValue>, kind: byte)

  /** No string is longer than its buffer. */
  predicate IsStringValue(v: StringValue)
  {
    |v.key| <= MAX_KEY_LEN && |v.value| <= MAX_VALUE_LEN
  }

  /** No string is longer than its buffer, and the number of values fits in a byte. */
  predicate IsRecord(d: DescriptorData)
  {
    |d.script| <= MAX_DESCRIPTOR_SCRIPT_LEN && |d.values| < 256 &&
    forall i :: 0 <= i < |d.values| ==> IsStringValue(d.values[i])
  }

  /** What is written: the values are no more than there is room for. */
  predicate IsDescriptor(d: DescriptorData)
  {
    IsRecord(d) && d.script != [] && |d.values| <= MAX_ALLOWED_SIGNERS
  }

  /** The k-th value has its place, and its strings leave room for their terminators. */
  predicate ValueFits(v: StringValue, k: nat)
  {
    k < MAX_ALLOWED_SIGNERS && |v.key| < MAX_KEY_LEN && |v.value| < MAX_VALUE_LEN
  }

  predicate ValuesFit(values: seq<StringValue>, i: nat)
  {
    forall k :: 0 <= k < |values| ==> ValueFits(values[k], i + k)
  }

  /** All that is read has its place. */
  predicate Fits(d: DescriptorData)
  {
    |d.script| < MAX_DESCRIPTOR_SCRIPT_LEN && ValuesFit(d.values, 0)
  }

  function ValuesLen(values: seq<StringValue>): (r: nat)
  {
    if values == [] then 0
    else ValuesLen(values[..|values| - 1]) + |values[|values| - 1].key| + |values[|values| - 1].value|
  }

  /** Total length of the strings. */
  method StringValuesLen(values: seq<StringValue>) returns (len: nat)
    ensures len == ValuesLen(values)
  {
    len := 0;
    var i := 0;
    while i < |values|
      invariant 0 <= i <= |values| && len == ValuesLen(values[..i])
    {
      assert values[..i + 1][..i] == values[..i];
      len := len + |values[i].key| + |values[i].value|;
      i := i + 1;
    }
    assert values[..|values|] == values;
  }

  function DescriptorBytesLen(d: DescriptorData): (r: nat)
  {
    2 + 2 + |d.script| + 1 + |d.values| * 2 * 2 + ValuesLen(d.values) + HMAC_SHA256_LEN
  }

  // ------------------------------------------------------------------------------ layout

  /** A length and a string. */
  function Counted(s: seq<byte>): (r: seq<byte>)
    requires |s| < 65536
    ensures |r| == 2 + |s|
  {
    Le2(|s|) + s
  }

  function ValueBytes(v: StringValue): (r: seq<byte>)
    requires IsStringValue(v)
    ensures |r| == 4 + |v.key| + |v.value|
  {
    Counted(v.key) + Counted(v.value)
  }

  function ValuesBytes(values: seq<StringValue>): (r: seq<byte>)
    requires forall i :: 0 <= i < |values| ==> IsStringValue(values[i])
    ensures |r| == 4 * |values| + ValuesLen(values)
  {
    if values == [] then [] else ValuesBytes(values[..|values| - 1]) + ValueBytes(values[|values| - 1])
  }

  function Body(d: DescriptorData): (r: seq<byte>)
    requires IsRecord(d)
    ensures |r| + HMAC_SHA256_LEN == DescriptorBytesLen(d)
  {
    [CURRENT_DESCRIPTOR_RECORD_VERSION, d.kind] + (Counted(d.script) + ([|d.values|] + ValuesBytes(d.values)))
  }

  // ------------------------------------------------------------------------------ writing

  method PutCounted(output: array<byte>, write_ptr: nat, s: seq<byte>) returns (next: nat)
    requires |s| < 65536 && write_ptr + 2 + |s| <= output.Length
    modifies output
    ensures next == write_ptr + 2 + |s| && output[..next] == old(output[..write_ptr]) + Counted(s)
  {
    ghost var o := output[..write_ptr];
    hide Le2;
    PutBytes(output, write_ptr, Le2(|s|));
    PutBytes(output, write_ptr + 2, s);
    next := write_ptr + 2 + |s|;
    assert (o + Le2(|s|)) + s == o + (Le2(|s|) + s);
  }

  method PutValues(output: array<byte>, write_ptr0: nat, values: seq<StringValue>) returns (write_ptr: nat)
    requires forall i :: 0 <= i < |values| ==> IsStringValue(values[i])
    requires write_ptr0 + 4 * |values| + ValuesLen(values) <= output.Length
    modifies output
    ensures write_ptr == write_ptr0 + |ValuesBytes(values)|
    ensures output[..write_ptr] == old(output[..write_ptr0]) + ValuesBytes(values)
  {
    hide *;
    ghost var o := output[..write_ptr0];
    write_ptr := write_ptr0;
    var i := 0;
    NoValues(values, o);
    while i < |values|
      invariant 0 <= i <= |values| && write_ptr == write_ptr0 + |ValuesBytes(values[..i])| <= output.Length
      invariant output[..write_ptr] == o + ValuesBytes(values[..i])
    {
      LenSoFar(values, i + 1);
      ValuesMore(values, i, o);
      write_ptr := PutCounted(output, write_ptr, values[i].key);
      write_ptr := PutCounted(output, write_ptr, values[i].value);
      i := i + 1;
    }
    assert values[..|values|] == values;
  }

  lemma NoValues(values: seq<StringValue>, o: seq<byte>)
    ensures |values[..0]| == 0 && ValuesBytes(values[..0]) == [] && o + [] == o
  {
  }

  lemma ValuesMore(values: seq<StringValue>, i: nat, o: seq<byte>)
    requires i < |values| && forall k :: 0 <= k < |values| ==> IsStringValue(values[k])
    ensures |values[i].key| < 65536 && |values[i].value| < 65536
    ensures ValuesLen(values[..i + 1]) == ValuesLen(values[..i]) + |values[i].key| + |values[i].value|
    ensures |ValuesBytes(values[..i + 1])| == 4 * (i + 1) + ValuesLen(values[..i + 1])
    ensures |ValuesBytes(values[..i])| == 4 * i + ValuesLen(values[..i])
    ensures ((o + ValuesBytes(values[..i])) + Counted(values[i].key)) + Counted(values[i].value) ==
              o + ValuesBytes(values[..i + 1])
  {
    assert values[..i + 1][..i] == values[..i];
    hide Counted;
    var a, b, c := ValuesBytes(values[..i]), Counted(values[i].key), Counted(values[i].value);
    assert ((o + a) + b) + c == o + (a + (b + c));
  }

  lemma {:induction false} LenSoFar(values: seq<StringValue>, i: nat)
    requires i <= |values|
    ensures ValuesLen(values[..i]) <= ValuesLen(values)
    decreases |values| - i
  {
    if i < |values| {
      LenSoFar(values, i + 1);
      assert values[..i + 1][..i] == values[..i];
    } else {
      assert values[..i] == values;
    }
  }

  /** Writes a record: exactly as many bytes as there is room for. */
  method DescriptorToBytes(lib: Services, d: DescriptorData, output: array<byte>) returns (ok: bool)
    requires IsDescriptor(d) && output.Length == DescriptorBytesLen(d)
    requires forall m :: lib.hmac(m).Some? ==> |lib.hmac(m).value| == HMAC_SHA256_LEN
    modifies output
    ensures ok <==> lib.hmac(Body(d)).Some?
    ensures ok ==> output[..] == Body(d) + lib.hmac(Body(d)).value
  {
    hide Counted, ValuesBytes, ValuesLen, IsStringValue;
    var head: seq<byte> := [CURRENT_DESCRIPTOR_RECORD_VERSION, d.kind];
    assert output[..0] == [] && [] + head == head;
    PutBytes(output, 0, head);
    var write_ptr := PutCounted(output, 2, d.script);
    PutBytes(output, write_ptr, [|d.values|]);
    write_ptr := write_ptr + 1;
    write_ptr := PutValues(output, write_ptr, d.values);
    assert output[..write_ptr] == Body(d);
    ok := PutMac(lib, output, write_ptr);
  }

  // ------------------------------------------------------------------------------ reading

  /**
    What becomes of reading a record: it stands for something, it is refused, the assertion at its
    end fails, or the reader leaves one of its buffers.
   */
  datatype Outcome = Loaded(data: DescriptorData) | Refused | Halted | Strayed

  datatype Piece<T> = Got(value: T, rest: seq<byte>) | TooLong | Beyond

  /** A length within the limit, and so many bytes, to a buffer of that limit with a terminator behind them. */
  function ReadCounted(b: seq<byte>, max: nat): (r: Piece<seq<byte>>)
    ensures r.Got? ==> |r.rest| < |b|
  {
    if |b| < 2 then Beyond
    else
      var len := FromLe2(b[..2]);
      if len > max then TooLong
      else if |b| < 2 + len || len == max then Beyond
      else Got(b[2..2 + len], b[2 + len..])
  }

  /** The values from the i-th up to the n-th. */
  function ReadValues(b: seq<byte>, i: nat, n: nat): (r: Piece<seq<StringValue>>)
    decreases n - i
  {
    if i >= n then Got([], b)
    else if i >= MAX_ALLOWED_SIGNERS then Beyond
    else
      match ReadCounted(b, MAX_KEY_LEN)
      case TooLong => TooLong
      case Beyond => Beyond
      case Got(key, b1) =>
        match ReadCounted(b1, MAX_VALUE_LEN)
        case TooLong => TooLong
        case Beyond => Beyond
        case Got(value, b2) =>
          match ReadValues(b2, i + 1, n)
          case TooLong => TooLong
          case Beyond => Beyond
          case Got(values, rest) => Got([StringValue(key, value)] + values, rest)
  }

  /** A record with its HMAC, which nothing but the HMAC is to be left of. */
  function ReadBody(b: seq<byte>): (r: Outcome)
    requires |b| >= HMAC_SHA256_LEN
  {
    match ReadCounted(b[2..], MAX_DESCRIPTOR_SCRIPT_LEN)
    case TooLong => Refused
    case Beyond => Strayed
    case Got(script, b1) =>
      if b1 == [] then Strayed
      else
        match ReadValues(b1[1..], 0, b1[0] as nat)
        case TooLong => Refused
        case Beyond => Strayed
        case Got(values, rest) =>
          if |rest| != HMAC_SHA256_LEN then Halted else Loaded(DescriptorData(script, values, b[1]))
  }

  /** The bytes end with the HMAC of those before it. There is none of no bytes. */
  predicate Authentic(lib: Services, bytes: seq<byte>)
    requires |bytes| >= HMAC_SHA256_LEN
  {
    var n := |bytes| - HMAC_SHA256_LEN;
    n > 0 && lib.hmac(bytes[..n]) == Some(bytes[n..])
  }

  function ReadRecord(lib: Services, bytes: seq<byte>): (r: Outcome)
    requires |bytes| >= MIN_DESCRIPTOR_BYTES_LEN
  {
    if |bytes| < HMAC_SHA256_LEN then Strayed
    else if !Authentic(lib, bytes) || bytes[0] > CURRENT_DESCRIPTOR_RECORD_VERSION then Refused
    else ReadBody(bytes)
  }

  /** Reads a record, string after string. */
  method DescriptorFromBytes(lib: Services, bytes: seq<byte>) returns (r: Outcome)
    requires |bytes| >= MIN_DESCRIPTOR_BYTES_LEN
    ensures r == ReadRecord(lib, bytes)
  {
    hide ReadCounted, ReadValues, Authentic;
    if |bytes| < HMAC_SHA256_LEN {
      // The length without the HMAC wraps around, and all of memory is read.
      return Strayed;
    }
    if !Authentic(lib, bytes) || bytes[0] > CURRENT_DESCRIPTOR_RECORD_VERSION {
      return Refused;
    }
    var kind := bytes[1];
    var script := ReadCounted(bytes[2..], MAX_DESCRIPTOR_SCRIPT_LEN);
    if !script.Got? {
      return if script.TooLong? then Refused else Strayed;
    }
    var b1 := script.rest;
    if b1 == [] {
      return Strayed;
    }
    var num_values: nat, rest, values := b1[0], b1[1..], [];
    var i := 0;
    NoneBefore(rest, num_values);
    while i < num_values
      invariant 0 <= i <= num_values
      invariant ReadValues(b1[1..], 0, num_values) == After(values, ReadValues(rest, i, num_values))
    {
      ValuesStep(values, rest, i, num_values);
      if i >= MAX_ALLOWED_SIGNERS {
        return Strayed;
      }
      var key := ReadCounted(rest, MAX_KEY_LEN);
      if !key.Got? {
        return if key.TooLong? then Refused else Strayed;
      }
      var value := ReadCounted(key.rest, MAX_VALUE_LEN);
      if !value.Got? {
        return if value.TooLong? then Refused else Strayed;
      }
      values := values + [StringValue(key.value, value.value)];
      rest := value.rest;
      i := i + 1;
    }
    AllRead(values, rest, num_values);
    r := if |rest| != HMAC_SHA256_LEN then Halted else Loaded(DescriptorData(script.value, values, kind));
  }

  ghost function After(values: seq<StringValue>, r: Piece<seq<StringValue>>): (x: Piece<seq<StringValue>>)
  {
    if r.Got? then Got(values + r.value, r.rest) else r
  }

  lemma NoneBefore(b: seq<byte>, n: nat)
    ensures ReadValues(b, 0, n) == After([], ReadValues(b, 0, n))
  {
    var r := ReadValues(b, 0, n);
    if r.Got? { assert [] + r.value == r.value; }
  }

  lemma AllRead(values: seq<StringValue>, b: seq<byte>, n: nat)
    ensures After(values, ReadValues(b, n, n)) == Got(values, b)
  {
    assert values + [] == values;
  }

  /** One more string and its key. */
  lemma ValuesStep(values: seq<StringValue>, b: seq<byte>, i: nat, n: nat)
    requires i < n
    ensures After(values, ReadValues(b, i, n)) ==
            if i >= MAX_ALLOWED_SIGNERS then Beyond
            else
              match ReadCounted(b, MAX_KEY_LEN)
              case TooLong => TooLong
              case Beyond => Beyond
              case Got(key, b1) =>
                match ReadCounted(b1, MAX_VALUE_LEN)
                case TooLong => TooLong
                case Beyond => Beyond
                case Got(value, b2) => After(values + [StringValue(key, value)], ReadValues(b2, i + 1, n))
  {
    hide ReadCounted;
    var key := ReadCounted(b, MAX_KEY_LEN);
    if i < MAX_ALLOWED_SIGNERS && key.Got? {
      var value := ReadCounted(key.rest, MAX_VALUE_LEN);
      if value.Got? && ReadValues(value.rest, i + 1, n).Got? {
        var v, more := StringValue(key.value, value.value), ReadValues(value.rest, i + 1, n).value;
        assert values + ([v] + more) == (values + [v]) + more;
      }
    }
  }

  // ------------------------------------------------------------------------------ there and back

  lemma CountedBack(s: seq<byte>, rest: seq<byte>, max: nat)
    requires |s| <= max < 65536
    ensures ReadCounted(Counted(s) + rest, max) == if |s| == max then Beyond else Got(s, rest)
  {
    Le2Back(|s|);
    hide Le2, FromLe2;
    var b := Counted(s) + rest;
    assert b[..2] == Le2(|s|) && b[2..2 + |s|] == s && b[2 + |s|..] == rest;
  }

  lemma ValuesLast(values: seq<StringValue>)
    requires values != [] && forall i :: 0 <= i < |values| ==> IsStringValue(values[i])
    ensures ValuesBytes(values) == ValuesBytes(values[..|values| - 1]) + ValueBytes(values[|values| - 1])
  {
    hide ValueBytes, IsStringValue;
  }

  lemma {:induction false} ValuesFront(values: seq<StringValue>)
    requires values != [] && forall i :: 0 <= i < |values| ==> IsStringValue(values[i])
    ensures ValuesBytes(values) == ValueBytes(values[0]) + ValuesBytes(values[1..])
    decreases |values|
  {
    hide ValueBytes, IsStringValue;
    var m := |values| - 1;
    if m == 0 {
      assert values[..0] == [] && values[1..] == [];
    } else {
      ValuesFront(values[..m]);
      assert values[..m][1..] == values[1..][..m - 1];
      ValuesLast(values);
      ValuesLast(values[1..]);
      hide ValuesBytes;
      Reassociate(ValueBytes(values[0]), ValuesBytes(values[..m][1..]), ValueBytes(values[m]));
    }
  }

  lemma Reassociate(a: seq<byte>, b: seq<byte>, c: seq<byte>)
    ensures a + (b + c) == (a + b) + c
  {
  }

  /** The values read back if all of them have their places, and otherwise the reader leaves its buffers. */
  lemma {:induction false} ValuesBack(values: seq<StringValue>, i: nat, rest: seq<byte>)
    requires forall k :: 0 <= k < |values| ==> IsStringValue(values[k])
    ensures ReadValues(ValuesBytes(values) + rest, i, i + |values|) ==
            if ValuesFit(values, i) then Got(values, rest) else Beyond
    decreases |values|
  {
    hide *;
    if values == [] {
      NoneBack(values, i, rest);
    } else {
      assert forall k :: 0 <= k < |values[1..]| ==> values[1..][k] == values[k + 1];
      ValuesBack(values[1..], i + 1, rest);
      OneMoreBack(values, i, rest);
    }
  }

  lemma NoneBack(values: seq<StringValue>, i: nat, rest: seq<byte>)
    requires values == []
    ensures ValuesFit(values, i) && ReadValues(ValuesBytes(values) + rest, i, i + |values|) == Got(values, rest)
  {
    assert ValuesBytes(values) + rest == rest;
  }

  lemma OneMoreBack(values: seq<StringValue>, i: nat, rest: seq<byte>)
    requires values != [] && forall k :: 0 <= k < |values| ==> IsStringValue(values[k])
    requires forall k :: 0 <= k < |values[1..]| ==> IsStringValue(values[1..][k])
    requires ReadValues(ValuesBytes(values[1..]) + rest, i + 1, (i + 1) + |values[1..]|) ==
             if ValuesFit(values[1..], i + 1) then Got(values[1..], rest) else Beyond
    ensures ReadValues(ValuesBytes(values) + rest, i, i + |values|) ==
            if ValuesFit(values, i) then Got(values, rest) else Beyond
  {
    hide *;
    var v, more := values[0], ValuesBytes(values[1..]) + rest;
    assert (i + 1) + |values[1..]| == i + |values| && [v] + values[1..] == values;
    ValuesFront(values);
    ValueIs(v);
    FirstFits(values, i);
    Regroup(Counted(v.key), Counted(v.value), ValuesBytes(values[1..]), rest);
    CountedBack(v.key, Counted(v.value) + more, MAX_KEY_LEN);
    CountedBack(v.value, more, MAX_VALUE_LEN);
    ReadsValue(ValuesBytes(values) + rest, i, i + |values|, v, Counted(v.value) + more, more);
  }

  lemma FirstFits(values: seq<StringValue>, i: nat)
    requires values != []
    ensures ValuesFit(values, i) <==> ValueFits(values[0], i) && ValuesFit(values[1..], i + 1)
  {
    hide ValueFits;
    if ValueFits(values[0], i) && ValuesFit(values[1..], i + 1) {
      forall k | 0 <= k < |values| ensures ValueFits(values[k], i + k) {
        if k > 0 { assert ValueFits(values[1..][k - 1], i + 1 + (k - 1)); }
      }
    }
    if ValuesFit(values, i) {
      assert ValueFits(values[0], i + 0);
      forall k | 0 <= k < |values[1..]| ensures ValueFits(values[1..][k], i + 1 + k) {
        assert ValueFits(values[k + 1], i + (k + 1));
      }
    }
  }

  lemma Regroup(a: seq<byte>, b: seq<byte>, c: seq<byte>, d: seq<byte>)
    ensures ((a + b) + c) + d == a + (b + (c + d))
  {
  }

  lemma ValueIs(v: StringValue)
    requires IsStringValue(v)
    ensures |v.key| <= MAX_KEY_LEN < 65536 && |v.value| <= MAX_VALUE_LEN < 65536
    ensures ValueBytes(v) == Counted(v.key) + Counted(v.value)
  {
    hide Counted;
  }

  lemma ReadsValue(b: seq<byte>, i: nat, n: nat, v: StringValue, b1: seq<byte>, b2: seq<byte>)
    requires i < n
    requires ReadCounted(b, MAX_KEY_LEN) == if |v.key| == MAX_KEY_LEN then Beyond else Got(v.key, b1)
    requires ReadCounted(b1, MAX_VALUE_LEN) == if |v.value| == MAX_VALUE_LEN then Beyond else Got(v.value, b2)
    requires IsStringValue(v)
    ensures !ValueFits(v, i) ==> ReadValues(b, i, n) == Beyond
    ensures ValueFits(v, i) && ReadValues(b2, i + 1, n) == Beyond ==> ReadValues(b, i, n) == Beyond
    ensures ValueFits(v, i) && ReadValues(b2, i + 1, n).Got? ==>
              ReadValues(b, i, n) == Got([v] + ReadValues(b2, i + 1, n).value, ReadValues(b2, i + 1, n).rest)
  {
    hide ReadCounted;
  }

  /**
    A record that no string is too long in reads back whole if all of it has its place, and
    otherwise makes the reader leave its buffers: by a sixteenth value, or by the terminator of a
    string as long as its buffer. Those that are written may have such strings, but no such value.
   */
  lemma RecordBack(lib: Services, d: DescriptorData)
    requires IsRecord(d) && lib.hmac(Body(d)).Some? && |lib.hmac(Body(d)).value| == HMAC_SHA256_LEN
    ensures var r := Body(d) + lib.hmac(Body(d)).value;
            |r| == DescriptorBytesLen(d) >= MIN_DESCRIPTOR_BYTES_LEN &&
            ReadRecord(lib, r) == if Fits(d) then Loaded(d) else Strayed
  {
    hide *;
    BodyIs(d);
    var b, mac := Body(d), lib.hmac(Body(d)).value;
    var values: seq<byte> := [|d.values| as byte] + (ValuesBytes(d.values) + mac);
    AuthenticNow(lib, b, mac);
    CountedBack(d.script, values, MAX_DESCRIPTOR_SCRIPT_LEN);
    assert (b + mac)[2..] == Counted(d.script) + values && (b + mac)[1] == d.kind && (b + mac)[0] == 0;
    assert values[1..] == ValuesBytes(d.values) + mac && values[0] == |d.values|;
    ValuesBack(d.values, 0, mac);
    ReadsBody(lib, b + mac, d, values, mac);
  }

  lemma AuthenticNow(lib: Services, b: seq<byte>, mac: seq<byte>)
    requires b != [] && lib.hmac(b) == Some(mac) && |mac| == HMAC_SHA256_LEN
    ensures Authentic(lib, b + mac)
  {
    assert (b + mac)[..|b|] == b && (b + mac)[|b|..] == mac;
  }

  lemma BodyIs(d: DescriptorData)
    requires IsRecord(d)
    ensures |d.values| < 256 && |d.script| <= MAX_DESCRIPTOR_SCRIPT_LEN < 65536 && HMAC_SHA256_LEN == 32
    ensures MIN_DESCRIPTOR_BYTES_LEN == 9
    ensures forall i :: 0 <= i < |d.values| ==> IsStringValue(d.values[i])
    ensures Body(d) == [0, d.kind] + (Counted(d.script) + ([|d.values| as byte] + ValuesBytes(d.values)))
    ensures |Body(d)| >= 3 && |Body(d)| + 32 == DescriptorBytesLen(d)
  {
    hide Counted, ValuesBytes, IsStringValue;
  }

  lemma ReadsBody(lib: Services, r: seq<byte>, d: DescriptorData, b1: seq<byte>, mac: seq<byte>)
    requires |r| >= HMAC_SHA256_LEN && |r| >= MIN_DESCRIPTOR_BYTES_LEN && Authentic(lib, r) && r[0] == 0
    requires r[1] == d.kind && IsRecord(d)
    requires ReadCounted(r[2..], MAX_DESCRIPTOR_SCRIPT_LEN) ==
             if |d.script| == MAX_DESCRIPTOR_SCRIPT_LEN then Beyond else Got(d.script, b1)
    requires b1 != [] && |mac| == HMAC_SHA256_LEN
    requires ReadValues(b1[1..], 0, b1[0] as nat) ==
             if ValuesFit(d.values, 0) then Got(d.values, mac) else Beyond
    ensures ReadRecord(lib, r) == if Fits(d) then Loaded(d) else Strayed
  {
    hide ReadCounted, ReadValues, Authentic, ValuesFit, IsStringValue;
  }

  /**
    Exactly when reading leaves its buffers: if there are fewer bytes than an HMAC has, or if the
    HMAC is right and what it was made for has no place. d is what it was made for.
   */
  lemma StraysIff(lib: Services, bytes: seq<byte>, d: DescriptorData)
    requires |bytes| >= MIN_DESCRIPTOR_BYTES_LEN
    requires |bytes| >= HMAC_SHA256_LEN && Authentic(lib, bytes) ==>
               IsRecord(d) && bytes[..|bytes| - HMAC_SHA256_LEN] == Body(d)
    ensures ReadRecord(lib, bytes) == Strayed <==>
              |bytes| < HMAC_SHA256_LEN || (Authentic(lib, bytes) && !Fits(d))
  {
    if |bytes| >= HMAC_SHA256_LEN && Authentic(lib, bytes) {
      var n := |bytes| - HMAC_SHA256_LEN;
      assert bytes[..n] + bytes[n..] == bytes;
      RecordBack(lib, d);
    }
    hide Fits, ReadBody, Body;
  }

  // ------------------------------------------------------------------------------ nothing else is read

  /** Without the right HMAC, or of a later version, a record is refused. */
  lemma RefusedUnless(lib: Services, bytes: seq<byte>)
    requires |bytes| >= 32
    ensures lib.hmac(bytes[..|bytes| - 32]) != Some(bytes[|bytes| - 32..]) ==> ReadRecord(lib, bytes) == Refused
    ensures bytes[0] > 0 ==> ReadRecord(lib, bytes) == Refused
  {
    hide ReadBody;
  }

  lemma CountedOnly(b: seq<byte>, max: nat)
    requires max < 65536 && ReadCounted(b, max).Got?
    ensures |ReadCounted(b, max).value| < max && b == Counted(ReadCounted(b, max).value) + ReadCounted(b, max).rest
  {
    Le2Only(b[..2]);
    hide Le2, FromLe2;
    var s, rest := ReadCounted(b, max).value, ReadCounted(b, max).rest;
    assert b == b[..2] + (s + rest);
    assert Counted(s) + rest == Le2(|s|) + (s + rest);
  }

  lemma {:induction false} ValuesOnly(b: seq<byte>, i: nat, n: nat)
    requires i <= n && ReadValues(b, i, n).Got?
    ensures var (values, rest) := (ReadValues(b, i, n).value, ReadValues(b, i, n).rest);
            |values| == n - i && ValuesFit(values, i) &&
            (forall k :: 0 <= k < |values| ==> IsStringValue(values[k])) && b == ValuesBytes(values) + rest
    decreases n - i
  {
    hide *;
    if i == n {
      NoneRead(b, i);
    } else {
      ValuesNext(b, i, n);
      var key := ReadCounted(b, MAX_KEY_LEN);
      var value := ReadCounted(key.rest, MAX_VALUE_LEN);
      CountedOnly(b, MAX_KEY_LEN);
      CountedOnly(key.rest, MAX_VALUE_LEN);
      ValuesOnly(value.rest, i + 1, n);
      var more := ReadValues(value.rest, i + 1, n);
      ValueJoined(StringValue(key.value, value.value), more.value, i, more.rest);
    }
  }

  lemma NoneRead(b: seq<byte>, n: nat)
    ensures ReadValues(b, n, n) == Got([], b) && ValuesFit([], n) && b == ValuesBytes([]) + b
  {
  }

  lemma ValuesNext(b: seq<byte>, i: nat, n: nat)
    requires i < n && ReadValues(b, i, n).Got?
    ensures i < MAX_ALLOWED_SIGNERS && ReadCounted(b, MAX_KEY_LEN).Got?
    ensures var key := ReadCounted(b, MAX_KEY_LEN);
            var value := ReadCounted(key.rest, MAX_VALUE_LEN);
            MAX_KEY_LEN == 16 && MAX_VALUE_LEN == 160 && value.Got? && ReadValues(value.rest, i + 1, n).Got? &&
            ReadValues(b, i, n) ==
              Got([StringValue(key.value, value.value)] + ReadValues(value.rest, i + 1, n).value,
                  ReadValues(value.rest, i + 1, n).rest)
  {
    hide ReadCounted;
  }

  lemma ValueJoined(v: StringValue, more: seq<StringValue>, i: nat, rest: seq<byte>)
    requires i < MAX_ALLOWED_SIGNERS && |v.key| < MAX_KEY_LEN && |v.value| < MAX_VALUE_LEN
    requires ValuesFit(more, i + 1) && forall k :: 0 <= k < |more| ==> IsStringValue(more[k])
    ensures ValuesFit([v] + more, i) && forall k :: 0 <= k < |[v] + more| ==> IsStringValue(([v] + more)[k])
    ensures |v.key| < 65536 && |v.value| < 65536
    ensures Counted(v.key) + (Counted(v.value) + (ValuesBytes(more) + rest)) == ValuesBytes([v] + more) + rest
  {
    var all := [v] + more;
    assert all[0] == v && all[1..] == more;
    FirstFits(all, i);
    forall k | 0 <= k < |all| ensures IsStringValue(all[k]) {
      if k > 0 { assert all[k] == more[k - 1]; }
    }
    hide ValuesFit, IsStringValue;
    ValuesFront(all);
    hide *;
    ValueIs(v);
    Regroup(Counted(v.key), Counted(v.value), ValuesBytes(more), rest);
  }

  /**
    What a record loads as, exactly: descriptors of which all has its place, from the bytes that are
    written for them with the right HMAC behind, and nothing from any others.
   */
  lemma LoadsIff(lib: Services, bytes: seq<byte>, d: DescriptorData)
    requires |bytes| >= MIN_DESCRIPTOR_BYTES_LEN
    ensures ReadRecord(lib, bytes) == Loaded(d) <==>
              |bytes| >= 32 && lib.hmac(bytes[..|bytes| - 32]) == Some(bytes[|bytes| - 32..]) && IsRecord(d) &&
              Fits(d) && bytes[..|bytes| - 32] == Body(d)
  {
    if |bytes| >= 32 {
      var n := |bytes| - 32;
      assert bytes[..n] + bytes[n..] == bytes;
      if lib.hmac(bytes[..n]) == Some(bytes[n..]) && IsRecord(d) && Fits(d) && bytes[..n] == Body(d) {
        RecordBack(lib, d);
      } else if ReadRecord(lib, bytes) == Loaded(d) {
        RefusedUnless(lib, bytes);
        LoadedOnly(lib, bytes, d);
      }
    }
    hide Fits, ReadBody, Body, IsRecord;
  }

  lemma LoadedOnly(lib: Services, bytes: seq<byte>, d: DescriptorData)
    requires |bytes| >= 32 && ReadRecord(lib, bytes) == Loaded(d)
    ensures IsRecord(d) && Fits(d) && bytes[..|bytes| - 32] == Body(d)
  {
    hide ReadCounted, ReadValues, ValuesFit, Counted, ValuesBytes, IsStringValue, Authentic;
    var script := ReadCounted(bytes[2..], MAX_DESCRIPTOR_SCRIPT_LEN);
    CountedOnly(bytes[2..], MAX_DESCRIPTOR_SCRIPT_LEN);
    var b1 := script.rest;
    ValuesOnly(b1[1..], 0, b1[0] as nat);
    var mac := ReadValues(b1[1..], 0, b1[0] as nat).rest;
    BodyJoined(bytes, d, b1, mac);
  }

  lemma BodyJoined(bytes: seq<byte>, d: DescriptorData, b1: seq<byte>, mac: seq<byte>)
    requires IsRecord(d) && |bytes| >= 32 && bytes[0] == 0 && bytes[1] == d.kind && |mac| == 32
    requires bytes[2..] == Counted(d.script) + b1 && b1 != [] && b1[0] as nat == |d.values|
    requires b1[1..] == ValuesBytes(d.values) + mac
    ensures bytes[..|bytes| - 32] == Body(d)
  {
    BodyIs(d);
    hide *;
    assert b1 == [b1[0]] + b1[1..];
    assert bytes == [bytes[0], bytes[1]] + bytes[2..];
    var head, c, one, v: seq<byte> := [0, d.kind], Counted(d.script), [b1[0]], ValuesBytes(d.values);
    assert bytes == (head + (c + (one + v))) + mac;
  }

  /** What a record looks like in flash. */
  lemma Layout(kind: byte)
    ensures var d := DescriptorData([0x77, 0x78], [StringValue([0x40, 0x30], [0x61])], kind);
            IsRecord(d) && Body(d) == [0, kind, 2, 0, 0x77, 0x78, 1, 2, 0, 0x40, 0x30, 1, 0, 0x61]
  {
    var v := StringValue([0x40, 0x30], [0x61]);
    var values := [v];
    assert values[..0] == [] && ValuesBytes([]) == [];
    assert ValuesBytes(values) == ValueBytes(v) == [2, 0, 0x40, 0x30] + [1, 0, 0x61];
    assert Counted([0x77, 0x78]) == [2, 0, 0x77, 0x78];
    hide ValuesBytes, Counted;
  }

  // ------------------------------------------------------------------------------ records that are not read

  function Zeros(n: nat): (r: seq<byte>)
    ensures |r| == n
  {
    seq(n, _ => 0)
  }

  /** Services whose HMACs are all the same. */
  function Constant(): (r: Services)
  {
    Services(_ => Some(Zeros(HMAC_SHA256_LEN)), _ => None, _ => None, (_, _) => None)
  }

  /** Nine bytes are enough for the assertion, but not for the reader. */
  lemma NineBytes(lib: Services)
    ensures ReadRecord(lib, Zeros(9)) == Strayed
  {
  }

  /** Sixteen values with nothing in them, in an authentic record. */
  lemma SixteenValues()
    ensures var d := DescriptorData([], seq(16, _ => StringValue([], [])), 0);
            IsRecord(d) && !Fits(d) && ReadRecord(Constant(), Body(d) + Zeros(32)) == Strayed
  {
    var d := DescriptorData([], seq(16, _ => StringValue([], [])), 0);
    assert !ValueFits(d.values[15], 15);
    RecordBack(Constant(), d);
  }

  /** A script as long as its buffer is written, but not read. */
  lemma FullScript()
    ensures var d := DescriptorData(Zeros(512), [], 0);
            IsDescriptor(d) && ReadRecord(Constant(), Body(d) + Zeros(32)) == Strayed
  {
    RecordBack(Constant(), DescriptorData(Zeros(512), [], 0));
  }
}
