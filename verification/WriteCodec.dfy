/** What a distributed write sends over the wire: the frozen target handed to
    every worker, and the commit envelope each worker sends back. */
module WriteCodec {
  import opened Prelude
  import opened Wire

  const PROTOCOL_VERSION: nat := 3

  /** A logical type, identified by its serialised form; the empty form stands
      for `LogicalTypeId::INVALID`. */
  type LogicalType = string

  datatype WriteKind = Insert | Ctas

  datatype Transport = Transport(
    writeKind: WriteKind,
    operationId: string,
    databaseName: string,
    tableName: string,
    tableUuid: string,
    tablePath: string,
    schemaFingerprint: string,
    schemaId: int,
    appendOnly: bool,
    hasSnapshot: bool,
    snapshotId: int,
    commitIdentifier: int,
    inputTypes: seq<LogicalType>,
    inputNames: seq<string>,
    partKeys: seq<string>,
    nullPartName: string,
    portableOptions: map<string, string>)

  datatype Envelope = Envelope(
    operationId: string,
    tableUuid: string,
    tablePath: string,
    schemaFingerprint: string,
    schemaId: int,
    hasSnapshot: bool,
    snapshotId: int,
    commitIdentifier: int,
    queryId: string,
    taskAttemptId: string,
    writerCommitUser: string,
    commitMessageVersion: int,
    messageCount: nat,
    rowCount: nat,
    serializedTransport: string,
    serializedMessages: string)

  predicate IsHex(c: char) {
    '0' <= c <= '9' || 'a' <= c <= 'f' || 'A' <= c <= 'F'
  }

  /** Strict textual form: 36 characters, dashes after 8, 12, 16 and 20 digits. */
  predicate IsCanonicalUuid(s: string) {
    && |s| == 36
    && forall i :: 0 <= i < 36 ==> if i in {8, 13, 18, 23} then s[i] == '-' else IsHex(s[i])
  }

  predicate HexOf(s: string, n: nat) {
    |s| == n && forall i :: 0 <= i < n ==> IsHex(s[i])
  }

  /** Groups of 8, 4, 4, 4 and 12 hexadecimal digits, with dashes between. */
  lemma UuidExactly(s: string)
    ensures IsCanonicalUuid(s)
       <==> exists a, b, c, d, e :: HexOf(a, 8) && HexOf(b, 4) && HexOf(c, 4) && HexOf(d, 4) && HexOf(e, 12)
                                 && s == a + "-" + b + "-" + c + "-" + d + "-" + e
  {
    if IsCanonicalUuid(s) {
      var a, b, c, d, e := s[..8], s[9..13], s[14..18], s[19..23], s[24..];
      assert HexOf(a, 8) && HexOf(b, 4) && HexOf(c, 4) && HexOf(d, 4) && HexOf(e, 12);
      assert s == a + "-" + b + "-" + c + "-" + d + "-" + e;
    }
  }

  predicate IsPortableWriteOption(key: string) {
    key == "manifest.format" || key == "file.format"
  }

  predicate CanonicalSnapshot(hasSnapshot: bool, snapshotId: int) {
    if hasSnapshot then snapshotId > 0 else snapshotId == 0
  }

  predicate ValidInputSchema(t: Transport) {
    && |t.inputTypes| == |t.inputNames|
    && (forall i :: 0 <= i < |t.inputTypes| ==> t.inputTypes[i] != "" && t.inputNames[i] != "")
    && Distinct(t.inputNames)
  }

  predicate ValidPartKeys(t: Transport) {
    && (forall i :: 0 <= i < |t.partKeys| ==> t.partKeys[i] != "" && t.partKeys[i] in t.inputNames)
    && Distinct(t.partKeys)
  }

  predicate CompleteTarget(t: Transport) {
    && IsCanonicalUuid(t.operationId)
    && t.databaseName != "" && t.tableName != "" && t.tableUuid != "" && t.tablePath != ""
    && |t.schemaFingerprint| == 32 && t.schemaId >= 0 && t.commitIdentifier > 0
    && t.inputTypes != [] && |t.inputTypes| == |t.inputNames| && t.nullPartName != ""
  }

  /** What a worker may rely on about a frozen target. */
  predicate ValidTransport(t: Transport) {
    && CompleteTarget(t)
    && CanonicalSnapshot(t.hasSnapshot, t.snapshotId)
    && ValidInputSchema(t)
    && ValidPartKeys(t)
    && forall k :: k in t.portableOptions ==> IsPortableWriteOption(k) && t.portableOptions[k] != ""
  }

  /** The loop over the input columns. */
  method ValidateInputSchema(t: Transport) returns (valid: bool, fieldNames: set<string>)
    requires |t.inputTypes| == |t.inputNames|
    ensures valid <==> ValidInputSchema(t)
    ensures valid ==> fieldNames == ToSet(t.inputNames)
  {
    fieldNames := {};
    for i := 0 to |t.inputTypes|
      invariant fieldNames == ToSet(t.inputNames[..i])
      invariant forall k :: 0 <= k < i ==> t.inputTypes[k] != "" && t.inputNames[k] != ""
      invariant Distinct(t.inputNames[..i])
    {
      assert t.inputNames[..i + 1] == t.inputNames[..i] + [t.inputNames[i]];
      DistinctSnoc(t.inputNames[..i], t.inputNames[i]);
      if t.inputTypes[i] == "" || t.inputNames[i] == "" || t.inputNames[i] in fieldNames {
        DistinctPrefix(t.inputNames, i + 1);
        return false, fieldNames;
      }
      fieldNames := fieldNames + {t.inputNames[i]};
    }
    assert t.inputNames[..|t.inputTypes|] == t.inputNames;
    return true, fieldNames;
  }

  /** The loop over the partition keys. */
  method ValidatePartKeys(t: Transport, fieldNames: set<string>) returns (valid: bool)
    requires fieldNames == ToSet(t.inputNames)
    ensures valid <==> ValidPartKeys(t)
  {
    var partKeys: set<string> := {};
    for i := 0 to |t.partKeys|
      invariant partKeys == ToSet(t.partKeys[..i])
      invariant forall k :: 0 <= k < i ==> t.partKeys[k] != "" && t.partKeys[k] in t.inputNames
      invariant Distinct(t.partKeys[..i])
    {
      assert t.partKeys[..i + 1] == t.partKeys[..i] + [t.partKeys[i]];
      DistinctSnoc(t.partKeys[..i], t.partKeys[i]);
      if t.partKeys[i] == "" || t.partKeys[i] !in fieldNames || t.partKeys[i] in partKeys {
        DistinctPrefix(t.partKeys, i + 1);
        return false;
      }
      partKeys := partKeys + {t.partKeys[i]};
    }
    assert t.partKeys[..|t.partKeys|] == t.partKeys;
    return true;
  }

  /** `ValidateTransport`: the two loops with their sets decide exactly the
      declarative condition. */
  method ValidateTransport(t: Transport) returns (valid: bool)
    ensures valid <==> ValidTransport(t)
  {
    hide IsCanonicalUuid, ValidInputSchema, ValidPartKeys;
    if !IsCanonicalUuid(t.operationId) || t.databaseName == "" || t.tableName == "" || t.tableUuid == "" || t.tablePath == ""
       || |t.schemaFingerprint| != 32 || t.schemaId < 0 || t.commitIdentifier <= 0 || t.inputTypes == []
       || |t.inputTypes| != |t.inputNames| || t.nullPartName == ""
    {
      return false;
    }
    if (!t.hasSnapshot && t.snapshotId != 0) || (t.hasSnapshot && t.snapshotId <= 0) {
      return false;
    }
    var schemaOk, fieldNames := ValidateInputSchema(t);
    if !schemaOk {
      return false;
    }
    var keysOk := ValidatePartKeys(t, fieldNames);
    if !keysOk {
      return false;
    }
    var unchecked := t.portableOptions.Keys;
    while unchecked != {}
      invariant unchecked <= t.portableOptions.Keys
      invariant forall k :: k in t.portableOptions && k !in unchecked ==>
                  IsPortableWriteOption(k) && t.portableOptions[k] != ""
      decreases unchecked
    {
      var k :| k in unchecked;
      if (k != "manifest.format" && k != "file.format") || t.portableOptions[k] == "" {
        return false;
      }
      unchecked := unchecked - {k};
    }
    return true;
  }

  lemma DistinctPrefix(s: seq<string>, n: nat)
    requires n <= |s|
    ensures Distinct(s) ==> Distinct(s[..n])
  {
  }

  // ---- transport ----------------------------------------------------------

  const TRANSPORT_KINDS: seq<Kind> :=
    [KUint, KStr, KStr, KStr, KStr, KStr, KInt, KBool, KInt, KInt, KStrs, KStrs, KStrs, KStr, KStrs, KBool, KStr, KUint]

  /** The properties in wire order, the options already listed. */
  function FieldsWith(t: Transport, options: seq<string>): seq<Value> {
    [ VUint(PROTOCOL_VERSION), VStr(t.operationId), VStr(t.databaseName), VStr(t.tableName), VStr(t.tablePath),
      VStr(t.schemaFingerprint), VInt(t.schemaId), VBool(t.hasSnapshot),
      VInt(if t.hasSnapshot then t.snapshotId else 0), VInt(t.commitIdentifier), VStrs(t.inputTypes),
      VStrs(t.inputNames), VStrs(t.partKeys), VStr(t.nullPartName), VStrs(options),
      VBool(t.appendOnly), VStr(t.tableUuid), VUint(if t.writeKind.Insert? then 1 else 2) ]
  }

  function TransportFields(t: Transport): seq<Value> {
    FieldsWith(t, MapEntries(t.portableOptions))
  }

  function EncodeTransport(t: Transport): Result<string> {
    if ValidTransport(t) then Ok(EncodeFields(1, TransportFields(t))) else Err
  }

  function TransportWith(vs: seq<Value>, options: map<string, string>): Transport {
    Transport(
      if UintAt(vs, 17) == 1 then Insert else Ctas, StrAt(vs, 1), StrAt(vs, 2), StrAt(vs, 3), StrAt(vs, 16),
      StrAt(vs, 4), StrAt(vs, 5), IntAt(vs, 6), BoolAt(vs, 15), BoolAt(vs, 7), IntAt(vs, 8), IntAt(vs, 9),
      StrsAt(vs, 10), StrsAt(vs, 11), StrsAt(vs, 12), StrAt(vs, 13), options)
  }

  function TransportOf(vs: seq<Value>): Transport {
    TransportWith(vs, EntriesMap(StrsAt(vs, 14)))
  }

  function DecodeTransport(bytes: string): Result<Transport> {
    match DecodeFields(1, TRANSPORT_KINDS, bytes)
    case Err => Err
    case Ok(vs) =>
      if UintAt(vs, 0) != PROTOCOL_VERSION || UintAt(vs, 17) !in {1, 2} then Err
      else
        var t := TransportOf(vs);
        if ValidTransport(t) then Ok(t) else Err
  }

  /** `DeserializeTransport`, check by check. */
  method ReadTransport(bytes: string) returns (r: Result<Transport>)
    ensures r == DecodeTransport(bytes)
  {
    hide ValidTransport, TransportOf, DecodeFields;
    var fields := DecodeFields(1, TRANSPORT_KINDS, bytes);
    if fields.Err? || UintAt(fields.value, 0) != 3 {
      return Err;
    }
    if UintAt(fields.value, 17) != 1 && UintAt(fields.value, 17) != 2 {
      return Err;
    }
    var t := TransportOf(fields.value);
    var valid := ValidateTransport(t);
    return if valid then Ok(t) else Err;
  }

  lemma TransportShape(t: Transport)
    ensures Kinds(TransportFields(t)) == TRANSPORT_KINDS
  {
  }

  lemma FieldsWithRoundTrip(t: Transport, options: seq<string>)
    requires CanonicalSnapshot(t.hasSnapshot, t.snapshotId)
    ensures TransportWith(FieldsWith(t, options), t.portableOptions) == t
    ensures StrsAt(FieldsWith(t, options), 14) == options
    ensures UintAt(FieldsWith(t, options), 0) == PROTOCOL_VERSION && UintAt(FieldsWith(t, options), 17) in {1, 2}
  {
  }

  /** A worker reads back exactly the target the coordinator froze. */
  lemma TransportRoundTrip(t: Transport)
    requires ValidTransport(t)
    ensures EncodeTransport(t).Ok? && EncodeTransport(t).value != ""
    ensures DecodeTransport(EncodeTransport(t).value) == Ok(t)
  {
    TransportShape(t);
    FieldsWithRoundTrip(t, MapEntries(t.portableOptions));
    MapRoundTrip(t.portableOptions);
    MessageRoundTrip(TRANSPORT_KINDS, TransportFields(t));
  }

  /** Equal bytes mean equal targets, field by field: this is what lets the
      coordinator compare serialised transports instead of fields. */
  lemma TransportInjective(t1: Transport, t2: Transport)
    requires ValidTransport(t1) && ValidTransport(t2)
    ensures EncodeTransport(t1) == EncodeTransport(t2) <==> t1 == t2
  {
    TransportRoundTrip(t1);
    TransportRoundTrip(t2);
  }

  // ---- commit envelope ----------------------------------------------------

  const ENVELOPE_KINDS: seq<Kind> :=
    [KUint, KStr, KStr, KStr, KInt, KBool, KInt, KInt, KStr, KStr, KStr, KInt, KUint, KUint, KStr, KStr, KStr]

  function EnvelopeFields(e: Envelope): seq<Value> {
    [ VUint(PROTOCOL_VERSION), VStr(e.operationId), VStr(e.tablePath), VStr(e.schemaFingerprint), VInt(e.schemaId),
      VBool(e.hasSnapshot), VInt(if e.hasSnapshot then e.snapshotId else 0), VInt(e.commitIdentifier),
      VStr(e.queryId), VStr(e.taskAttemptId), VStr(e.writerCommitUser), VInt(e.commitMessageVersion),
      VUint(e.messageCount), VUint(e.rowCount), VStr(e.serializedMessages), VStr(e.tableUuid),
      VStr(e.serializedTransport) ]
  }

  /** Encoding does not validate; it only drops a snapshot id that is not set. */
  function EncodeEnvelope(e: Envelope): string {
    EncodeFields(1, EnvelopeFields(e))
  }

  predicate ValidEnvelope(e: Envelope) {
    && IsCanonicalUuid(e.operationId) && e.tableUuid != "" && e.tablePath != ""
    && |e.schemaFingerprint| == 32 && e.schemaId >= 0 && e.commitIdentifier > 0
    && e.queryId != "" && e.taskAttemptId != "" && e.writerCommitUser != ""
    && e.commitMessageVersion > 0 && e.messageCount != 0 && e.rowCount != 0
    && e.serializedTransport != "" && e.serializedMessages != ""
    && CanonicalSnapshot(e.hasSnapshot, e.snapshotId)
  }

  function EnvelopeOf(vs: seq<Value>): Envelope {
    Envelope(
      StrAt(vs, 1), StrAt(vs, 15), StrAt(vs, 2), StrAt(vs, 3), IntAt(vs, 4), BoolAt(vs, 5), IntAt(vs, 6),
      IntAt(vs, 7), StrAt(vs, 8), StrAt(vs, 9), StrAt(vs, 10), IntAt(vs, 11), UintAt(vs, 12), UintAt(vs, 13),
      StrAt(vs, 16), StrAt(vs, 14))
  }

  function DecodeEnvelope(bytes: string): Result<Envelope> {
    match DecodeFields(1, ENVELOPE_KINDS, bytes)
    case Err => Err
    case Ok(vs) =>
      if UintAt(vs, 0) != PROTOCOL_VERSION then Err
      else
        var e := EnvelopeOf(vs);
        if ValidEnvelope(e) then Ok(e) else Err
  }

  /** `DeserializeCommitEnvelope`, check by check. */
  method ReadEnvelope(bytes: string) returns (r: Result<Envelope>)
    ensures r == DecodeEnvelope(bytes)
  {
    hide IsCanonicalUuid, EnvelopeOf, DecodeFields;
    var fields := DecodeFields(1, ENVELOPE_KINDS, bytes);
    if fields.Err? || UintAt(fields.value, 0) != 3 {
      return Err;
    }
    var e := EnvelopeOf(fields.value);
    if !IsCanonicalUuid(e.operationId) || e.tableUuid == "" || e.tablePath == "" || |e.schemaFingerprint| != 32
       || e.schemaId < 0 || e.commitIdentifier <= 0 || e.queryId == "" || e.taskAttemptId == "" || e.writerCommitUser == ""
       || e.commitMessageVersion <= 0 || e.messageCount == 0 || e.rowCount == 0 || e.serializedTransport == ""
       || e.serializedMessages == "" || (!e.hasSnapshot && e.snapshotId != 0) || (e.hasSnapshot && e.snapshotId <= 0)
    {
      return Err;
    }
    return Ok(e);
  }

  function CanonicalEnvelope(e: Envelope): Envelope {
    e.(snapshotId := if e.hasSnapshot then e.snapshotId else 0)
  }

  lemma EnvelopeShape(e: Envelope)
    ensures Kinds(EnvelopeFields(e)) == ENVELOPE_KINDS
  {
  }

  lemma EnvelopeFieldsRoundTrip(e: Envelope)
    ensures EnvelopeOf(EnvelopeFields(e)) == CanonicalEnvelope(e)
    ensures UintAt(EnvelopeFields(e), 0) == PROTOCOL_VERSION
  {
  }

  /** Decoding an encoded envelope yields its canonical form when that form is
      valid and is refused otherwise: nothing else can come back. */
  lemma EnvelopeRoundTrip(e: Envelope)
    ensures DecodeEnvelope(EncodeEnvelope(e))
         == if ValidEnvelope(CanonicalEnvelope(e)) then Ok(CanonicalEnvelope(e)) else Err
  {
    EnvelopeShape(e);
    EnvelopeFieldsRoundTrip(e);
    MessageRoundTrip(ENVELOPE_KINDS, EnvelopeFields(e));
  }
}
