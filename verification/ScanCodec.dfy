/** What a distributed scan sends over the wire: the bind of a table function and
    the envelope of one planned split. */
module ScanCodec {
  import opened Prelude
  import opened Wire
  import Identity

  const PROTOCOL_VERSION: nat := 1

  type LogicalType = string

  // ---- split envelope -------------------------------------------------------------

  datatype SplitEnvelope = SplitEnvelope(
    splitSetId: string, splitId: string, hasSnapshot: bool, snapshotId: int, schemaId: int, paimonSplit: string,
    hasCardinality: bool, cardinality: nat, hasBytes: bool, bytes: nat)

  const SPLIT_KINDS: seq<Kind> := [KUint, KStr, KStr, KBool, KInt, KInt, KStr, KBool, KUint, KBool, KUint]

  function SplitFields(e: SplitEnvelope): seq<Value> {
    [ VUint(PROTOCOL_VERSION), VStr(e.splitSetId), VStr(e.splitId), VBool(e.hasSnapshot),
      VInt(if e.hasSnapshot then e.snapshotId else 0), VInt(e.schemaId), VStr(e.paimonSplit),
      VBool(e.hasCardinality), VUint(if e.hasCardinality then e.cardinality else 0),
      VBool(e.hasBytes), VUint(if e.hasBytes then e.bytes else 0) ]
  }

  function EncodeSplit(e: SplitEnvelope): string {
    EncodeFields(1, SplitFields(e))
  }

  function SplitOf(vs: seq<Value>): SplitEnvelope {
    SplitEnvelope(StrAt(vs, 1), StrAt(vs, 2), BoolAt(vs, 3), IntAt(vs, 4), IntAt(vs, 5), StrAt(vs, 6),
                  BoolAt(vs, 7), UintAt(vs, 8), BoolAt(vs, 9), UintAt(vs, 10))
  }

  /** Absent values are zero. */
  function CanonicalSplit(e: SplitEnvelope): SplitEnvelope {
    e.(snapshotId := if e.hasSnapshot then e.snapshotId else 0,
       cardinality := if e.hasCardinality then e.cardinality else 0,
       bytes := if e.hasBytes then e.bytes else 0)
  }

  predicate ValidSplit(e: SplitEnvelope) {
    && e.splitSetId != "" && Identity.Canonical(e.splitId) && e.schemaId >= 0 && e.paimonSplit != ""
    && (if e.hasSnapshot then e.snapshotId >= 0 else e.snapshotId == 0)
    && (if e.hasCardinality then e.cardinality != IDX_MAX else e.cardinality == 0)
    && (if e.hasBytes then e.bytes != IDX_MAX else e.bytes == 0)
  }

  function DecodeSplit(payload: string): Result<SplitEnvelope> {
    match DecodeFields(1, SPLIT_KINDS, payload)
    case Err => Err
    case Ok(vs) =>
      if UintAt(vs, 0) != PROTOCOL_VERSION then Err
      else
        var e := SplitOf(vs);
        if ValidSplit(e) then Ok(e) else Err
  }

  /** `DeserializeSplitEnvelope`, check by check. */
  method ReadSplit(payload: string) returns (r: Result<SplitEnvelope>)
    ensures r == DecodeSplit(payload)
  {
    hide Identity.Canonical, SplitOf, DecodeFields;
    var fields := DecodeFields(1, SPLIT_KINDS, payload);
    if fields.Err? || UintAt(fields.value, 0) != 1 {
      return Err;
    }
    var e := SplitOf(fields.value);
    var canonical := Identity.IsCanonicalSplitId(e.splitId);
    if e.splitSetId == "" || !canonical || e.schemaId < 0 || (e.hasSnapshot && e.snapshotId < 0) || e.paimonSplit == ""
       || (e.hasCardinality && e.cardinality == 0xFFFF_FFFF_FFFF_FFFF)
       || (e.hasBytes && e.bytes == 0xFFFF_FFFF_FFFF_FFFF)
    {
      return Err;
    }
    if (!e.hasSnapshot && e.snapshotId != 0) || (!e.hasCardinality && e.cardinality != 0) || (!e.hasBytes && e.bytes != 0) {
      return Err;
    }
    return Ok(e);
  }

  /** Decoding an encoded envelope yields its canonical form when that is valid,
      and nothing otherwise. */
  lemma SplitRoundTrip(e: SplitEnvelope)
    ensures DecodeSplit(EncodeSplit(e)) == if ValidSplit(CanonicalSplit(e)) then Ok(CanonicalSplit(e)) else Err
    ensures EncodeSplit(e) != "" && EncodeSplit(CanonicalSplit(e)) == EncodeSplit(e)
  {
    hide Identity.Canonical, EncodeFields, DecodeFields;
    assert Kinds(SplitFields(e)) == SPLIT_KINDS;
    assert SplitOf(SplitFields(e)) == CanonicalSplit(e);
    MessageRoundTrip(SPLIT_KINDS, SplitFields(e));
    assert SplitFields(CanonicalSplit(e)) == SplitFields(e);
  }

  // ---- bind transport --------------------------------------------------------------

  datatype Transport = Transport(
    warehouse: string, dbname: string, tablename: string, tableDataPath: string, tableSchemaJson: string,
    schemaId: int, appendOnly: bool, returnTypes: seq<LogicalType>, returnNames: seq<string>,
    partKeys: seq<string>, portableOptions: map<string, string>, splitSetId: string)

  datatype BindKind = CoordinatorBind | WorkerBind

  predicate IsPortableOption(key: string) {
    key == "manifest.format" || key == "file.format" || key == "scan.snapshot-id" || key == "scan.timestamp-millis"
  }

  predicate ValidTransport(t: Transport) {
    && t.dbname != "" && t.tablename != "" && t.tableDataPath != "" && t.tableSchemaJson != ""
    && t.schemaId >= 0 && t.returnTypes != [] && |t.returnTypes| == |t.returnNames| && t.splitSetId != ""
    && (forall i :: 0 <= i < |t.returnTypes| ==> t.returnTypes[i] != "" && t.returnNames[i] != "")
    && (forall i :: 0 <= i < |t.partKeys| ==> t.partKeys[i] != "" && t.partKeys[i] in t.returnNames)
    && Distinct(t.partKeys)
    && (forall k :: k in t.portableOptions ==> IsPortableOption(k) && t.portableOptions[k] != "")
    && !("scan.snapshot-id" in t.portableOptions && "scan.timestamp-millis" in t.portableOptions)
  }

  /** `ValidateTransport`: its loops decide exactly the declarative condition. */
  method ValidateTransport(t: Transport) returns (valid: bool)
    ensures valid <==> ValidTransport(t)
  {
    if t.dbname == "" || t.tablename == "" || t.tableDataPath == "" || t.tableSchemaJson == "" || t.schemaId < 0
       || t.returnTypes == [] || |t.returnTypes| != |t.returnNames| || t.splitSetId == ""
    {
      return false;
    }
    for i := 0 to |t.returnTypes|
      invariant forall k :: 0 <= k < i ==> t.returnTypes[k] != "" && t.returnNames[k] != ""
    {
      if t.returnTypes[i] == "" || t.returnNames[i] == "" {
        return false;
      }
    }
    var partKeys: set<string> := {};
    for i := 0 to |t.partKeys|
      invariant forall k :: 0 <= k < i ==> t.partKeys[k] != "" && t.partKeys[k] in t.returnNames
      invariant Distinct(t.partKeys[..i]) && partKeys == ToSet(t.partKeys[..i])
    {
      var key := t.partKeys[i];
      assert t.partKeys[..i + 1] == t.partKeys[..i] + [key];
      DistinctSnoc(t.partKeys[..i], key);
      if key == "" || key !in t.returnNames || key in partKeys {
        assert Distinct(t.partKeys) ==> Distinct(t.partKeys[..i + 1]);
        return false;
      }
      partKeys := partKeys + {key};
    }
    assert t.partKeys[..|t.partKeys|] == t.partKeys;
    var pending := t.portableOptions.Keys;
    while pending != {}
      invariant pending <= t.portableOptions.Keys
      invariant forall k :: k in t.portableOptions && k !in pending ==> Travels(k) && t.portableOptions[k] != ""
      decreases pending
    {
      var k :| k in pending;
      if !Travels(k) || t.portableOptions[k] == "" {
        return false;
      }
      pending := pending - {k};
    }
    return !("scan.snapshot-id" in t.portableOptions && "scan.timestamp-millis" in t.portableOptions);
  }

  /** The options that may travel, listed. */
  predicate Travels(key: string) {
    key in {"manifest.format", "file.format", "scan.snapshot-id", "scan.timestamp-millis"}
  }

  const BIND_KINDS: seq<Kind> :=
    [KUint, KStr, KStr, KStr, KStr, KStr, KInt, KBool, KStrs, KStrs, KStrs, KStr, KStrs]

  /** The bind kind, then the properties of the bind object. */
  function BindFields(kind: BindKind, t: Transport, options: seq<string>): seq<Value> {
    [ VUint(if kind.CoordinatorBind? then 1 else 2), VStr(t.warehouse), VStr(t.dbname), VStr(t.tablename),
      VStr(t.tableDataPath), VStr(t.tableSchemaJson), VInt(t.schemaId), VBool(t.appendOnly), VStrs(t.returnTypes),
      VStrs(t.returnNames), VStrs(options), VStr(t.splitSetId), VStrs(t.partKeys) ]
  }

  function TransportWith(vs: seq<Value>, options: map<string, string>): Transport {
    Transport(StrAt(vs, 1), StrAt(vs, 2), StrAt(vs, 3), StrAt(vs, 4), StrAt(vs, 5), IntAt(vs, 6), BoolAt(vs, 7),
              StrsAt(vs, 8), StrsAt(vs, 9), StrsAt(vs, 12), options, StrAt(vs, 11))
  }

  function EncodeBind(kind: BindKind, t: Transport): Result<string> {
    if ValidTransport(t) then Ok(EncodeFields(1, BindFields(kind, t, MapEntries(t.portableOptions)))) else Err
  }

  function DecodeBind(payload: string): Result<(BindKind, Transport)> {
    match DecodeFields(1, BIND_KINDS, payload)
    case Err => Err
    case Ok(vs) =>
      if UintAt(vs, 0) !in {1, 2} then Err
      else
        var t := TransportWith(vs, EntriesMap(StrsAt(vs, 10)));
        if ValidTransport(t) then Ok((if UintAt(vs, 0) == 1 then CoordinatorBind else WorkerBind, t)) else Err
  }

  /** The head of `PaimonDistributedScanDeserialize`, check by check. */
  method ReadBind(payload: string) returns (r: Result<(BindKind, Transport)>)
    ensures r == DecodeBind(payload)
  {
    hide ValidTransport, TransportWith, DecodeFields, EntriesMap;
    var fields := DecodeFields(1, BIND_KINDS, payload);
    if fields.Err? || (UintAt(fields.value, 0) != 1 && UintAt(fields.value, 0) != 2) {
      return Err;
    }
    var t := TransportWith(fields.value, EntriesMap(StrsAt(fields.value, 10)));
    var valid := ValidateTransport(t);
    if !valid {
      return Err;
    }
    return Ok((if UintAt(fields.value, 0) == 1 then CoordinatorBind else WorkerBind, t));
  }

  lemma BindFieldsRoundTrip(kind: BindKind, t: Transport, options: seq<string>)
    ensures var vs := BindFields(kind, t, options);
            && Kinds(vs) == BIND_KINDS && TransportWith(vs, t.portableOptions) == t && StrsAt(vs, 10) == options
            && UintAt(vs, 0) == if kind.CoordinatorBind? then 1 else 2
  {
  }

  /** The worker rebuilds exactly the bind that was sent. */
  lemma BindRoundTrip(kind: BindKind, t: Transport)
    requires ValidTransport(t)
    ensures EncodeBind(kind, t).Ok? && DecodeBind(EncodeBind(kind, t).value) == Ok((kind, t))
  {
    hide EncodeFields, DecodeFields, ValidTransport, EntriesMap;
    var options := MapEntries(t.portableOptions);
    BindFieldsRoundTrip(kind, t, options);
    MapRoundTrip(t.portableOptions);
    MessageRoundTrip(BIND_KINDS, BindFields(kind, t, options));
  }
}
