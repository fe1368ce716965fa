/** The distributed scan: a coordinator bind plans splits, worker binds receive
    disjoint batches of them, and only some phases may execute. */
module ScanProtocol {
  import opened Prelude
  import opened ScanCodec
  import Estimates
  import Identity

  datatype Phase = Coordinator | DistributedCoordinator | WorkerTemplate | WorkerAssigned

  /** A Paimon split: its content and what the planner reads from it. */
  datatype Split = Split(content: string, kind: Estimates.SplitKind, files: seq<Estimates.File>)

  /** Paimon's own split codec; deserialisation may produce a null split. */
  datatype SplitCodec = SplitCodec(serialize: Split -> Option<string>, deserialize: string -> Option<Option<Split>>)

  function Serialized(codec: SplitCodec, s: Split): Option<string> {
    codec.serialize(s)
  }

  function Deserialized(codec: SplitCodec, bytes: string): Option<Option<Split>> {
    codec.deserialize(bytes)
  }

  ghost predicate CodecLaws(codec: SplitCodec) {
    forall s :: Serialized(codec, s).Some? ==>
      Serialized(codec, s).value != "" && Deserialized(codec, Serialized(codec, s).value) == Some(Some(s))
  }

  /** The bind data of one table function instance. */
  datatype Bind = Bind(
    phase: Phase,
    warehouse: string, dbname: string, tablename: string,
    tableDataPath: string, tableSchemaJson: string,
    paimonOptions: map<string, string>, partKeys: seq<string>,
    splitSetId: string, schemaId: int, appendOnly: bool,
    returnTypes: seq<LogicalType>, returnNames: seq<string>, portableOptions: map<string, string>,
    hasSnapshot: bool, snapshotId: int, assignment: seq<Split>)

  // ---- moving a bind between processes ------------------------------------------------

  function PortableOf(options: map<string, string>): map<string, string> {
    map k | k in options && IsPortableOption(k) :: options[k]
  }

  /** `GetTransportBase`, before its validation. */
  function TransportOf(b: Bind): Transport {
    Transport(b.warehouse, b.dbname, b.tablename, b.tableDataPath, b.tableSchemaJson, b.schemaId, b.appendOnly,
              b.returnTypes, b.returnNames, b.partKeys,
              if b.portableOptions == map[] then PortableOf(b.paimonOptions) else b.portableOptions, b.splitSetId)
  }

  function Serialize(b: Bind): Result<string> {
    match b.phase
    case WorkerAssigned => Err
    case WorkerTemplate => EncodeBind(WorkerBind, TransportOf(b))
    case _ => EncodeBind(CoordinatorBind, TransportOf(b))
  }

  /** `local` is what `GetPaimonOptions` derives in the receiving process. */
  function Rebuilt(kind: BindKind, t: Transport, local: map<string, string>): Bind {
    Bind(if kind.CoordinatorBind? then DistributedCoordinator else WorkerTemplate,
         t.warehouse, t.dbname, t.tablename, t.tableDataPath, t.tableSchemaJson, local + t.portableOptions, t.partKeys,
         t.splitSetId, t.schemaId, t.appendOnly, t.returnTypes, t.returnNames, t.portableOptions, false, 0, [])
  }

  function Deserialize(payload: string, local: map<string, string>): Result<Bind> {
    match DecodeBind(payload)
    case Err => Err
    case Ok((kind, t)) => Ok(Rebuilt(kind, t, local))
  }

  function CreateWorkerBind(b: Bind): Result<Bind> {
    if !b.phase.DistributedCoordinator? || b.splitSetId == "" then Err
    else Ok(Bind(WorkerTemplate, b.warehouse, b.dbname, b.tablename, b.tableDataPath, b.tableSchemaJson,
                 b.portableOptions, b.partKeys, b.splitSetId, b.schemaId, b.appendOnly, b.returnTypes,
                 b.returnNames, b.portableOptions, false, 0, []))
  }

  /** A serialised bind that arrives elsewhere keeps its target, and its phase only
      as coordinator or worker; it has no snapshot and no splits of its own. */
  lemma TransferExact(b: Bind, local: map<string, string>)
    requires Serialize(b).Ok?
    ensures Deserialize(Serialize(b).value, local).Ok?
    ensures var b' := Deserialize(Serialize(b).value, local).value;
            && b'.phase == (if b.phase.WorkerTemplate? then WorkerTemplate else DistributedCoordinator)
            && b'.warehouse == b.warehouse && b'.dbname == b.dbname && b'.tablename == b.tablename
            && b'.tableDataPath == b.tableDataPath && b'.tableSchemaJson == b.tableSchemaJson
            && b'.schemaId == b.schemaId && b'.appendOnly == b.appendOnly && b'.returnTypes == b.returnTypes
            && b'.returnNames == b.returnNames && b'.partKeys == b.partKeys && b'.splitSetId == b.splitSetId
            && !b'.hasSnapshot && b'.assignment == []
            && forall k :: k in b'.portableOptions ==> b'.portableOptions[k] != ""
  {
    ArrivesAs(b, local);
    EncodableMeansValid(b);
    hide Serialize, Deserialize;
  }

  lemma ArrivesAs(b: Bind, local: map<string, string>)
    requires Serialize(b).Ok?
    ensures Deserialize(Serialize(b).value, local)
         == Ok(Rebuilt(if b.phase.WorkerTemplate? then WorkerBind else CoordinatorBind, TransportOf(b), local))
  {
    hide EncodeBind, DecodeBind;
    EncodableMeansValid(b);
    BindRoundTrip(if b.phase.WorkerTemplate? then WorkerBind else CoordinatorBind, TransportOf(b));
  }

  lemma EncodableMeansValid(b: Bind)
    requires Serialize(b).Ok?
    ensures ValidTransport(TransportOf(b))
  {
  }

  /** Serialising a rebuilt bind reproduces the transport exactly when it carried
      portable options or the receiving process adds none of its own. */
  lemma ReserializeExact(kind: BindKind, t: Transport, local: map<string, string>)
    requires ValidTransport(t)
    ensures TransportOf(Rebuilt(kind, t, local)) == t
       <==> t.portableOptions != map[] || forall k :: k in local ==> !IsPortableOption(k)
  {
    if t.portableOptions == map[] {
      assert local + t.portableOptions == local;
      if forall k :: k in local ==> !IsPortableOption(k) {
        assert PortableOf(local) == map[];
      } else {
        var k :| k in local && IsPortableOption(k);
        assert k in PortableOf(local);
      }
    }
  }

  /** `GetPortableOptions`: a lookup for each of the four options that may travel. */
  method GetPortableOptions(options: map<string, string>) returns (portable: map<string, string>)
    ensures portable == PortableOf(options)
  {
    portable := map[];
    var keys := ["manifest.format", "file.format", "scan.snapshot-id", "scan.timestamp-millis"];
    for i := 0 to |keys|
      invariant portable == map k | k in options && k in keys[..i] :: options[k]
    {
      assert keys[..i + 1] == keys[..i] + [keys[i]];
      if keys[i] in options {
        portable := portable[keys[i] := options[keys[i]]];
      }
    }
    assert keys[..|keys|] == keys;
    assert forall k :: k in keys <==> IsPortableOption(k);
  }

  // ---- planning ---------------------------------------------------------------------------

  datatype Plan = Plan(snapshotId: Option<int>, splits: seq<Option<Split>>)

  /** A planned split as Vane transports it. An invalid `optional_idx` is `None`. */
  datatype ScanSplit = ScanSplit(splitId: string, payload: string, cardinality: Option<nat>, bytes: Option<nat>)

  function EstimatedBytes(s: Split): Option<nat> {
    if !s.kind.OtherSplit? && Estimates.Estimable(Estimates.Sizes(s.files)) then
      Estimates.TotalNonNegative(Estimates.Sizes(s.files));
      Some(Estimates.Total(Estimates.Sizes(s.files)))
    else None
  }

  function EstimatedRows(s: Split, appendOnly: bool): Option<nat> {
    if s.kind.DataSplit? && appendOnly && Estimates.Estimable(Estimates.RowCounts(s.files)) then
      Estimates.TotalNonNegative(Estimates.RowCounts(s.files));
      Some(Estimates.Total(Estimates.RowCounts(s.files)))
    else None
  }

  function ValueOr0(x: Option<nat>): nat {
    if x.Some? then x.value else 0
  }

  function EnvelopeOf(b: Bind, snapshot: int, index: nat, bytes: string, s: Split): SplitEnvelope {
    SplitEnvelope(b.splitSetId, Identity.Decimal(index), true, snapshot, b.schemaId, bytes,
                  EstimatedRows(s, b.appendOnly).Some?, ValueOr0(EstimatedRows(s, b.appendOnly)),
                  EstimatedBytes(s).Some?, ValueOr0(EstimatedBytes(s)))
  }

  /** The `index`-th split of a plan on the wire. */
  function Planned(codec: SplitCodec, b: Bind, snapshot: int, index: nat, s: Split): ScanSplit
    requires Serialized(codec, s).Some?
  {
    ScanSplit(Identity.Decimal(index), EncodeSplit(EnvelopeOf(b, snapshot, index, Serialized(codec, s).value, s)),
              EstimatedRows(s, b.appendOnly), EstimatedBytes(s))
  }

  predicate Plannable(codec: SplitCodec, b: Bind, plan: Option<Plan>) {
    && b.phase.DistributedCoordinator? && b.splitSetId != "" && plan.Some?
    && (plan.value.snapshotId.Some? || plan.value.splits == [])
    && forall i :: 0 <= i < |plan.value.splits| ==>
         plan.value.splits[i].Some? && Serialized(codec, plan.value.splits[i].value).Some?
  }

  function SnapshotOf(plan: Plan): int {
    if plan.snapshotId.Some? then plan.snapshotId.value else 0
  }

  function PlannedSplits(codec: SplitCodec, b: Bind, plan: Plan): seq<ScanSplit>
    requires Plannable(codec, b, Some(plan))
  {
    seq(|plan.splits|, i requires 0 <= i < |plan.splits| =>
      Planned(codec, b, SnapshotOf(plan), i, plan.splits[i].value))
  }

  /** `PaimonPlanDistributedScanSplits`. */
  method PlanSplits(codec: SplitCodec, b: Bind, plan: Option<Plan>) returns (r: Result<seq<ScanSplit>>)
    ensures r.Ok? <==> Plannable(codec, b, plan)
    ensures r.Ok? ==> r.value == PlannedSplits(codec, b, plan.value)
  {
    hide Planned;
    if !b.phase.DistributedCoordinator? || b.splitSetId == "" || plan.None? {
      return Err;
    }
    var splits := plan.value.splits;
    if plan.value.snapshotId.None? && splits != [] {
      return Err;
    }
    var result: seq<ScanSplit> := [];
    for i := 0 to |splits|
      invariant |result| == i
      invariant forall k :: 0 <= k < i ==>
                  && splits[k].Some? && Serialized(codec, splits[k].value).Some?
                  && result[k] == Planned(codec, b, SnapshotOf(plan.value), k, splits[k].value)
    {
      if splits[i].None? || Serialized(codec, splits[i].value).None? {
        return Err;
      }
      var split := PlanOne(codec, b, SnapshotOf(plan.value), i, splits[i].value);
      result := result + [split];
    }
    return Ok(result);
  }

  /** One split: estimates, envelope and transported metadata. */
  method PlanOne(codec: SplitCodec, b: Bind, snapshot: int, index: nat, s: Split) returns (split: ScanSplit)
    requires Serialized(codec, s).Some?
    ensures split == Planned(codec, b, snapshot, index, s)
  {
    hide EncodeSplit, Identity.Decimal, Estimates.Total, Estimates.Estimable;
    var e := Estimates.GetSplitEstimates(s.kind, s.files, b.appendOnly);
    var envelope := SplitEnvelope(b.splitSetId, Identity.Decimal(index), true, snapshot, b.schemaId,
                                  Serialized(codec, s).value, e.hasCardinality, e.cardinality, e.hasBytes, e.bytes);
    SplitRoundTrip(envelope);
    SplitRoundTrip(EnvelopeOf(b, snapshot, index, Serialized(codec, s).value, s));
    assert CanonicalSplit(envelope) == CanonicalSplit(EnvelopeOf(b, snapshot, index, Serialized(codec, s).value, s));
    return ScanSplit(envelope.splitId, EncodeSplit(envelope),
                     if e.hasCardinality then Some(e.cardinality) else None,
                     if e.hasBytes then Some(e.bytes) else None);
  }

  // ---- assignment ----------------------------------------------------------------------------

  /** What the worker asks of one split on its own. */
  predicate Fits(codec: SplitCodec, b: Bind, s: ScanSplit) {
    && Identity.Canonical(s.splitId) && s.payload != ""
    && DecodeSplit(s.payload).Ok?
    && var e := DecodeSplit(s.payload).value;
       && e.splitSetId == b.splitSetId && e.schemaId == b.schemaId && e.hasSnapshot && e.splitId == s.splitId
       && e.hasCardinality == s.cardinality.Some? && e.hasBytes == s.bytes.Some?
       && (e.hasCardinality ==> s.cardinality == Some(e.cardinality))
       && (e.hasBytes ==> s.bytes == Some(e.bytes))
       && Deserialized(codec, e.paimonSplit).Some? && Deserialized(codec, e.paimonSplit).value.Some?
  }

  /** A split whose payload encodes `e` is taken exactly when `e` is a proper envelope of
      this scan, names a snapshot, and says of the split what its metadata says. */
  lemma FitsExactly(codec: SplitCodec, w: Bind, s: ScanSplit, e: SplitEnvelope)
    requires s.payload == EncodeSplit(e)
    ensures Fits(codec, w, s)
       <==> && ValidSplit(CanonicalSplit(e))
            && e.splitSetId == w.splitSetId && e.schemaId == w.schemaId && e.splitId == s.splitId && e.hasSnapshot
            && s.cardinality == (if e.hasCardinality then Some(e.cardinality) else None)
            && s.bytes == (if e.hasBytes then Some(e.bytes) else None)
            && Deserialized(codec, e.paimonSplit).Some? && Deserialized(codec, e.paimonSplit).value.Some?
  {
    hide EncodeSplit, DecodeSplit, Identity.Canonical;
    SplitRoundTrip(e);
  }

  function SnapshotIn(s: ScanSplit): int {
    match DecodeSplit(s.payload)
    case Ok(e) => e.snapshotId
    case Err => 0
  }

  function SplitIn(codec: SplitCodec, b: Bind, s: ScanSplit): Split
    requires Fits(codec, b, s)
  {
    Deserialized(codec, DecodeSplit(s.payload).value.paimonSplit).value.value
  }

  function Ids(splits: seq<ScanSplit>): seq<string> {
    seq(|splits|, i requires 0 <= i < |splits| => splits[i].splitId)
  }

  predicate AllFit(codec: SplitCodec, b: Bind, splits: seq<ScanSplit>) {
    forall i :: 0 <= i < |splits| ==> Fits(codec, b, splits[i])
  }

  /** A batch a worker template takes: all fit, distinct, of one snapshot. */
  predicate Assignable(codec: SplitCodec, b: Bind, splits: seq<ScanSplit>) {
    && b.phase.WorkerTemplate? && AllFit(codec, b, splits) && Distinct(Ids(splits))
    && forall i :: 0 <= i < |splits| ==> SnapshotIn(splits[i]) == SnapshotIn(splits[0])
  }

  function SplitsIn(codec: SplitCodec, b: Bind, splits: seq<ScanSplit>): seq<Split>
    requires AllFit(codec, b, splits)
  {
    seq(|splits|, i requires 0 <= i < |splits| => SplitIn(codec, b, splits[i]))
  }

  function Assigned(codec: SplitCodec, b: Bind, splits: seq<ScanSplit>): Bind
    requires Assignable(codec, b, splits)
  {
    b.(assignment := SplitsIn(codec, b, splits), hasSnapshot := splits != [],
       snapshotId := if splits == [] then 0 else SnapshotIn(splits[0]), phase := WorkerAssigned)
  }

  /** The mutable bind of a worker. */
  class WorkerScan {
    var bind: Bind

    constructor (bind: Bind)
      ensures this.bind == bind
    {
      this.bind := bind;
    }

    /** `PaimonApplyDistributedScanSplits`: the whole batch or nothing. */
    method ApplySplits(codec: SplitCodec, splits: seq<ScanSplit>) returns (ok: bool)
      modifies this
      ensures ok <==> Assignable(codec, old(bind), splits)
      ensures bind == if ok then Assigned(codec, old(bind), splits) else old(bind)
    {
      hide Fits, SnapshotIn, SplitIn;
      if !bind.phase.WorkerTemplate? {
        return false;
      }
      var ids: set<string> := {};
      var assignment: seq<Split> := [];
      var hasSnapshot, snapshot := false, 0;
      for i := 0 to |splits|
        invariant bind == old(bind)
        invariant AllFit(codec, bind, splits[..i]) && Distinct(Ids(splits[..i])) && ids == ToSet(Ids(splits[..i]))
        invariant assignment == SplitsIn(codec, bind, splits[..i])
        invariant hasSnapshot == (i > 0)
        invariant forall k :: 0 <= k < i ==> SnapshotIn(splits[k]) == snapshot
        invariant i == 0 ==> snapshot == 0
      {
        var s := splits[i];
        assert splits[..i + 1] == splits[..i] + [s];
        BatchSnoc(codec, bind, splits[..i], s);
        BatchPrefix(codec, bind, splits, i + 1);
        if !Fits(codec, bind, s) || s.splitId in ids {
          return false;
        }
        if hasSnapshot && SnapshotIn(s) != snapshot {
          assert SnapshotIn(splits[0]) == snapshot;
          return false;
        }
        ids := ids + {s.splitId};
        hasSnapshot, snapshot := true, SnapshotIn(s);
        assignment := assignment + [SplitIn(codec, bind, s)];
      }
      assert splits[..|splits|] == splits;
      bind := bind.(assignment := assignment, hasSnapshot := hasSnapshot, snapshotId := snapshot, phase := WorkerAssigned);
      return true;
    }
  }

  lemma BatchSnoc(codec: SplitCodec, b: Bind, before: seq<ScanSplit>, s: ScanSplit)
    ensures AllFit(codec, b, before + [s]) <==> AllFit(codec, b, before) && Fits(codec, b, s)
    ensures Distinct(Ids(before + [s])) <==> Distinct(Ids(before)) && s.splitId !in Ids(before)
    ensures ToSet(Ids(before + [s])) == ToSet(Ids(before)) + {s.splitId}
    ensures AllFit(codec, b, before + [s]) ==>
              SplitsIn(codec, b, before + [s]) == SplitsIn(codec, b, before) + [SplitIn(codec, b, s)]
  {
    hide Fits, SplitIn;
    var all := before + [s];
    assert all[|before|] == s && forall i :: 0 <= i < |before| ==> all[i] == before[i];
    assert Ids(all) == Ids(before) + [s.splitId];
    DistinctSnoc(Ids(before), s.splitId);
  }

  lemma BatchPrefix(codec: SplitCodec, b: Bind, splits: seq<ScanSplit>, k: nat)
    requires k <= |splits|
    ensures AllFit(codec, b, splits) ==> AllFit(codec, b, splits[..k])
    ensures Distinct(Ids(splits)) ==> Distinct(Ids(splits[..k]))
  {
    hide Fits;
    assert Ids(splits[..k]) == Ids(splits)[..k];
  }

  // ---- plan, split up, and put together again -----------------------------------------------

  /** The split a transported one carries, whoever reads it. */
  function Carried(codec: SplitCodec, s: ScanSplit): Option<Split> {
    match DecodeSplit(s.payload)
    case Err => None
    case Ok(e) => if Deserialized(codec, e.paimonSplit).Some? then Deserialized(codec, e.paimonSplit).value else None
  }

  /** A coordinator and a worker bind of one scan. */
  predicate SameScan(b: Bind, w: Bind) {
    b.splitSetId == w.splitSetId && b.schemaId == w.schemaId && b.schemaId >= 0
  }

  /** Every planned split is accepted by every worker of the scan, carries the
      split it was planned from, and names the plan's snapshot. */
  lemma PlannedFits(codec: SplitCodec, b: Bind, plan: Plan, w: Bind, i: nat)
    requires CodecLaws(codec) && Plannable(codec, b, Some(plan)) && SameScan(b, w) && i < |plan.splits|
    requires SnapshotOf(plan) >= 0
    ensures var s := PlannedSplits(codec, b, plan)[i];
            && Fits(codec, w, s) && SnapshotIn(s) == SnapshotOf(plan)
            && Carried(codec, s) == plan.splits[i] && s.splitId == Identity.Decimal(i)
  {
    hide EncodeSplit, DecodeSplit, Identity.Decimal, Identity.Canonical;
    var split := plan.splits[i].value;
    var e := EnvelopeOf(b, SnapshotOf(plan), i, Serialized(codec, split).value, split);
    Identity.DecimalIsCanonical(i);
    SplitRoundTrip(e);
    assert CanonicalSplit(e) == e;
  }

  /** The estimates that travel with a planned split, in its metadata and in its
      envelope alike: bytes are the sum of the file sizes, rows are the sum of the
      row counts of an append-only data split, where those sums may be had. */
  lemma PlannedEstimates(codec: SplitCodec, b: Bind, snapshot: int, index: nat, s: Split)
    requires Serialized(codec, s).Some? && b.splitSetId != "" && b.schemaId >= 0 && snapshot >= 0
    requires Serialized(codec, s).value != ""
    ensures var planned := Planned(codec, b, snapshot, index, s);
            && planned.bytes == (if !s.kind.OtherSplit? && Estimates.BytesKnown(s.files)
                                 then Some(Estimates.SizeSum(s.files)) else None)
            && planned.cardinality == (if s.kind.DataSplit? && b.appendOnly && Estimates.RowsKnown(s.files)
                                       then Some(Estimates.RowSum(s.files)) else None)
            && DecodeSplit(planned.payload).Ok?
            && var e := DecodeSplit(planned.payload).value;
               && e.splitId == planned.splitId && e.snapshotId == snapshot && e.schemaId == b.schemaId
               && (if e.hasBytes then Some(e.bytes) else None) == planned.bytes
               && (if e.hasCardinality then Some(e.cardinality) else None) == planned.cardinality
  {
    hide EncodeSplit, DecodeSplit, Identity.Decimal, Identity.Canonical, Estimates.BytesKnown, Estimates.RowsKnown,
      Estimates.Estimable;
    Estimates.SumsOverFiles(s.files);
    Identity.DecimalIsCanonical(index);
    var e := EnvelopeOf(b, snapshot, index, Serialized(codec, s).value, s);
    EstimatesBelowMax(s, b.appendOnly);
    SplitRoundTrip(e);
    assert CanonicalSplit(e) == e;
  }

  lemma EstimatesBelowMax(s: Split, appendOnly: bool)
    ensures EstimatedBytes(s).Some? ==> EstimatedBytes(s).value < IDX_MAX
    ensures EstimatedRows(s, appendOnly).Some? ==> EstimatedRows(s, appendOnly).value < IDX_MAX
  {
  }

  /** Planned ids are pairwise distinct. */
  lemma PlannedDistinct(codec: SplitCodec, b: Bind, plan: Plan)
    requires Plannable(codec, b, Some(plan))
    ensures Distinct(Ids(PlannedSplits(codec, b, plan))) && Distinct(PlannedSplits(codec, b, plan))
  {
    hide EncodeSplit, Identity.Decimal;
    var planned := PlannedSplits(codec, b, plan);
    forall i, j | 0 <= i < j < |planned| ensures planned[i].splitId != planned[j].splitId {
      Identity.DecimalInjective(i, j);
    }
  }

  /** Any part of the plan, in any order and without repetition, is assignable. */
  lemma BatchAssignable(codec: SplitCodec, b: Bind, plan: Plan, w: Bind, batch: seq<ScanSplit>)
    requires CodecLaws(codec) && Plannable(codec, b, Some(plan)) && SameScan(b, w) && SnapshotOf(plan) >= 0
    requires w.phase.WorkerTemplate? && multiset(batch) <= multiset(PlannedSplits(codec, b, plan))
    ensures Assignable(codec, w, batch)
    ensures forall i :: 0 <= i < |batch| ==> SnapshotIn(batch[i]) == SnapshotOf(plan)
  {
    hide Fits, SnapshotIn, Carried, Planned;
    var planned := PlannedSplits(codec, b, plan);
    PlannedDistinct(codec, b, plan);
    forall i | 0 <= i < |batch| ensures Fits(codec, w, batch[i]) && SnapshotIn(batch[i]) == SnapshotOf(plan) {
      assert batch[i] in multiset(batch);
      assert batch[i] in planned;
      var k :| 0 <= k < |planned| && planned[k] == batch[i];
      PlannedFits(codec, b, plan, w, k);
    }
    forall i, j | 0 <= i < j < |batch| ensures batch[i].splitId != batch[j].splitId {
      assert batch[i] in multiset(batch) && batch[j] in multiset(batch);
      var k :| 0 <= k < |planned| && planned[k] == batch[i];
      var m :| 0 <= m < |planned| && planned[m] == batch[j];
      if k == m {
        RepeatedCount(batch, i, j);
        DistinctCount(planned, batch[i]);
      } else {
        assert Ids(planned)[k] != Ids(planned)[m];
      }
    }
  }

  function CarriedAll(codec: SplitCodec, splits: seq<ScanSplit>): seq<Option<Split>> {
    if splits == [] then []
    else CarriedAll(codec, splits[..|splits| - 1]) + [Carried(codec, splits[|splits| - 1])]
  }

  lemma {:induction false} CarriedAppend(codec: SplitCodec, a: seq<ScanSplit>, b: seq<ScanSplit>)
    ensures CarriedAll(codec, a + b) == CarriedAll(codec, a) + CarriedAll(codec, b)
  {
    hide Carried;
    if b == [] {
      assert a + b == a;
    } else {
      assert (a + b)[..|a + b| - 1] == a + b[..|b| - 1];
      CarriedAppend(codec, a, b[..|b| - 1]);
    }
  }

  lemma CarriedTakeOut(codec: SplitCodec, s: seq<ScanSplit>, j: nat)
    requires j < |s|
    ensures multiset(CarriedAll(codec, s))
         == multiset(CarriedAll(codec, s[..j] + s[j + 1..])) + multiset{Carried(codec, s[j])}
  {
    hide Carried;
    var tail := [s[j]] + s[j + 1..];
    assert s == s[..j] + tail;
    CarriedAppend(codec, s[..j], tail);
    CarriedAppend(codec, [s[j]], s[j + 1..]);
    CarriedAppend(codec, s[..j], s[j + 1..]);
    assert [s[j]][..0] == [];
    assert CarriedAll(codec, [s[j]]) == [Carried(codec, s[j])];
  }

  /** Carried splits depend on which transported ones there are, not on order. */
  lemma {:induction false} CarriedPermutation(codec: SplitCodec, a: seq<ScanSplit>, b: seq<ScanSplit>)
    requires multiset(a) == multiset(b)
    ensures multiset(CarriedAll(codec, a)) == multiset(CarriedAll(codec, b))
    decreases |a|
  {
    hide Carried, CarriedAll;
    assert |a| == |multiset(a)| == |multiset(b)| == |b|;
    if a == [] {
      assert b == a;
    } else {
      assert a[0] in multiset(b);
      var j :| 0 <= j < |b| && b[j] == a[0];
      var a', b' := a[..0] + a[1..], b[..j] + b[j + 1..];
      TakenOut(a, 0);
      TakenOut(b, j);
      CarriedPermutation(codec, a', b');
      CarriedTakeOut(codec, a, 0);
      CarriedTakeOut(codec, b, j);
    }
  }

  /** The planned splits dealt out, one batch to each worker of the scan. */
  ghost predicate Dealt(codec: SplitCodec, b: Bind, plan: Plan, ws: seq<Bind>, batches: seq<seq<ScanSplit>>) {
    && CodecLaws(codec) && Plannable(codec, b, Some(plan)) && SnapshotOf(plan) >= 0
    && b.schemaId >= 0 && |ws| == |batches| && (forall k :: 0 <= k < |ws| ==> SameScan(b, ws[k]) && ws[k].phase.WorkerTemplate?)
    && multiset(Flatten(batches)) == multiset(PlannedSplits(codec, b, plan))
  }

  /** The splits that one worker holds once its batch is applied. */
  function Held(codec: SplitCodec, w: Bind, batch: seq<ScanSplit>): seq<Option<Split>> {
    if Assignable(codec, w, batch) then Present(Assigned(codec, w, batch).assignment) else []
  }

  function Present(splits: seq<Split>): seq<Option<Split>> {
    seq(|splits|, i requires 0 <= i < |splits| => Some(splits[i]))
  }

  function HeldByAll(codec: SplitCodec, ws: seq<Bind>, batches: seq<seq<ScanSplit>>): seq<Option<Split>>
    requires |ws| == |batches|
  {
    if ws == [] then [] else Held(codec, ws[0], batches[0]) + HeldByAll(codec, ws[1..], batches[1..])
  }

  /** However the planned splits are dealt out, every batch is accepted by its
      worker and together the workers hold exactly the plan's splits, each once,
      all of the plan's snapshot. */
  lemma EveryDealScansThePlan(codec: SplitCodec, b: Bind, plan: Plan, ws: seq<Bind>, batches: seq<seq<ScanSplit>>)
    requires Dealt(codec, b, plan, ws, batches)
    ensures forall k :: 0 <= k < |ws| ==>
              && Assignable(codec, ws[k], batches[k])
              && Assigned(codec, ws[k], batches[k]).hasSnapshot == (batches[k] != [])
              && (batches[k] != [] ==> Assigned(codec, ws[k], batches[k]).snapshotId == SnapshotOf(plan))
    ensures multiset(HeldByAll(codec, ws, batches)) == multiset(plan.splits)
  {
    hide Planned, Carried, Fits, SnapshotIn, SplitIn, HeldByAll, CarriedAll;
    var planned := PlannedSplits(codec, b, plan);
    forall k | 0 <= k < |ws|
      ensures Assignable(codec, ws[k], batches[k])
      ensures batches[k] != [] ==> Assigned(codec, ws[k], batches[k]).snapshotId == SnapshotOf(plan)
    {
      FlattenIncludes(batches, k);
      BatchAssignable(codec, b, plan, ws[k], batches[k]);
    }
    HeldIsCarried(codec, ws, batches);
    CarriedPermutation(codec, Flatten(batches), planned);
    PlanCarried(codec, b, plan, b, |plan.splits|);
    assert planned[..|planned|] == planned && plan.splits[..|planned|] == plan.splits;
    if ws == [] {
      assert batches == [] && |multiset(planned)| == 0;
    }
  }

  lemma {:induction false} HeldIsCarried(codec: SplitCodec, ws: seq<Bind>, batches: seq<seq<ScanSplit>>)
    requires |ws| == |batches| && forall k :: 0 <= k < |ws| ==> Assignable(codec, ws[k], batches[k])
    ensures HeldByAll(codec, ws, batches) == CarriedAll(codec, Flatten(batches))
  {
    hide Carried, Assignable, Held;
    if ws != [] {
      HeldIsCarried(codec, ws[1..], batches[1..]);
      HeldByOne(codec, ws[0], batches[0]);
      CarriedAppend(codec, batches[0], Flatten(batches[1..]));
    }
  }

  lemma HeldByOne(codec: SplitCodec, w: Bind, batch: seq<ScanSplit>)
    requires Assignable(codec, w, batch)
    ensures Held(codec, w, batch) == CarriedAll(codec, batch)
  {
    hide Carried, Fits, SnapshotIn, SplitIn;
    CarriedLength(codec, batch);
    forall i | 0 <= i < |batch| ensures Held(codec, w, batch)[i] == CarriedAll(codec, batch)[i] {
      FitsCarries(codec, w, batch[i]);
    }
  }

  lemma FitsCarries(codec: SplitCodec, w: Bind, s: ScanSplit)
    requires Fits(codec, w, s)
    ensures Carried(codec, s) == Some(SplitIn(codec, w, s))
  {
  }

  lemma {:induction false} CarriedLength(codec: SplitCodec, s: seq<ScanSplit>)
    ensures |CarriedAll(codec, s)| == |s|
    ensures forall i :: 0 <= i < |s| ==> CarriedAll(codec, s)[i] == Carried(codec, s[i])
  {
    hide Carried;
    if s != [] {
      CarriedLength(codec, s[..|s| - 1]);
    }
  }

  lemma {:induction false} PlanCarried(codec: SplitCodec, b: Bind, plan: Plan, w: Bind, n: nat)
    requires CodecLaws(codec) && Plannable(codec, b, Some(plan)) && SameScan(b, w) && SnapshotOf(plan) >= 0
    requires n <= |plan.splits|
    ensures CarriedAll(codec, PlannedSplits(codec, b, plan)[..n]) == plan.splits[..n]
  {
    hide Planned, Carried, Serialized, Fits, SnapshotIn;
    if n > 0 {
      PlanCarried(codec, b, plan, w, n - 1);
      PlannedFits(codec, b, plan, w, n - 1);
      var planned := PlannedSplits(codec, b, plan);
      assert planned[..n][..n - 1] == planned[..n - 1];
      assert plan.splits[..n] == plan.splits[..n - 1] + [plan.splits[n - 1]];
    }
  }

  // ---- phases ------------------------------------------------------------------------------------

  /** What can be done with a bind: ship it to another process, derive a worker
      bind from it, or assign splits to it. */
  datatype Op = Transfer(local: map<string, string>) | MakeWorker | Apply(splits: seq<ScanSplit>)

  function Do(codec: SplitCodec, b: Bind, op: Op): Result<Bind> {
    match op
    case Transfer(local) =>
      (match Serialize(b)
       case Err => Err
       case Ok(bytes) => Deserialize(bytes, local))
    case MakeWorker => CreateWorkerBind(b)
    case Apply(splits) => if Assignable(codec, b, splits) then Ok(Assigned(codec, b, splits)) else Err
  }

  /** When each operation succeeds. */
  lemma OperationsExactly(codec: SplitCodec, b: Bind, op: Op)
    ensures op.Transfer? ==> (Do(codec, b, op).Ok? <==> !b.phase.WorkerAssigned? && ValidTransport(TransportOf(b)))
    ensures op.MakeWorker? ==> (Do(codec, b, op).Ok? <==> b.phase.DistributedCoordinator? && b.splitSetId != "")
    ensures op.Apply? ==> (Do(codec, b, op).Ok? <==> Assignable(codec, b, op.splits))
  {
    hide DecodeBind, ValidTransport, AllFit, SplitsIn, Rebuilt;
    if op.Transfer? && Serialize(b).Ok? {
      ArrivesAs(b, op.local);
    }
  }

  function DoAll(codec: SplitCodec, b: Bind, ops: seq<Op>): Result<Bind> {
    if ops == [] then Ok(b)
    else
      match DoAll(codec, b, ops[..|ops| - 1])
      case Err => Err
      case Ok(b') => Do(codec, b', ops[|ops| - 1])
  }

  /** `PaimonScanInitGlobal` runs only these. */
  predicate Executable(b: Bind) {
    b.phase.Coordinator? || b.phase.WorkerAssigned?
  }

  /** `PaimonScanInitGlobal`: the splits it will read, given what planning would find. */
  method InitGlobal(b: Bind, planned: seq<Split>) returns (r: Result<seq<Split>>)
    ensures r.Ok? <==> Executable(b)
    ensures r.Ok? ==> r.value == if b.phase.WorkerAssigned? then b.assignment else planned
  {
    match b.phase
    case Coordinator => return Ok(planned);
    case DistributedCoordinator => return Err;
    case WorkerTemplate => return Err;
    case WorkerAssigned => return Ok(b.assignment);
  }

  predicate IsWorker(phase: Phase) {
    phase.WorkerTemplate? || phase.WorkerAssigned?
  }

  /** The receiving process derives no portable option by itself. */
  predicate LocalIsPlain(op: Op) {
    op.Transfer? ==> forall k :: k in op.local ==> !IsPortableOption(k)
  }

  /** A bind whose transport comes from its portable options alone. */
  predicate Settled(b: Bind) {
    b.phase.Coordinator? || b.portableOptions == TransportOf(b).portableOptions
  }

  lemma StepPhase(codec: SplitCodec, b: Bind, op: Op)
    requires Do(codec, b, op).Ok?
    ensures var b' := Do(codec, b, op).value;
            && !b'.phase.Coordinator? && !b.phase.WorkerAssigned?
            && (IsWorker(b.phase) ==> IsWorker(b'.phase))
            && (b'.phase.WorkerAssigned? ==> op.Apply?)
            && (op.Transfer? ==> b'.phase == if b.phase.WorkerTemplate? then WorkerTemplate else DistributedCoordinator)
            && (op.MakeWorker? ==> b.phase.DistributedCoordinator? && b'.phase.WorkerTemplate?)
            && (op.Apply? ==> b.phase.WorkerTemplate? && b'.phase.WorkerAssigned?)
  {
    hide EncodeBind, DecodeBind, AllFit, SplitsIn;
    if op.Transfer? {
      ArrivesAs(b, op.local);
    }
  }

  lemma StepKeepsTarget(codec: SplitCodec, b: Bind, op: Op)
    requires Do(codec, b, op).Ok? && LocalIsPlain(op) && Settled(b)
    ensures var b' := Do(codec, b, op).value; TransportOf(b') == TransportOf(b) && Settled(b')
  {
    hide EncodeBind, DecodeBind, AllFit, SplitsIn, SnapshotIn;
    match op
    case Transfer(local) =>
      ArrivesAs(b, local);
      EncodableMeansValid(b);
      ReserializeExact(if b.phase.WorkerTemplate? then WorkerBind else CoordinatorBind, TransportOf(b), local);
    case MakeWorker =>
      assert PortableOf(map[]) == map[];
    case Apply(splits) =>
  }

  /** The options that a bind reads its table with: the travelling ones as the
      transport has them, and no others than `local` has. */
  ghost predicate ReadsWith(b: Bind, local: map<string, string>) {
    && (forall k :: k in TransportOf(b).portableOptions ==>
          k in b.paimonOptions && b.paimonOptions[k] == TransportOf(b).portableOptions[k])
    && (forall k :: k !in TransportOf(b).portableOptions ==>
          (k in b.paimonOptions <==> k in local) && (k in local ==> b.paimonOptions[k] == local[k]))
  }

  /** What an operation leaves of the options of its own process: a transfer brings
      those of the receiver, a worker bind has none, an assignment changes nothing. */
  function LocalAfter(b: Bind, local: map<string, string>, op: Op): map<string, string> {
    match op
    case Transfer(arrived) => arrived
    case MakeWorker => map[]
    case Apply(_) => local
  }

  lemma StepReads(codec: SplitCodec, b: Bind, op: Op, local: map<string, string>)
    requires Do(codec, b, op).Ok? && LocalIsPlain(op) && ReadsWith(b, local)
    ensures ReadsWith(Do(codec, b, op).value, LocalAfter(b, local, op))
  {
    hide EncodeBind, DecodeBind, AllFit, SplitsIn, SnapshotIn, ReadsWith, TransportOf, Rebuilt, ValidTransport;
    match op
    case Transfer(arrived) =>
      ArrivesAs(b, arrived);
      ArrivedReads(if b.phase.WorkerTemplate? then WorkerBind else CoordinatorBind, TransportOf(b), arrived);
    case MakeWorker => WorkerReads(b);
    case Apply(splits) => AssignedReads(b, Do(codec, b, op).value, local);
  }

  lemma ArrivedReads(kind: BindKind, t: Transport, local: map<string, string>)
    requires forall k :: k in local ==> !IsPortableOption(k)
    ensures ReadsWith(Rebuilt(kind, t, local), local)
  {
    if t.portableOptions == map[] {
      assert local + t.portableOptions == local;
      assert PortableOf(local) == map[];
    }
  }

  lemma WorkerReads(b: Bind)
    requires CreateWorkerBind(b).Ok?
    ensures ReadsWith(CreateWorkerBind(b).value, map[])
  {
    assert PortableOf(map[]) == map[];
  }

  lemma AssignedReads(b: Bind, b': Bind, local: map<string, string>)
    requires ReadsWith(b, local) && b'.paimonOptions == b.paimonOptions && b'.portableOptions == b.portableOptions
    ensures ReadsWith(b', local)
  {
  }

  function LocalOf(b: Bind, local: map<string, string>, ops: seq<Op>): map<string, string> {
    if ops == [] then local else LocalAfter(b, LocalOf(b, local, ops[..|ops| - 1]), ops[|ops| - 1])
  }

  /** Over every sequence of operations: each option of the coordinator that may travel
      has its value in the options that the derived bind reads the table with, and all
      others are those of the process it last arrived in. */
  lemma {:induction false} OptionsLineage(codec: SplitCodec, c: Bind, ops: seq<Op>)
    requires c.phase.Coordinator? && c.portableOptions == map[]
    requires DoAll(codec, c, ops).Ok? && forall i :: 0 <= i < |ops| ==> LocalIsPlain(ops[i])
    ensures var b := DoAll(codec, c, ops).value;
            && (forall k :: k in c.paimonOptions && IsPortableOption(k) ==>
                  k in b.paimonOptions && b.paimonOptions[k] == c.paimonOptions[k])
            && (ops != [] ==>
                  forall k :: !(k in c.paimonOptions && IsPortableOption(k)) ==>
                    var local := LocalOf(c, c.paimonOptions, ops);
                    (k in b.paimonOptions <==> k in local) && (k in local ==> b.paimonOptions[k] == local[k]))
    ensures ReadsWith(DoAll(codec, c, ops).value, LocalOf(c, c.paimonOptions, ops))
  {
    BindLineage(codec, c, ops);
    assert TransportOf(c).portableOptions == PortableOf(c.paimonOptions);
    hide Do, TransportOf, Settled;
    if ops != [] {
      var init, last := ops[..|ops| - 1], ops[|ops| - 1];
      OptionsLineage(codec, c, init);
      StepReads(codec, DoAll(codec, c, init).value, last, LocalOf(c, c.paimonOptions, init));
    }
  }

  /** Over every sequence of these operations: a worker bind never becomes a
      coordinator again, what may execute is the untouched coordinator bind or a
      bind whose last operation assigned its splits, and the target that the bind
      describes never changes. */
  lemma {:induction false} BindLineage(codec: SplitCodec, b: Bind, ops: seq<Op>)
    requires DoAll(codec, b, ops).Ok? && Settled(b) && forall i :: 0 <= i < |ops| ==> LocalIsPlain(ops[i])
    ensures var b' := DoAll(codec, b, ops).value;
            && (IsWorker(b.phase) ==> IsWorker(b'.phase))
            && (ops != [] && Executable(b') ==> b'.phase.WorkerAssigned? && ops[|ops| - 1].Apply?)
            && (b.phase.Coordinator? ==> (Executable(b') <==> ops == [] || ops[|ops| - 1].Apply?))
            && TransportOf(b') == TransportOf(b) && Settled(b')
  {
    hide Do, TransportOf, Settled;
    if ops != [] {
      var init, last := ops[..|ops| - 1], ops[|ops| - 1];
      BindLineage(codec, b, init);
      var mid := DoAll(codec, b, init).value;
      StepPhase(codec, mid, last);
      StepKeepsTarget(codec, mid, last);
    }
  }

  /** Everything that was derived from a coordinator bind describes its scan. */
  lemma DerivedIsSameScan(codec: SplitCodec, b: Bind, ops: seq<Op>)
    requires DoAll(codec, b, ops).Ok? && Settled(b) && forall i :: 0 <= i < |ops| ==> LocalIsPlain(ops[i])
    requires b.schemaId >= 0
    ensures SameScan(b, DoAll(codec, b, ops).value)
  {
    hide Do, DoAll, Settled;
    BindLineage(codec, b, ops);
    var b' := DoAll(codec, b, ops).value;
    assert TransportOf(b').splitSetId == b'.splitSetId && TransportOf(b').schemaId == b'.schemaId;
  }

  /** What left its coordinator was validated: it has a proper schema id. */
  lemma {:induction false} DerivedHasSchema(codec: SplitCodec, c: Bind, ops: seq<Op>)
    requires c.phase.Coordinator? && DoAll(codec, c, ops).Ok? && forall i :: 0 <= i < |ops| ==> LocalIsPlain(ops[i])
    ensures !DoAll(codec, c, ops).value.phase.Coordinator? ==> DoAll(codec, c, ops).value.schemaId >= 0
  {
    hide Do;
    if ops != [] {
      var init, last := ops[..|ops| - 1], ops[|ops| - 1];
      DerivedHasSchema(codec, c, init);
      BindLineage(codec, c, init);
      var mid := DoAll(codec, c, init).value;
      StepKeepsTarget(codec, mid, last);
      SchemaStep(codec, mid, last);
    }
  }

  lemma SchemaStep(codec: SplitCodec, b: Bind, op: Op)
    requires Do(codec, b, op).Ok? && (b.phase.Coordinator? || b.schemaId >= 0)
    requires TransportOf(Do(codec, b, op).value) == TransportOf(b)
    ensures Do(codec, b, op).value.schemaId >= 0
  {
    hide EncodeBind, DecodeBind, AllFit, SplitsIn, SnapshotIn;
    var b' := Do(codec, b, op).value;
    assert TransportOf(b').schemaId == b'.schemaId && TransportOf(b).schemaId == b.schemaId;
    if b.phase.Coordinator? && op.Transfer? {
      EncodableMeansValid(b);
    }
  }

  /** The whole scan: from a coordinator bind, by any route to a planning bind and on
      to worker binds, given any deal of the plan, the workers hold exactly the plan's
      splits and may all execute. */
  lemma DistributedScanExact(codec: SplitCodec, c: Bind, toPlanner: seq<Op>, plan: Plan,
                             routes: seq<seq<Op>>, batches: seq<seq<ScanSplit>>)
    requires c.phase.Coordinator? && DoAll(codec, c, toPlanner).Ok?
    requires forall i :: 0 <= i < |toPlanner| ==> LocalIsPlain(toPlanner[i])
    requires var b := EndOf(codec, c, toPlanner);
             && CodecLaws(codec) && Plannable(codec, b, Some(plan)) && SnapshotOf(plan) >= 0
             && |routes| == |batches| && (forall k :: 0 <= k < |routes| ==> WorkerRoute(codec, b, routes[k]))
             && multiset(Flatten(batches)) == multiset(PlannedSplits(codec, b, plan))
    ensures var b := EndOf(codec, c, toPlanner);
            && multiset(HeldByAll(codec, Ends(codec, b, routes), batches)) == multiset(plan.splits)
            && forall k :: 0 <= k < |routes| ==>
                 var end := DoAll(codec, b, routes[k] + [Apply(batches[k])]);
                 end.Ok? && Executable(end.value) && end.value.hasSnapshot == (batches[k] != [])
                 && (batches[k] != [] ==> end.value.snapshotId == SnapshotOf(plan))
  {
    assert Settled(c);
    hide Planned, HeldByAll, CodecLaws, PlannedSplits, TransportOf, Do, Settled, DoAll;
    BindLineage(codec, c, toPlanner);
    DerivedHasSchema(codec, c, toPlanner);
    PlannerScanExact(codec, EndOf(codec, c, toPlanner), plan, routes, batches);
  }

  lemma PlannerScanExact(codec: SplitCodec, b: Bind, plan: Plan, routes: seq<seq<Op>>, batches: seq<seq<ScanSplit>>)
    requires CodecLaws(codec) && Plannable(codec, b, Some(plan)) && SnapshotOf(plan) >= 0
    requires Settled(b) && b.schemaId >= 0 && |routes| == |batches|
    requires forall k :: 0 <= k < |routes| ==> WorkerRoute(codec, b, routes[k])
    requires multiset(Flatten(batches)) == multiset(PlannedSplits(codec, b, plan))
    ensures multiset(HeldByAll(codec, Ends(codec, b, routes), batches)) == multiset(plan.splits)
    ensures forall k :: 0 <= k < |routes| ==>
              var end := DoAll(codec, b, routes[k] + [Apply(batches[k])]);
              end.Ok? && Executable(end.value) && end.value.hasSnapshot == (batches[k] != [])
              && (batches[k] != [] ==> end.value.snapshotId == SnapshotOf(plan))
  {
    hide Planned, Carried, Fits, SnapshotIn, SplitIn, HeldByAll, SplitsIn, AllFit, CodecLaws, PlannedSplits, TransportOf;
    var ws := Ends(codec, b, routes);
    forall k | 0 <= k < |ws| ensures SameScan(b, ws[k]) && ws[k].phase.WorkerTemplate? {
      DerivedIsSameScan(codec, b, routes[k]);
    }
    EveryDealScansThePlan(codec, b, plan, ws, batches);
    hide Dealt, Assignable, Assigned, DoAll, Plannable;
    forall k | 0 <= k < |routes|
      ensures DoAll(codec, b, routes[k] + [Apply(batches[k])]) == Ok(Assigned(codec, ws[k], batches[k]))
      ensures Executable(Assigned(codec, ws[k], batches[k]))
    {
      AssignsAtEnd(codec, b, routes[k], ws[k], batches[k]);
    }
  }

  lemma AssignsAtEnd(codec: SplitCodec, b: Bind, route: seq<Op>, w: Bind, batch: seq<ScanSplit>)
    requires DoAll(codec, b, route) == Ok(w) && Assignable(codec, w, batch)
    ensures DoAll(codec, b, route + [Apply(batch)]) == Ok(Assigned(codec, w, batch))
    ensures Executable(Assigned(codec, w, batch))
  {
    hide AllFit, SplitsIn, SnapshotIn;
    var ops := route + [Apply(batch)];
    assert ops[..|ops| - 1] == route;
  }

  /** Operations that lead from a bind to a worker template. */
  predicate WorkerRoute(codec: SplitCodec, b: Bind, ops: seq<Op>) {
    && DoAll(codec, b, ops).Ok? && DoAll(codec, b, ops).value.phase.WorkerTemplate?
    && forall i :: 0 <= i < |ops| ==> LocalIsPlain(ops[i])
  }

  function EndOf(codec: SplitCodec, b: Bind, ops: seq<Op>): Bind {
    match DoAll(codec, b, ops)
    case Ok(end) => end
    case Err => b
  }

  function Ends(codec: SplitCodec, b: Bind, routes: seq<seq<Op>>): seq<Bind> {
    seq(|routes|, k requires 0 <= k < |routes| => EndOf(codec, b, routes[k]))
  }
}
