/** The coordinator side of distributed INSERT and CTAS, as steps over the
    catalog, the process-wide mutation mutex, any number of write operators and
    any number of other in-process mutators. Every paimon-cpp call may fail. */
module WriteProtocol {
  import opened Prelude

  type OpId = nat

  /** A commit message, known by its canonical bytes. */
  type Message = string

  /** The part of a table that its schema fixes, besides the schema JSON. */
  datatype Definition = Definition(
    schemaId: int, appendOnly: bool, fieldNames: seq<string>, fieldTypes: seq<string>, partKeys: seq<string>,
    primaryKeys: seq<string>, options: map<string, string>, nullPartName: string)

  /** What `LoadTargetState` reads. No snapshot is `None`. */
  datatype Target = Target(
    uuid: string, path: string, schemaJson: string, definition: Definition, snapshot: Option<nat>)

  /** A table in the catalog. `incarnation` counts creations; the code cannot see it. */
  datatype Table = Table(incarnation: nat, target: Target)

  /** Where an operator is. Between API calls it is Idle or Finished. */
  datatype Stage =
    | Idle
    | InsertPrepare                                   // about to validate the INSERT target
    | CtasAbsent | CtasCreate | CtasCapture           // the three critical sections of CTAS
    | Decoding                                        // Finalize has started
    | WantLock | Locked                               // before and inside the commit section
    | Committer                                       // baseline validated, committer built
    | Committing                                      // inside FilterAndCommit
    | Releasing | AbortDue                            // failed before the commit call
    | Finished

  datatype Operator = Operator(
    table: string,
    ctas: bool,
    baseline: Target,                                 // the frozen distributed_* fields
    prepareStarted: bool,
    targetPrepared: bool,
    finalizeStarted: bool,
    stage: Stage,
    decoded: set<Message>,
    rowCount: nat,
    returned: Option<nat>,                            // what Finalize returned, if it returned
    // History, not program state:
    prepared: Option<Table>,                          // the table when Prepare succeeded
    called: bool,                                     // FilterAndCommit was called
    committed: set<Message>,                          // messages handed to it
    finalizeAborted: set<Message>,                    // passed to abort by Finalize
    runnerAborted: set<Message>)                      // passed to abort by AbortDistributedWrite

  datatype Holder = ByOperator(op: OpId) | ByMutator(thread: nat)

  /** One call of FilterAndCommit, with the table as it was when it began. */
  datatype Call = Call(op: OpId, found: Option<Table>)

  /** One snapshot made by a distributed write. */
  datatype Publication = Publication(op: OpId, incarnation: nat, before: Option<nat>, after: nat)

  datatype System = System(
    catalog: map<string, Table>,
    incarnations: nat,
    lock: Option<Holder>,
    ops: map<OpId, Operator>,
    calls: seq<Call>,
    publications: seq<Publication>)

  ghost predicate Initial(s: System) {
    && s.lock.None? && s.ops == map[] && s.calls == [] && s.publications == []
    && ProperCatalog(s.catalog, s.incarnations)
  }

  datatype Report = CommittedOne | CommittedOther | Failed

  /** One thing an operator does inside an API call; outcomes of paimon-cpp calls
      and of decoding are part of it. */
  datatype Action =
    | PrepareBegin
    | PrepareInsert(ok: bool)
    | CheckAbsent(ok: bool)
    | CreateTable(ok: bool, happened: bool, made: Target)
    | Capture(ok: bool)
    | FinalizeBegin
    | FinalizeRaises                                  // options or registration, before decoding
    | Decode(ok: bool, messages: set<Message>, rows: nat)
    | Acquire
    | Validate(ok: bool)
    | CommitCall
    | CommitReturn(published: bool, snapshot: nat, report: Report)
    | Release
    | AbortDecoded
    | AbortWrite(messages: set<Message>)

  datatype Step =
    | PlanInsert(i: OpId, table: string)
    | PlanCtas(i: OpId, table: string, planned: Target)
    | Act(i: OpId, action: Action)
    | MutatorAcquire(thread: nat)
    | Mutate(thread: nat, catalog: map<string, Table>, incarnations: nat)
    | MutatorRelease(thread: nat)

  /** Every table has its own incarnation, already counted. */
  ghost predicate ProperCatalog(catalog: map<string, Table>, incarnations: nat) {
    && (forall n :: n in catalog ==> catalog[n].incarnation < incarnations)
    && (forall m, n :: m in catalog && n in catalog && m != n ==> catalog[m].incarnation != catalog[n].incarnation)
  }

  /** How any mutator may change the catalog: a name may be dropped, recreated as
      a new incarnation, or keep its incarnation with a snapshot that does not go
      back. */
  ghost predicate Evolves(catalog: map<string, Table>, incarnations: nat,
                          catalog': map<string, Table>, incarnations': nat) {
    && incarnations <= incarnations' && ProperCatalog(catalog', incarnations')
    && forall n :: n in catalog' && catalog'[n].incarnation < incarnations ==>
         && n in catalog && catalog[n].incarnation == catalog'[n].incarnation
         && NotBefore(catalog[n].target.snapshot, catalog'[n].target.snapshot)
  }

  predicate NotBefore(a: Option<nat>, b: Option<nat>) {
    a.None? || (b.Some? && a.value <= b.value)
  }

  predicate Newer(a: Option<nat>, b: nat) {
    a.None? || a.value < b
  }

  /** The stage in which each action may be taken. */
  predicate StageFits(stage: Stage, a: Action) {
    match a
    case PrepareBegin => stage.Idle?
    case PrepareInsert(_) => stage.InsertPrepare?
    case CheckAbsent(_) => stage.CtasAbsent?
    case CreateTable(_, _, _) => stage.CtasCreate?
    case Capture(_) => stage.CtasCapture?
    case FinalizeBegin => stage.Idle?
    case FinalizeRaises => stage.Decoding?
    case Decode(_, _, _) => stage.Decoding?
    case Acquire => stage.WantLock?
    case Validate(_) => stage.Locked?
    case CommitCall => stage.Committer?
    case CommitReturn(_, _, _) => stage.Committing?
    case Release => stage.Releasing?
    case AbortDecoded => stage.AbortDue?
    case AbortWrite(_) => stage.Idle? || stage.Finished?
  }

  /** Actions that are, or open, a critical section need the mutex to be free.
      Sections that touch the catalog at most once are one action. */
  predicate NeedsLock(a: Action) {
    a.PrepareInsert? || a.CheckAbsent? || a.CreateTable? || a.Capture? || a.Acquire?
  }

  /** What paimon-cpp promises. A commit that reports one committed operation
      published; an error may have published too. A publication makes a newer
      snapshot. A creation happens only where there is no such table; one that
      reports success happened, one that reports failure may have. */
  predicate CallContract(catalog: map<string, Table>, table: string, a: Action) {
    && (a.CommitReturn? ==>
          && (a.report.CommittedOne? ==> a.published)
          && (a.published ==> table in catalog && Newer(catalog[table].target.snapshot, a.snapshot)))
    && (a.CreateTable? ==> (a.happened ==> table !in catalog) && (a.ok ==> table in catalog || a.happened))
  }

  ghost predicate Enabled(s: System, step: Step) {
    match step
    case PlanInsert(i, table) => i !in s.ops && s.lock.None? && table in s.catalog
    case PlanCtas(i, table, planned) => i !in s.ops && planned.snapshot.None?
    case Act(i, a) =>
      && i in s.ops && StageFits(s.ops[i].stage, a)
      && (NeedsLock(a) ==> s.lock.None?)
      && CallContract(s.catalog, s.ops[i].table, a)
    case MutatorAcquire(thread) => s.lock.None?
    case Mutate(thread, catalog, incarnations) =>
      s.lock == Some(ByMutator(thread)) && Evolves(s.catalog, s.incarnations, catalog, incarnations)
    case MutatorRelease(thread) => s.lock == Some(ByMutator(thread))
  }

  /** `ValidateTargetBaseline`: every compared field agrees. */
  predicate Matches(catalog: map<string, Table>, op: Operator) {
    op.table in catalog && catalog[op.table].target == op.baseline
  }

  /** `CapturePreparedCTASTarget`: everything but the schema JSON, and no snapshot. */
  predicate MatchesPlanned(catalog: map<string, Table>, op: Operator) {
    && op.table in catalog
    && var t := catalog[op.table].target;
       t.snapshot.None? && t.(schemaJson := op.baseline.schemaJson) == op.baseline
  }

  function NewOperator(table: string, ctas: bool, baseline: Target): Operator {
    Operator(table, ctas, baseline, false, false, false, Idle, {}, 0, None, None, false, {}, {}, {})
  }

  /** Where an action leaves the operator. */
  function StageAfter(catalog: map<string, Table>, op: Operator, a: Action): Stage {
    match a
    case PrepareBegin => if op.prepareStarted then Idle else if op.ctas then CtasAbsent else InsertPrepare
    case PrepareInsert(_) => Idle
    case CheckAbsent(ok) => if ok && op.table !in catalog then CtasCreate else Idle
    case CreateTable(ok, _, _) => if ok && op.table !in catalog then CtasCapture else Idle
    case Capture(_) => Idle
    case FinalizeBegin => if op.targetPrepared then Decoding else Finished
    case FinalizeRaises => Finished
    case Decode(ok, _, _) => if ok then WantLock else Finished
    case Acquire => Locked
    case Validate(ok) =>
      if ok && Matches(catalog, op) && op.decoded != {} && op.rowCount != 0 then Committer else Releasing
    case CommitCall => Committing
    case CommitReturn(_, _, _) => Finished
    case Release => if op.returned.Some? then Finished else AbortDue
    case AbortDecoded => Finished
    case AbortWrite(_) => op.stage
  }

  /** What else it changes. */
  function FieldsAfter(catalog: map<string, Table>, op: Operator, a: Action): Operator {
    match a
    case PrepareBegin => op.(prepareStarted := true)
    case PrepareInsert(ok) =>
      if ok && Matches(catalog, op)
      then op.(targetPrepared := true, prepared := Some(catalog[op.table]))
      else op
    case Capture(ok) =>
      if ok && MatchesPlanned(catalog, op)
      then op.(targetPrepared := true, prepared := Some(catalog[op.table]), baseline := catalog[op.table].target)
      else op
    case FinalizeBegin => op.(finalizeStarted := true)
    case Decode(ok, messages, rows) =>
      op.(decoded := messages, rowCount := rows,
          finalizeAborted := if ok then op.finalizeAborted else op.finalizeAborted + messages)
    case Validate(ok) =>
      if ok && Matches(catalog, op) && op.decoded == {} && op.rowCount == 0 then op.(returned := Some(0)) else op
    case CommitCall => op.(called := true, committed := op.decoded)
    case CommitReturn(_, _, report) => if report.CommittedOne? then op.(returned := Some(op.rowCount)) else op
    case AbortDecoded => op.(finalizeAborted := op.finalizeAborted + op.decoded)
    case AbortWrite(messages) =>
      // Throws once finalisation has started.
      if op.finalizeStarted then op else op.(runnerAborted := op.runnerAborted + messages)
    case _ => op
  }

  function OpAfter(catalog: map<string, Table>, op: Operator, a: Action): Operator {
    FieldsAfter(catalog, op, a).(stage := StageAfter(catalog, op, a))
  }

  ghost function OpsAfter(s: System, step: Step): map<OpId, Operator>
    requires Enabled(s, step)
  {
    match step
    case PlanInsert(i, table) => s.ops[i := NewOperator(table, false, s.catalog[table].target)]
    case PlanCtas(i, table, planned) => s.ops[i := NewOperator(table, true, planned)]
    case Act(i, a) => s.ops[i := OpAfter(s.catalog, s.ops[i], a)]
    case _ => s.ops
  }

  /** Only a creation and a publication change the catalog. */
  function CatalogAfterAction(catalog: map<string, Table>, incarnations: nat, table: string, a: Action)
    : map<string, Table>
    requires CallContract(catalog, table, a)
  {
    if a.CreateTable? && a.happened then catalog[table := Table(incarnations, a.made)]
    else if a.CommitReturn? && a.published then
      catalog[table := catalog[table].(target := catalog[table].target.(snapshot := Some(a.snapshot)))]
    else catalog
  }

  ghost function CatalogAfter(s: System, step: Step): map<string, Table>
    requires Enabled(s, step)
  {
    match step
    case Act(i, a) => CatalogAfterAction(s.catalog, s.incarnations, s.ops[i].table, a)
    case Mutate(_, catalog, _) => catalog
    case _ => s.catalog
  }

  function IncarnationsAfter(s: System, step: Step): nat {
    match step
    case Act(_, a) => if a.CreateTable? && a.happened then s.incarnations + 1 else s.incarnations
    case Mutate(_, _, incarnations) => incarnations
    case _ => s.incarnations
  }

  function LockAfter(s: System, step: Step): Option<Holder> {
    match step
    case Act(i, a) =>
      if a.Acquire? then Some(ByOperator(i)) else if a.CommitReturn? || a.Release? then None else s.lock
    case MutatorAcquire(thread) => Some(ByMutator(thread))
    case MutatorRelease(_) => None
    case _ => s.lock
  }

  ghost function CallsAfter(s: System, step: Step): seq<Call>
    requires Enabled(s, step)
  {
    if step.Act? && step.action.CommitCall? then
      var table := s.ops[step.i].table;
      s.calls + [Call(step.i, if table in s.catalog then Some(s.catalog[table]) else None)]
    else s.calls
  }

  ghost function PublicationsAfter(s: System, step: Step): seq<Publication>
    requires Enabled(s, step)
  {
    if step.Act? && step.action.CommitReturn? && step.action.published then
      var t := s.catalog[s.ops[step.i].table];
      s.publications + [Publication(step.i, t.incarnation, t.target.snapshot, step.action.snapshot)]
    else s.publications
  }

  ghost function Next(s: System, step: Step): System
    requires Enabled(s, step)
  {
    System(CatalogAfter(s, step), IncarnationsAfter(s, step), LockAfter(s, step), OpsAfter(s, step),
           CallsAfter(s, step), PublicationsAfter(s, step))
  }

  // ---- what every step keeps -------------------------------------------------

  predicate Holds(stage: Stage) {
    stage.Locked? || stage.Committer? || stage.Committing? || stage.Releasing?
  }

  predicate Finalizing(stage: Stage) {
    stage.Decoding? || stage.WantLock? || Holds(stage) || stage.AbortDue? || stage.Finished?
  }

  predicate Preparing(stage: Stage) {
    stage.InsertPrepare? || stage.CtasAbsent? || stage.CtasCreate? || stage.CtasCapture?
  }

  /** One operator's own bookkeeping. */
  predicate OpInv(op: Operator) {
    && (op.finalizeStarted <==> Finalizing(op.stage))
    && (Finalizing(op.stage) && !op.stage.Finished? ==> op.targetPrepared)
    && (Preparing(op.stage) || op.targetPrepared ==> op.prepareStarted)
    && (Preparing(op.stage) ==> !op.targetPrepared)
    && (op.stage.InsertPrepare? ==> !op.ctas)
    && (op.stage.CtasAbsent? || op.stage.CtasCreate? || op.stage.CtasCapture? ==> op.ctas)
    && (op.called ==> op.targetPrepared && (op.stage.Committing? || op.stage.Finished?))
    && (op.stage.Committing? ==> op.called)
    && (op.stage.Committer? || op.called ==> op.decoded != {} && op.rowCount != 0)
    && (op.targetPrepared ==>
          && op.prepared.Some? && op.prepared.value.target == op.baseline
          && (op.ctas ==> op.baseline.snapshot.None?))
    // Messages: committed ones are what was decoded, and Finalize aborts or commits, never both.
    && op.committed == (if op.called then op.decoded else {})
    && (op.called || !op.stage.Finished? ==> op.finalizeAborted == {})
    && (!op.finalizeStarted || op.stage.Decoding? ==> op.decoded == {} && op.returned.None?)
    && (op.stage.Finished? && !op.called ==> op.decoded <= op.finalizeAborted)
    && (op.returned.Some? ==>
          && (op.stage.Releasing? || op.stage.Finished?)
          && op.returned.value == op.rowCount
          && (op.called || op.decoded == {}))
  }

  ghost predicate OpsInv(s: System) {
    forall i :: i in s.ops ==> OpInv(s.ops[i])
  }

  /** The mutex: held by the operator inside its commit section, by nobody else. */
  ghost predicate LockInv(s: System) {
    && (forall i :: i in s.ops && Holds(s.ops[i].stage) ==> s.lock == Some(ByOperator(i)))
    && (s.lock.Some? && s.lock.value.ByOperator? ==> s.lock.value.op in s.ops && Holds(s.ops[s.lock.value.op].stage))
  }

  /** A validated baseline stays valid until the commit call returns. */
  ghost predicate BaselineInv(s: System) {
    forall i :: i in s.ops && Validated(s.ops[i]) ==> Matches(s.catalog, s.ops[i])
  }

  /** The call log: one call per operator, each on its frozen baseline. */
  ghost predicate CallsInv(s: System) {
    && (forall k :: 0 <= k < |s.calls| ==>
          && s.calls[k].op in s.ops && s.ops[s.calls[k].op].called
          && s.calls[k].found.Some? && s.calls[k].found.value.target == s.ops[s.calls[k].op].baseline)
    && (forall j, k :: 0 <= j < k < |s.calls| ==> s.calls[j].op != s.calls[k].op)
  }

  ghost predicate PublicationOk(s: System, p: Publication) {
    && p.op in s.ops && s.ops[p.op].called && s.ops[p.op].stage.Finished?
    && p.before == s.ops[p.op].baseline.snapshot && Newer(p.before, p.after)
    && p.incarnation < s.incarnations
  }

  /** Snapshots of one incarnation only move forward. */
  ghost predicate PublicationsInv(s: System) {
    && ProperCatalog(s.catalog, s.incarnations)
    && (forall k :: 0 <= k < |s.publications| ==> PublicationOk(s, s.publications[k]))
    && (forall k, n :: 0 <= k < |s.publications| && n in s.catalog ==>
          s.catalog[n].incarnation == s.publications[k].incarnation ==>
            NotBefore(Some(s.publications[k].after), s.catalog[n].target.snapshot))
    && (forall j, k :: 0 <= j < k < |s.publications| ==>
          s.publications[j].incarnation == s.publications[k].incarnation ==>
            NotBefore(Some(s.publications[j].after), s.publications[k].before))
  }

  ghost predicate Inv(s: System) {
    OpsInv(s) && LockInv(s) && BaselineInv(s) && CallsInv(s) && PublicationsInv(s)
  }

  lemma InitialInv(s: System)
    requires Initial(s)
    ensures Inv(s)
  {
  }

  // ---- one operator ----------------------------------------------------------

  /** An action keeps the operator's bookkeeping, whatever the catalog holds. */
  lemma OpInvAfter(catalog: map<string, Table>, op: Operator, a: Action)
    requires OpInv(op) && StageFits(op.stage, a)
    ensures OpInv(OpAfter(catalog, op, a))
  {
  }

  lemma HoldsAfter(catalog: map<string, Table>, op: Operator, a: Action)
    requires StageFits(op.stage, a)
    ensures Holds(OpAfter(catalog, op, a).stage)
       <==> a.Acquire? || (Holds(op.stage) && !a.CommitReturn? && !a.Release?)
    ensures a.CommitReturn? || a.Release? ==> Holds(op.stage)
  {
    hide FieldsAfter, Matches;
  }

  predicate Validated(op: Operator) {
    op.stage.Committer? || op.stage.Committing?
  }

  /** The commit stages are entered only past a successful validation. */
  lemma ValidatedAfter(catalog: map<string, Table>, op: Operator, a: Action)
    requires StageFits(op.stage, a) && Validated(OpAfter(catalog, op, a))
    ensures OpAfter(catalog, op, a).table == op.table && OpAfter(catalog, op, a).baseline == op.baseline
    ensures a.CommitCall? || (a.Validate? && Matches(catalog, op))
  {
  }

  /** Once the commit call was made, the operator only finishes. */
  lemma CalledAfter(catalog: map<string, Table>, op: Operator, a: Action)
    requires OpInv(op) && op.called && StageFits(op.stage, a)
    ensures var op' := OpAfter(catalog, op, a);
            && op'.called && op'.baseline == op.baseline && op'.committed == op.committed
            && op'.finalizeAborted == op.finalizeAborted && op'.runnerAborted == op.runnerAborted
            && (op.stage.Finished? ==> op'.stage.Finished?)
    ensures !a.CommitCall?
  {
  }

  // ---- the system --------------------------------------------------------------

  lemma OpsNext(s: System, step: Step)
    requires Inv(s) && Enabled(s, step)
    ensures OpsInv(Next(s, step))
  {
    hide OpAfter, OpInv, LockInv, CallsInv, PublicationsInv, BaselineInv, CatalogAfter;
    match step
    case Act(i, a) => OpInvAfter(s.catalog, s.ops[i], a);
    case PlanInsert(i, table) => NewOpInv(table, false, s.catalog[table].target);
    case PlanCtas(i, table, planned) => NewOpInv(table, true, planned);
    case _ =>
  }

  lemma NewOpInv(table: string, ctas: bool, baseline: Target)
    ensures OpInv(NewOperator(table, ctas, baseline))
  {
  }

  lemma LockNext(s: System, step: Step)
    requires Inv(s) && Enabled(s, step)
    ensures LockInv(Next(s, step))
  {
    hide OpAfter, OpsInv, CallsInv, PublicationsInv, BaselineInv, CatalogAfter;
    if step.Act? {
      HoldsAfter(s.catalog, s.ops[step.i], step.action);
    }
  }

  lemma BaselineNext(s: System, step: Step)
    requires Inv(s) && Enabled(s, step)
    ensures BaselineInv(Next(s, step))
  {
    hide OpAfter, OpsInv, CallsInv, PublicationsInv;
    if step.Act? {
      var op := s.ops[step.i];
      HoldsAfter(s.catalog, op, step.action);
      if Validated(OpAfter(s.catalog, op, step.action)) {
        ValidatedAfter(s.catalog, op, step.action);
      }
    }
  }

  /** Calls once made keep their operator and its baseline. */
  lemma CalledStays(s: System, step: Step, i: OpId)
    requires OpsInv(s) && Enabled(s, step) && i in s.ops && s.ops[i].called
    ensures var op, op' := s.ops[i], OpsAfter(s, step)[i];
            && op'.called && op'.baseline == op.baseline && op'.committed == op.committed
            && op'.finalizeAborted == op.finalizeAborted && op'.runnerAborted == op.runnerAborted
            && (op.stage.Finished? ==> op'.stage.Finished?)
    ensures step.Act? && step.action.CommitCall? ==> step.i != i
  {
    hide OpAfter, OpInv;
    if step.Act? && step.i == i {
      CalledAfter(s.catalog, s.ops[i], step.action);
    }
  }

  lemma CallsNext(s: System, step: Step)
    requires Inv(s) && Enabled(s, step)
    ensures CallsInv(Next(s, step))
  {
    hide OpInv, OpAfter, LockInv, PublicationsInv, CatalogAfter;
    forall k | 0 <= k < |s.calls|
      ensures s.calls[k].op in OpsAfter(s, step) && OpsAfter(s, step)[s.calls[k].op].called
      ensures OpsAfter(s, step)[s.calls[k].op].baseline == s.ops[s.calls[k].op].baseline
      ensures step.Act? && step.action.CommitCall? ==> step.i != s.calls[k].op
    {
      CalledStays(s, step, s.calls[k].op);
    }
    if step.Act? && step.action.CommitCall? {
      CallRecorded(s, step.i);
    }
  }

  lemma CallRecorded(s: System, i: OpId)
    requires Inv(s) && Enabled(s, Act(i, CommitCall))
    ensures var op' := OpsAfter(s, Act(i, CommitCall))[i];
            && op'.called && op'.baseline == s.ops[i].baseline
            && s.ops[i].table in s.catalog && s.catalog[s.ops[i].table].target == op'.baseline
  {
    hide OpsInv, LockInv, PublicationsInv, CallsInv;
  }

  lemma PublicationsNext(s: System, step: Step)
    requires Inv(s) && Enabled(s, step)
    ensures PublicationsInv(Next(s, step))
  {
    hide OpInv, OpAfter, LockInv, CallsInv, PublicationOk, CatalogAfterAction;
    PublicationsKept(s, step);
    CatalogForward(s, step);
    if step.Act? && step.action.CommitReturn? && step.action.published {
      PublicationRecorded(s, step);
    }
  }

  lemma PublicationsKept(s: System, step: Step)
    requires Inv(s) && Enabled(s, step)
    ensures forall k :: 0 <= k < |s.publications| ==>
              PublicationOk(Next(s, step), s.publications[k]) && s.publications[k].incarnation < s.incarnations
  {
    hide OpInv, OpAfter, LockInv, CallsInv;
    forall k | 0 <= k < |s.publications|
      ensures PublicationOk(Next(s, step), s.publications[k]) && s.publications[k].incarnation < s.incarnations
    {
      assert PublicationOk(s, s.publications[k]);
      CalledStays(s, step, s.publications[k].op);
    }
  }

  /** The catalog moves as any mutator may move it, whoever takes the step. */
  lemma CatalogForward(s: System, step: Step)
    requires Inv(s) && Enabled(s, step)
    ensures Evolves(s.catalog, s.incarnations, CatalogAfter(s, step), IncarnationsAfter(s, step))
    ensures step.Act? && step.action.CommitReturn? && step.action.published ==>
              var table := s.ops[step.i].table;
              table in s.catalog && CatalogAfter(s, step)[table].incarnation == s.catalog[table].incarnation
              && CatalogAfter(s, step)[table].target.snapshot == Some(step.action.snapshot)
  {
    hide OpAfter, OpInv, LockInv, CallsInv, PublicationOk;
  }

  lemma PublicationRecorded(s: System, step: Step)
    requires Inv(s) && Enabled(s, step) && step.Act? && step.action.CommitReturn? && step.action.published
    ensures PublicationOk(Next(s, step), PublicationsAfter(s, step)[|s.publications|])
  {
    hide LockInv, CallsInv;
    assert OpInv(s.ops[step.i]);
  }

  lemma InvNext(s: System, step: Step)
    requires Inv(s) && Enabled(s, step)
    ensures Inv(Next(s, step))
  {
    hide OpsInv, CallsInv, PublicationsInv, LockInv, BaselineInv, Next, Enabled;
    OpsNext(s, step);
    LockNext(s, step);
    BaselineNext(s, step);
    CallsNext(s, step);
    PublicationsNext(s, step);
  }

  // ---- whole runs ----------------------------------------------------------------

  /** A run: an initial system and the steps taken since. */
  datatype Trace = Start(initial: System) | More(before: Trace, step: Step)

  ghost predicate Legal(t: Trace)
    decreases t, 0
  {
    match t
    case Start(s) => Initial(s)
    case More(p, step) => Legal(p) && Enabled(State(p), step)
  }

  ghost function State(t: Trace): System
    requires Legal(t)
    decreases t, 1
  {
    match t
    case Start(s) => s
    case More(p, step) => Next(State(p), step)
  }

  ghost predicate IsPrefix(t: Trace, later: Trace) {
    t == later || (later.More? && IsPrefix(t, later.before))
  }

  lemma {:induction false} TraceInv(t: Trace)
    requires Legal(t)
    ensures Inv(State(t))
  {
    hide Inv, Next, Enabled, Initial;
    match t
    case Start(s) => InitialInv(s);
    case More(p, step) =>
      TraceInv(p);
      InvNext(State(p), step);
  }

  /** Whatever interleaves, when FilterAndCommit is called the table is there and
      its uuid, path, schema and latest snapshot are those the operator froze,
      which are also those it saw when Prepare succeeded; and there are messages
      and rows to commit. */
  lemma CommitSeesBaseline(t: Trace, i: OpId)
    requires Legal(t) && Enabled(State(t), Act(i, CommitCall))
    ensures var s := State(t);
            var op := s.ops[i];
            && s.lock == Some(ByOperator(i))
            && op.table in s.catalog && s.catalog[op.table].target == op.baseline
            && op.prepared.Some? && op.prepared.value.target == op.baseline
            && op.decoded != {} && op.rowCount != 0
            && (op.ctas ==> s.catalog[op.table].target.snapshot.None?)
  {
    TraceInv(t);
    assert OpInv(State(t).ops[i]);
  }

  /** FilterAndCommit is called at most once per operator, and every call ever
      made found the frozen baseline. */
  lemma OneCommitCall(t: Trace, j: nat, k: nat)
    requires Legal(t) && j < |State(t).calls| && k < |State(t).calls|
    ensures State(t).calls[j].op == State(t).calls[k].op ==> j == k
    ensures var s := State(t);
            var c := s.calls[k];
            c.op in s.ops && c.found.Some? && c.found.value.target == s.ops[c.op].baseline
  {
    hide OpInv, LockInv, PublicationsInv, Next, Enabled;
    TraceInv(t);
  }

  /** Of all writes frozen at the same snapshot of one table, at most one ever
      publishes: two publications into one incarnation froze different snapshots,
      the later one not older than what the earlier one made. */
  lemma OnePublicationPerSnapshot(t: Trace, j: nat, k: nat)
    requires Legal(t) && j < k < |State(t).publications|
    requires State(t).publications[j].incarnation == State(t).publications[k].incarnation
    ensures var s := State(t);
            var p, q := s.publications[j], s.publications[k];
            && p.op in s.ops && q.op in s.ops && p.op != q.op
            && s.ops[p.op].baseline.snapshot != s.ops[q.op].baseline.snapshot
            && NotBefore(Some(p.after), s.ops[q.op].baseline.snapshot)
  {
    hide OpInv, LockInv, CallsInv, Next, Enabled;
    TraceInv(t);
    var s := State(t);
    assert PublicationOk(s, s.publications[j]) && PublicationOk(s, s.publications[k]);
  }

  /** Every incarnation of a table that a run has seen, with its uuid. */
  ghost function Identities(t: Trace): set<(nat, string)>
    requires Legal(t)
  {
    TablesOf(State(t).catalog) + if t.More? then Identities(t.before) else {}
  }

  function TablesOf(catalog: map<string, Table>): set<(nat, string)> {
    set n | n in catalog :: (catalog[n].incarnation, catalog[n].target.uuid)
  }

  /** No creation reuses the uuid of another table, present or past. */
  ghost predicate UuidsUnique(t: Trace)
    requires Legal(t)
  {
    forall p, q :: p in Identities(t) && q in Identities(t) && p.1 == q.1 ==> p.0 == q.0
  }

  /** A publication went to a table with the uuid that its operator froze. */
  lemma {:induction false} PublishedIdentity(t: Trace, k: nat)
    requires Legal(t) && k < |State(t).publications|
    ensures var s := State(t);
            s.publications[k].op in s.ops
            && (s.publications[k].incarnation, s.ops[s.publications[k].op].baseline.uuid) in Identities(t)
  {
    hide OpInv, OpAfter, LockInv, CallsInv, CatalogAfter, CallsAfter;
    TraceInv(t);
    if t.More? {
      var s := State(t.before);
      TraceInv(t.before);
      if k < |s.publications| {
        PublishedIdentity(t.before, k);
        assert PublicationOk(s, s.publications[k]);
        CalledStays(s, t.step, s.publications[k].op);
      } else {
        PublicationRecorded(s, t.step);
        PublishedBaseline(s, t.step);
      }
    }
  }

  lemma PublishedBaseline(s: System, step: Step)
    requires Inv(s) && Enabled(s, step) && step.Act? && step.action.CommitReturn? && step.action.published
    ensures s.ops[step.i].table in s.catalog
    ensures OpsAfter(s, step)[step.i].baseline == s.ops[step.i].baseline == s.catalog[s.ops[step.i].table].target
  {
    hide LockInv, CallsInv, PublicationsInv;
  }

  /** With such uuids a caller needs no incarnations: no two writes with equal
      baselines ever both publish. */
  lemma UniqueUuidsPublishOnce(t: Trace, j: nat, k: nat)
    requires Legal(t) && UuidsUnique(t) && j < k < |State(t).publications|
    ensures var s := State(t);
            && s.publications[j].op in s.ops && s.publications[k].op in s.ops
            && s.ops[s.publications[j].op].baseline != s.ops[s.publications[k].op].baseline
  {
    hide Next, Enabled, Identities;
    PublishedIdentity(t, j);
    PublishedIdentity(t, k);
    if State(t).publications[j].incarnation == State(t).publications[k].incarnation {
      OnePublicationPerSnapshot(t, j, k);
    }
  }

  // ---- messages --------------------------------------------------------------------

  function Aborted(op: Operator): set<Message> {
    op.finalizeAborted + op.runnerAborted
  }

  /** Finalize never both commits and aborts a message: the only messages ever in
      both sets are those the runner passed to AbortDistributedWrite before. So an
      operator that called commit keeps the two apart exactly when the runner had
      aborted none of what was then decoded. */
  lemma OnlyRunnerOverlap(t: Trace, i: OpId)
    requires Legal(t) && i in State(t).ops
    ensures var op := State(t).ops[i];
            && Aborted(op) * op.committed == op.runnerAborted * op.committed
            && (op.called ==> (Aborted(op) !! op.committed <==> op.runnerAborted !! op.decoded))
  {
    TraceInv(t);
    assert OpInv(State(t).ops[i]);
  }

  /** The runner never finalises an operator it gave messages to abort for. */
  ghost predicate Disciplined(t: Trace, i: OpId)
    requires Legal(t)
  {
    t.More? ==>
      && Disciplined(t.before, i)
      && (t.step == Act(i, FinalizeBegin) ==> State(t.before).ops[i].runnerAborted == {})
  }

  /** Aborting through the API has no effect once finalisation has started. */
  lemma RunnerAbortedAfter(catalog: map<string, Table>, op: Operator, a: Action)
    requires OpInv(op) && StageFits(op.stage, a) && OpAfter(catalog, op, a).finalizeStarted
    ensures op.finalizeStarted || a.FinalizeBegin?
    ensures OpAfter(catalog, op, a).runnerAborted == op.runnerAborted
  {
  }

  lemma {:induction false} DisciplinedFinalize(t: Trace, i: OpId)
    requires Legal(t) && Disciplined(t, i) && i in State(t).ops && State(t).ops[i].finalizeStarted
    ensures State(t).ops[i].runnerAborted == {}
  {
    hide OpAfter, OpInv, LockInv, BaselineInv, CallsInv, PublicationsInv, CatalogAfter, CallsAfter, PublicationsAfter;
    if t.More? {
      TraceInv(t.before);
      var s := State(t.before);
      if t.step.Act? && t.step.i == i {
        RunnerAbortedAfter(s.catalog, s.ops[i], t.step.action);
        if s.ops[i].finalizeStarted {
          DisciplinedFinalize(t.before, i);
        }
      } else if i in s.ops {
        DisciplinedFinalize(t.before, i);
      }
    }
  }

  /** With such a runner no message is both passed to abort and handed to commit. */
  lemma AbortedXorCommitted(t: Trace, i: OpId)
    requires Legal(t) && Disciplined(t, i) && i in State(t).ops
    ensures Aborted(State(t).ops[i]) !! State(t).ops[i].committed
  {
    hide Next, Enabled;
    OnlyRunnerOverlap(t, i);
    TraceInv(t);
    var op := State(t).ops[i];
    assert OpInv(op);
    if op.called {
      DisciplinedFinalize(t, i);
    }
  }

  /** From the commit call on, nothing more is aborted, nothing more is committed
      and the baseline stays what it was. */
  lemma {:induction false} CommitCallIsFinal(t: Trace, later: Trace, i: OpId)
    requires Legal(later) && IsPrefix(t, later) && Legal(t) && i in State(t).ops && State(t).ops[i].called
    ensures i in State(later).ops
    ensures var op, op' := State(t).ops[i], State(later).ops[i];
            && op'.called && op'.committed == op.committed && Aborted(op') == Aborted(op)
            && op'.baseline == op.baseline
    decreases later
  {
    hide OpInv, OpAfter, LockInv, BaselineInv, CallsInv, PublicationsInv, CatalogAfter, CallsAfter, PublicationsAfter;
    if t != later {
      CommitCallIsFinal(t, later.before, i);
      TraceInv(later.before);
      CalledStays(State(later.before), later.step, i);
    }
  }

  /** A Finalize that ends without calling FilterAndCommit has passed every message
      it decoded to abort. */
  lemma FailureAbortsDecoded(t: Trace, i: OpId)
    requires Legal(t) && i in State(t).ops && State(t).ops[i].stage.Finished? && !State(t).ops[i].called
    ensures State(t).ops[i].decoded <= Aborted(State(t).ops[i]) && State(t).ops[i].committed == {}
  {
    TraceInv(t);
    assert OpInv(State(t).ops[i]);
  }

  lemma FinishedAfter(catalog: map<string, Table>, op: Operator, a: Action)
    requires OpInv(op) && op.stage.Finished? && StageFits(op.stage, a)
    ensures OpAfter(catalog, op, a) == op
  {
  }

  /** A finished operator never changes again: in particular AbortDistributedWrite
      refuses for good, so what was not passed to abort by then never is. */
  lemma {:induction false} FinishedForever(t: Trace, later: Trace, i: OpId)
    requires Legal(later) && IsPrefix(t, later) && Legal(t) && i in State(t).ops && State(t).ops[i].stage.Finished?
    ensures i in State(later).ops && State(later).ops[i] == State(t).ops[i]
    decreases later
  {
    hide OpInv, OpAfter, LockInv, BaselineInv, CallsInv, PublicationsInv, CatalogAfter, CallsAfter, PublicationsAfter;
    if t != later {
      FinishedForever(t, later.before, i);
      TraceInv(later.before);
      var s := State(later.before);
      if later.step.Act? && later.step.i == i {
        FinishedAfter(s.catalog, s.ops[i], later.step.action);
      }
    }
  }

  /** Finalize of operator `i` got as far as decoding the results. */
  predicate Reached(t: Trace, i: OpId) {
    t.More? && (Reached(t.before, i) || (t.step.Act? && t.step.i == i && t.step.action.Decode?))
  }

  predicate PastDecoding(op: Operator) {
    op.finalizeStarted && op.targetPrepared && !op.stage.Decoding?
  }

  /** Nothing was decoded, so nothing was committed, and Finalize aborted nothing. */
  predicate Untouched(op: Operator) {
    && op.decoded == {} && op.rowCount == 0 && op.committed == {} && op.finalizeAborted == {}
    && !op.called && op.returned.None?
    && (PastDecoding(op) ==> op.stage.Finished?)
  }

  lemma UntouchedAfter(catalog: map<string, Table>, op: Operator, a: Action)
    requires OpInv(op) && StageFits(op.stage, a) && !a.Decode? && Untouched(op)
    ensures Untouched(OpAfter(catalog, op, a))
  {
    hide Matches, MatchesPlanned;
  }

  lemma PastDecodingAfter(catalog: map<string, Table>, op: Operator, a: Action)
    requires OpInv(op) && StageFits(op.stage, a) && (a.Decode? || PastDecoding(op))
    ensures PastDecoding(OpAfter(catalog, op, a))
  {
    hide Matches, MatchesPlanned;
  }

  /** Whether Finalize reached the decoding decides: before it, or without it,
      everything is untouched; after it, the operator is past decoding. */
  lemma {:induction false} ReachedDecides(t: Trace, i: OpId)
    requires Legal(t)
    ensures Reached(t, i) ==> i in State(t).ops && PastDecoding(State(t).ops[i])
    ensures !Reached(t, i) && i in State(t).ops ==> Untouched(State(t).ops[i])
  {
    hide OpInv, OpAfter, PastDecoding, Untouched, LockInv, BaselineInv, CallsInv, PublicationsInv, CatalogAfter,
      CallsAfter, PublicationsAfter;
    if t.More? {
      var s := State(t.before);
      ReachedDecides(t.before, i);
      TraceInv(t.before);
      if t.step.Act? && t.step.i == i {
        if t.step.action.Decode? || Reached(t.before, i) {
          PastDecodingAfter(s.catalog, s.ops[i], t.step.action);
        } else {
          UntouchedAfter(s.catalog, s.ops[i], t.step.action);
        }
      } else if i !in s.ops && i in State(t).ops {
        NewUntouched(State(t).ops[i].table, State(t).ops[i].ctas, State(t).ops[i].baseline);
      }
    }
  }

  lemma NewUntouched(table: string, ctas: bool, baseline: Target)
    ensures Untouched(NewOperator(table, ctas, baseline))
  {
  }

  // ---- CTAS and failed preparation ----------------------------------------------------

  /** Preparation that started and ended without success. For CTAS this is where a
      target seen by the absence check, a create conflict, an I/O failure or a
      mismatch at capture leads. */
  predicate PrepareFailed(op: Operator) {
    op.prepareStarted && !op.targetPrepared && !Preparing(op.stage)
  }

  lemma PrepareFailedAfter(catalog: map<string, Table>, op: Operator, a: Action)
    requires OpInv(op) && PrepareFailed(op) && StageFits(op.stage, a)
    ensures PrepareFailed(OpAfter(catalog, op, a)) && !OpAfter(catalog, op, a).called
  {
  }

  /** A failed preparation is final: whatever follows, the operator never becomes
      prepared and none of its data is ever handed to a commit. */
  lemma {:induction false} FailedPrepareNeverCommits(t: Trace, later: Trace, i: OpId)
    requires Legal(later) && IsPrefix(t, later) && Legal(t) && i in State(t).ops && PrepareFailed(State(t).ops[i])
    ensures i in State(later).ops && PrepareFailed(State(later).ops[i])
    ensures !State(later).ops[i].called && State(later).ops[i].committed == {}
    decreases later
  {
    hide OpAfter, LockInv, BaselineInv, CallsInv, PublicationsInv, CatalogAfter, CallsAfter, PublicationsAfter;
    TraceInv(later);
    if t != later {
      FailedPrepareNeverCommits(t, later.before, i);
      TraceInv(later.before);
      var s := State(later.before);
      if later.step.Act? && later.step.i == i {
        PrepareFailedAfter(s.catalog, s.ops[i], later.step.action);
      }
    }
    assert OpInv(State(later).ops[i]);
  }

  /** A target that is there when the absence check or the creation of a CTAS looks
      makes Prepare fail, and no continuation of the run ever commits for it. */
  lemma TargetSeenNeverCommits(t: Trace, later: Trace, i: OpId)
    requires Legal(later) && IsPrefix(t, later) && Legal(t) && t.More? && t.step.Act? && t.step.i == i
    requires t.step.action.CheckAbsent? || t.step.action.CreateTable?
    requires State(t.before).ops[i].table in State(t.before).catalog
    ensures i in State(later).ops && PrepareFailed(State(later).ops[i])
    ensures !State(later).ops[i].called && State(later).ops[i].committed == {}
  {
    hide LockInv, BaselineInv, CallsInv, PublicationsInv, CatalogAfter, CallsAfter, PublicationsAfter;
    TraceInv(t.before);
    var op := State(t.before).ops[i];
    assert OpInv(op) && StageFits(op.stage, t.step.action);
    assert State(t).ops[i] == OpAfter(State(t.before).catalog, op, t.step.action);
    FailedPrepareNeverCommits(t, later, i);
  }

  /** What the CTAS of an operator was planned to create. */
  function PlannedAt(t: Trace, i: OpId): Option<Target> {
    match t
    case Start(_) => None
    case More(p, step) => if step.PlanCtas? && step.i == i then Some(step.planned) else PlannedAt(p, i)
  }

  /** A table as planned: same uuid, path and definition, no snapshot. Only the
      schema JSON is the catalog's to write. */
  predicate AsPlanned(found: Target, planned: Target) {
    && found.uuid == planned.uuid && found.path == planned.path && found.definition == planned.definition
    && found.snapshot.None?
  }

  /** How a CTAS operator stands to its plan. */
  predicate FollowsPlan(op: Operator, planned: Target) {
    && planned.snapshot.None?
    && (!op.targetPrepared ==> op.baseline == planned)
    && (op.targetPrepared ==>
          op.prepared.Some? && op.baseline == op.prepared.value.target && AsPlanned(op.baseline, planned))
  }

  lemma FollowsPlanAfter(catalog: map<string, Table>, op: Operator, a: Action, planned: Target)
    requires OpInv(op) && op.ctas && StageFits(op.stage, a) && FollowsPlan(op, planned)
    ensures OpAfter(catalog, op, a).ctas && FollowsPlan(OpAfter(catalog, op, a), planned)
  {
  }

  /** Whatever mutators run between the three critical sections of a CTAS: while it
      is not prepared it is frozen at its plan, and once Prepare succeeded the table
      captured is as planned, without snapshots, and has become the baseline. */
  lemma {:induction false} PreparedAsPlanned(t: Trace, i: OpId)
    requires Legal(t) && i in State(t).ops && State(t).ops[i].ctas
    ensures PlannedAt(t, i).Some? && FollowsPlan(State(t).ops[i], PlannedAt(t, i).value)
  {
    hide OpInv, OpAfter, FollowsPlan, LockInv, BaselineInv, CallsInv, PublicationsInv, CatalogAfter, CallsAfter,
      PublicationsAfter;
    if t.More? {
      var s := State(t.before);
      TraceInv(t.before);
      if t.step.PlanCtas? && t.step.i == i {
        NewFollowsPlan(t.step.table, t.step.planned);
      } else if t.step.Act? && t.step.i == i {
        CtasStays(s.catalog, s.ops[i], t.step.action);
        PreparedAsPlanned(t.before, i);
        FollowsPlanAfter(s.catalog, s.ops[i], t.step.action, PlannedAt(t.before, i).value);
      } else {
        PreparedAsPlanned(t.before, i);
      }
    }
  }

  lemma NewFollowsPlan(table: string, planned: Target)
    requires planned.snapshot.None?
    ensures FollowsPlan(NewOperator(table, true, planned), planned)
  {
  }

  lemma CtasStays(catalog: map<string, Table>, op: Operator, a: Action)
    ensures OpAfter(catalog, op, a).ctas == op.ctas
  {
  }

  /** Critical sections exclude each other: whatever an operator reads of the catalog or
      does to it inside one happens while nobody else holds the mutex. */
  lemma SectionsExclude(t: Trace, step: Step)
    requires Legal(t) && Enabled(State(t), step)
    ensures step.PlanInsert? ==> State(t).lock.None?
    ensures step.Mutate? ==> State(t).lock == Some(ByMutator(step.thread))
    ensures step.Act? && (step.action.PrepareInsert? || step.action.CheckAbsent?) ==> State(t).lock.None?
    ensures step.Act? && (step.action.CreateTable? || step.action.Capture?) ==> State(t).lock.None?
    ensures step.Act? && (step.action.Validate? || step.action.CommitCall? || step.action.CommitReturn?) ==>
              State(t).lock == Some(ByOperator(step.i))
  {
    hide Next;
    TraceInv(t);
  }

  /** When each critical section of Prepare succeeds: an INSERT finds its baseline, a CTAS
      finds no table, creates one, and captures it as planned. */
  lemma PrepareExactly(t: Trace, i: OpId)
    requires Legal(t) && t.More? && t.step.Act? && t.step.i == i && i in State(t.before).ops
    ensures var s, op, op' := State(t.before), State(t.before).ops[i], State(t).ops[i];
            match t.step.action
            case PrepareBegin => op'.stage == if op.prepareStarted then Idle else if op.ctas then CtasAbsent else InsertPrepare
            case PrepareInsert(ok) =>
              op'.stage == Idle
              && (op'.targetPrepared <==> ok && op.table in s.catalog && s.catalog[op.table].target == op.baseline)
            case CheckAbsent(ok) => op'.stage == if ok && op.table !in s.catalog then CtasCreate else Idle
            case CreateTable(ok, happened, made) => op'.stage == if ok && happened then CtasCapture else Idle
            case Capture(ok) =>
              op'.stage == Idle && PlannedAt(t.before, i).Some?
              && (op'.targetPrepared <==>
                    ok && op.table in s.catalog && AsPlanned(s.catalog[op.table].target, PlannedAt(t.before, i).value))
            case _ => true
  {
    hide LockInv, BaselineInv, CallsInv, PublicationsInv, CatalogAfter, CallsAfter, PublicationsAfter, PlannedAt;
    TraceInv(t.before);
    assert OpInv(State(t.before).ops[i]);
    if t.step.action.Capture? {
      PreparedAsPlanned(t.before, i);
    }
  }

  /** A CTAS commits only into a table that is as planned, that still has the schema
      JSON seen at the capture, and that still has no snapshot. */
  lemma CtasCommitsIntoItsPlan(t: Trace, i: OpId)
    requires Legal(t) && Enabled(State(t), Act(i, CommitCall)) && State(t).ops[i].ctas
    ensures var s := State(t);
            && s.ops[i].table in s.catalog && PlannedAt(t, i).Some?
            && AsPlanned(s.catalog[s.ops[i].table].target, PlannedAt(t, i).value)
            && s.ops[i].prepared.Some?
            && s.catalog[s.ops[i].table].target.schemaJson == s.ops[i].prepared.value.target.schemaJson
  {
    hide Next;
    CommitSeesBaseline(t, i);
    PreparedAsPlanned(t, i);
    TraceInv(t);
    assert OpInv(State(t).ops[i]);
  }

  // ---- what Finalize reports -----------------------------------------------------------

  lemma ReturnedAfter(catalog: map<string, Table>, op: Operator, a: Action)
    requires OpInv(op) && StageFits(op.stage, a)
    requires OpAfter(catalog, op, a).called && OpAfter(catalog, op, a).returned.Some?
    ensures (op.called && op.returned.Some?) || (a.CommitReturn? && a.report.CommittedOne?)
  {
  }

  /** Finalize returns a row count after a commit call only if that call published
      a snapshot for this operator. (A publication may also be reported as an
      error: the converse is not promised.) */
  lemma {:induction false} ReturnedWasPublished(t: Trace, i: OpId) returns (k: nat)
    requires Legal(t) && i in State(t).ops && State(t).ops[i].called && State(t).ops[i].returned.Some?
    ensures k < |State(t).publications| && State(t).publications[k].op == i
    ensures State(t).ops[i].returned == Some(State(t).ops[i].rowCount)
  {
    hide OpAfter, LockInv, BaselineInv, CallsInv, PublicationsInv, CatalogAfter, CallsAfter;
    TraceInv(t);
    assert OpInv(State(t).ops[i]);
    var s := State(t.before);
    TraceInv(t.before);
    if t.step.Act? && t.step.i == i {
      ReturnedAfter(s.catalog, s.ops[i], t.step.action);
      if t.step.action.CommitReturn? {
        k := |s.publications|;
      } else {
        k := ReturnedWasPublished(t.before, i);
      }
    } else {
      k := ReturnedWasPublished(t.before, i);
    }
  }

  /** In the run, operator `i` found its baseline again inside the commit section. */
  ghost predicate BaselineHeld(t: Trace, i: OpId)
    requires Legal(t)
  {
    t.More? &&
    (BaselineHeld(t.before, i)
     || (t.step == Act(i, Validate(true)) && Matches(State(t.before).catalog, State(t.before).ops[i])))
  }

  /** In the run, the commit call of operator `i` reported one committed operation. */
  ghost predicate OneReported(t: Trace, i: OpId) {
    t.More? &&
    (OneReported(t.before, i)
     || (t.step.Act? && t.step.i == i && t.step.action.CommitReturn? && t.step.action.report.CommittedOne?))
  }

  /** How the two events show in the operator. */
  predicate Witnesses(op: Operator, held: bool, reported: bool) {
    && (held ==> Finalizing(op.stage) && !op.stage.Decoding? && !op.stage.WantLock? && !op.stage.Locked?)
    && (op.stage.Committer? || op.called ==> held && op.decoded != {})
    && (reported ==> op.called && op.stage.Finished?)
    && (op.returned.Some? <==> reported || (held && op.decoded == {} && op.rowCount == 0))
    && (op.returned.Some? ==> op.returned.value == op.rowCount)
  }

  lemma WitnessesAfter(catalog: map<string, Table>, op: Operator, a: Action, held: bool, reported: bool)
    requires OpInv(op) && StageFits(op.stage, a) && Witnesses(op, held, reported)
    ensures Witnesses(OpAfter(catalog, op, a),
                      held || (a == Validate(true) && Matches(catalog, op)),
                      reported || (a.CommitReturn? && a.report.CommittedOne?))
  {
    hide Matches, MatchesPlanned;
  }

  lemma {:induction false} WitnessesHold(t: Trace, i: OpId)
    requires Legal(t)
    ensures i !in State(t).ops ==> !BaselineHeld(t, i) && !OneReported(t, i)
    ensures i in State(t).ops ==> Witnesses(State(t).ops[i], BaselineHeld(t, i), OneReported(t, i))
  {
    hide OpInv, OpAfter, Witnesses, LockInv, BaselineInv, CallsInv, PublicationsInv, CatalogAfter, CallsAfter,
      PublicationsAfter;
    if t.More? {
      var s := State(t.before);
      WitnessesHold(t.before, i);
      TraceInv(t.before);
      if t.step.Act? && t.step.i == i {
        WitnessesAfter(s.catalog, s.ops[i], t.step.action, BaselineHeld(t.before, i), OneReported(t.before, i));
      } else if i !in s.ops && i in State(t).ops {
        NewWitnesses(State(t).ops[i].table, State(t).ops[i].ctas, State(t).ops[i].baseline);
      }
    }
  }

  lemma NewWitnesses(table: string, ctas: bool, baseline: Target)
    ensures Witnesses(NewOperator(table, ctas, baseline), false, false)
  {
  }

  /** Exactly when Finalize returns, over all runs and their continuations: after a
      commit call, if one committed operation was reported; without one, if the
      baseline was found again and there was nothing to commit. It returns the row
      count, which for an empty write is 0. */
  lemma ReturnsExactly(t: Trace, later: Trace, i: OpId)
    requires Legal(t) && i in State(t).ops && State(t).ops[i].stage.Finished?
    requires Legal(later) && IsPrefix(t, later)
    ensures i in State(later).ops
    ensures var op := State(later).ops[i];
            && (op.returned.Some? <==>
                  if op.called then OneReported(t, i) else BaselineHeld(t, i) && op.decoded == {} && op.rowCount == 0)
            && (op.returned.Some? ==> op.returned.value == op.rowCount)
  {
    hide Next, Enabled, OpInv, BaselineHeld, OneReported;
    FinishedForever(t, later, i);
    WitnessesHold(t, i);
  }

  /** An empty write that finds its baseline returns 0, whatever follows. */
  lemma EmptyWriteReturnsZero(t: Trace, later: Trace, i: OpId)
    requires Legal(later) && IsPrefix(t, later) && Legal(t) && i in State(t).ops
    requires BaselineHeld(t, i) && State(t).ops[i].decoded == {} && State(t).ops[i].rowCount == 0
    ensures i in State(later).ops && State(later).ops[i].returned == Some(0) && !State(later).ops[i].called
    decreases later
  {
    hide OpAfter, OpInv, LockInv, BaselineInv, CallsInv, PublicationsInv, CatalogAfter, CallsAfter, PublicationsAfter,
      BaselineHeld, OneReported;
    if t == later {
      WitnessesHold(t, i);
      TraceInv(t);
    } else {
      EmptyWriteReturnsZero(t, later.before, i);
      TraceInv(later.before);
      var s := State(later.before);
      if later.step.Act? && later.step.i == i {
        ReturnStays(s.catalog, s.ops[i], later.step.action);
      }
    }
  }

  lemma ReturnStays(catalog: map<string, Table>, op: Operator, a: Action)
    requires OpInv(op) && StageFits(op.stage, a) && op.returned.Some? && !op.called
    ensures OpAfter(catalog, op, a).returned == op.returned && !OpAfter(catalog, op, a).called
  {
  }

  // ---- two properties that need their hypotheses -----------------------------------------

  ghost predicate Free(s: System, i: OpId) {
    s.lock.None? && i in s.ops && s.ops[i].stage.Idle? && Matches(s.catalog, s.ops[i])
  }

  ghost predicate Reaches(t: Trace, s: System) {
    Legal(t) && State(t) == s
  }

  lemma Take(t: Trace, s: System, step: Step, s': System)
    requires Reaches(t, s) && Enabled(s, step) && Next(s, step) == s'
    ensures Reaches(More(t, step), s')
  {
    hide Enabled, Next;
  }

  function WithOp(s: System, i: OpId, op: Operator): System {
    s.(ops := s.ops[i := op])
  }

  ghost function PrepareTrace(t: Trace, i: OpId): Trace {
    More(More(t, Act(i, PrepareBegin)), Act(i, PrepareInsert(true)))
  }

  function PreparedOp(op: Operator, found: Table): Operator {
    op.(prepareStarted := true, targetPrepared := true, prepared := Some(found))
  }

  /** An INSERT that is free to prepare does so. */
  lemma PreparePath(t: Trace, s: System, i: OpId)
    requires Reaches(t, s) && Free(s, i) && !s.ops[i].prepareStarted && !s.ops[i].ctas
    ensures Reaches(PrepareTrace(t, i), WithOp(s, i, PreparedOp(s.ops[i], s.catalog[s.ops[i].table])))
  {
    hide Reaches;
    var s1 := WithOp(s, i, s.ops[i].(prepareStarted := true, stage := InsertPrepare));
    Take(t, s, Act(i, PrepareBegin), s1);
    Take(More(t, Act(i, PrepareBegin)), s1, Act(i, PrepareInsert(true)),
         WithOp(s, i, PreparedOp(s.ops[i], s.catalog[s.ops[i].table])));
  }

  ghost function CommitTrace(t: Trace, i: OpId, messages: set<Message>, snapshot: nat): Trace {
    var begun := More(More(t, Act(i, FinalizeBegin)), Act(i, Decode(true, messages, 1)));
    var validated := More(More(begun, Act(i, Acquire)), Act(i, Validate(true)));
    More(More(validated, Act(i, CommitCall)), Act(i, CommitReturn(true, snapshot, CommittedOne)))
  }

  function DecodedOp(op: Operator, stage: Stage, messages: set<Message>): Operator {
    op.(finalizeStarted := true, stage := stage, decoded := messages, rowCount := 1)
  }

  function CommittedOp(op: Operator, messages: set<Message>): Operator {
    DecodedOp(op, Finished, messages).(called := true, committed := messages, returned := Some(1))
  }

  function PublishedTable(table: Table, snapshot: nat): Table {
    table.(target := table.target.(snapshot := Some(snapshot)))
  }

  function Published(s: System, i: OpId, messages: set<Message>, snapshot: nat): System
    requires i in s.ops && s.ops[i].table in s.catalog
  {
    var name := s.ops[i].table;
    var table := s.catalog[name];
    System(s.catalog[name := PublishedTable(table, snapshot)], s.incarnations, None,
           s.ops[i := CommittedOp(s.ops[i], messages)], s.calls + [Call(i, Some(table))],
           s.publications + [Publication(i, table.incarnation, table.target.snapshot, snapshot)])
  }

  /** A prepared operator that finds its baseline and is not disturbed commits. */
  lemma CommitPath(t: Trace, s: System, i: OpId, messages: set<Message>, snapshot: nat)
    requires Reaches(t, s) && Free(s, i) && s.ops[i].targetPrepared && messages != {}
    requires Newer(s.catalog[s.ops[i].table].target.snapshot, snapshot)
    ensures Reaches(CommitTrace(t, i, messages, snapshot), Published(s, i, messages, snapshot))
  {
    hide Reaches;
    DecodePath(t, s, i, messages);
    var t2 := More(More(t, Act(i, FinalizeBegin)), Act(i, Decode(true, messages, 1)));
    ValidatePath(t2, s, i, messages);
    CallPath(More(More(t2, Act(i, Acquire)), Act(i, Validate(true))), s, i, messages, snapshot);
  }

  lemma DecodePath(t: Trace, s: System, i: OpId, messages: set<Message>)
    requires Reaches(t, s) && Free(s, i) && s.ops[i].targetPrepared
    ensures Reaches(More(More(t, Act(i, FinalizeBegin)), Act(i, Decode(true, messages, 1))),
                    WithOp(s, i, DecodedOp(s.ops[i], WantLock, messages)))
  {
    hide Reaches;
    var s1 := WithOp(s, i, s.ops[i].(finalizeStarted := true, stage := Decoding));
    Take(t, s, Act(i, FinalizeBegin), s1);
    Take(More(t, Act(i, FinalizeBegin)), s1, Act(i, Decode(true, messages, 1)),
         WithOp(s, i, DecodedOp(s.ops[i], WantLock, messages)));
  }

  function CalledState(s: System, i: OpId, messages: set<Message>): System
    requires i in s.ops && s.ops[i].table in s.catalog
  {
    var op := DecodedOp(s.ops[i], Committing, messages).(called := true, committed := messages);
    Holding(s, i, op).(calls := s.calls + [Call(i, Some(s.catalog[s.ops[i].table]))])
  }

  lemma CallPath(t: Trace, s: System, i: OpId, messages: set<Message>, snapshot: nat)
    requires Free(s, i) && Newer(s.catalog[s.ops[i].table].target.snapshot, snapshot)
    requires Reaches(t, Holding(s, i, DecodedOp(s.ops[i], Committer, messages)))
    ensures Reaches(More(More(t, Act(i, CommitCall)), Act(i, CommitReturn(true, snapshot, CommittedOne))),
                    Published(s, i, messages, snapshot))
  {
    hide Reaches;
    Take(t, Holding(s, i, DecodedOp(s.ops[i], Committer, messages)), Act(i, CommitCall), CalledState(s, i, messages));
    ReturnPath(More(t, Act(i, CommitCall)), s, i, messages, snapshot);
  }

  lemma ReturnPath(t: Trace, s: System, i: OpId, messages: set<Message>, snapshot: nat)
    requires Free(s, i) && Newer(s.catalog[s.ops[i].table].target.snapshot, snapshot)
    requires Reaches(t, CalledState(s, i, messages))
    ensures Reaches(More(t, Act(i, CommitReturn(true, snapshot, CommittedOne))), Published(s, i, messages, snapshot))
  {
    hide Reaches;
    Take(t, CalledState(s, i, messages), Act(i, CommitReturn(true, snapshot, CommittedOne)),
         Published(s, i, messages, snapshot));
  }

  function Holding(s: System, i: OpId, op: Operator): System {
    WithOp(s, i, op).(lock := Some(ByOperator(i)))
  }

  lemma ValidatePath(t: Trace, s: System, i: OpId, messages: set<Message>)
    requires Free(s, i) && messages != {}
    requires Reaches(t, WithOp(s, i, DecodedOp(s.ops[i], WantLock, messages)))
    ensures Reaches(More(More(t, Act(i, Acquire)), Act(i, Validate(true))),
                    Holding(s, i, DecodedOp(s.ops[i], Committer, messages)))
  {
    hide Reaches;
    var s3 := Holding(s, i, DecodedOp(s.ops[i], Stage.Locked, messages));
    Take(t, WithOp(s, i, DecodedOp(s.ops[i], WantLock, messages)), Act(i, Acquire), s3);
    Take(More(t, Act(i, Acquire)), s3, Act(i, Validate(true)), Holding(s, i, DecodedOp(s.ops[i], Committer, messages)));
  }

  function SampleTable(incarnation: nat): Table {
    Table(incarnation, Target("db.t", "/w/t", "{}", Definition(0, true, [], [], [], [], map[], "p"), None))
  }

  function Sample(ops: map<OpId, Operator>): System {
    System(map["t" := SampleTable(0)], 1, None, ops, [], [])
  }

  function SampleOp(): Operator {
    NewOperator("t", false, SampleTable(0).target)
  }

  /** An INSERT is planned, prepares, and its runner passes `"m"` to abort. */
  ghost function AbortingTrace(): Trace {
    More(PrepareTrace(More(Start(Sample(map[])), PlanInsert(0, "t")), 0), Act(0, AbortWrite({"m"})))
  }

  function AbortingOp(): Operator {
    PreparedOp(SampleOp(), SampleTable(0)).(runnerAborted := {"m"})
  }

  lemma AbortingPath()
    ensures Reaches(AbortingTrace(), Sample(map[0 := AbortingOp()]))
  {
    var t1 := More(Start(Sample(map[])), PlanInsert(0, "t"));
    PlannedPath();
    hide Reaches;
    PreparePath(t1, Sample(map[0 := SampleOp()]), 0);
    var op := PreparedOp(SampleOp(), SampleTable(0));
    assert WithOp(Sample(map[0 := SampleOp()]), 0, op) == Sample(map[0 := op]);
    var none: set<Message> := {};
    assert none + {"m"} == {"m"};
    assert OpAfter(Sample(map[]).catalog, op, AbortWrite({"m"})) == AbortingOp();
    assert WithOp(Sample(map[0 := op]), 0, AbortingOp()) == Sample(map[0 := AbortingOp()]);
    Take(PrepareTrace(t1, 0), Sample(map[0 := op]), Act(0, AbortWrite({"m"})), Sample(map[0 := AbortingOp()]));
  }

  lemma PlannedPath()
    ensures Reaches(More(Start(Sample(map[])), PlanInsert(0, "t")), Sample(map[0 := SampleOp()]))
  {
    Take(Start(Sample(map[])), Sample(map[]), PlanInsert(0, "t"), Sample(map[0 := SampleOp()]));
  }

  /** The runner's discipline matters: a Finalize after an Abort of the same results
      hands an aborted message to commit, and nothing in the operator stops it; after
      an Abort of other results nothing is in both. */
  lemma AbortThenFinalize(messages: set<Message>)
    requires messages != {}
    ensures var t := CommitTrace(AbortingTrace(), 0, messages, 1);
            && Legal(t) && 0 in State(t).ops
            && Aborted(State(t).ops[0]) == {"m"} && State(t).ops[0].committed == messages
  {
    hide Legal, State, CommitTrace, AbortingTrace;
    AbortingPath();
    CommitPath(AbortingTrace(), Sample(map[0 := AbortingOp()]), 0, messages, 1);
  }

  /** A CTAS that is not disturbed: planned, no table found, created, captured. */
  ghost function CtasTrace(planned: Target, made: Target): Trace {
    var begun := More(More(Start(Sample(map[])), PlanCtas(0, "u", planned)), Act(0, PrepareBegin));
    var created := More(More(begun, Act(0, CheckAbsent(true))), Act(0, CreateTable(true, true, made)));
    More(created, Act(0, Capture(true)))
  }

  function CtasOp(planned: Target, stage: Stage): Operator {
    NewOperator("u", true, planned).(prepareStarted := true, stage := stage)
  }

  function CtasState(catalog: map<string, Table>, incarnations: nat, op: Operator): System {
    System(catalog, incarnations, None, map[0 := op], [], [])
  }

  lemma CtasBegins(planned: Target)
    requires planned.snapshot.None?
    ensures Reaches(More(More(Start(Sample(map[])), PlanCtas(0, "u", planned)), Act(0, PrepareBegin)),
                    CtasState(Sample(map[]).catalog, 1, CtasOp(planned, CtasAbsent)))
  {
    var s0, s1 := Sample(map[]), CtasState(Sample(map[]).catalog, 1, NewOperator("u", true, planned));
    var s2 := CtasState(Sample(map[]).catalog, 1, CtasOp(planned, CtasAbsent));
    Take(Start(s0), s0, PlanCtas(0, "u", planned), s1);
    hide Reaches;
    assert WithOp(s1, 0, CtasOp(planned, CtasAbsent)) == s2;
    Take(More(Start(s0), PlanCtas(0, "u", planned)), s1, Act(0, PrepareBegin), s2);
  }

  /** A CTAS whose table is created as planned becomes prepared, on the table created. */
  lemma CtasPath(planned: Target, made: Target)
    requires planned.snapshot.None? && AsPlanned(made, planned)
    ensures var catalog := Sample(map[]).catalog["u" := Table(1, made)];
            Reaches(CtasTrace(planned, made),
                    CtasState(catalog, 2, PreparedOp(CtasOp(made, Idle), catalog["u"])))
  {
    hide Reaches;
    CtasBegins(planned);
    var before := Sample(map[]).catalog;
    var catalog := before["u" := Table(1, made)];
    var t2 := More(More(Start(Sample(map[])), PlanCtas(0, "u", planned)), Act(0, PrepareBegin));
    var s2, s3 := CtasState(before, 1, CtasOp(planned, CtasAbsent)), CtasState(before, 1, CtasOp(planned, CtasCreate));
    assert WithOp(s2, 0, CtasOp(planned, CtasCreate)) == s3;
    Take(t2, s2, Act(0, CheckAbsent(true)), s3);
    CtasCreates(More(t2, Act(0, CheckAbsent(true))), planned, made);
  }

  lemma CtasCreates(t: Trace, planned: Target, made: Target)
    requires planned.snapshot.None? && AsPlanned(made, planned)
    requires Reaches(t, CtasState(Sample(map[]).catalog, 1, CtasOp(planned, CtasCreate)))
    ensures var catalog := Sample(map[]).catalog["u" := Table(1, made)];
            Reaches(More(More(t, Act(0, CreateTable(true, true, made))), Act(0, Capture(true))),
                    CtasState(catalog, 2, PreparedOp(CtasOp(made, Idle), catalog["u"])))
  {
    hide Reaches;
    var catalog := Sample(map[]).catalog["u" := Table(1, made)];
    var s3 := CtasState(Sample(map[]).catalog, 1, CtasOp(planned, CtasCreate));
    var s4, s5 := CtasState(catalog, 2, CtasOp(planned, CtasCapture)), CtasState(catalog, 2, PreparedOp(CtasOp(made, Idle), catalog["u"]));
    assert s3.ops[0 := CtasOp(planned, CtasCapture)] == s4.ops && s4.ops[0 := s5.ops[0]] == s5.ops;
    Take(t, s3, Act(0, CreateTable(true, true, made)), s4);
    Take(More(t, Act(0, CreateTable(true, true, made))), s4, Act(0, Capture(true)), s5);
  }

  /** And then commits into it: a CTAS can succeed, for every plan and every table that
      is as planned. */
  lemma CtasSucceeds(planned: Target, made: Target, messages: set<Message>)
    requires planned.snapshot.None? && AsPlanned(made, planned) && messages != {}
    ensures var t := CommitTrace(CtasTrace(planned, made), 0, messages, 1);
            && Legal(t) && 0 in State(t).ops && State(t).ops[0].ctas && State(t).ops[0].committed == messages
            && State(t).ops[0].returned == Some(1) && |State(t).publications| == 1
  {
    hide Legal, State, CommitTrace, CtasTrace;
    CtasPath(planned, made);
    var catalog := Sample(map[]).catalog["u" := Table(1, made)];
    CommitPath(CtasTrace(planned, made), CtasState(catalog, 2, PreparedOp(CtasOp(made, Idle), catalog["u"])), 0, messages, 1);
  }

  /** A prepared INSERT whose Finalize raises before it decodes, and whose runner then
      passes all messages to abort. */
  ghost function RaisingTrace(messages: set<Message>): Trace {
    var prepared := PrepareTrace(More(Start(Sample(map[])), PlanInsert(0, "t")), 0);
    More(More(More(prepared, Act(0, FinalizeBegin)), Act(0, FinalizeRaises)), Act(0, AbortWrite(messages)))
  }

  function RaisedOp(stage: Stage): Operator {
    PreparedOp(SampleOp(), SampleTable(0)).(finalizeStarted := true, stage := stage)
  }

  lemma BegunPath()
    ensures var prepared := PrepareTrace(More(Start(Sample(map[])), PlanInsert(0, "t")), 0);
            Reaches(More(prepared, Act(0, FinalizeBegin)), Sample(map[0 := RaisedOp(Decoding)]))
  {
    var t1, op := More(Start(Sample(map[])), PlanInsert(0, "t")), PreparedOp(SampleOp(), SampleTable(0));
    PlannedPath();
    hide Reaches;
    PreparePath(t1, Sample(map[0 := SampleOp()]), 0);
    assert WithOp(Sample(map[0 := SampleOp()]), 0, op) == Sample(map[0 := op]);
    assert WithOp(Sample(map[0 := op]), 0, RaisedOp(Decoding)) == Sample(map[0 := RaisedOp(Decoding)]);
    Take(PrepareTrace(t1, 0), Sample(map[0 := op]), Act(0, FinalizeBegin), Sample(map[0 := RaisedOp(Decoding)]));
  }

  lemma RaisingPath(messages: set<Message>)
    ensures Reaches(RaisingTrace(messages), Sample(map[0 := RaisedOp(Finished)]))
  {
    BegunPath();
    hide Reaches;
    var begun := More(PrepareTrace(More(Start(Sample(map[])), PlanInsert(0, "t")), 0), Act(0, FinalizeBegin));
    var s3, s4 := Sample(map[0 := RaisedOp(Decoding)]), Sample(map[0 := RaisedOp(Finished)]);
    assert WithOp(s3, 0, RaisedOp(Finished)) == s4;
    Take(begun, s3, Act(0, FinalizeRaises), s4);
    assert WithOp(s4, 0, RaisedOp(Finished)) == s4;
    Take(More(begun, Act(0, FinalizeRaises)), s4, Act(0, AbortWrite(messages)), s4);
  }

  /** A Finalize that raises before decoding strands every message: none is committed,
      none was aborted, and the abort that follows is refused. */
  lemma RaisingStrandsMessages(messages: set<Message>)
    ensures var t := RaisingTrace(messages);
            && Legal(t) && 0 in State(t).ops && State(t).ops[0].stage.Finished? && State(t).ops[0].targetPrepared
            && State(t).ops[0].committed == {} && Aborted(State(t).ops[0]) == {} && !Reached(t, 0)
  {
    RaisingPath(messages);
    hide Legal, State;
  }

  /** Two INSERTs frozen at one baseline prepare, the first commits, and a mutator
      drops the table and creates it again with the same uuid. */
  ghost function RecreatingTrace(): Trace {
    var first := CommitTrace(BothPreparedTrace(), 0, {"m"}, 1);
    More(More(More(first, MutatorAcquire(9)), Mutate(9, map["t" := SampleTable(1)], 2)), MutatorRelease(9))
  }

  ghost function BothPreparedTrace(): Trace {
    var planned := More(More(Start(Sample(map[])), PlanInsert(0, "t")), PlanInsert(1, "t"));
    PrepareTrace(PrepareTrace(planned, 0), 1)
  }

  function BothPreparedState(): System {
    var op := PreparedOp(SampleOp(), SampleTable(0));
    Sample(map[0 := op, 1 := op])
  }

  lemma BothPrepared()
    ensures Reaches(BothPreparedTrace(), BothPreparedState())
  {
    hide Reaches;
    PlannedPath();
    var op := PreparedOp(SampleOp(), SampleTable(0));
    var t1 := More(Start(Sample(map[])), PlanInsert(0, "t"));
    Take(t1, Sample(map[0 := SampleOp()]), PlanInsert(1, "t"), Sample(map[0 := SampleOp(), 1 := SampleOp()]));
    var t2 := More(t1, PlanInsert(1, "t"));
    PreparePath(t2, Sample(map[0 := SampleOp(), 1 := SampleOp()]), 0);
    assert WithOp(Sample(map[0 := SampleOp(), 1 := SampleOp()]), 0, op) == Sample(map[0 := op, 1 := SampleOp()]);
    PreparePath(PrepareTrace(t2, 0), Sample(map[0 := op, 1 := SampleOp()]), 1);
    assert WithOp(Sample(map[0 := op, 1 := SampleOp()]), 1, op) == Sample(map[0 := op, 1 := op]);
  }

  /** The first commits, the mutator drops and creates, the second commits. */
  lemma RecreationPath(s4: System, s8: System)
    requires s4 == Published(BothPreparedState(), 0, {"m"}, 1)
    requires s8 == s4.(catalog := map["t" := SampleTable(1)], incarnations := 2)
    ensures Free(s8, 1) && Reaches(CommitTrace(RecreatingTrace(), 1, {"n"}, 1), Published(s8, 1, {"n"}, 1))
  {
    hide Reaches;
    BothPrepared();
    CommitPath(BothPreparedTrace(), BothPreparedState(), 0, {"m"}, 1);
    var t4 := CommitTrace(BothPreparedTrace(), 0, {"m"}, 1);
    Take(t4, s4, MutatorAcquire(9), s4.(lock := Some(ByMutator(9))));
    var t5 := More(t4, MutatorAcquire(9));
    Take(t5, s4.(lock := Some(ByMutator(9))), Mutate(9, map["t" := SampleTable(1)], 2), s8.(lock := Some(ByMutator(9))));
    Take(More(t5, Mutate(9, map["t" := SampleTable(1)], 2)), s8.(lock := Some(ByMutator(9))), MutatorRelease(9), s8);
    CommitPath(RecreatingTrace(), s8, 1, {"n"}, 1);
  }

  /** One incarnation is needed too: a uuid that is only the table's name survives
      a drop and an identical re-creation, and then two writes frozen at the same
      baseline both publish. */
  lemma RecreationLetsBothPublish()
    ensures var t := CommitTrace(RecreatingTrace(), 1, {"n"}, 1);
            && Legal(t) && |State(t).publications| == 2 && 0 in State(t).ops && 1 in State(t).ops
            && State(t).publications[0].op == 0 && State(t).publications[1].op == 1
            && State(t).ops[0].baseline == State(t).ops[1].baseline
  {
    hide Legal, State, CommitTrace, RecreatingTrace;
    var s4 := Published(BothPreparedState(), 0, {"m"}, 1);
    RecreationPath(s4, s4.(catalog := map["t" := SampleTable(1)], incarnations := 2));
  }
}
