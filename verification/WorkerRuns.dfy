/** The calls on a worker task as runs of the steps that follow each message. */
module WorkerRuns {
  import opened Prelude
  import opened CommitDecoding
  import opened DistributedInsert
  import opened WorkerOwnership
  import WriteCodec

  /** The content of each message object. */
  type Naming = Handle -> CommitMessage

  function Content(naming: Naming, h: Handle): CommitMessage {
    naming(h)
  }

  function Contents(naming: Naming, hs: seq<Handle>): seq<CommitMessage> {
    seq(|hs|, i requires 0 <= i < |hs| => Content(naming, hs[i]))
  }

  function RawContents(naming: Naming, hs: seq<Option<Handle>>): seq<Option<CommitMessage>> {
    seq(|hs|, i requires 0 <= i < |hs| => if hs[i].Some? then Some(Content(naming, hs[i].value)) else None)
  }

  function Prepared(naming: Naming, hs: Result<seq<Option<Handle>>>): Result<seq<Option<CommitMessage>>> {
    match hs
    case Ok(raw) => Ok(RawContents(naming, raw))
    case Err => Err
  }

  lemma {:induction false} ValidContents(naming: Naming, hs: seq<Option<Handle>>)
    ensures Somes(RawContents(naming, hs)) == Contents(naming, Valid(hs))
  {
    if hs != [] {
      var init := hs[..|hs| - 1];
      ValidContents(naming, init);
      assert RawContents(naming, hs)[..|hs| - 1] == RawContents(naming, init);
    }
  }

  function After(w: Worker, steps: seq<Step>): Option<Worker>
    decreases |steps|
  {
    if steps == [] then Some(w)
    else if Enabled(w, steps[0]) then After(Next(w, steps[0]), steps[1..]) else None
  }

  lemma AfterOne(w: Worker, s: Step)
    requires Enabled(w, s)
    ensures After(w, [s]) == Some(Next(w, s))
  {
    assert [s][1..] == [];
  }

  lemma AfterTwo(w: Worker, s: Step, s': Step)
    requires Enabled(w, s) && Enabled(Next(w, s), s')
    ensures After(w, [s, s']) == Some(Next(Next(w, s), s'))
  {
    hide Enabled, Next;
    assert [s, s'][1..] == [s'];
    AfterOne(Next(w, s), s');
  }

  /** The steps of one Combine. */
  function CombineSteps(l: nat, rows: nat, hs: Result<seq<Option<Handle>>>, closed: bool): seq<Step> {
    if rows == 0 then [CombineEmpty(l)]
    else if hs.Err? then [PrepareFails(l)]
    else if !closed then [PrepareCommit(l, hs.value), CloseFails(l)]
    else if hs.value == [] || HasNull(hs.value) then [PrepareCommit(l, hs.value), RejectMessages(l)]
    else [PrepareCommit(l, hs.value), Merge(l)]
  }

  /** A writer that has received `rows` and, if it prepares, returns new objects. */
  predicate MayCombine(w: Worker, l: nat, rows: nat, hs: Result<seq<Option<Handle>>>) {
    && w.alive && l in w.locals && w.locals[l] == Writing(rows)
    && (hs.Ok? ==> Distinct(Valid(hs.value)) && forall m :: m in Valid(hs.value) ==> m !in w.prepared)
  }

  /** The task as its object shows it, and what was passed to abort since `w`. */
  predicate Shows(naming: Naming, w: Worker, w': Worker, messages: seq<CommitMessage>, rowCount: nat,
                  aborted: seq<CommitMessage>) {
    && Contents(naming, w'.held) == messages && w'.rowCount == rowCount
    && w.aborted <= w'.aborted && Contents(naming, w'.aborted[|w.aborted|..]) == aborted
  }

  /** Where a Combine leaves the worker. */
  function CombineEnd(w: Worker, l: nat, rows: nat, hs: Result<seq<Option<Handle>>>, ok: bool): Worker {
    if rows == 0 || hs.Err? then EndCombine(w, l)
    else
      var known := w.(prepared := w.prepared + ToSet(Valid(hs.value)));
      if ok then EndCombine(known.(held := w.held + Valid(hs.value), rowCount := w.rowCount + rows), l)
      else EndCombine(Abort(known, Valid(hs.value)), l)
  }

  lemma CombineReaches(w: Worker, l: nat, rows: nat, hs: Result<seq<Option<Handle>>>, closed: bool, ok: bool)
    requires MayCombine(w, l, rows, hs) && w.rowCount <= IDX_MAX && |w.held| <= IDX_MAX
    requires ok <==> closed && (rows == 0 || (hs.Ok? && hs.value != [] && !HasNull(hs.value)
                                              && w.rowCount + rows <= IDX_MAX && |w.held| + |hs.value| <= IDX_MAX))
    ensures After(w, CombineSteps(l, rows, hs, closed)) == Some(CombineEnd(w, l, rows, hs, ok))
  {
    hide After;
    if rows == 0 {
      AfterOne(w, CombineEmpty(l));
    } else if hs.Err? {
      AfterOne(w, PrepareFails(l));
    } else {
      var steps := CombineSteps(l, rows, hs, closed);
      assert Enabled(w, steps[0]) && Next(w, steps[0]) == Flying(w, l, rows, hs.value);
      hide Enabled, Next;
      Lands(w, l, rows, hs.value, closed, ok);
      AfterTwo(w, steps[0], steps[1]);
    }
  }

  function Flying(w: Worker, l: nat, rows: nat, raw: seq<Option<Handle>>): Worker {
    w.(locals := w.locals[l := InFlight(rows, raw)], prepared := w.prepared + ToSet(Valid(raw)))
  }

  /** The second step of a Combine that prepared something. */
  lemma Lands(w: Worker, l: nat, rows: nat, raw: seq<Option<Handle>>, closed: bool, ok: bool)
    requires w.alive && rows != 0 && w.rowCount <= IDX_MAX && |w.held| <= IDX_MAX
    requires ok <==> closed && raw != [] && !HasNull(raw) && w.rowCount + rows <= IDX_MAX && |w.held| + |raw| <= IDX_MAX
    ensures var flying, step := Flying(w, l, rows, raw), CombineSteps(l, rows, Ok(raw), closed)[1];
            Enabled(flying, step) && Next(flying, step) == CombineEnd(w, l, rows, Ok(raw), ok)
  {
    hide Valid;
    assert Flying(w, l, rows, raw).locals[l := Combined] == w.locals[l := Combined];
    if closed && raw != [] && !HasNull(raw) {
      ValidAll(raw);
    }
  }

  /** A Combine is a run of the steps: what its contract says of messages, count and
      aborts is what they do. */
  lemma CombineIsARun(naming: Naming, w: Worker, l: nat, rows: nat, hs: Result<seq<Option<Handle>>>, closed: bool,
                      ok: bool, messages: seq<CommitMessage>, rowCount: nat, aborted: seq<CommitMessage>)
    requires MayCombine(w, l, rows, hs) && w.rowCount <= IDX_MAX && |w.held| <= IDX_MAX
    requires Combines(Contents(naming, w.held), w.rowCount, rows, Prepared(naming, hs), closed, ok, messages, rowCount, aborted)
    ensures After(w, CombineSteps(l, rows, hs, closed)) == Some(CombineEnd(w, l, rows, hs, ok))
    ensures Shows(naming, w, CombineEnd(w, l, rows, hs, ok), messages, rowCount, aborted)
  {
    hide After, Enabled, Next, MayCombine, Somes, Valid;
    if hs.Ok? {
      ValidContents(naming, hs.value);
      ContentsAppend(naming, w.held, Valid(hs.value));
      assert forall i :: 0 <= i < |hs.value| ==> RawContents(naming, hs.value)[i].Some? == hs.value[i].Some?;
    }
    var w' := CombineEnd(w, l, rows, hs, ok);
    CombineReaches(w, l, rows, hs, closed, ok);
    assert w'.aborted[|w.aborted|..] == if ok || rows == 0 || hs.Err? then [] else Valid(hs.value);
  }

  lemma ContentsAppend(naming: Naming, a: seq<Handle>, b: seq<Handle>)
    ensures Contents(naming, a + b) == Contents(naming, a) + Contents(naming, b)
  {
  }

  lemma ContentsLength(naming: Naming, hs: seq<Handle>)
    ensures |Contents(naming, hs)| == |hs|
  {
  }

  /** A Sink call whose writer does not fail is a step as well: the row count of its
      contract is that of the step, also when it overflows. */
  lemma SinkIsAStep(w: Worker, l: nat, rows: nat, ok: bool, rowCount: nat)
    requires w.alive && l in w.locals && w.locals[l].Writing?
    requires ok <==> w.locals[l].rows + rows <= IDX_MAX
    requires rowCount == if ok then w.locals[l].rows + rows else w.locals[l].rows
    ensures Enabled(w, Step.Sink(l, rows))
    ensures Next(w, Step.Sink(l, rows)) == w.(locals := w.locals[l := Writing(rowCount)])
  {
    assert !ok ==> w.locals[l := Writing(rowCount)] == w.locals;
  }

  /** The step of one Finalize. */
  function FinalizeStep(w: Worker, result: Result<seq<Fragment>>, aborted: seq<CommitMessage>): Step {
    if result.Ok? || w.finalized || w.held == [] || w.rowCount == 0 then Finalize
    else if aborted != [] then FinalizeSerializeFails
    else FinalizeEnvelopeThrows
  }

  /** And a Finalize is one step: it publishes exactly the messages held, keeps them, or
      passes them to abort and keeps them. */
  lemma FinalizeIsAStep(naming: Naming, w: Worker, paimon: Paimon, transport: WriteCodec.Transport, queryId: string,
                        attemptId: string, result: Result<seq<Fragment>>, messages: seq<CommitMessage>,
                        aborted: seq<CommitMessage>)
    requires w.alive
    requires Finalizes(paimon, transport, queryId, attemptId, Contents(naming, w.held), w.rowCount, w.finalized,
                       result, messages, aborted)
    ensures var step := FinalizeStep(w, result, aborted);
            && Enabled(w, step) && Shows(naming, w, Next(w, step), messages, w.rowCount, aborted) && Next(w, step).finalized
            && (result.Ok? ==> Next(w, step).published == if w.held == [] then w.published else Some(w.held))
            && (result.Err? ==> Next(w, step).published == w.published)
  {
    hide WriteCodec.EncodeTransport, EnvelopeFor, WriteCodec.EncodeEnvelope;
    var w' := Next(w, FinalizeStep(w, result, aborted));
    assert w'.aborted[|w.aborted|..] == if aborted == [] then [] else w.held;
  }

  // ---- every sequence of calls on one task -----------------------------------------------------

  /** What a task is created with, and the content of its message objects. */
  datatype Setting = Setting(
    naming: Naming, paimon: Paimon, transport: WriteCodec.Transport, queryId: string, attemptId: string)

  /** The fields of a `WorkerTask`. */
  datatype Fields = Fields(messages: seq<CommitMessage>, rowCount: nat, finalized: bool)

  /** A writer starts, receives rows, and is combined; the task is finalised. */
  datatype Call =
    | Begin(l: nat)
    | Receive(l: nat, rows: nat)
    | CombineCall(l: nat, hs: Result<seq<Option<Handle>>>, closed: bool, ok: bool)
    | FinalizeCall(result: Result<seq<Fragment>>)

  /** The calls so far, each with the fields it left and what it passed to abort. */
  datatype History = Created | Called(before: History, call: Call, fields: Fields, aborted: seq<CommitMessage>)

  function FieldsOf(h: History): Fields {
    if h.Created? then Fields([], 0, false) else h.fields
  }

  function AbortedBy(h: History): seq<CommitMessage> {
    if h.Created? then [] else AbortedBy(h.before) + h.aborted
  }

  /** The messages of the published fragment; none without one. */
  function PublishedBy(h: History): seq<CommitMessage> {
    if h.Created? then []
    else if h.call.FinalizeCall? && h.call.result.Ok? && FieldsOf(h.before).messages != [] then FieldsOf(h.before).messages
    else PublishedBy(h.before)
  }

  function RowsAt(w: Worker, l: nat): nat {
    if l in w.locals && w.locals[l].Writing? then w.locals[l].rows else 0
  }

  /** The worker as the steps of the calls make it. */
  function WorkerAfter(w: Worker, call: Call, aborted: seq<CommitMessage>): Worker {
    match call
    case Begin(l) => if Enabled(w, InitializeLocal(l)) then Next(w, InitializeLocal(l)) else w
    case Receive(l, rows) => if Enabled(w, Step.Sink(l, rows)) then Next(w, Step.Sink(l, rows)) else w
    case CombineCall(l, hs, closed, ok) =>
      (match After(w, CombineSteps(l, RowsAt(w, l), hs, closed))
       case Some(w') => w'
       case None => w)
    case FinalizeCall(result) =>
      var step := FinalizeStep(w, result, aborted);
      if Enabled(w, step) then Next(w, step) else w
  }

  function WorkerOf(h: History): Worker {
    if h.Created? then Initial else WorkerAfter(WorkerOf(h.before), h.call, h.aborted)
  }

  /** A call is possible, and does to the fields what the contract of its method says. */
  predicate MeetsContract(x: Setting, w: Worker, f: Fields, call: Call, f': Fields, aborted: seq<CommitMessage>) {
    match call
    case Begin(l) => Enabled(w, InitializeLocal(l)) && f' == f && aborted == []
    case Receive(l, rows) => Enabled(w, Step.Sink(l, rows)) && f' == f && aborted == []
    case CombineCall(l, hs, closed, ok) =>
      && MayCombine(w, l, RowsAt(w, l), hs) && f'.finalized == f.finalized
      && Combines(f.messages, f.rowCount, RowsAt(w, l), Prepared(x.naming, hs), closed, ok, f'.messages, f'.rowCount, aborted)
    case FinalizeCall(result) =>
      && f'.finalized && f'.rowCount == f.rowCount
      && Finalizes(x.paimon, x.transport, x.queryId, x.attemptId, f.messages, f.rowCount, f.finalized, result,
                   f'.messages, aborted)
  }

  predicate Lawful(x: Setting, h: History) {
    h.Called? ==>
      Lawful(x, h.before) && MeetsContract(x, WorkerOf(h.before), FieldsOf(h.before), h.call, h.fields, h.aborted)
  }

  /** The worker of the steps and the object agree. */
  ghost predicate Agrees(x: Setting, w: Worker, f: Fields, aborted: seq<CommitMessage>, published: seq<CommitMessage>) {
    && w.alive && AllWritersIdle(w)
    && Contents(x.naming, w.held) == f.messages && w.rowCount == f.rowCount && w.finalized == f.finalized
    && w.rowCount <= IDX_MAX && |w.held| <= IDX_MAX
    && Contents(x.naming, w.aborted) == aborted
    && Contents(x.naming, if w.published.Some? then w.published.value else []) == published
  }

  lemma {:induction false} AfterInv(w: Worker, steps: seq<Step>)
    requires Inv(w) && After(w, steps).Some?
    ensures Inv(After(w, steps).value)
    decreases |steps|
  {
    hide Inv, Enabled, Next;
    if steps != [] {
      InvNext(w, steps[0]);
      AfterInv(Next(w, steps[0]), steps[1..]);
    }
  }

  lemma CombineKeepsAgreement(x: Setting, w: Worker, f: Fields, call: Call, f': Fields, aborted: seq<CommitMessage>,
                              before: seq<CommitMessage>, published: seq<CommitMessage>)
    requires call.CombineCall? && Inv(w) && Agrees(x, w, f, before, published) && MeetsContract(x, w, f, call, f', aborted)
    ensures var w' := WorkerAfter(w, call, aborted); Inv(w') && Agrees(x, w', f', before + aborted, published)
  {
    CombineEndKeeps(w, call.l, RowsAt(w, call.l), call.hs, call.ok);
    hide Inv, After, Enabled, Next, MayCombine, Somes, Valid, Contents, Combines, CombineEnd, CombineSteps, RowsAt,
      AllWritersIdle;
    var l, rows := call.l, RowsAt(w, call.l);
    CombineIsARun(x.naming, w, l, rows, call.hs, call.closed, call.ok, f'.messages, f'.rowCount, aborted);
    AfterInv(w, CombineSteps(l, rows, call.hs, call.closed));
    var w' := CombineEnd(w, l, rows, call.hs, call.ok);
    AbortedContents(x.naming, w, w', before, aborted);
    ContentsLength(x.naming, w.held);
    ContentsLength(x.naming, w'.held);
    CombineBounds(x, w, f, call, f', aborted);
  }

  lemma CombineEndKeeps(w: Worker, l: nat, rows: nat, hs: Result<seq<Option<Handle>>>, ok: bool)
    ensures var w' := CombineEnd(w, l, rows, hs, ok);
            w'.alive == w.alive && w'.finalized == w.finalized && w'.published == w.published
            && (AllWritersIdle(w) ==> AllWritersIdle(w'))
  {
  }

  lemma CombineBounds(x: Setting, w: Worker, f: Fields, call: Call, f': Fields, aborted: seq<CommitMessage>)
    requires call.CombineCall? && MeetsContract(x, w, f, call, f', aborted)
    requires f.rowCount <= IDX_MAX && |f.messages| <= IDX_MAX
    ensures f'.rowCount <= IDX_MAX && |f'.messages| <= IDX_MAX
  {
    hide MayCombine;
    if call.hs.Ok? {
      SomesLength(RawContents(x.naming, call.hs.value));
    }
  }

  lemma AbortedContents(naming: Naming, w: Worker, w': Worker, before: seq<CommitMessage>, aborted: seq<CommitMessage>)
    requires w.aborted <= w'.aborted && Contents(naming, w'.aborted[|w.aborted|..]) == aborted
    requires Contents(naming, w.aborted) == before
    ensures Contents(naming, w'.aborted) == before + aborted
  {
    ContentsAppend(naming, w.aborted, w'.aborted[|w.aborted|..]);
    assert w'.aborted == w.aborted + w'.aborted[|w.aborted|..];
  }

  lemma FinalizeKeepsAgreement(x: Setting, w: Worker, f: Fields, call: Call, f': Fields, aborted: seq<CommitMessage>,
                               before: seq<CommitMessage>, published: seq<CommitMessage>)
    requires call.FinalizeCall? && Inv(w) && Agrees(x, w, f, before, published) && MeetsContract(x, w, f, call, f', aborted)
    ensures var w' := WorkerAfter(w, call, aborted);
            && Inv(w')
            && Agrees(x, w', f', before + aborted, if call.result.Ok? && f.messages != [] then f.messages else published)
  {
    hide Inv, Finalizes;
    FinalizeIsAStep(x.naming, w, x.paimon, x.transport, x.queryId, x.attemptId, call.result, f'.messages, aborted);
    var step := FinalizeStep(w, call.result, aborted);
    InvNext(w, step);
    AbortedContents(x.naming, w, Next(w, step), before, aborted);
    assert |f'.messages| <= |f.messages| by {
      FinalizeBounds(x, f, call, f', aborted);
    }
  }

  lemma FinalizeBounds(x: Setting, f: Fields, call: Call, f': Fields, aborted: seq<CommitMessage>)
    requires call.FinalizeCall?
    requires Finalizes(x.paimon, x.transport, x.queryId, x.attemptId, f.messages, f.rowCount, f.finalized, call.result,
                       f'.messages, aborted)
    ensures |f'.messages| <= |f.messages|
  {
    hide FragmentsFor, Unserializable;
  }

  lemma OthersKeepAgreement(x: Setting, w: Worker, f: Fields, call: Call, f': Fields, aborted: seq<CommitMessage>,
                            before: seq<CommitMessage>, published: seq<CommitMessage>)
    requires (call.Begin? || call.Receive?) && Inv(w) && Agrees(x, w, f, before, published)
    requires MeetsContract(x, w, f, call, f', aborted)
    ensures var w' := WorkerAfter(w, call, aborted); Inv(w') && Agrees(x, w', f', before + aborted, published)
  {
    hide Inv;
    InvNext(w, if call.Begin? then InitializeLocal(call.l) else Step.Sink(call.l, call.rows));
    assert before + aborted == before;
  }

  lemma {:induction false} ObjectAgrees(x: Setting, h: History)
    requires Lawful(x, h)
    ensures Inv(WorkerOf(h)) && Agrees(x, WorkerOf(h), FieldsOf(h), AbortedBy(h), PublishedBy(h))
  {
    if h.Called? {
      hide Inv, Agrees, MeetsContract, WorkerAfter;
      var w, f := WorkerOf(h.before), FieldsOf(h.before);
      ObjectAgrees(x, h.before);
      if h.call.CombineCall? {
        CombineKeepsAgreement(x, w, f, h.call, h.fields, h.aborted, AbortedBy(h.before), PublishedBy(h.before));
      } else if h.call.FinalizeCall? {
        FinalizeKeepsAgreement(x, w, f, h.call, h.fields, h.aborted, AbortedBy(h.before), PublishedBy(h.before));
      } else {
        OthersKeepAgreement(x, w, f, h.call, h.fields, h.aborted, AbortedBy(h.before), PublishedBy(h.before));
      }
    }
  }

  /** For every sequence of calls on one task and its destruction, which passes the
      messages it still has to abort: each message object ever prepared is in the
      published fragment or was passed to abort, and never both. */
  lemma ObjectLosesNothing(x: Setting, h: History, m: Handle)
    requires Lawful(x, h) && m in WorkerOf(h).prepared
    ensures Enabled(WorkerOf(h), Destroy)
    ensures var gone := Next(WorkerOf(h), Destroy);
            && (IsPublished(gone, m) <==> m !in gone.aborted)
            && Contents(x.naming, gone.aborted) == AbortedBy(h) + FieldsOf(h).messages
            && (IsPublished(gone, m) ==> Content(x.naming, m) in PublishedBy(h))
  {
    var w := WorkerOf(h);
    ObjectAgrees(x, h);
    InvNext(w, Destroy);
    ContentsAppend(x.naming, w.aborted, w.held);
    var gone := Next(w, Destroy);
    DestroyedOwns(gone, m);
    if IsPublished(gone, m) {
      var i :| 0 <= i < |w.published.value| && w.published.value[i] == m;
      assert Contents(x.naming, w.published.value)[i] == Content(x.naming, m);
    }
  }

  lemma DestroyedOwns(w: Worker, m: Handle)
    requires Inv(w) && !w.alive && m in w.prepared
    ensures IsPublished(w, m) <==> m !in w.aborted
  {
  }
}
