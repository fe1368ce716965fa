/** One task attempt on a worker: local writers prepare commit messages, combine
    them into a worker task's global state under its lock, and one finalisation turns
    them into a fragment. The model follows each prepared message, as an object,
    through every interleaving of these steps and every failure. */
module WorkerOwnership {
  import opened Prelude

  /** The identity of a prepared `CommitMessage` object. */
  type Handle = nat

  /** A local writer: receiving rows; inside Combine between PrepareCommit and
      the merge; or combined. */
  datatype Local =
    | Writing(rows: nat)
    | InFlight(rows: nat, messages: seq<Option<Handle>>)
    | Combined

  datatype Worker = Worker(
    locals: map<nat, Local>,
    held: seq<Handle>,                  // global.messages
    rowCount: nat,                      // global.row_count
    finalized: bool,
    published: Option<seq<Handle>>,     // the payload of the single fragment
    alive: bool,
    prepared: set<Handle>,              // every object PrepareCommit ever returned
    aborted: seq<Handle>,               // every object passed to Abort, in order
    serializeFailed: bool)

  const Initial := Worker(map[], [], 0, false, None, true, {}, [], false)

  /** What can happen next. Outcomes of paimon-cpp calls are part of the step. */
  datatype Step =
    | InitializeLocal(l: nat)
    | Sink(l: nat, rows: nat)
    | CombineEmpty(l: nat)                              // no rows: the writer is only closed
    | PrepareFails(l: nat)
    | PrepareCommit(l: nat, messages: seq<Option<Handle>>)
    | CloseFails(l: nat)
    | RejectMessages(l: nat)                            // no message, or a null one
    | Merge(l: nat)
    | MergeThrows(l: nat)                               // e.g. allocation inside the guarded block
    | Finalize
    | FinalizeSerializeFails
    | FinalizeEnvelopeThrows                            // any throw between SerializeList and clear()
    | Destroy

  /** The non-null messages, in order. */
  function Valid(messages: seq<Option<Handle>>): seq<Handle> {
    if messages == [] then []
    else
      var last := messages[|messages| - 1];
      Valid(messages[..|messages| - 1]) + (if last.Some? then [last.value] else [])
  }

  predicate HasNull(messages: seq<Option<Handle>>) {
    exists i :: 0 <= i < |messages| && messages[i].None?
  }

  predicate AllWritersIdle(w: Worker) {
    forall l :: l in w.locals ==> !w.locals[l].InFlight?
  }

  predicate Enabled(w: Worker, s: Step) {
    && w.alive
    && match s
       case InitializeLocal(l) => l !in w.locals
       case Sink(l, rows) => l in w.locals && w.locals[l].Writing?
       case CombineEmpty(l) => l in w.locals && w.locals[l] == Writing(0)
       case PrepareFails(l) => l in w.locals && w.locals[l].Writing? && w.locals[l].rows != 0
       case PrepareCommit(l, messages) =>
         && l in w.locals && w.locals[l].Writing? && w.locals[l].rows != 0
         && Distinct(Valid(messages))
         && forall m :: m in Valid(messages) ==> m !in w.prepared
       case CloseFails(l) => l in w.locals && w.locals[l].InFlight?
       case RejectMessages(l) =>
         l in w.locals && w.locals[l].InFlight? && (w.locals[l].messages == [] || HasNull(w.locals[l].messages))
       case Merge(l) =>
         l in w.locals && w.locals[l].InFlight? && w.locals[l].messages != [] && !HasNull(w.locals[l].messages)
       case MergeThrows(l) =>
         l in w.locals && w.locals[l].InFlight? && w.locals[l].messages != [] && !HasNull(w.locals[l].messages)
       case Finalize => true
       case FinalizeSerializeFails => !w.finalized && w.held != [] && w.rowCount != 0
       case FinalizeEnvelopeThrows => !w.finalized && w.held != [] && w.rowCount != 0
       case Destroy => AllWritersIdle(w)
  }

  function Abort(w: Worker, messages: seq<Handle>): Worker {
    w.(aborted := w.aborted + messages)
  }

  function EndCombine(w: Worker, l: nat): Worker {
    w.(locals := w.locals[l := Combined])
  }

  function Next(w: Worker, s: Step): Worker
    requires Enabled(w, s)
  {
    match s
    case InitializeLocal(l) => w.(locals := w.locals[l := Writing(0)])
    case Sink(l, rows) =>
      // CheckedAdd throws on overflow and leaves the count alone.
      if w.locals[l].rows + rows > IDX_MAX then w
      else w.(locals := w.locals[l := Writing(w.locals[l].rows + rows)])
    case CombineEmpty(l) => EndCombine(w, l)
    case PrepareFails(l) => EndCombine(w, l)
    case PrepareCommit(l, messages) =>
      w.(locals := w.locals[l := InFlight(w.locals[l].rows, messages)],
         prepared := w.prepared + ToSet(Valid(messages)))
    case CloseFails(l) => EndCombine(Abort(w, Valid(w.locals[l].messages)), l)
    case RejectMessages(l) => EndCombine(Abort(w, Valid(w.locals[l].messages)), l)
    case Merge(l) =>
      var messages := Valid(w.locals[l].messages);
      if w.locals[l].rows > IDX_MAX - w.rowCount || |messages| > IDX_MAX - |w.held| then
        EndCombine(Abort(w, messages), l)
      else
        EndCombine(w.(held := w.held + messages, rowCount := w.rowCount + w.locals[l].rows), l)
    case MergeThrows(l) => EndCombine(Abort(w, Valid(w.locals[l].messages)), l)
    case Finalize =>
      if w.finalized then w                             // throws: finalised more than once
      else if w.held == [] || w.rowCount == 0 then w.(finalized := true)
      else w.(finalized := true, published := Some(w.held), held := [])
    case FinalizeSerializeFails => Abort(w, w.held).(finalized := true, serializeFailed := true)
    case FinalizeEnvelopeThrows => w.(finalized := true)
    case Destroy => Abort(w, w.held).(held := [], alive := false)
  }

  // ---- who owns a message ---------------------------------------------------

  ghost predicate Flies(w: Worker, m: Handle, l: nat) {
    l in w.locals && w.locals[l].InFlight? && m in Valid(w.locals[l].messages)
  }

  ghost predicate IsPublished(w: Worker, m: Handle) {
    w.published.Some? && m in w.published.value
  }

  /** Every prepared message is accounted for, a message in flight belongs to one
      combine and to nothing else, and a published one is in nobody's hands and
      was never passed to abort. */
  ghost predicate Owned(w: Worker) {
    && (forall m, l :: Flies(w, m, l) ==>
          m in w.prepared && m !in w.held && !IsPublished(w, m) && m !in w.aborted)
    && (forall m, k, l :: Flies(w, m, k) && Flies(w, m, l) ==> k == l)
    && (forall m :: m in w.held ==> m in w.prepared && !IsPublished(w, m))
    && (forall m :: IsPublished(w, m) ==> m in w.prepared && m !in w.aborted)
    && (forall m :: m in w.aborted ==> m in w.prepared)
    && (forall m :: m in w.prepared ==>
          (exists l :: Flies(w, m, l)) || m in w.held || IsPublished(w, m) || m in w.aborted)
  }

  /** Nothing is in two places at once within a list; a message is passed to
      abort a second time only after a failed SerializeList. */
  ghost predicate Counted(w: Worker) {
    && (forall l :: l in w.locals && w.locals[l].InFlight? ==> Distinct(Valid(w.locals[l].messages)))
    && Distinct(w.held)
    && (w.published.Some? ==> Distinct(w.published.value) && w.published.value != [] && w.finalized)
    && (w.serializeFailed ==> w.finalized && w.published.None?)
    && (!w.serializeFailed ==> Distinct(w.aborted) && forall m :: m in w.held ==> m !in w.aborted)
  }

  /** Rows and messages arrive together, so neither internal error of Finalize
      can occur the first time it runs. */
  ghost predicate RowsMatch(w: Worker) {
    && (forall l :: l in w.locals && w.locals[l].InFlight? ==> 0 < w.locals[l].rows <= IDX_MAX)
    && (forall l :: l in w.locals && w.locals[l].Writing? ==> w.locals[l].rows <= IDX_MAX)
    && w.rowCount <= IDX_MAX
    && (w.published.None? && w.alive ==> (w.held == [] <==> w.rowCount == 0))
    && (!w.alive ==> w.held == [] && AllWritersIdle(w))
  }

  ghost predicate Inv(w: Worker) {
    Owned(w) && Counted(w) && RowsMatch(w)
  }

  // ---- every step keeps it --------------------------------------------------

  lemma RowsNext(w: Worker, s: Step)
    requires Inv(w) && Enabled(w, s)
    ensures RowsMatch(Next(w, s))
  {
    if s.Merge? {
      ValidAll(w.locals[s.l].messages);
    }
  }

  lemma {:induction false} ValidAll(messages: seq<Option<Handle>>)
    requires !HasNull(messages)
    ensures |Valid(messages)| == |messages|
  {
    if messages != [] {
      ValidAll(messages[..|messages| - 1]);
    }
  }

  lemma CountedNext(w: Worker, s: Step)
    requires Inv(w) && Enabled(w, s)
    ensures Counted(Next(w, s))
  {
    hide Owned, RowsMatch;
    if s.CloseFails? || s.RejectMessages? || s.Merge? || s.MergeThrows? {
      CountedLanding(w, s);
    } else {
      DistinctAppend(w.aborted, w.held);
    }
  }

  lemma CountedLanding(w: Worker, s: Step)
    requires Inv(w) && Enabled(w, s) && (s.CloseFails? || s.RejectMessages? || s.Merge? || s.MergeThrows?)
    ensures Counted(Next(w, s))
  {
    var messages := Valid(w.locals[s.l].messages);
    assert forall m :: m in messages ==> Flies(w, m, s.l);
    DistinctAppend(w.aborted, messages);
    DistinctAppend(w.held, messages);
  }

  lemma OwnedNext(w: Worker, s: Step)
    requires Inv(w) && Enabled(w, s)
    ensures Owned(Next(w, s))
  {
    var w' := Next(w, s);
    if s.PrepareCommit? {
      OwnedPrepare(w, s.l, s.messages);
    } else if s.CloseFails? || s.RejectMessages? || s.Merge? || s.MergeThrows? {
      OwnedLanding(w, s);
    } else {
      assert forall m, k :: Flies(w', m, k) <==> Flies(w, m, k);
    }
  }

  /** Freshly prepared messages belong to the combine that prepared them. */
  lemma OwnedPrepare(w: Worker, l: nat, messages: seq<Option<Handle>>)
    requires Inv(w) && Enabled(w, PrepareCommit(l, messages))
    ensures Owned(Next(w, PrepareCommit(l, messages)))
  {
    var w' := Next(w, PrepareCommit(l, messages));
    forall m, k ensures Flies(w', m, k) <==> Flies(w, m, k) || (k == l && m in Valid(messages)) {
    }
    forall m | m in w'.prepared
      ensures (exists k :: Flies(w', m, k)) || m in w'.held || IsPublished(w', m) || m in w'.aborted
    {
      if m in Valid(messages) {
        assert Flies(w', m, l);
      } else if k :| Flies(w, m, k) {
        assert Flies(w', m, k);
      }
    }
  }

  /** A combine that ends hands its messages to the global state or to abort. */
  lemma OwnedLanding(w: Worker, s: Step)
    requires Inv(w) && Enabled(w, s) && (s.CloseFails? || s.RejectMessages? || s.Merge? || s.MergeThrows?)
    ensures Owned(Next(w, s))
  {
    var w' := Next(w, s);
    Landed(w, w', s.l);
    forall m | m in w'.prepared
      ensures (exists k :: Flies(w', m, k)) || m in w'.held || IsPublished(w', m) || m in w'.aborted
    {
      if k :| Flies(w, m, k) {
        if k != s.l {
          assert Flies(w', m, k);
        }
      }
    }
  }

  /** A combine that ends takes its messages out of flight, and out of no other. */
  lemma Landed(w: Worker, w': Worker, l: nat)
    requires Inv(w) && l in w.locals && w.locals[l].InFlight?
    requires w'.locals == w.locals[l := Combined]
    ensures forall m, k :: Flies(w', m, k) <==> Flies(w, m, k) && k != l
    ensures forall m :: m in Valid(w.locals[l].messages) <==> Flies(w, m, l)
  {
  }

  lemma InvNext(w: Worker, s: Step)
    requires Inv(w) && Enabled(w, s)
    ensures Inv(Next(w, s))
  {
    OwnedNext(w, s);
    CountedNext(w, s);
    RowsNext(w, s);
  }

  // ---- whole runs -----------------------------------------------------------

  /** `states` is a run of a worker from its creation, one step at a time. */
  ghost predicate IsRun(states: seq<Worker>, steps: seq<Step>) {
    && |states| == |steps| + 1
    && states[0] == Initial
    && forall i :: 0 <= i < |steps| ==> Enabled(states[i], steps[i]) && states[i + 1] == Next(states[i], steps[i])
  }

  lemma {:induction false} RunKeepsInv(states: seq<Worker>, steps: seq<Step>, n: nat)
    requires IsRun(states, steps) && n < |states|
    ensures Inv(states[n])
  {
    if n > 0 {
      RunKeepsInv(states, steps, n - 1);
      InvNext(states[n - 1], steps[n - 1]);
    }
  }

  /** At every point of every run, each prepared message is in flight, held,
      published, or was passed to abort; a published message never was, and while
      it lives in one place it is in no other. */
  lemma MessageOwnership(states: seq<Worker>, steps: seq<Step>, n: nat, m: Handle)
    requires IsRun(states, steps) && n < |states| && m in states[n].prepared
    ensures var w := states[n];
            && ((exists l :: Flies(w, m, l)) || m in w.held || IsPublished(w, m) || m in w.aborted)
            && (IsPublished(w, m) ==> m !in w.aborted && m !in w.held && !exists l :: Flies(w, m, l))
            && (m in w.held ==> !exists l :: Flies(w, m, l))
            && (forall k, l :: Flies(w, m, k) && Flies(w, m, l) ==> k == l)
  {
    RunKeepsInv(states, steps, n);
  }

  /** Once the worker is gone, nothing was silently lost: a prepared message is
      in the fragment or was passed to abort, and never both. */
  lemma NothingLost(states: seq<Worker>, steps: seq<Step>, m: Handle)
    requires IsRun(states, steps) && !states[|steps|].alive && m in states[|steps|].prepared
    ensures IsPublished(states[|steps|], m) <==> m !in states[|steps|].aborted
  {
    RunKeepsInv(states, steps, |steps|);
  }

  /** A message is passed to abort at most once unless SerializeList failed. */
  lemma AbortedOnce(states: seq<Worker>, steps: seq<Step>, n: nat)
    requires IsRun(states, steps) && n < |states| && !states[n].serializeFailed
    ensures Distinct(states[n].aborted)
  {
    RunKeepsInv(states, steps, n);
  }

  lemma PublishedStays(w: Worker, s: Step)
    requires Inv(w) && Enabled(w, s) && w.published.Some?
    ensures Next(w, s).published == w.published
  {
    hide Owned, RowsMatch;
  }

  /** What was published stays published and is never aborted, whatever happens to
      the worker afterwards. */
  lemma {:induction false} PublishedForever(states: seq<Worker>, steps: seq<Step>, i: nat, j: nat)
    requires IsRun(states, steps) && i <= j < |states| && states[i].published.Some?
    ensures states[j].published == states[i].published
    ensures forall m :: m in states[i].published.value ==> m !in states[j].aborted
    decreases j
  {
    hide Next, Enabled, Counted, RowsMatch;
    RunKeepsInv(states, steps, j);
    if i < j {
      PublishedForever(states, steps, i, j - 1);
      RunKeepsInv(states, steps, j - 1);
      PublishedStays(states[j - 1], steps[j - 1]);
    }
    assert forall m :: m in states[i].published.value ==> IsPublished(states[j], m);
  }

  /** The first Finalize meets neither of its two internal errors: it holds
      messages exactly when it counted rows. */
  lemma FirstFinalizeConsistent(states: seq<Worker>, steps: seq<Step>, n: nat)
    requires IsRun(states, steps) && n < |states| && states[n].alive && !states[n].finalized
    ensures states[n].held == [] <==> states[n].rowCount == 0
  {
    hide Next, Enabled, Owned;
    RunKeepsInv(states, steps, n);
  }

  /** The exception is real: whenever SerializeList fails, what the worker held is
      passed to abort by the failing Finalize and again by the destructor. */
  lemma SerializeFailureAbortsTwice(w: Worker)
    requires Inv(w) && Enabled(w, FinalizeSerializeFails) && AllWritersIdle(w)
    ensures var failed := Next(w, FinalizeSerializeFails);
            && Enabled(failed, Destroy)
            && Next(failed, Destroy).aborted == w.aborted + w.held + w.held
            && w.held != [] && Next(failed, Destroy).published.None?
  {
    hide Owned;
  }
}
