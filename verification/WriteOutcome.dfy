/** From the selected task results to the end of the write. Once a coordinator has
    decoded them, their messages are, in every run of the protocol, committed once or
    passed to abort, and what Finalize returns is their row count. A Finalize that
    raises before it decodes does neither, for good. */
module WriteOutcome {
  import opened Prelude
  import opened CommitDecoding
  import opened DistributedInsert
  import opened WriteProtocol

  /** All messages of the results, as the protocol knows them. */
  function MessageSet(c: Coordinator, messages: seq<CommitMessage>): set<Message> {
    ToSet(c.Canonicals(messages))
  }

  /** The action in which Finalize decodes `results`. */
  ghost predicate Decodes(c: Coordinator, results: seq<TaskResult>, a: Action) {
    a.Decode? &&
    exists messages :: c.DecodesTo(results, a.ok, messages, a.rows) && a.messages == MessageSet(c, messages)
  }

  /** Whenever operator `i` decodes in the run, it decodes `results`. */
  ghost predicate DecodesResults(t: Trace, i: OpId, c: Coordinator, results: seq<TaskResult>) {
    t.More? ==>
      && DecodesResults(t.before, i, c, results)
      && (t.step.Act? && t.step.i == i && t.step.action.Decode? ==> Decodes(c, results, t.step.action))
  }

  /** The operator holds what decoding made of the results, and got beyond it only
      if they were acceptable. */
  ghost predicate HoldsResults(op: Operator, c: Coordinator, results: seq<TaskResult>) {
    exists messages, ok :: c.DecodesTo(results, ok, messages, op.rowCount) && op.decoded == MessageSet(c, messages)
                        && (ok || (op.stage.Finished? && !op.called))
  }

  lemma DecodedStays(catalog: map<string, Table>, op: Operator, a: Action)
    requires OpInv(op) && StageFits(op.stage, a) && PastDecoding(op)
    ensures !a.Decode?
    ensures var op' := OpAfter(catalog, op, a);
            && op'.decoded == op.decoded && op'.rowCount == op.rowCount
            && (op.stage.Finished? && !op.called ==> op'.stage.Finished? && !op'.called)
  {
  }

  lemma StillHolds(op: Operator, op': Operator, c: Coordinator, results: seq<TaskResult>)
    requires HoldsResults(op, c, results) && op'.decoded == op.decoded && op'.rowCount == op.rowCount
    requires op.stage.Finished? && !op.called ==> op'.stage.Finished? && !op'.called
    ensures HoldsResults(op', c, results)
  {
    hide c.DecodesTo, MessageSet;
    var messages, ok :| c.DecodesTo(results, ok, messages, op.rowCount) && op.decoded == MessageSet(c, messages)
                     && (ok || (op.stage.Finished? && !op.called));
    assert c.DecodesTo(results, ok, messages, op'.rowCount);
  }

  lemma DecodeHolds(catalog: map<string, Table>, op: Operator, a: Action, c: Coordinator, results: seq<TaskResult>)
    requires OpInv(op) && StageFits(op.stage, a) && Decodes(c, results, a)
    ensures HoldsResults(OpAfter(catalog, op, a), c, results)
  {
    hide c.DecodesTo, MessageSet;
    var messages :| c.DecodesTo(results, a.ok, messages, a.rows) && a.messages == MessageSet(c, messages);
    var op' := OpAfter(catalog, op, a);
    assert op'.decoded == a.messages && op'.rowCount == a.rows;
  }

  lemma {:induction false} DecodedFromResults(t: Trace, i: OpId, c: Coordinator, results: seq<TaskResult>)
    requires Legal(t) && DecodesResults(t, i, c, results) && Reached(t, i)
    ensures i in State(t).ops && HoldsResults(State(t).ops[i], c, results)
  {
    hide OpInv, OpAfter, Decodes, HoldsResults, PastDecoding, LockInv, BaselineInv, CallsInv, PublicationsInv, CatalogAfter,
      CallsAfter, PublicationsAfter, c.DecodesTo, MessageSet;
    var s := State(t.before);
    TraceInv(t.before);
    ReachedDecides(t.before, i);
    if t.step.Act? && t.step.i == i && t.step.action.Decode? {
      DecodeHolds(s.catalog, s.ops[i], t.step.action, c, results);
    } else {
      DecodedFromResults(t.before, i, c, results);
      if t.step.Act? && t.step.i == i {
        DecodedStays(s.catalog, s.ops[i], t.step.action);
        StillHolds(s.ops[i], State(t).ops[i], c, results);
      }
    }
  }

  /** All messages before the first faulty result are in `done`; all messages of all
      results if there is none. */
  ghost predicate Covers(done: set<Message>, c: Coordinator, results: seq<TaskResult>) {
    exists k: nat :: c.GoodUpTo(results, k) && MessageSet(c, c.AllMessages(results[..k])) <= done
  }

  lemma HeldCovers(op: Operator, c: Coordinator, results: seq<TaskResult>)
    requires c.Ready() && HoldsResults(op, c, results)
    ensures Covers(op.decoded, c, results)
    ensures c.Consistent(results) ==>
              op.decoded == MessageSet(c, c.AllMessages(results)) && op.rowCount == Sum(Rows(results))
    ensures c.Accepts(results) || (op.stage.Finished? && !op.called)
    ensures c.Accepts(results) ==> c.Consistent(results)
  {
    hide c.Ready, c.Consistent, c.AllMessages, c.Canonicals;
    var messages, ok :| c.DecodesTo(results, ok, messages, op.rowCount) && op.decoded == MessageSet(c, messages)
                     && (ok || (op.stage.Finished? && !op.called));
    assert results[..|results|] == results;
    if c.Consistent(results) {
      assert c.GoodUpTo(results, |results|);
    } else {
      var k: nat :| k < |results| && c.GoodUpTo(results, k)
                 && c.AllMessages(results[..k]) <= messages <= c.AllMessages(results[..k + 1]);
      PrefixSet(c, c.AllMessages(results[..k]), messages);
    }
  }

  lemma PrefixSet(c: Coordinator, a: seq<CommitMessage>, b: seq<CommitMessage>)
    requires a <= b
    ensures MessageSet(c, a) <= MessageSet(c, b)
  {
    hide c.Canonical;
    assert c.Canonicals(a) <= c.Canonicals(b);
    PrefixMember(c.Canonicals(a), c.Canonicals(b));
  }

  /** Every run of the protocol over some selected results, once they were decoded.
      A commit call is made only for acceptable results and takes exactly their
      messages. Without one, nothing is committed and every message before the first
      faulty result has been passed to abort: all of them when only a repeated
      logical task was at fault. */
  lemma CommittedOrAborted(t: Trace, i: OpId, c: Coordinator, results: seq<TaskResult>)
    requires Legal(t) && DecodesResults(t, i, c, results) && c.Ready() && Reached(t, i)
    requires i in State(t).ops && State(t).ops[i].stage.Finished?
    ensures var op := State(t).ops[i];
            && (op.called ==> c.Accepts(results) && op.committed == MessageSet(c, c.AllMessages(results)))
            && (!op.called ==> op.committed == {} && Covers(op.finalizeAborted, c, results))
            && (!op.called && c.Consistent(results) ==> MessageSet(c, c.AllMessages(results)) <= op.finalizeAborted)
            && (c.Consistent(results) ==>
                  op.rowCount == Sum(Rows(results)) && op.decoded == MessageSet(c, c.AllMessages(results)))
  {
    hide Next, Enabled, Decodes, HoldsResults, MessageSet, c.Ready, c.Consistent, c.Accepts, c.AllMessages, Reached;
    var op := State(t).ops[i];
    TraceInv(t);
    assert OpInv(op);
    DecodedFromResults(t, i, c, results);
    HeldCovers(op, c, results);
    if !op.called {
      var k: nat :| c.GoodUpTo(results, k) && MessageSet(c, c.AllMessages(results[..k])) <= op.decoded;
      assert MessageSet(c, c.AllMessages(results[..k])) <= op.finalizeAborted;
    }
  }

  /** What Finalize did with the messages of acceptable results, for good: all of them
      committed, or all of them passed to abort. */
  predicate Settled(op: Operator, messages: set<Message>) {
    (op.called && op.committed == messages) || (op.committed == {} && messages <= op.finalizeAborted)
  }

  /** A finished write of acceptable results that carry messages has settled all of
      them exactly when its Finalize reached the decoding. Otherwise it has committed
      none and aborted none, and never will. */
  lemma SettledExactlyWhenReached(t: Trace, later: Trace, i: OpId, c: Coordinator, results: seq<TaskResult>)
    requires Legal(t) && DecodesResults(t, i, c, results) && c.Accepts(results) && c.AllMessages(results) != []
    requires i in State(t).ops && State(t).ops[i].stage.Finished?
    requires Legal(later) && IsPrefix(t, later)
    ensures i in State(later).ops && State(later).ops[i] == State(t).ops[i]
    ensures Settled(State(later).ops[i], MessageSet(c, c.AllMessages(results))) <==> Reached(t, i)
    ensures Reached(t, i) ==>
              var op, messages := State(later).ops[i], MessageSet(c, c.AllMessages(results));
              if op.called then op.committed == messages else op.committed == {} && messages <= op.finalizeAborted
    ensures !Reached(t, i) ==> State(later).ops[i].committed == {} && State(later).ops[i].finalizeAborted == {}
  {
    hide Next, Enabled, DecodesResults, MessageSet, c.Ready, c.Consistent, c.AllMessages, Reached;
    FinishedForever(t, later, i);
    ReachedDecides(t, i);
    SomeMessage(c, c.AllMessages(results));
    if Reached(t, i) {
      CommittedOrAborted(t, i, c, results);
    }
  }

  lemma SomeMessage(c: Coordinator, messages: seq<CommitMessage>)
    requires messages != []
    ensures MessageSet(c, messages) != {}
  {
    assert c.Canonicals(messages)[0] in MessageSet(c, messages);
  }

  /** The write as a whole, for any split of the input into chunks, threads and tasks
      and whatever interleaves. A write that ends has settled exactly the messages that
      its writers prepared if its Finalize reached the decoding, and otherwise has
      committed and aborted none of them. It returns exactly the number of input rows, if
      it returns: a write without rows when it found its baseline again, any other when
      its commit call reported one committed operation. */
  lemma HonestWriteOutcome(t: Trace, i: OpId, c: Coordinator, queryId: string, tasks: seq<Task>)
    requires c.Ready() && CodecLaws(c.paimon) && AllHonest(c, queryId, tasks) && DistinctTasks(tasks)
    requires Distinct(PreparedMessages(tasks)) && |InputRows(tasks)| <= IDX_MAX
    requires Legal(t) && DecodesResults(t, i, c, HonestResults(c, queryId, tasks))
    requires i in State(t).ops && State(t).ops[i].stage.Finished?
    ensures var op, prepared := State(t).ops[i], MessageSet(c, PreparedMessages(tasks));
            && (Reached(t, i) ==>
                  if op.called then op.committed == prepared else op.committed == {} && prepared <= op.finalizeAborted)
            && (!Reached(t, i) ==> op.committed == {} && op.finalizeAborted == {} && op.returned.None?)
            && (InputRows(tasks) != [] ==> (Settled(op, prepared) <==> Reached(t, i)))
            && (Disciplined(t, i) ==> op.committed !! Aborted(op))
            && (op.returned.Some? ==> op.returned.value == |InputRows(tasks)|)
            && (InputRows(tasks) == [] ==> (op.returned == Some(0) <==> BaselineHeld(t, i)))
            && (InputRows(tasks) != [] ==> (op.returned == Some(|InputRows(tasks)|) <==> OneReported(t, i)))
  {
    hide Next, Enabled, BaselineHeld, OneReported, DecodesResults, CodecLaws, AllHonest, DistinctTasks, HonestResults, MessageSet, c.Ready,
      c.Consistent, c.AllMessages, Disciplined, Reached, PreparedMessages, InputRows;
    var results := HonestResults(c, queryId, tasks);
    HonestResultsAccepted(c, queryId, tasks);
    ReachedDecides(t, i);
    WitnessesHold(t, i);
    if Reached(t, i) {
      CommittedOrAborted(t, i, c, results);
    }
    NoMessage(c);
    HonestInput(c, queryId, tasks);
    if PreparedMessages(tasks) != [] {
      SomeMessage(c, PreparedMessages(tasks));
    }
    TraceInv(t);
    assert OpInv(State(t).ops[i]);
    if Disciplined(t, i) {
      AbortedXorCommitted(t, i);
    }
  }

  lemma NoMessage(c: Coordinator)
    ensures MessageSet(c, []) == {}
  {
  }

  lemma HonestInput(c: Coordinator, queryId: string, tasks: seq<Task>)
    requires AllHonest(c, queryId, tasks)
    ensures PreparedMessages(tasks) == [] <==> InputRows(tasks) == []
  {
    InputIffMessages(tasks);
  }

  /** Such a run exists for any acceptable results with messages: Finalize raises
      before decoding, the runner then passes them all to abort, and in no
      continuation are they committed or aborted. */
  lemma RaisedFinalizeStrands(c: Coordinator, results: seq<TaskResult>, later: Trace)
    requires c.Accepts(results) && c.AllMessages(results) != []
    requires Legal(later) && IsPrefix(RaisingTrace(MessageSet(c, c.AllMessages(results))), later)
    ensures 0 in State(later).ops && State(later).ops[0].targetPrepared
    ensures State(later).ops[0].committed == {} && Aborted(State(later).ops[0]) == {}
    ensures !Settled(State(later).ops[0], MessageSet(c, c.AllMessages(results)))
  {
    hide Next, Enabled, Legal, MessageSet, RaisingTrace, c.Ready, c.Consistent, c.AllMessages, IsPrefix;
    var messages := MessageSet(c, c.AllMessages(results));
    RaisingStrandsMessages(messages);
    FinishedForever(RaisingTrace(messages), later, 0);
    SomeMessage(c, c.AllMessages(results));
  }
}
