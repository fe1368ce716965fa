/** From input rows to the committed messages: what workers send, what the
    coordinator makes of it, and the native insert it must agree with. */
module DistributedInsert {
  import opened Prelude
  import opened WriteCodec
  import opened CommitDecoding
  import opened SinkGrouping
  import Identity

  function Present(messages: seq<CommitMessage>): seq<Option<CommitMessage>> {
    seq(|messages|, i requires 0 <= i < |messages| => Some(messages[i]))
  }

  lemma {:induction false} SomesPresent(messages: seq<CommitMessage>)
    ensures Somes(Present(messages)) == messages
  {
    if messages != [] {
      var init := messages[..|messages| - 1];
      SomesPresent(init);
      assert Present(messages)[..|messages| - 1] == Present(init);
    }
  }

  function EnvelopeFor(paimon: Paimon, t: Transport, queryId: string, attemptId: string,
                       messageCount: nat, rowCount: nat, transportBytes: string, messageBytes: string): Envelope {
    Envelope(t.operationId, t.tableUuid, t.tablePath, t.schemaFingerprint, t.schemaId, t.hasSnapshot, t.snapshotId,
             t.commitIdentifier, queryId, attemptId, WorkerCommitUser(paimon, t, queryId, attemptId), paimon.version,
             messageCount, rowCount, transportBytes, messageBytes)
  }

  /** The fragments a worker publishes for its messages: none without messages. */
  function FragmentsFor(paimon: Paimon, t: Transport, queryId: string, attemptId: string,
                        messages: seq<CommitMessage>, rowCount: nat): Result<seq<Fragment>> {
    if messages == [] then (if rowCount == 0 then Ok([]) else Err)
    else if rowCount == 0 then Err
    else
      match (paimon.serializeList(messages), EncodeTransport(t))
      case (Some(bytes), Ok(target)) =>
        var e := EnvelopeFor(paimon, t, queryId, attemptId, |messages|, rowCount, target, bytes);
        Ok([Fragment(ExpectedFragmentId(t, attemptId), EncodeEnvelope(e), [], rowCount, 0)])
      case _ => Err
  }

  predicate Unserializable(paimon: Paimon, messages: seq<CommitMessage>, rowCount: nat) {
    messages != [] && rowCount != 0 && paimon.serializeList(messages).None?
  }

  /** What Finalize does to a task's messages: the fragment takes them over, or they
      stay; when they do not serialise they are passed to abort as well. */
  predicate Finalizes(paimon: Paimon, t: Transport, queryId: string, attemptId: string, messages: seq<CommitMessage>,
                      rowCount: nat, finalized: bool, result: Result<seq<Fragment>>, messages': seq<CommitMessage>,
                      aborted: seq<CommitMessage>) {
    && result == (if finalized then Err else FragmentsFor(paimon, t, queryId, attemptId, messages, rowCount))
    && messages' == (if result.Ok? then [] else messages)
    && aborted == (if !finalized && Unserializable(paimon, messages, rowCount) then messages else [])
  }

  /** When a combine may merge what its writer prepared. */
  predicate Mergeable(messages: seq<CommitMessage>, rowCount: nat, rows: nat, raw: seq<Option<CommitMessage>>) {
    && raw != [] && (forall i :: 0 <= i < |raw| ==> raw[i].Some?)
    && rowCount + rows <= IDX_MAX && |messages| + |raw| <= IDX_MAX
  }

  /** What a combine does to a task's messages and count: either what its writer
      prepared joins them, or every message it returned is passed to abort. */
  predicate Combines(messages: seq<CommitMessage>, rowCount: nat, rows: nat,
                     prepared: Result<seq<Option<CommitMessage>>>, closed: bool,
                     ok: bool, messages': seq<CommitMessage>, rowCount': nat, aborted: seq<CommitMessage>) {
    && (ok <==> closed && (rows == 0 || (prepared.Ok? && Mergeable(messages, rowCount, rows, prepared.value))))
    && (ok && rows != 0 ==> messages' == messages + Somes(prepared.value) && rowCount' == rowCount + rows)
    && (!ok || rows == 0 ==> messages' == messages && rowCount' == rowCount)
    && aborted == if ok || rows == 0 || prepared.Err? then [] else Somes(prepared.value)
  }

  /** The global state of a worker task. */
  class WorkerTask {
    const paimon: Paimon
    const transport: Transport
    const queryId: string
    const attemptId: string
    var messages: seq<CommitMessage>
    var rowCount: nat
    var finalized: bool

    constructor (paimon: Paimon, transport: Transport, queryId: string, attemptId: string)
      ensures messages == [] && rowCount == 0 && !finalized
      ensures this.paimon == paimon && this.transport == transport
      ensures this.queryId == queryId && this.attemptId == attemptId
    {
      this.paimon, this.transport, this.queryId, this.attemptId := paimon, transport, queryId, attemptId;
      messages, rowCount, finalized := [], 0, false;
    }

    /** Combine of one local writer. */
    method Combine(rows: nat, prepared: Result<seq<Option<CommitMessage>>>, closed: bool)
      returns (ok: bool, aborted: seq<CommitMessage>)
      requires rowCount <= IDX_MAX && |messages| <= IDX_MAX
      modifies this`messages, this`rowCount
      ensures Combines(old(messages), old(rowCount), rows, prepared, closed, ok, messages, rowCount, aborted)
      ensures rowCount <= IDX_MAX && |messages| <= IDX_MAX
    {
      if rows == 0 {
        return closed, [];
      }
      if prepared.Err? {
        return false, [];
      }
      var raw := prepared.value;
      if !closed {
        return false, Somes(raw);
      }
      if raw == [] {
        return false, [];
      }
      for i := 0 to |raw|
        invariant forall k :: 0 <= k < i ==> raw[k].Some?
      {
        if raw[i].None? {
          return false, Somes(raw);
        }
      }
      if rows > IDX_MAX - rowCount || |raw| > IDX_MAX - |messages| {
        return false, Somes(raw);
      }
      SomesLength(raw);
      messages, rowCount := messages + Somes(raw), rowCount + rows;
      return true, [];
    }

    /** Finalize. */
    method Finalize() returns (result: Result<seq<Fragment>>, aborted: seq<CommitMessage>)
      modifies this`messages, this`finalized
      ensures finalized
      ensures Finalizes(paimon, transport, queryId, attemptId, old(messages), rowCount, old(finalized), result, messages, aborted)
    {
      if finalized {
        return Err, [];
      }
      finalized := true;
      if messages == [] {
        return if rowCount != 0 then Err else Ok([]), [];
      }
      if rowCount == 0 {
        return Err, [];
      }
      var serialized := paimon.serializeList(messages);
      if serialized.None? {
        return Err, messages;
      }
      var target := EncodeTransport(transport);
      if target.Err? {
        return Err, [];
      }
      var envelope := EnvelopeFor(paimon, transport, queryId, attemptId, |messages|, rowCount, target.value, serialized.value);
      var fragment := Fragment(ExpectedFragmentId(transport, attemptId), EncodeEnvelope(envelope), [], rowCount, 0);
      messages := [];
      return Ok([fragment]), [];
    }
  }

  lemma {:induction false} SomesLength(raw: seq<Option<CommitMessage>>)
    ensures |Somes(raw)| <= |raw|
  {
    if raw != [] {
      SomesLength(raw[..|raw| - 1]);
    }
  }

  // ---- a query's work, split over tasks, threads and chunks ----------------------

  /** A local writer: the chunks it receives and the messages it prepares. */
  datatype Thread = Thread(chunks: seq<seq<Row>>, prepared: seq<CommitMessage>)
  datatype Task = Task(fragment: nat, partition: nat, attempt: nat, threads: seq<Thread>)

  /** Rows in arrival order; every list is read from its last element, as it grows. */
  function ChunkRows(chunks: seq<seq<Row>>): seq<Row> {
    if chunks == [] then [] else ChunkRows(chunks[..|chunks| - 1]) + chunks[|chunks| - 1]
  }

  function ThreadRows(threads: seq<Thread>): seq<Row> {
    if threads == [] then []
    else ThreadRows(threads[..|threads| - 1]) + ChunkRows(threads[|threads| - 1].chunks)
  }

  function InputRows(tasks: seq<Task>): seq<Row> {
    if tasks == [] then [] else InputRows(tasks[..|tasks| - 1]) + ThreadRows(tasks[|tasks| - 1].threads)
  }

  /** A writer without rows is closed without preparing anything. */
  function ThreadMessages(threads: seq<Thread>): seq<CommitMessage> {
    if threads == [] then []
    else
      var last := threads[|threads| - 1];
      ThreadMessages(threads[..|threads| - 1]) + (if ChunkRows(last.chunks) == [] then [] else last.prepared)
  }

  function PreparedMessages(tasks: seq<Task>): seq<CommitMessage> {
    if tasks == [] then []
    else PreparedMessages(tasks[..|tasks| - 1]) + ThreadMessages(tasks[|tasks| - 1].threads)
  }

  /** PrepareCommit returns messages for rows. */
  predicate Productive(threads: seq<Thread>) {
    forall i :: 0 <= i < |threads| ==> ChunkRows(threads[i].chunks) != [] ==> threads[i].prepared != []
  }

  lemma {:induction false} RowsIffMessages(threads: seq<Thread>)
    requires Productive(threads)
    ensures ThreadMessages(threads) == [] <==> ThreadRows(threads) == []
  {
    if threads != [] {
      RowsIffMessages(threads[..|threads| - 1]);
    }
  }

  // ---- what paimon-cpp must provide ------------------------------------------------

  /** Lists of messages survive serialisation, and canonical forms identify them. */
  ghost predicate CodecLaws(paimon: Paimon) {
    && paimon.version > 0
    && (forall m :: paimon.serialize(m).Some?)
    && (forall m, n :: paimon.serialize(m) == paimon.serialize(n) ==> m == n)
    && (forall ms :: ms != [] ==> paimon.serializeList(ms).Some? && paimon.serializeList(ms).value != "")
    && (forall ms :: ms != [] ==>
          paimon.deserializeList(paimon.version, paimon.serializeList(ms).value) == Some(Present(ms)))
  }

  /** The serialised messages of each task stay within the 32-bit codec limit. */
  predicate FitsCodec(paimon: Paimon, messages: seq<CommitMessage>) {
    match paimon.serializeList(messages)
    case None => true
    case Some(bytes) => |bytes| <= INT32_MAX
  }

  function AttemptOf(queryId: string, task: Task): string {
    Identity.AttemptName(queryId, task.fragment, task.partition, task.attempt)
  }

  /** The result an honest worker reports for a task. */
  function HonestResult(c: Coordinator, queryId: string, task: Task): TaskResult {
    var messages, rows := ThreadMessages(task.threads), |ThreadRows(task.threads)|;
    var attemptId := AttemptOf(queryId, task);
    match FragmentsFor(c.paimon, c.transport, queryId, attemptId, messages, rows)
    case Ok(fragments) => TaskResult(true, c.info.capability, c.info.codec, queryId, attemptId, fragments, rows, 0)
    case Err => TaskResult(false, c.info.capability, c.info.codec, queryId, attemptId, [], rows, 0)
  }

  function HonestResults(c: Coordinator, queryId: string, tasks: seq<Task>): seq<TaskResult> {
    seq(|tasks|, i requires 0 <= i < |tasks| => HonestResult(c, queryId, tasks[i]))
  }

  ghost predicate Honest(c: Coordinator, queryId: string, task: Task) {
    && c.Ready() && CodecLaws(c.paimon) && queryId != ""
    && Productive(task.threads) && FitsCodec(c.paimon, ThreadMessages(task.threads))
  }

  /** Running a task: every thread sinks its chunks and combines; then Finalize. */
  method RunTask(c: Coordinator, queryId: string, task: Task, t: Target) returns (result: TaskResult)
    requires Honest(c, queryId, task)
    requires |ThreadRows(task.threads)| <= IDX_MAX && |ThreadMessages(task.threads)| <= IDX_MAX
    requires |t.partCols| == |t.partKeys| && ChunkFits(t, ThreadRows(task.threads))
    ensures result == HonestResult(c, queryId, task)
  {
    hide FragmentsFor, Unserializable, CodecLaws, FitsCodec, ChunkRows, ChunkFits, Somes, c.Ready, EnvelopeFor, Identity.AttemptName;
    var attemptId := AttemptOf(queryId, task);
    var worker := new WorkerTask(c.paimon, c.transport, queryId, attemptId);
    var threads := task.threads;
    for i := 0 to |threads|
      invariant fresh(worker) && !worker.finalized
      invariant worker.messages == ThreadMessages(threads[..i])
      invariant worker.rowCount == |ThreadRows(threads[..i])|
      invariant |worker.messages| <= IDX_MAX && worker.rowCount <= IDX_MAX
    {
      assert threads[..i + 1][..i] == threads[..i];
      ThreadPrefix(threads, i + 1);
      FitsPart(t, ThreadRows(threads), ChunkRows(threads[i].chunks));
      var rows := RunThread(threads[i].chunks, t);
      SomesPresent(threads[i].prepared);
      var ok, aborted := worker.Combine(rows, Ok(Present(threads[i].prepared)), true);
    }
    assert threads[..|threads|] == threads;
    var fragments, _ := worker.Finalize();
    RowsIffMessages(threads);
    if fragments.Ok? {
      return TaskResult(true, c.info.capability, c.info.codec, queryId, attemptId, fragments.value,
                        worker.rowCount, 0);
    }
    return TaskResult(false, c.info.capability, c.info.codec, queryId, attemptId, [], worker.rowCount, 0);
  }

  /** One thread's Sink calls, with a writer that does not fail; its count is the
      number of rows it received. */
  method RunThread(chunks: seq<seq<Row>>, t: Target) returns (rows: nat)
    requires |ChunkRows(chunks)| <= IDX_MAX
    requires |t.partCols| == |t.partKeys| && ChunkFits(t, ChunkRows(chunks))
    ensures rows == |ChunkRows(chunks)|
  {
    hide Outcome, BatchCount, ChunkFits;
    var writer := new LocalWriter();
    for j := 0 to |chunks|
      invariant fresh(writer) && writer.rowCount == |ChunkRows(chunks[..j])|
    {
      assert chunks[..j + 1][..j] == chunks[..j];
      ChunkPrefix(chunks, j + 1);
      FitsPart(t, ChunkRows(chunks), chunks[j]);
      var ok := writer.SinkDistributed(t, chunks[j], BatchCount(t, chunks[j]));
    }
    assert chunks[..|chunks|] == chunks;
    return writer.rowCount;
  }

  lemma FitsPart(t: Target, whole: seq<Row>, part: seq<Row>)
    requires ChunkFits(t, whole) && forall r :: r in part ==> r in whole
    ensures ChunkFits(t, part)
  {
    forall i | 0 <= i < |part| ensures Fits(t, part[i]) {
      assert part[i] in whole;
    }
  }

  lemma {:induction false} ChunkPrefix(chunks: seq<seq<Row>>, k: nat)
    requires k <= |chunks|
    ensures ChunkRows(chunks[..k]) <= ChunkRows(chunks)
    ensures k > 0 ==> forall r :: r in chunks[k - 1] ==> r in ChunkRows(chunks)
    decreases |chunks| - k
  {
    if k == |chunks| {
      assert chunks[..k] == chunks;
    } else {
      ChunkPrefix(chunks, k + 1);
      assert chunks[..k + 1][..k] == chunks[..k];
      if k > 0 {
        assert chunks[..k][k - 1] == chunks[k - 1];
        PrefixMember(ChunkRows(chunks[..k]), ChunkRows(chunks));
      }
    }
  }

  lemma {:induction false} ThreadPrefix(threads: seq<Thread>, k: nat)
    requires k <= |threads|
    ensures ThreadRows(threads[..k]) <= ThreadRows(threads)
    ensures ThreadMessages(threads[..k]) <= ThreadMessages(threads)
    ensures k > 0 ==> forall r :: r in ChunkRows(threads[k - 1].chunks) ==> r in ThreadRows(threads)
    decreases |threads| - k
  {
    hide ChunkRows;
    if k == |threads| {
      assert threads[..k] == threads;
    } else {
      ThreadPrefix(threads, k + 1);
      assert threads[..k + 1][..k] == threads[..k];
      if k > 0 {
        assert threads[..k][k - 1] == threads[k - 1];
        PrefixMember(ThreadRows(threads[..k]), ThreadRows(threads));
      }
    }
  }

  // ---- honest results are accepted ---------------------------------------------------

  /** The envelope a worker builds decodes to itself and matches its result. */
  lemma HonestEnvelope(c: Coordinator, queryId: string, task: Task, bytes: string, target: string)
    requires Honest(c, queryId, task) && ThreadMessages(task.threads) != []
    requires c.paimon.serializeList(ThreadMessages(task.threads)) == Some(bytes)
    requires EncodeTransport(c.transport) == Ok(target)
    ensures var e := EnvelopeFor(c.paimon, c.transport, queryId, AttemptOf(queryId, task),
                                 |ThreadMessages(task.threads)|, |ThreadRows(task.threads)|, target, bytes);
            DecodeEnvelope(EncodeEnvelope(e)) == Ok(e)
  {
    hide DecodeEnvelope, EncodeEnvelope, DecodeTransport;
    var e := EnvelopeFor(c.paimon, c.transport, queryId, AttemptOf(queryId, task),
                         |ThreadMessages(task.threads)|, |ThreadRows(task.threads)|, target, bytes);
    TransportRoundTrip(c.transport);
    RowsIffMessages(task.threads);
    EnvelopeRoundTrip(e);
    assert CanonicalEnvelope(e) == e;
  }

  lemma HonestCarried(c: Coordinator, queryId: string, task: Task)
    requires Honest(c, queryId, task)
    ensures c.Carried(HonestResult(c, queryId, task)) == Ok(Present(ThreadMessages(task.threads)))
    ensures HonestResult(c, queryId, task).wellFormed
    ensures HonestResult(c, queryId, task).rowCount == |ThreadRows(task.threads)|
  {
    hide DecodeEnvelope, EncodeEnvelope, EncodeTransport, DecodeTransport, AttemptOf;
    var messages := ThreadMessages(task.threads);
    RowsIffMessages(task.threads);
    if messages != [] {
      TransportRoundTrip(c.transport);
      HonestEnvelope(c, queryId, task, c.paimon.serializeList(messages).value, EncodeTransport(c.transport).value);
    } else {
      assert Present(messages) == [];
    }
  }

  lemma HonestLocal(c: Coordinator, queryId: string, task: Task)
    requires Honest(c, queryId, task)
    ensures c.LocallyValid(HonestResult(c, queryId, task))
    ensures c.MessagesOf(HonestResult(c, queryId, task)) == ThreadMessages(task.threads)
    ensures LogicalTask(HonestResult(c, queryId, task)) == Identity.LogicalName(queryId, task.fragment, task.partition)
  {
    hide c.Carried, FragmentsFor;
    HonestCarried(c, queryId, task);
    SomesPresent(ThreadMessages(task.threads));
    Identity.AttemptAccepted(AttemptOf(queryId, task), queryId, task.fragment, task.partition, task.attempt);
  }

  predicate DistinctTasks(tasks: seq<Task>) {
    forall i, j :: 0 <= i < j < |tasks| ==>
      tasks[i].fragment != tasks[j].fragment || tasks[i].partition != tasks[j].partition
  }

  ghost predicate AllHonest(c: Coordinator, queryId: string, tasks: seq<Task>) {
    forall i :: 0 <= i < |tasks| ==> Honest(c, queryId, tasks[i])
  }

  /** Messages and rows of honest results, task by task. */
  lemma {:induction false} HonestTotals(c: Coordinator, queryId: string, tasks: seq<Task>)
    requires AllHonest(c, queryId, tasks)
    ensures c.AllMessages(HonestResults(c, queryId, tasks)) == PreparedMessages(tasks)
    ensures Sum(Rows(HonestResults(c, queryId, tasks))) == |InputRows(tasks)|
  {
    hide Honest, HonestResult, c.MessagesOf, ThreadMessages, ThreadRows;
    var results := HonestResults(c, queryId, tasks);
    if tasks != [] {
      var init, last := tasks[..|tasks| - 1], tasks[|tasks| - 1];
      HonestTotals(c, queryId, init);
      assert results == HonestResults(c, queryId, init) + [HonestResult(c, queryId, last)];
      c.AllMessagesSnoc(HonestResults(c, queryId, init), HonestResult(c, queryId, last));
      c.RowsSnoc(HonestResults(c, queryId, init), HonestResult(c, queryId, last));
      HonestLocal(c, queryId, last);
      HonestCarried(c, queryId, last);
    }
  }

  lemma HonestIdentities(c: Coordinator, queryId: string, tasks: seq<Task>)
    requires AllHonest(c, queryId, tasks) && DistinctTasks(tasks)
    ensures Distinct(LogicalTasks(HonestResults(c, queryId, tasks)))
    ensures Distinct(Attempts(HonestResults(c, queryId, tasks)))
  {
    var results := HonestResults(c, queryId, tasks);
    forall i, j | 0 <= i < j < |tasks|
      ensures LogicalTask(results[i]) != LogicalTask(results[j])
      ensures results[i].taskAttemptId != results[j].taskAttemptId
    {
      hide FragmentsFor, Identity.LogicalTaskIdentity, Honest;
      HonestLocal(c, queryId, tasks[i]);
      HonestLocal(c, queryId, tasks[j]);
      Identity.LogicalNameInjective(queryId, tasks[i].fragment, tasks[i].partition,
                                    tasks[j].fragment, tasks[j].partition);
    }
  }

  lemma CanonicalsDistinct(c: Coordinator, messages: seq<CommitMessage>)
    requires CodecLaws(c.paimon) && Distinct(messages)
    ensures Distinct(c.Canonicals(messages))
  {
    forall i, j | 0 <= i < j < |messages| ensures c.Canonical(messages[i]) != c.Canonical(messages[j]) {
      assert c.paimon.serialize(messages[i]).Some? && c.paimon.serialize(messages[j]).Some?;
      assert c.paimon.serialize(messages[i]) != c.paimon.serialize(messages[j]);
    }
  }

  /** For any split of the input into chunks, threads and tasks: the results of
      honest workers are accepted, the messages to commit are exactly those the
      writers prepared, and the row count is the number of input rows. */
  lemma HonestResultsAccepted(c: Coordinator, queryId: string, tasks: seq<Task>)
    requires c.Ready() && CodecLaws(c.paimon) && AllHonest(c, queryId, tasks) && DistinctTasks(tasks)
    requires Distinct(PreparedMessages(tasks)) && |InputRows(tasks)| <= IDX_MAX
    ensures c.Accepts(HonestResults(c, queryId, tasks))
    ensures c.AllMessages(HonestResults(c, queryId, tasks)) == PreparedMessages(tasks)
    ensures Sum(Rows(HonestResults(c, queryId, tasks))) == |InputRows(tasks)|
  {
    hide Honest, c.LocallyValid, c.Ready, c.AllMessages, CodecLaws, FragmentsFor, LogicalTasks, Attempts;
    HonestTotals(c, queryId, tasks);
    HonestIdentities(c, queryId, tasks);
    CanonicalsDistinct(c, PreparedMessages(tasks));
    forall i | 0 <= i < |tasks| ensures c.LocallyValid(HonestResult(c, queryId, tasks[i])) {
      HonestLocal(c, queryId, tasks[i]);
    }
  }

  lemma {:induction false} InputIffMessages(tasks: seq<Task>)
    requires forall i :: 0 <= i < |tasks| ==> Productive(tasks[i].threads)
    ensures PreparedMessages(tasks) == [] <==> InputRows(tasks) == []
  {
    if tasks != [] {
      InputIffMessages(tasks[..|tasks| - 1]);
      RowsIffMessages(tasks[|tasks| - 1].threads);
    }
  }

  lemma DecodedHonestly(c: Coordinator, results: seq<TaskResult>, ok: bool, messages: seq<CommitMessage>, count: nat)
    requires c.DecodesTo(results, ok, messages, count) && c.Accepts(results)
    ensures ok && messages == c.AllMessages(results) && count == Sum(Rows(results))
  {
    hide c.Ready, c.Consistent, c.AllMessages;
  }

  /** Workers and decoding together: every task is run and its result decoded. What
      the coordinator then does with messages and count is `WriteOutcome`. */
  method RunDistributedInsert(c: Coordinator, queryId: string, tasks: seq<Task>, t: Target)
    returns (ok: bool, messages: seq<CommitMessage>, count: nat)
    requires c.Ready() && CodecLaws(c.paimon) && AllHonest(c, queryId, tasks) && DistinctTasks(tasks)
    requires Distinct(PreparedMessages(tasks)) && |InputRows(tasks)| <= IDX_MAX && |PreparedMessages(tasks)| <= IDX_MAX
    requires |t.partCols| == |t.partKeys| && ChunkFits(t, InputRows(tasks))
    ensures ok && messages == PreparedMessages(tasks) && count == |InputRows(tasks)|
  {
    hide Honest, c.Accepts, c.Ready, c.AllMessages, c.Consistent, c.DecodesTo, CodecLaws, ChunkFits, HonestResult;
    var results: seq<TaskResult> := [];
    for i := 0 to |tasks|
      invariant results == HonestResults(c, queryId, tasks)[..i]
    {
      TaskBounds(tasks, i + 1);
      FitsPart(t, InputRows(tasks), ThreadRows(tasks[i].threads));
      var result := RunTask(c, queryId, tasks[i], t);
      results := results + [result];
    }
    assert results == HonestResults(c, queryId, tasks);
    HonestResultsAccepted(c, queryId, tasks);
    ok, messages, count := c.DecodeCommitResults(results);
    DecodedHonestly(c, results, ok, messages, count);
  }

  lemma {:induction false} TaskBounds(tasks: seq<Task>, k: nat)
    requires k <= |tasks|
    ensures InputRows(tasks[..k]) <= InputRows(tasks) && PreparedMessages(tasks[..k]) <= PreparedMessages(tasks)
    ensures k > 0 ==>
              && (forall r :: r in ThreadRows(tasks[k - 1].threads) ==> r in InputRows(tasks))
              && |ThreadRows(tasks[k - 1].threads)| <= |InputRows(tasks)|
              && |ThreadMessages(tasks[k - 1].threads)| <= |PreparedMessages(tasks)|
    decreases |tasks| - k
  {
    hide ThreadRows, ThreadMessages;
    if k == |tasks| {
      assert tasks[..k] == tasks;
    } else {
      TaskBounds(tasks, k + 1);
      assert tasks[..k + 1][..k] == tasks[..k];
      if k > 0 {
        assert tasks[..k][k - 1] == tasks[k - 1];
        PrefixMember(InputRows(tasks[..k]), InputRows(tasks));
      }
    }
  }

  // ---- the native insert -----------------------------------------------------------------

  /** The native operator: every thread sinks, Combine adds its count and messages
      under the lock, and the source emits the count. */
  method NativeInsert(threads: seq<Thread>, t: Target) returns (count: nat, messages: seq<CommitMessage>)
    requires |t.partCols| == |t.partKeys| && ChunkFits(t, ThreadRows(threads))
    requires |ThreadRows(threads)| <= IDX_MAX
    ensures count == |ThreadRows(threads)| && messages == ThreadMessages(threads)
  {
    hide ChunkRows, ChunkFits, Wrapped;
    count, messages := 0, [];
    for i := 0 to |threads|
      invariant count == |ThreadRows(threads[..i])| && messages == ThreadMessages(threads[..i])
    {
      assert threads[..i + 1][..i] == threads[..i];
      ThreadPrefix(threads, i + 1);
      FitsPart(t, ThreadRows(threads), ChunkRows(threads[i].chunks));
      var rows := RunNativeThread(threads[i].chunks, t);
      if rows != 0 {
        WrappedSmall(count + rows);
        count := Wrapped(count + rows);
        messages := messages + threads[i].prepared;
      }
    }
    assert threads[..|threads|] == threads;
  }

  /** The same Sink calls natively. */
  method RunNativeThread(chunks: seq<seq<Row>>, t: Target) returns (rows: nat)
    requires |ChunkRows(chunks)| <= IDX_MAX
    requires |t.partCols| == |t.partKeys| && ChunkFits(t, ChunkRows(chunks))
    ensures rows == |ChunkRows(chunks)|
  {
    hide Outcome, BatchCount, ChunkFits, Wrapped;
    var writer := new LocalWriter();
    for j := 0 to |chunks|
      invariant fresh(writer) && writer.rowCount == |ChunkRows(chunks[..j])|
    {
      assert chunks[..j + 1][..j] == chunks[..j];
      ChunkPrefix(chunks, j + 1);
      FitsPart(t, ChunkRows(chunks), chunks[j]);
      assert |ChunkRows(chunks[..j + 1])| == writer.rowCount + |chunks[j]| <= IDX_MAX;
      WrappedSmall(writer.rowCount + |chunks[j]|);
      var ok := writer.SinkNative(t, chunks[j], BatchCount(t, chunks[j]));
    }
    assert chunks[..|chunks|] == chunks;
    return writer.rowCount;
  }

  /** However the same rows are split, the distributed write reports the count the
      native insert reports. */
  method CountsAgree(c: Coordinator, queryId: string, tasks: seq<Task>, native: seq<Thread>, t: Target)
    returns (distributed: nat, local: nat)
    requires c.Ready() && CodecLaws(c.paimon) && AllHonest(c, queryId, tasks) && DistinctTasks(tasks)
    requires Distinct(PreparedMessages(tasks)) && |InputRows(tasks)| <= IDX_MAX && |PreparedMessages(tasks)| <= IDX_MAX
    requires |t.partCols| == |t.partKeys| && ChunkFits(t, InputRows(tasks))
    requires multiset(InputRows(tasks)) == multiset(ThreadRows(native))
    ensures distributed == local == |InputRows(tasks)|
  {
    hide Honest, c.Ready, CodecLaws, ChunkFits;
    assert |multiset(InputRows(tasks))| == |multiset(ThreadRows(native))|;
    forall r | r in ThreadRows(native) ensures r in InputRows(tasks) {
      assert r in multiset(ThreadRows(native));
    }
    FitsPart(t, InputRows(tasks), ThreadRows(native));
    var ok, messages;
    ok, messages, distributed := RunDistributedInsert(c, queryId, tasks, t);
    local, messages := NativeInsert(native, t);
  }
}
