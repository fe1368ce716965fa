/** `DecodeCommitResults`: the coordinator decodes untrusted task results into
    the messages and the row count of one commit. */
module CommitDecoding {
  import opened Prelude
  import opened WriteCodec
  import Identity

  /** A Paimon commit message, identified by its content. */
  datatype CommitMessage = CommitMessage(content: string)

  /** What paimon-cpp and MD5 contribute; nothing is assumed of them here. */
  datatype Paimon = Paimon(
    version: int,
    md5: string -> string,
    serialize: CommitMessage -> Option<string>,
    serializeList: seq<CommitMessage> -> Option<string>,
    deserializeList: (int, string) -> Option<seq<Option<CommitMessage>>>)

  datatype Capability = Capability(extensionName: string, operatorName: string, protocolVersion: nat)
  datatype FragmentCodec = FragmentCodec(name: string, version: nat)
  datatype WriteInfo = WriteInfo(callbackSink: bool, capability: Capability, codec: FragmentCodec)

  datatype Fragment = Fragment(
    fragmentId: string, payload: string, artifacts: seq<string>, rowCount: nat, byteCount: nat)

  /** A selected task result. `wellFormed` is the outcome of Vane's own
      `Validate()`; `rowCount` and `byteCount` are its reported totals. */
  datatype TaskResult = TaskResult(
    wellFormed: bool, capability: Capability, codec: FragmentCodec,
    queryId: string, taskAttemptId: string, fragments: seq<Fragment>, rowCount: nat, byteCount: nat)

  function OperatorName(kind: WriteKind): string {
    if kind.Insert? then "insert" else "ctas"
  }

  function CompactUuid(uuid: string): string {
    if uuid == "" then ""
    else (if uuid[0] == '-' then "" else [uuid[0]]) + CompactUuid(uuid[1..])
  }

  /** The identity under which one attempt writes. */
  function WorkerCommitUser(paimon: Paimon, t: Transport, queryId: string, attemptId: string): string {
    "vane-" + CompactUuid(t.operationId) + "-" + paimon.md5(queryId + [0 as char] + attemptId)
  }

  function ExpectedFragmentId(t: Transport, attemptId: string): string {
    t.operationId + ":" + attemptId
  }

  /** The non-null messages of a decoded list, in order. */
  function Somes(raw: seq<Option<CommitMessage>>): seq<CommitMessage> {
    if raw == [] then []
    else Somes(raw[..|raw| - 1]) + (if raw[|raw| - 1].Some? then [raw[|raw| - 1].value] else [])
  }

  function Attempts(results: seq<TaskResult>): seq<string> {
    seq(|results|, i requires 0 <= i < |results| => results[i].taskAttemptId)
  }

  function Rows(results: seq<TaskResult>): seq<nat> {
    seq(|results|, i requires 0 <= i < |results| => results[i].rowCount)
  }

  function LogicalTask(r: TaskResult): string {
    match Identity.LogicalTaskIdentity(r.queryId, r.taskAttemptId)
    case Ok(id) => id
    case Err => ""
  }

  function LogicalTasks(results: seq<TaskResult>): seq<string> {
    seq(|results|, i requires 0 <= i < |results| => LogicalTask(results[i]))
  }

  /** One coordinator: its registration, its frozen target, and its codecs. */
  datatype Coordinator = Coordinator(paimon: Paimon, info: WriteInfo, transport: Transport) {

    /** `ValidateResolvedInfo` and the validity of the coordinator's own target. */
    predicate Ready() {
      && info.callbackSink
      && info.capability == Capability("paimon", OperatorName(transport.writeKind), PROTOCOL_VERSION)
      && info.codec == FragmentCodec("paimon.append-commit-fragment", PROTOCOL_VERSION)
      && ValidTransport(transport)
    }

    function Canonical(m: CommitMessage): string {
      match paimon.serialize(m)
      case Some(bytes) => bytes
      case None => ""
    }

    function Canonicals(ms: seq<CommitMessage>): seq<string> {
      seq(|ms|, i requires 0 <= i < |ms| => Canonical(ms[i]))
    }

    predicate EnvelopeMatches(r: TaskResult, e: Envelope) {
      && e.operationId == transport.operationId && e.tableUuid == transport.tableUuid
      && e.tablePath == transport.tablePath && e.schemaFingerprint == transport.schemaFingerprint
      && e.schemaId == transport.schemaId && e.hasSnapshot == transport.hasSnapshot
      && e.snapshotId == transport.snapshotId && e.commitIdentifier == transport.commitIdentifier
      && e.queryId == r.queryId && e.taskAttemptId == r.taskAttemptId
      && e.writerCommitUser == WorkerCommitUser(paimon, transport, r.queryId, r.taskAttemptId)
      && e.commitMessageVersion == paimon.version
      && EncodeTransport(transport) == Ok(e.serializedTransport)
      && |r.fragments| == 1 && e.rowCount == r.fragments[0].rowCount && e.rowCount == r.rowCount
    }

    /** The message list carried by a result, null entries included, when its
        fragment metadata and envelope are acceptable. */
    function Carried(r: TaskResult): Result<seq<Option<CommitMessage>>> {
      if r.fragments == [] then (if r.rowCount == 0 && r.byteCount == 0 then Ok([]) else Err)
      else if |r.fragments| != 1 then Err
      else
        var f := r.fragments[0];
        if f.fragmentId != ExpectedFragmentId(transport, r.taskAttemptId) || f.artifacts != [] || f.byteCount != 0
        then Err
        else
          match DecodeEnvelope(f.payload)
          case Err => Err
          case Ok(e) =>
            if !EnvelopeMatches(r, e) || |e.serializedMessages| > INT32_MAX then Err
            else
              match paimon.deserializeList(e.commitMessageVersion, e.serializedMessages)
              case None => Err
              case Some(raw) => if |raw| == e.messageCount && raw != [] then Ok(raw) else Err
    }

    /** A result that is acceptable on its own, whatever the others are. */
    predicate LocallyValid(r: TaskResult) {
      && r.wellFormed && r.capability == info.capability && r.codec == info.codec
      && Identity.LogicalTaskIdentity(r.queryId, r.taskAttemptId).Ok?
      && Carried(r).Ok?
      && var raw := Carried(r).value;
         forall i :: 0 <= i < |raw| ==> raw[i].Some? && paimon.serialize(raw[i].value).Some?
    }

    function MessagesOf(r: TaskResult): seq<CommitMessage> {
      match Carried(r)
      case Ok(raw) => Somes(raw)
      case Err => []
    }

    function AllMessages(results: seq<TaskResult>): seq<CommitMessage> {
      if results == [] then []
      else AllMessages(results[..|results| - 1]) + MessagesOf(results[|results| - 1])
    }

    /** Everything asked of the selected results except one attempt per task. */
    predicate Consistent(results: seq<TaskResult>) {
      && (forall i :: 0 <= i < |results| ==> LocallyValid(results[i]))
      && (forall i :: 0 <= i < |results| ==> results[i].queryId == results[0].queryId)
      && Distinct(Attempts(results))
      && Distinct(Canonicals(AllMessages(results)))
      && Sum(Rows(results)) <= IDX_MAX
    }

    /** The results the coordinator may commit. */
    predicate Accepts(results: seq<TaskResult>) {
      Ready() && Consistent(results) && Distinct(LogicalTasks(results))
    }

    // ---- one more result --------------------------------------------------

    /** What a result must satisfy given those before it. */
    predicate Extends(before: seq<TaskResult>, r: TaskResult) {
      && LocallyValid(r)
      && (before == [] || r.queryId == before[0].queryId)
      && r.taskAttemptId !in Attempts(before)
      && Distinct(Canonicals(AllMessages(before)) + Canonicals(MessagesOf(r)))
      && Sum(Rows(before)) + r.rowCount <= IDX_MAX
    }

    lemma AllMessagesSnoc(before: seq<TaskResult>, r: TaskResult)
      ensures AllMessages(before + [r]) == AllMessages(before) + MessagesOf(r)
      ensures Canonicals(AllMessages(before + [r])) == Canonicals(AllMessages(before)) + Canonicals(MessagesOf(r))
    {
      hide MessagesOf;
      assert (before + [r])[..|before|] == before;
    }

    lemma RowsSnoc(before: seq<TaskResult>, r: TaskResult)
      ensures Rows(before + [r]) == Rows(before) + [r.rowCount]
      ensures Sum(Rows(before + [r])) == Sum(Rows(before)) + r.rowCount
    {
      assert Rows(before + [r]) == Rows(before) + [r.rowCount];
      SumAppend(Rows(before), [r.rowCount]);
    }

    /** Consistency grows one result at a time. */
    lemma ConsistentSnoc(before: seq<TaskResult>, r: TaskResult)
      ensures Consistent(before + [r]) <==> Consistent(before) && Extends(before, r)
    {
      hide MessagesOf, LocallyValid;
      var all := before + [r];
      AllMessagesSnoc(before, r);
      RowsSnoc(before, r);
      assert Attempts(all) == Attempts(before) + [r.taskAttemptId];
      DistinctSnoc(Attempts(before), r.taskAttemptId);
      DistinctAppend(Canonicals(AllMessages(before)), Canonicals(MessagesOf(r)));
      assert all[|before|] == r;
      assert forall i :: 0 <= i < |before| ==> all[i] == before[i];
    }

    lemma {:induction false} ConsistentPrefix(results: seq<TaskResult>, k: nat)
      requires k <= |results|
      ensures Consistent(results) ==> Consistent(results[..k])
      decreases |results| - k
    {
      hide Consistent, Extends;
      if k == |results| {
        assert results[..k] == results;
      } else {
        ConsistentPrefix(results, k + 1);
        assert results[..k + 1] == results[..k] + [results[k]];
        ConsistentSnoc(results[..k], results[k]);
      }
    }

    lemma SomesEmpty()
      ensures Somes([]) == []
    {
    }

    lemma CanonicalsSnoc(ms: seq<CommitMessage>, m: CommitMessage)
      ensures Canonicals(ms + [m]) == Canonicals(ms) + [Canonical(m)]
    {
    }

    lemma SomesSnoc(raw: seq<Option<CommitMessage>>, j: nat)
      requires j < |raw| && raw[j].Some?
      ensures Somes(raw[..j + 1]) == Somes(raw[..j]) + [raw[j].value]
    {
      assert raw[..j + 1][..j] == raw[..j];
    }

    lemma {:induction false} SomesPrefix(raw: seq<Option<CommitMessage>>, j: nat)
      requires j <= |raw|
      ensures Somes(raw[..j]) <= Somes(raw)
      decreases |raw| - j
    {
      if j == |raw| {
        assert raw[..j] == raw;
      } else {
        SomesPrefix(raw, j + 1);
        assert raw[..j + 1][..j] == raw[..j];
      }
    }

    /** The message loop over one decoded list: it appends each message whose
        canonical form is new, and stops at the first that is null, cannot be
        canonicalised or repeats. */
    method CollectMessages(raw: seq<Option<CommitMessage>>, messages: seq<CommitMessage>, seen: set<string>)
      returns (ok: bool, collected: seq<CommitMessage>, seen': set<string>)
      requires Distinct(Canonicals(messages)) && seen == ToSet(Canonicals(messages))
      ensures Distinct(Canonicals(collected)) && seen' == ToSet(Canonicals(collected))
      ensures messages <= collected <= messages + Somes(raw)
      ensures ok ==> collected == messages + Somes(raw)
      ensures ok <==> && (forall i :: 0 <= i < |raw| ==> raw[i].Some? && paimon.serialize(raw[i].value).Some?)
                      && Distinct(Canonicals(messages) + Canonicals(Somes(raw)))
    {
      hide Canonical, Canonicals, Somes;
      collected, seen' := messages, seen;
      SomesEmpty();
      for j := 0 to |raw|
        invariant forall i :: 0 <= i < j ==> raw[i].Some? && paimon.serialize(raw[i].value).Some?
        invariant collected == messages + Somes(raw[..j])
        invariant Distinct(Canonicals(collected)) && seen' == ToSet(Canonicals(collected))
      {
        SomesPrefix(raw, j);
        if raw[j].None? || paimon.serialize(raw[j].value).None? {
          return false, collected, seen';
        }
        var m := raw[j].value;
        SomesSnoc(raw, j);
        CanonicalsSnoc(collected, m);
        DistinctSnoc(Canonicals(collected), Canonical(m));
        if Canonical(m) in seen' {
          SomesPrefix(raw, j + 1);
          RepeatSurvives(messages, Somes(raw), collected + [m]);
          return false, collected, seen';
        }
        collected := collected + [m];
        seen' := seen' + {Canonical(m)};
      }
      assert raw[..|raw|] == raw;
      CanonicalsAppend(messages, Somes(raw));
      return true, collected, seen';
    }

    lemma CanonicalsAppend(a: seq<CommitMessage>, b: seq<CommitMessage>)
      ensures Canonicals(a + b) == Canonicals(a) + Canonicals(b)
    {
    }

    /** A repeated message in a prefix is a repeated message in the whole. */
    lemma RepeatSurvives(a: seq<CommitMessage>, b: seq<CommitMessage>, prefix: seq<CommitMessage>)
      requires prefix <= a + b && !Distinct(Canonicals(prefix))
      ensures !Distinct(Canonicals(a) + Canonicals(b))
    {
      CanonicalsAppend(a, b);
      var c := Canonicals(prefix);
      var i, j :| 0 <= i < j < |c| && c[i] == c[j];
      assert Canonicals(a + b)[i] == c[i] && Canonicals(a + b)[j] == c[j];
    }

    lemma FragmentIdInjective(a: string, b: string)
      ensures ExpectedFragmentId(transport, a) == ExpectedFragmentId(transport, b) <==> a == b
    {
      assert ExpectedFragmentId(transport, a)[|transport.operationId| + 1..] == a;
      assert ExpectedFragmentId(transport, b)[|transport.operationId| + 1..] == b;
    }

    lemma CarriedFragment(r: TaskResult)
      ensures Carried(r).Ok? && r.fragments != [] ==>
                r.fragments[0].fragmentId == ExpectedFragmentId(transport, r.taskAttemptId)
    {
    }

    /** The body of the loop over results: one result, given what was already
        gathered. The fragment set never rejects anything the attempt set let
        through, since a fragment id is determined by its attempt. */
    method DecodeOne(r: TaskResult, ghost before: seq<TaskResult>, queryId: string, attempts: set<string>,
                     fragmentIds: set<string>, messages: seq<CommitMessage>, seen: set<string>, rowCount: nat)
      returns (ok: bool, gathered: seq<CommitMessage>, seen': set<string>)
      requires Consistent(before) && messages == AllMessages(before) && seen == ToSet(Canonicals(messages))
      requires rowCount == Sum(Rows(before)) && attempts == ToSet(Attempts(before))
      requires queryId == if before == [] then "" else before[0].queryId
      requires forall f :: f in fragmentIds ==> exists a :: a in attempts && f == ExpectedFragmentId(transport, a)
      ensures ok <==> Extends(before, r)
      ensures ok ==> && (before == [] || r.queryId == before[0].queryId)
                     && rowCount + r.rowCount <= IDX_MAX
                     && (r.fragments != [] ==>
                           r.fragments[0].fragmentId == ExpectedFragmentId(transport, r.taskAttemptId))
      ensures messages <= gathered <= messages + MessagesOf(r)
      ensures ok ==> gathered == messages + MessagesOf(r)
      ensures Distinct(Canonicals(gathered)) && seen' == ToSet(Canonicals(gathered))
    {
      hide Carried;
      gathered, seen' := messages, seen;
      if !r.wellFormed || r.capability != info.capability || r.codec != info.codec {
        return false, gathered, seen';
      }
      if queryId != "" && queryId != r.queryId {
        return false, gathered, seen';
      }
      if r.taskAttemptId in attempts || Identity.LogicalTaskIdentity(r.queryId, r.taskAttemptId).Err? {
        return false, gathered, seen';
      }
      var carried := Carried(r);
      CarriedFragment(r);
      forall a | a in attempts
        ensures ExpectedFragmentId(transport, a) != ExpectedFragmentId(transport, r.taskAttemptId)
      {
        FragmentIdInjective(r.taskAttemptId, a);
      }
      if carried.Err? || (r.fragments != [] && r.fragments[0].fragmentId in fragmentIds) {
        return false, gathered, seen';
      }
      ok, gathered, seen' := CollectMessages(carried.value, messages, seen);
      if ok && r.rowCount > IDX_MAX - rowCount {
        return false, gathered, seen';
      }
    }

    lemma EmptyConsistent()
      ensures Consistent([]) && AllMessages([]) == [] && Rows([]) == [] && Attempts([]) == LogicalTasks([]) == []
      ensures Canonicals([]) == []
    {
    }

    /** How every accumulated quantity changes with one more result. */
    lemma OneMore(before: seq<TaskResult>, r: TaskResult)
      ensures Consistent(before + [r]) <==> Consistent(before) && Extends(before, r)
      ensures AllMessages(before + [r]) == AllMessages(before) + MessagesOf(r)
      ensures Sum(Rows(before + [r])) == Sum(Rows(before)) + r.rowCount
      ensures ToSet(Attempts(before + [r])) == ToSet(Attempts(before)) + {r.taskAttemptId}
      ensures ToSet(LogicalTasks(before + [r])) == ToSet(LogicalTasks(before)) + {LogicalTask(r)}
      ensures Distinct(LogicalTasks(before + [r]))
         <==> Distinct(LogicalTasks(before)) && LogicalTask(r) !in ToSet(LogicalTasks(before))
    {
      hide MessagesOf, LocallyValid, Extends, Consistent, AllMessages, LogicalTask;
      ConsistentSnoc(before, r);
      AllMessagesSnoc(before, r);
      RowsSnoc(before, r);
      assert Attempts(before + [r]) == Attempts(before) + [r.taskAttemptId];
      assert LogicalTasks(before + [r]) == LogicalTasks(before) + [LogicalTask(r)];
      DistinctSnoc(LogicalTasks(before), LogicalTask(r));
    }

    /** Up to `k` the results are in order, and if `k` is not the end the next one
        is at fault. */
    ghost predicate GoodUpTo(results: seq<TaskResult>, k: nat) {
      && k <= |results| && Consistent(results[..k])
      && (k < |results| ==> !Consistent(results[..k + 1]))
    }

    /** What decoding makes of the results. Success means exactly that they are
        acceptable. The messages gathered are duplicate-free in every case: all
        messages of all results whenever the only fault is a repeated logical task,
        and otherwise every message before the first faulty result and perhaps some
        of its own. */
    ghost predicate DecodesTo(results: seq<TaskResult>, ok: bool, messages: seq<CommitMessage>, rowCount: nat) {
      && (ok <==> Accepts(results))
      && Distinct(Canonicals(messages))
      && (!Ready() ==> messages == [])
      && (Ready() && Consistent(results) ==>
            messages == AllMessages(results) && rowCount == Sum(Rows(results)) <= IDX_MAX)
      && (Ready() && !Consistent(results) ==>
            exists k: nat :: k < |results| && GoodUpTo(results, k)
                     && AllMessages(results[..k]) <= messages <= AllMessages(results[..k + 1]))
    }

    /** `DecodeCommitResults`. */
    method DecodeCommitResults(results: seq<TaskResult>)
      returns (ok: bool, messages: seq<CommitMessage>, rowCount: nat)
      ensures DecodesTo(results, ok, messages, rowCount)
    {
      hide LocallyValid, MessagesOf, Extends, Ready, Consistent, AllMessages, Attempts, LogicalTasks, Rows, Canonicals;
      EmptyConsistent();
      messages, rowCount := [], 0;
      if !Ready() {
        return false, messages, rowCount;
      }
      var attempts: set<string>, logicalTasks: set<string>, fragmentIds: set<string>, canonicals: set<string>
        := {}, {}, {}, {};
      var queryId, repeatedTask := "", false;
      var i := 0;
      while i < |results|
        invariant 0 <= i <= |results|
        invariant Consistent(results[..i])
        invariant attempts == ToSet(Attempts(results[..i]))
        invariant logicalTasks == ToSet(LogicalTasks(results[..i]))
        invariant repeatedTask == !Distinct(LogicalTasks(results[..i]))
        invariant forall f :: f in fragmentIds ==> exists a :: a in attempts && f == ExpectedFragmentId(transport, a)
        invariant messages == AllMessages(results[..i])
        invariant Distinct(Canonicals(messages)) && canonicals == ToSet(Canonicals(messages))
        invariant rowCount == Sum(Rows(results[..i])) <= IDX_MAX
        invariant queryId == if i == 0 then "" else results[0].queryId
      {
        var r := results[i];
        ghost var before := results[..i];
        assert results[..i + 1] == before + [r];
        OneMore(before, r);
        ConsistentPrefix(results, i + 1);
        var ok, gathered, seen := DecodeOne(r, before, queryId, attempts, fragmentIds, messages, canonicals, rowCount);
        if !ok {
          assert GoodUpTo(results, i);
          return false, gathered, rowCount;
        }
        queryId := r.queryId;
        attempts := attempts + {r.taskAttemptId};
        repeatedTask := repeatedTask || LogicalTask(r) in logicalTasks;
        logicalTasks := logicalTasks + {LogicalTask(r)};
        if r.fragments != [] {
          fragmentIds := fragmentIds + {r.fragments[0].fragmentId};
        }
        messages, canonicals, rowCount := gathered, seen, rowCount + r.rowCount;
        i := i + 1;
      }
      assert results[..i] == results;
      return !repeatedTask, messages, rowCount;
    }
  }
}
