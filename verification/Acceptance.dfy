/** What the coordinator's checks of a task result come to, written out over the
    fields of the result and of the envelope it carries. */
module Acceptance {
  import opened Prelude
  import opened WriteCodec
  import opened CommitDecoding
  import Identity

  /** An attempt of this very write: no fragment and no counts, or one fragment with
      the attempt's id and an envelope that is about this target, this attempt, and
      the messages that come with it. */
  ghost predicate Genuine(c: Coordinator, r: TaskResult) {
    && r.wellFormed
    && r.capability == Capability("paimon", if c.transport.writeKind.Insert? then "insert" else "ctas", 3)
    && r.codec == FragmentCodec("paimon.append-commit-fragment", 3)
    && r.queryId != "" && (exists f: nat, p: nat, a: nat :: Identity.Names(r.taskAttemptId, r.queryId, f, p, a))
    && if r.fragments == [] then r.rowCount == 0 && r.byteCount == 0
       else |r.fragments| == 1 && GenuineFragment(c, r, r.fragments[0])
  }

  ghost predicate GenuineFragment(c: Coordinator, r: TaskResult, f: Fragment) {
    && f.fragmentId == c.transport.operationId + ":" + r.taskAttemptId
    && f.artifacts == [] && f.byteCount == 0 && f.rowCount == r.rowCount
    && DecodeEnvelope(f.payload).Ok?
    && var e := DecodeEnvelope(f.payload).value;
       AboutTarget(c, e) && AboutAttempt(c, e, r) && CarriesMessages(c, e, c.MessagesOf(r))
  }

  /** The target in the envelope is the coordinator's, field by field and as a whole. */
  ghost predicate AboutTarget(c: Coordinator, e: Envelope) {
    && e.operationId == c.transport.operationId
    && e.tableUuid == c.transport.tableUuid
    && e.tablePath == c.transport.tablePath
    && e.schemaFingerprint == c.transport.schemaFingerprint
    && e.schemaId == c.transport.schemaId
    && e.hasSnapshot == c.transport.hasSnapshot
    && e.snapshotId == c.transport.snapshotId
    && e.commitIdentifier == c.transport.commitIdentifier
    && EncodeTransport(c.transport) == Ok(e.serializedTransport)
  }

  /** The attempt, the user it writes as, its codec version and its rows. */
  ghost predicate AboutAttempt(c: Coordinator, e: Envelope, r: TaskResult) {
    && e.queryId == r.queryId
    && e.taskAttemptId == r.taskAttemptId
    && e.writerCommitUser
       == "vane-" + CompactUuid(c.transport.operationId) + "-" + c.paimon.md5(r.queryId + [0 as char] + r.taskAttemptId)
    && e.commitMessageVersion == c.paimon.version
    && e.rowCount == r.rowCount
  }

  /** The bytes are within the codec's limit and deserialise to `ms`, as many as the
      envelope says, all present and serialisable. */
  ghost predicate CarriesMessages(c: Coordinator, e: Envelope, ms: seq<CommitMessage>) {
    && |e.serializedMessages| <= 0x7FFF_FFFF && |ms| == e.messageCount && ms != []
    && Deserialized(c, e).Some? && |Deserialized(c, e).value| == |ms|
    && forall j :: 0 <= j < |ms| ==> Deserialized(c, e).value[j] == Some(ms[j]) && Serializable(c, ms[j])
  }

  function Deserialized(c: Coordinator, e: Envelope): Option<seq<Option<CommitMessage>>> {
    c.paimon.deserializeList(c.paimon.version, e.serializedMessages)
  }

  predicate Serializable(c: Coordinator, m: CommitMessage) {
    c.paimon.serialize(m).Some?
  }

  /** The text without its dashes: none is left, and what stands between them stays. */
  lemma {:induction false} CompactUuidExact(a: string)
    ensures '-' !in CompactUuid(a)
    ensures '-' !in a ==> CompactUuid(a) == a
  {
    if a != "" {
      CompactUuidExact(a[1..]);
      assert a == [a[0]] + a[1..];
    }
  }

  lemma {:induction false} CompactUuidPieces(a: string, b: string)
    ensures CompactUuid(a + "-" + b) == CompactUuid(a) + CompactUuid(b)
  {
    if a == "" {
      assert (a + "-" + b)[1..] == b;
    } else {
      assert (a + "-" + b)[1..] == a[1..] + "-" + b;
      CompactUuidPieces(a[1..], b);
    }
  }

  lemma {:induction false} AllPresent(raw: seq<Option<CommitMessage>>)
    requires forall j :: 0 <= j < |raw| ==> raw[j].Some?
    ensures |Somes(raw)| == |raw| && forall j :: 0 <= j < |raw| ==> raw[j] == Some(Somes(raw)[j])
  {
    if raw != [] {
      AllPresent(raw[..|raw| - 1]);
    }
  }

  /** A fragment passes the checks on a single result exactly when it is genuine. */
  lemma FragmentExactly(c: Coordinator, r: TaskResult)
    requires |r.fragments| == 1
    ensures (c.Carried(r).Ok? && forall j :: 0 <= j < |c.Carried(r).value| ==>
               c.Carried(r).value[j].Some? && Serializable(c, c.Carried(r).value[j].value))
       <==> GenuineFragment(c, r, r.fragments[0])
  {
    hide EncodeTransport, DecodeEnvelope, CompactUuid;
    if c.Carried(r).Ok? && forall j :: 0 <= j < |c.Carried(r).value| ==> c.Carried(r).value[j].Some? {
      AllPresent(c.Carried(r).value);
    }
    if GenuineFragment(c, r, r.fragments[0]) {
      var e := DecodeEnvelope(r.fragments[0].payload).value;
      assert c.EnvelopeMatches(r, e);
      assert c.Carried(r) == Ok(Deserialized(c, e).value);
    }
  }

  /** A result is acceptable on its own exactly when it is genuine. */
  lemma ValidExactly(c: Coordinator, r: TaskResult)
    requires c.Ready()
    ensures c.LocallyValid(r) <==> Genuine(c, r)
  {
    hide c.EnvelopeMatches, GenuineFragment, Identity.Names, Identity.LogicalTaskIdentity, DecodeEnvelope, ValidTransport,
      Somes;
    Identity.AcceptedIffNamed(r.queryId, r.taskAttemptId);
    if |r.fragments| == 1 {
      FragmentExactly(c, r);
    }
  }

  /** What the coordinator asks of its own registration and frozen target. */
  predicate ReadyToDecode(c: Coordinator) {
    && c.info == WriteInfo(true, Capability("paimon", if c.transport.writeKind.Insert? then "insert" else "ctas", 3),
                           FragmentCodec("paimon.append-commit-fragment", 3))
    && ValidTransport(c.transport)
  }

  /** The results that may be committed, over their fields: genuine ones, of one query,
      with distinct attempts, distinct logical tasks and distinct messages, whose row
      counts add up within 64 bits. */
  lemma AcceptsExactly(c: Coordinator, results: seq<TaskResult>)
    ensures c.Accepts(results)
       <==> && ReadyToDecode(c)
            && (forall i :: 0 <= i < |results| ==> Genuine(c, results[i]) && results[i].queryId == results[0].queryId)
            && (forall i, j :: 0 <= i < j < |results| ==>
                  && results[i].taskAttemptId != results[j].taskAttemptId
                  && LogicalTask(results[i]) != LogicalTask(results[j]))
            && Distinct(c.Canonicals(Flatten(MessageLists(c, results))))
            && Sum(Rows(results)) <= 0xFFFF_FFFF_FFFF_FFFF
  {
    hide c.LocallyValid, Genuine, LogicalTask, ValidTransport, c.MessagesOf, c.AllMessages, c.Canonicals;
    if c.Ready() {
      forall i | 0 <= i < |results| ensures c.LocallyValid(results[i]) <==> Genuine(c, results[i]) {
        ValidExactly(c, results[i]);
      }
    }
    AllMessagesAre(c, results);
    if c.Consistent(results) && Distinct(LogicalTasks(results)) {
      forall i, j | 0 <= i < j < |results|
        ensures results[i].taskAttemptId != results[j].taskAttemptId && LogicalTask(results[i]) != LogicalTask(results[j])
      {
        assert Attempts(results)[i] != Attempts(results)[j] && LogicalTasks(results)[i] != LogicalTasks(results)[j];
      }
    }
  }

  /** The messages of each result. */
  function MessageLists(c: Coordinator, results: seq<TaskResult>): seq<seq<CommitMessage>> {
    seq(|results|, i requires 0 <= i < |results| => c.MessagesOf(results[i]))
  }

  lemma {:induction false} AllMessagesAre(c: Coordinator, results: seq<TaskResult>)
    ensures c.AllMessages(results) == Flatten(MessageLists(c, results))
  {
    hide c.MessagesOf;
    if results != [] {
      var init, last := results[..|results| - 1], results[|results| - 1];
      AllMessagesAre(c, init);
      assert MessageLists(c, results) == MessageLists(c, init) + [c.MessagesOf(last)];
      FlattenSnoc(MessageLists(c, init), c.MessagesOf(last));
    }
  }

  /** A fragment about anything else than this target and this attempt makes decoding
      fail, whatever the other results are: one differing field is enough. */
  lemma ForeignFragmentRefused(c: Coordinator, results: seq<TaskResult>, i: nat, e: Envelope, ok: bool,
                               messages: seq<CommitMessage>, rowCount: nat)
    requires i < |results| && results[i].fragments != [] && DecodeEnvelope(results[i].fragments[0].payload) == Ok(e)
    requires var t, r := c.transport, results[i];
             || e.operationId != t.operationId || e.tableUuid != t.tableUuid || e.tablePath != t.tablePath
             || e.schemaFingerprint != t.schemaFingerprint || e.schemaId != t.schemaId
             || e.hasSnapshot != t.hasSnapshot || e.snapshotId != t.snapshotId
             || e.commitIdentifier != t.commitIdentifier || DecodeTransport(e.serializedTransport) != Ok(t)
             || e.queryId != r.queryId || e.taskAttemptId != r.taskAttemptId
             || e.commitMessageVersion != c.paimon.version || e.rowCount != r.rowCount
             || r.fragments[0].rowCount != r.rowCount
    requires c.DecodesTo(results, ok, messages, rowCount)
    ensures !ok
  {
    hide ValidTransport, EncodeTransport, DecodeTransport, DecodeEnvelope, c.Accepts;
    AcceptsExactly(c, results);
    if ReadyToDecode(c) {
      TransportRoundTrip(c.transport);
    }
  }
}
