# Verification of the Paimon extension's write, scan and catalog protocols

The DuckDB extension for Apache Paimon reads and writes Paimon tables, on one
node or with Vane distributing the work. This project models its hard parts in
Dafny and proves what they are for:

- **Distributed write.** A coordinator freezes a baseline of the target table,
  worker tasks write rows and prepare commit messages, and the coordinator decodes
  the untrusted task results and either commits once or aborts. `Identity`, `Wire`
  and `WriteCodec` hold identities and codecs, `CommitDecoding` the decoding loop,
  `Acceptance` what its checks come to over the fields,
  `WorkerOwnership` a worker task as a state machine and `WorkerRuns` the calls on
  its object as runs of it, `WriteProtocol` the coordinator with its mutex and any
  number of operators and other mutators,
  `SinkGrouping` the partition grouping of both Sinks, `DistributedInsert` the way
  from input rows to decoded results, next to the native insert, and `WriteOutcome`
  what every run of the protocol then does with those results.
- **Filter pushdown.** `Pushdown` translates DuckDB expressions partially into
  Paimon predicates under Kleene logic; `PartitionFilters` extracts partition
  equalities, expands them into an OR of ANDs and matches them against the
  partitions that the Sink writes.
- **Distributed scan.** `ScanCodec`, `Estimates`, `ScanProtocol` and `SplitClaim`
  cover envelopes, estimates, planning, all-or-nothing assignment, bind phases and
  the claiming of splits through a shared atomic counter.
- **Catalog caches.** `CatalogCache` is the table and schema cache under its lock,
  interleaved with one mutator at a time; `TableCache` is the table cache as an
  object, each call a run of those steps.
- **Arithmetic.** `Timestamps` splits instants with C's truncating division.

Protocols are state machines whose runs interleave freely. Objects that the
program updates in place are classes; loops are loops with invariants, proved
against specification functions. Calls into paimon-cpp, DuckDB and Vane are
parameters whose contracts are stated as predicates (`CodecLaws`, `Faithful`,
`CallContract`, `Printable`, `Linked`), and every such call may fail.

`dafny verify dfyconfig.toml` checks everything.

## What the proofs found

- `AbortDistributedWrite` sets no flag, so a runner that calls Finalize after Abort
  can commit messages that it aborted (`WriteProtocol.AbortThenFinalize`). A runner
  that does not is safe; in general an operator that called commit keeps committed
  and aborted messages apart if and only if the runner had aborted none of those it
  then decoded (`WriteProtocol.OnlyRunnerOverlap`).
- Finalize marks the operator before it checks that Prepare succeeded, builds options
  and resolves its registration, and each of these can raise before any message is
  decoded. Such a Finalize commits and aborts nothing, and Abort is refused from then
  on, so all prepared messages are stranded (`WriteOutcome.RaisedFinalizeStrands`). A
  Finalize that reaches the decoding never has that effect on acceptable results
  (`WriteOutcome.SettledExactlyWhenReached`).
- The UUID of a CTAS target is its full name, and a table that was dropped and
  created again identically looks the same. Two writes frozen at the same snapshot
  can then both publish (`WriteProtocol.RecreationLetsBothPublish`); within one
  incarnation of a table, or when no uuid is reused, they cannot.
- `NOT` over a conjunction that dropped a child, or over a `NOT IN` that skipped an
  element, can lose rows (`Pushdown.NotAndLosesARow`). `Pushdown.NotAndLosesExactly`
  and `Pushdown.NotNotInLosesExactly` say which rows.
- Partition pruning loses rows exactly when two values that compare equal print
  differently (`PartitionFilters.SoundExactlyWhenPrintable`).
- `DROP ... IF EXISTS` with another spelling of an existing name, and a reload that
  fails after CREATE TABLE, remove a cached entry that the catalog still has. A lost
  table comes back on its next lookup; a lost schema does not
  (`CatalogCache.OtherSpellingLosesSchema`, `CatalogCache.FailedReloadLosesTable`).
- When serialising a worker's messages fails, Finalize and then the destructor
  abort them, twice in all (`WorkerOwnership.SerializeFailureAbortsTwice`).
- An attempt identity may end in one extra dot: `StringUtil::Split` reads pieces as
  `std::getline` does and drops a trailing empty piece (`Identity.AcceptedIffNamed`).

## Model

| member | source | states |
|---|---|---|
| `Identity.IsCanonicalSplitId` | src/paimon_storage/paimon_distributed_scan.cpp:86-96 | The loop accepts a split id if and only if it is the decimal rendering of some natural number. |
| `Identity.DecimalIsCanonical` | src/paimon_storage/paimon_distributed_scan.cpp:419-419 | Every id that the planner renders is canonical and reads back as its number. |
| `Identity.CanonicalIsDecimal` | src/paimon_storage/paimon_distributed_scan.cpp:86-96 | Every canonical id is the rendering of the number it reads as, so accepted ids have one spelling. |
| `Identity.DecimalInjective` | src/paimon_storage/paimon_distributed_scan.cpp:419-419 | Different split indices get different ids. |
| `Identity.AttemptAccepted` | src/paimon_storage/paimon_distributed_insert.cpp:147-171 | An attempt id made from query, fragment, partition and attempt numbers is accepted and yields the logical name of query, fragment and partition. |
| `Identity.AcceptedIsAttempt` | src/paimon_storage/paimon_distributed_insert.cpp:147-171 | Conversely every accepted attempt id was made from such numbers. |
| `Identity.AcceptedIffNamed` | src/paimon_storage/paimon_distributed_insert.cpp:158-171 | Acceptance holds exactly for attempt ids of a non-empty query with three numeric components (one trailing dot allowed). |
| `Identity.LogicalNameInjective` | src/paimon_storage/paimon_distributed_insert.cpp:170-170 | Logical names of one query are equal exactly when fragment and partition numbers are. |
| `Identity.SameLogicalTask` | src/paimon_storage/paimon_distributed_insert.cpp:158-171 | Two accepted attempts of a query are attempts of one logical task exactly when their fragment and partition numbers agree, whatever their attempt numbers. |
| `Wire.MessageRoundTrip` | src/paimon_storage/paimon_distributed_insert.cpp:303-332 | Decoding a tagged record of any fields of the used kinds gives the fields back, and the bytes are not empty. |
| `Wire.MapRoundTrip` | src/paimon_storage/paimon_distributed_insert.cpp:319-319 | An ordered option map survives being written as entries in key order. |
| `WriteCodec.UuidExactly` | src/paimon_storage/paimon_distributed_insert.cpp:173-176 | An operation id is accepted exactly if it is five groups of 8, 4, 4, 4 and 12 hexadecimal digits with dashes between. |
| `WriteCodec.ValidateTransport` | src/paimon_storage/paimon_distributed_insert.cpp:269-301 | The validation loops accept a write transport if and only if it meets all conditions on identity, snapshot, columns, keys and options. |
| `WriteCodec.TransportRoundTrip` | src/paimon_storage/paimon_distributed_insert.cpp:303-368 | Every valid transport encodes, and decoding gives exactly it back. |
| `WriteCodec.TransportInjective` | src/paimon_storage/paimon_distributed_insert.cpp:1004-1004 | Two valid transports have the same bytes exactly when all their fields agree, so comparing bytes compares fields. |
| `WriteCodec.ReadTransport` | src/paimon_storage/paimon_distributed_insert.cpp:334-368 | Reading a transport check by check gives exactly the decoding: refusal for another version or kind or an invalid target. |
| `WriteCodec.EnvelopeRoundTrip` | src/paimon_storage/paimon_distributed_insert.cpp:370-439 | Any encoded commit envelope decodes to its canonical form (an absent snapshot reads 0) if that is valid, and to an error otherwise. |
| `WriteCodec.ReadEnvelope` | src/paimon_storage/paimon_distributed_insert.cpp:399-439 | Reading an envelope check by check gives exactly the decoding, with every condition on its fields. |
| `CommitDecoding.Coordinator.CollectMessages` | src/paimon_storage/paimon_distributed_insert.cpp:1023-1036 | Messages are gathered in order and never twice; success exactly when all are present, serialise and are new; a failure leaves a prefix. |
| `CommitDecoding.Coordinator.DecodeOne` | src/paimon_storage/paimon_distributed_insert.cpp:958-1038 | One result is taken exactly when it extends the consistent results before it; otherwise the gathered messages are theirs and a prefix of its own. |
| `CommitDecoding.Coordinator.DecodeCommitResults` | src/paimon_storage/paimon_distributed_insert.cpp:945-1043 | Success if and only if the results are acceptable; row count is the exact sum; on every failure the messages are free of duplicates and reach to the first faulty result, and are all messages of all results when only a repeated logical task is at fault. |
| `CommitDecoding.Coordinator.ConsistentSnoc` | src/paimon_storage/paimon_distributed_insert.cpp:958-1038 | Consistency of a whole result list (one query, distinct attempts, distinct canonical messages, no overflow, each locally valid) is what the incremental checks test. |
| `CommitDecoding.Coordinator.FragmentIdInjective` | src/paimon_storage/paimon_distributed_insert.cpp:241-243 | Fragment ids of one transport are equal exactly when the attempts are. |
| `Acceptance.AcceptsExactly` | src/paimon_storage/paimon_distributed_insert.cpp:945-1043 | Results are accepted if and only if the registration and target are proper, every result is genuine over its fields and those of its envelope, all are of one query with distinct attempts, logical tasks and messages, and their counts add up within 64 bits. |
| `Acceptance.ValidExactly` | src/paimon_storage/paimon_distributed_insert.cpp:959-1036 | A result passes the checks on a single result if and only if it has no fragment and no counts, or one whose envelope equals the target field by field, names the attempt, its writer, the codec version and the row count, and carries its messages. |
| `Acceptance.ForeignFragmentRefused` | src/paimon_storage/paimon_distributed_insert.cpp:996-1008 | One field that differs from the target or the attempt makes decoding fail, whatever the other results are. |
| `Acceptance.AllMessagesAre` | src/paimon_storage/paimon_distributed_insert.cpp:1023-1036 | The messages decoded are those of the results in order. |
| `Acceptance.CompactUuidExact` | src/paimon_storage/paimon_distributed_insert.cpp:211-220 | The compact form of an id has no dashes and is the id itself if that has none. |
| `Acceptance.CompactUuidPieces` | src/paimon_storage/paimon_distributed_insert.cpp:211-220 | And it is the pieces between the dashes put together. |
| `WorkerOwnership.InvNext` | src/paimon_storage/paimon_distributed_insert.cpp:804-922 | Every step of Combine, Finalize, injected failure and destruction keeps the ownership invariant. |
| `WorkerOwnership.MessageOwnership` | src/paimon_storage/paimon_distributed_insert.cpp:804-922 | At every point of every interleaving each prepared message is in flight in exactly one Combine, held, published, or passed to abort; a published one is nowhere else. |
| `WorkerOwnership.NothingLost` | src/paimon_storage/paimon_distributed_insert.cpp:645-647 | Once the state of a worker task is destroyed, every prepared message was either published or passed to abort, and not both. |
| `WorkerOwnership.AbortedOnce` | src/paimon_storage/paimon_distributed_insert.cpp:643-660 | Unless serialisation failed in Finalize, no message is passed to abort twice. |
| `WorkerOwnership.PublishedForever` | src/paimon_storage/paimon_distributed_insert.cpp:869-922 | The published fragment never changes again and none of its messages is ever aborted. |
| `WorkerOwnership.FirstFinalizeConsistent` | src/paimon_storage/paimon_distributed_insert.cpp:878-887 | Before the first Finalize a worker task holds messages exactly when it counted rows. |
| `WorkerOwnership.SerializeFailureAbortsTwice` | src/paimon_storage/paimon_distributed_insert.cpp:888-892 | From any state with messages, a failed serialisation followed by destruction aborts each held message twice and publishes none. |
| `WriteProtocol.InvNext` | src/paimon_storage/paimon_distributed_insert.cpp:1299-1405 | Every step of every operator and mutator keeps the protocol invariant (flags, mutex, validated baseline, call log, publications). |
| `WriteProtocol.SectionsExclude` | src/paimon_storage/paimon_distributed_insert.cpp:1305-1350 | Whatever an operator or another mutator does to the catalog or reads of it in a critical section, nobody else holds the mutex then. |
| `WriteProtocol.CommitSeesBaseline` | src/paimon_storage/paimon_distributed_insert.cpp:1350-1383 | In every run, whenever `FilterAndCommit` is called its operator holds the mutex, there are messages and rows, and the table's uuid, path, schema, definition and latest snapshot equal the frozen baseline; for CTAS there is no snapshot. |
| `WriteProtocol.OneCommitCall` | src/paimon_storage/paimon_distributed_insert.cpp:1330-1373 | Each operator calls `FilterAndCommit` at most once, always on its baseline. |
| `WriteProtocol.OnePublicationPerSnapshot` | src/paimon_storage/paimon_distributed_insert.cpp:1118-1146 | Of several writes frozen at one snapshot of one incarnation of a table, at most one publishes. |
| `WriteProtocol.UniqueUuidsPublishOnce` | src/paimon_storage/paimon_distributed_insert.cpp:1118-1146 | If no creation reuses the uuid of another table, present or past, no two writes with equal baselines both publish. |
| `WriteProtocol.AbortedXorCommitted` | src/paimon_storage/paimon_distributed_insert.cpp:1327-1405 | For a runner that never finalises after aborting, no message is both committed and aborted. |
| `WriteProtocol.OnlyRunnerOverlap` | src/paimon_storage/paimon_distributed_insert.cpp:1385-1405 | For any runner, what is both aborted and committed is exactly what the runner itself aborted and then had committed; an operator that called commit keeps the two apart if and only if the runner had aborted none of the messages decoded. |
| `WriteProtocol.DisciplinedFinalize` | src/paimon_storage/paimon_distributed_insert.cpp:1385-1390 | A disciplined operator that has started to finalise has aborted nothing through the runner. |
| `WriteProtocol.CommitCallIsFinal` | src/paimon_storage/paimon_distributed_insert.cpp:1369-1390 | From the commit call on, nothing is aborted and nothing more is committed for that operator. |
| `WriteProtocol.FailureAbortsDecoded` | src/paimon_storage/paimon_distributed_insert.cpp:1343-1368 | An operator that finished without a commit call has passed every decoded message to abort and committed none. |
| `WriteProtocol.FinishedForever` | src/paimon_storage/paimon_distributed_insert.cpp:1385-1390 | Once Finalize has ended, nothing changes the operator again: a later Abort is refused. |
| `WriteProtocol.ReachedDecides` | src/paimon_storage/paimon_distributed_insert.cpp:1333-1349 | In every run, an operator whose Finalize did not reach the decoding has committed nothing and its Finalize aborted nothing and returned nothing. |
| `WriteProtocol.ReturnedWasPublished` | src/paimon_storage/paimon_distributed_insert.cpp:1369-1383 | A Finalize that called commit and returned has a publication to its name and returned its row count. |
| `WriteProtocol.ReturnsExactly` | src/paimon_storage/paimon_distributed_insert.cpp:1350-1383 | Over all runs and continuations, Finalize returns if and only if its commit call reported one committed operation, or it made none, found its baseline and had nothing to commit; it returns the row count. |
| `WriteProtocol.EmptyWriteReturnsZero` | src/paimon_storage/paimon_distributed_insert.cpp:1353-1358 | An empty write that finds its baseline again returns 0, whatever follows. |
| `WriteProtocol.TargetSeenNeverCommits` | src/paimon_storage/paimon_distributed_insert.cpp:1106-1116 | In every run, a target that is there when a CTAS checks for its absence or creates it makes Prepare fail, and in no continuation does the operator commit anything. |
| `WriteProtocol.FailedPrepareNeverCommits` | src/paimon_storage/paimon_distributed_insert.cpp:1299-1335 | After a failed Prepare no later step of any run lets the operator commit. |
| `WriteProtocol.PrepareExactly` | src/paimon_storage/paimon_distributed_insert.cpp:1299-1325 | In every run each critical section of Prepare goes on exactly when it should: an INSERT finds its baseline, a CTAS finds no table, creates one, and captures it as planned. |
| `WriteProtocol.PreparedAsPlanned` | src/paimon_storage/paimon_distributed_insert.cpp:1299-1325 | In every run, whatever mutators do between the three critical sections, a CTAS is frozen at what was planned until it is prepared; once prepared, the table captured has the planned uuid, path and definition and no snapshot, and is the baseline. |
| `WriteProtocol.CtasCommitsIntoItsPlan` | src/paimon_storage/paimon_distributed_insert.cpp:1148-1162 | A CTAS commit is called only while the table is as planned, has the schema JSON seen at the capture and has no snapshot. |
| `WriteProtocol.CtasSucceeds` | src/paimon_storage/paimon_distributed_insert.cpp:1299-1383 | For every plan and every table that is as planned there is a run in which the CTAS prepares, commits and returns. |
| `WriteProtocol.AbortThenFinalize` | src/paimon_storage/paimon_distributed_insert.cpp:1385-1405 | Concrete runs: after the runner aborted a message, Finalize commits any messages, also that one. |
| `WriteProtocol.RecreationLetsBothPublish` | src/paimon_storage/paimon_distributed_insert.cpp:1118-1146 | A concrete run with a drop and an identical re-creation in which two writes with equal baselines both publish. |
| `WriteOutcome.CommittedOrAborted` | src/paimon_storage/paimon_distributed_insert.cpp:1340-1383 | In every run in which Finalize decoded some selected results, a commit call means that they are acceptable and takes exactly their messages; without one it has committed nothing and passed every message before the first faulty result to abort, all of them if only a logical task was repeated. |
| `WriteOutcome.SettledExactlyWhenReached` | src/paimon_storage/paimon_distributed_insert.cpp:1333-1349 | A finished write of acceptable results that carry messages has committed all of them or passed all of them to abort if and only if its Finalize reached the decoding; otherwise it has done neither, in every continuation. |
| `WriteOutcome.RaisedFinalizeStrands` | src/paimon_storage/paimon_distributed_insert.cpp:1336-1349 | For any such results there is a run in which Finalize raises before decoding, the abort that follows is refused, and no continuation commits or aborts a message. |
| `WriteOutcome.HonestWriteOutcome` | src/paimon_storage/paimon_distributed_insert.cpp:945-1043 | For any split of the input and any interleaving, a finished write whose Finalize reached the decoding has committed exactly the messages that its writers prepared, or aborted all of them and committed none, never both under a disciplined runner; one that did not has done neither. It returns exactly the number of input rows, an empty write if and only if it found its baseline, any other if and only if one committed operation was reported. |
| `SinkGrouping.GroupRows` | src/paimon_storage/paimon_distributed_insert.cpp:773-786 | The row loop of the distributed Sink makes one group per partition key that occurs, holding exactly the rows with that key in input order. |
| `SinkGrouping.GroupRowsNative` | src/paimon_storage/paimon_insert.cpp:193-207 | The row loop of the native Sink, with its own way of making groups, meets the same specification. |
| `SinkGrouping.ReadKey` | src/paimon_storage/paimon_insert.cpp:195-204 | The key of a row lists its printed partition values, NULL under the default partition name. |
| `SinkGrouping.RowsUnderExact` | src/paimon_storage/paimon_insert.cpp:193-207 | A group holds exactly the row numbers with its key, strictly increasing. |
| `SinkGrouping.WrittenIsPermutation` | src/paimon_storage/paimon_insert.cpp:209-228 | Whatever order the groups are visited in, the rows written are the rows of the chunk, each once. |
| `SinkGrouping.WriteGroups` | src/paimon_storage/paimon_insert.cpp:209-228 | The loop over the groups writes every row once, in a batch of its own partition, one batch per partition, in input order; if the writer fails first, it leaves whole partitions only, exactly when the partitions outnumber the writes accepted. |
| `SinkGrouping.WholeChunk` | src/paimon_storage/paimon_insert.cpp:177-181 | An unpartitioned chunk is one batch under the same specification, or none if the writer fails. |
| `SinkGrouping.WrittenCells` | src/paimon_storage/paimon_insert.cpp:194-216 | In every batch a Sink writes, each partition key of each row is the default partition name if the cell is NULL and the printed value otherwise. |
| `SinkGrouping.WrittenFromChunk` | src/paimon_storage/paimon_insert.cpp:209-228 | Also when the writer fails, what was written are rows of the chunk, none twice, in no empty batch. |
| `SinkGrouping.LocalWriter.SinkDistributed` | src/paimon_storage/paimon_distributed_insert.cpp:753-802 | The distributed Sink writes such batches; it raises exactly when the writer fails or the count would overflow, and then leaves the count as it was. |
| `SinkGrouping.LocalWriter.SinkNative` | src/paimon_storage/paimon_insert.cpp:173-232 | The native Sink writes batches under the same specification and fails exactly when the writer does; its 64-bit count may wrap. |
| `DistributedInsert.WorkerTask.Combine` | src/paimon_storage/paimon_distributed_insert.cpp:804-867 | Combine merges messages and rows all or nothing, and what it does not merge after preparing it passes to abort. |
| `DistributedInsert.WorkerTask.Finalize` | src/paimon_storage/paimon_distributed_insert.cpp:869-922 | The first Finalize publishes the one fragment of all held messages or nothing; when they do not serialise it passes them to abort and keeps them; a second call fails. |
| `WorkerRuns.SinkIsAStep` | src/paimon_storage/paimon_distributed_insert.cpp:753-802 | The row count in the contract of the distributed Sink is that of the ownership step, also when it overflows. |
| `WorkerRuns.CombineIsARun` | src/paimon_storage/paimon_distributed_insert.cpp:804-867 | What the contract of Combine says of messages, count and aborts is what a run of the ownership steps does, on every path. |
| `WorkerRuns.FinalizeIsAStep` | src/paimon_storage/paimon_distributed_insert.cpp:869-922 | What the contract of Finalize says is one ownership step: it publishes exactly the messages held, keeps them, or passes them to abort and keeps them. |
| `WorkerRuns.ObjectLosesNothing` | src/paimon_storage/paimon_distributed_insert.cpp:643-660 | For every sequence of calls on one task, each meeting its method's contract, and its destruction: every message object prepared is in the published fragment or was passed to abort, and never both; what was aborted is what the calls report and what was still held. |
| `DistributedInsert.RunTask` | src/paimon_storage/paimon_distributed_insert.cpp:753-922 | A task that sinks its chunks on its threads, combines and finalises produces the honest result of its rows and messages. |
| `DistributedInsert.HonestEnvelope` | src/paimon_storage/paimon_distributed_insert.cpp:893-913 | The envelope a worker writes is one that the coordinator decodes to the same envelope. |
| `DistributedInsert.HonestLocal` | src/paimon_storage/paimon_distributed_insert.cpp:959-1037 | An honest result passes every check on a single result and carries exactly the prepared messages. |
| `DistributedInsert.HonestIdentities` | src/paimon_storage/paimon_distributed_insert.cpp:970-977 | Tasks with distinct fragment and partition numbers have distinct attempts and logical tasks. |
| `DistributedInsert.HonestResultsAccepted` | src/paimon_storage/paimon_distributed_insert.cpp:945-1043 | However the input is split into chunks, threads and tasks, honest results are accepted, carry exactly the prepared messages, and count exactly the input rows. |
| `DistributedInsert.RunDistributedInsert` | src/paimon_storage/paimon_distributed_insert.cpp:753-1043 | Running every task and decoding the results succeeds with exactly the prepared messages and the number of input rows. |
| `DistributedInsert.InputIffMessages` | src/paimon_storage/paimon_distributed_insert.cpp:1353-1361 | If writers prepare messages exactly when they got rows, there is something to commit exactly when there was input. |
| `DistributedInsert.NativeInsert` | src/paimon_storage/paimon_insert.cpp:173-266 | The native insert counts the rows of all threads and collects their messages in order. |
| `DistributedInsert.CountsAgree` | src/paimon_storage/paimon_insert.cpp:268-300 | For the same rows, split up in any two ways, distributed and native insert report the same count. |
| `Pushdown.ConvertSound` | src/paimon_storage/paimon_scan.cpp:77-302 | A translated expression keeps TRUE in positive positions and FALSE in negative ones, for every row, if nothing is weakened below an odd number of NOTs. |
| `Pushdown.PushdownSound` | src/paimon_storage/paimon_scan.cpp:399-414 | Under that condition every row on which the filter is TRUE makes the pushed predicate TRUE. |
| `Pushdown.TranslatedExactly` | src/paimon_storage/paimon_scan.cpp:77-414 | Without NULL constants, and if paimon-cpp builds what it is asked for, nothing raises and exactly these are translated: comparisons of a column with a constant, BETWEEN, IN, NOT IN with a usable element, string matches, NULL tests, AND with a translated child, OR of translated children, and NOT. |
| `Pushdown.NullRaises` | src/paimon_storage/paimon_type_utils.cpp:63-66 | A NULL constant in any of these raises and makes the whole pushdown fail. |
| `Pushdown.NoNotIsSafe` | src/paimon_storage/paimon_scan.cpp:200-207 | Expressions without NOT always meet the condition. |
| `Pushdown.EvenNotsAreSafe` | src/paimon_storage/paimon_scan.cpp:200-207 | An expression without NOT is safe under two of them, and NOT is safe exactly where its child is in the opposite position. |
| `Pushdown.ExactConversion` | src/paimon_storage/paimon_scan.cpp:77-302 | An expression safe in both positions is translated to a predicate with the same truth value on every row. |
| `Pushdown.NotAndLosesExactly` | src/paimon_storage/paimon_scan.cpp:268-302 | With exactly translated kept conjuncts, NOT over AND loses a row if and only if a dropped conjunct is FALSE on it and no kept one is. |
| `Pushdown.NotNotInLosesExactly` | src/paimon_storage/paimon_scan.cpp:226-262 | NOT over NOT IN loses a row if and only if its value equals a skipped element and no kept one. |
| `Pushdown.NotAndLosesARow` | src/paimon_storage/paimon_scan.cpp:200-207 | A concrete expression and row that are lost. |
| `Pushdown.PushFilters` | src/paimon_storage/paimon_scan.cpp:519-546 | The filter loop pushes the conjunction of all filters that convert, nothing if none does, and fails when a conversion raises. |
| `Pushdown.PruningKeepsAnswer` | src/paimon_storage/paimon_scan.cpp:530-546 | Pruning by anything that keeps the predicate's rows and then re-applying the retained filters returns exactly the unpruned answer, in order. |
| `PartitionFilters.MergePartFilter` | src/paimon_storage/paimon_scan.cpp:580-593 | Two filter maps merge to their union exactly when no key gets two values. |
| `PartitionFilters.CrossProduct` | src/paimon_storage/paimon_scan.cpp:595-608 | The nested loops compute the cross product of the entries. |
| `PartitionFilters.CrossExact` | src/paimon_storage/paimon_scan.cpp:595-608 | The product is exactly the set of unions of consistent choices of one map per entry. |
| `PartitionFilters.CrossMeaning` | src/paimon_storage/paimon_scan.cpp:595-608 | A partition satisfies some map of the product exactly when it satisfies some map of every entry. |
| `PartitionFilters.ExtractExactly` | src/paimon_storage/paimon_scan.cpp:416-478 | An extraction succeeds exactly for an equality of a partition key with a non-NULL constant or an AND with such a part, and writes exactly the conditions found, in order. |
| `PartitionFilters.ExtractSound` | src/paimon_storage/paimon_scan.cpp:416-478 | The partition of a row on which the expression is TRUE satisfies the extracted map, also where a repeated key kept its last value. |
| `PartitionFilters.AlternativesExactly` | src/paimon_storage/paimon_scan.cpp:480-517 | A filter gives alternatives exactly when it constrains, or is an OR whose disjuncts all do; one for each disjunct. |
| `PartitionFilters.AlternativesSound` | src/paimon_storage/paimon_scan.cpp:480-517 | The partition of a row on which the filter is TRUE satisfies one of the extracted alternatives. |
| `PartitionFilters.PushPartitionFilters` | src/paimon_storage/paimon_scan.cpp:547-610 | The bind gets the product of the filters that constrain partitions, or no partition filter. |
| `PartitionFilters.PruningSound` | src/paimon_storage/paimon_scan.cpp:547-610 | The partition of every row that passes all filters satisfies some pushed map. |
| `PartitionFilters.WrittenRowIsScanned` | src/paimon_storage/paimon_insert.cpp:183-230 | Every row that the Sink wrote and that passes the query's filters lies in a partition that the scan reads. |
| `PartitionFilters.ContradictionMeansNoRow` | src/paimon_storage/paimon_scan.cpp:712-714 | When all combinations contradict each other the scan is unpruned, and no row passes the filters. |
| `PartitionFilters.ScanKeepsAnswer` | src/paimon_storage/paimon_scan.cpp:519-610 | A scan of what the Sink wrote, pruned by partition and by predicate, answers the query exactly as a scan of everything does. |
| `PartitionFilters.UnprintableLoses` | src/paimon_storage/paimon_scan.cpp:440-455 | A stored value that equals the constant but prints differently makes a passing row's partition be pruned. |
| `PartitionFilters.SoundExactlyWhenPrintable` | src/paimon_storage/paimon_scan.cpp:440-455 | No row of any query is lost if and only if values that compare equal print equally. |
| `Estimates.TryAddEstimate` | src/paimon_storage/paimon_distributed_scan.cpp:98-109 | A value is added exactly when it is non-negative and the sum stays below the invalid sentinel; otherwise the total stays. |
| `Estimates.GetSplitEstimates` | src/paimon_storage/paimon_distributed_scan.cpp:111-144 | Byte and row estimates exist exactly when the split's kind allows them and all values are non-negative with a sum below 2^64-1, and are then that exact sum. |
| `Estimates.OrderIndependent` | src/paimon_storage/paimon_distributed_scan.cpp:98-144 | Neither existence nor value of an estimate depends on the order of the files. |
| `Estimates.SumsOverFiles` | src/paimon_storage/paimon_distributed_scan.cpp:111-144 | Byte estimates sum the sizes of the files and row estimates their row counts, and are known exactly when none is negative and the sum is below the invalid index. |
| `Timestamps.MillisFloors` | src/paimon_storage/paimon_type_utils.cpp:101-112 | Truncating division corrected for a negative remainder rounds down. |
| `Timestamps.ExactReconstruction` | src/paimon_storage/paimon_type_utils.cpp:90-116 | Every unit gives 0 <= nano_of_millis < 1000000 and an instant that is exactly the original one. |
| `Timestamps.OrderPreserved` | src/paimon_storage/paimon_type_utils.cpp:90-116 | Literals compare lexicographically as the original values compare, and equal exactly when they do. |
| `Timestamps.FitsExactly` | src/paimon_storage/paimon_type_utils.cpp:90-116 | Intermediates fit in 64 bits exactly for micros >= -9223372036854775000 and nanos >= -9223372036854000000; seconds exactly within +-9223372036854775. |
| `ScanCodec.SplitRoundTrip` | src/paimon_storage/paimon_distributed_scan.cpp:146-204 | Any encoded split envelope decodes to its canonical form if that is valid and to an error otherwise. |
| `ScanCodec.ReadSplit` | src/paimon_storage/paimon_distributed_scan.cpp:166-204 | Reading a split envelope check by check gives exactly the decoding. |
| `ScanCodec.ValidateTransport` | src/paimon_storage/paimon_distributed_scan.cpp:223-252 | The validation loops accept a bind transport if and only if it meets all conditions. |
| `ScanCodec.ReadBind` | src/paimon_storage/paimon_distributed_scan.cpp:348-358 | Reading a bind check by check gives exactly the decoding. |
| `ScanCodec.BindRoundTrip` | src/paimon_storage/paimon_distributed_scan.cpp:254-301 | Every valid bind transport decodes to itself with its kind. |
| `ScanProtocol.TransferExact` | src/paimon_storage/paimon_distributed_scan.cpp:317-380 | A bind that serialises arrives with every field of its target, as a distributed coordinator or a worker template, without snapshot or splits. |
| `ScanProtocol.GetPortableOptions` | src/paimon_storage/paimon_distributed_scan.cpp:206-216 | The options that travel are exactly those of the four that are set. |
| `ScanProtocol.ReserializeExact` | src/paimon_storage/paimon_distributed_scan.cpp:286-301 | Serialising a received bind again reproduces its transport exactly when it carried portable options or the receiving process adds none. |
| `ScanProtocol.PlanSplits` | src/paimon_storage/paimon_distributed_scan.cpp:382-441 | Planning succeeds exactly for a distributed coordinator with a plan whose splits exist, serialise and have a snapshot, and yields one transported split per planned one. |
| `ScanProtocol.PlanOne` | src/paimon_storage/paimon_distributed_scan.cpp:411-438 | A transported split carries its index as id, its serialised split and its estimates, in envelope and metadata alike. |
| `ScanProtocol.WorkerScan.ApplySplits` | src/paimon_storage/paimon_distributed_scan.cpp:465-520 | A batch is applied whole exactly when all its splits fit the bind, are distinct and of one snapshot; otherwise the bind is unchanged. |
| `ScanProtocol.PlannedFits` | src/paimon_storage/paimon_distributed_scan.cpp:310-315 | Every planned split is accepted by every worker of its scan, carries the split it was made from and names the plan's snapshot. |
| `ScanProtocol.PlannedEstimates` | src/paimon_storage/paimon_distributed_scan.cpp:411-438 | A planned split carries the sum of its file sizes as bytes and, for append-only data splits, the sum of its row counts as rows, where they may be had, in metadata and envelope alike. |
| `ScanProtocol.FitsExactly` | src/paimon_storage/paimon_distributed_scan.cpp:484-514 | A split whose payload encodes an envelope is taken exactly when that is a proper envelope of this scan, names a snapshot, and says what the metadata says. |
| `ScanProtocol.PlannedDistinct` | src/paimon_storage/paimon_distributed_scan.cpp:411-438 | Planned ids are pairwise distinct. |
| `ScanProtocol.BatchAssignable` | src/paimon_storage/paimon_distributed_scan.cpp:465-520 | Any part of a plan, in any order, is assignable. |
| `ScanProtocol.EveryDealScansThePlan` | src/paimon_storage/paimon_distributed_scan.cpp:382-520 | However the plan is dealt out, all batches are accepted and the workers together hold exactly the multiset of planned splits, each non-empty batch with the plan's snapshot and an empty one with none. |
| `ScanProtocol.StepPhase` | src/paimon_storage/paimon_distributed_scan.cpp:317-520 | Each operation leads from exactly its phases to exactly its phase; nothing makes a plain coordinator, leaves an assigned worker or turns a worker back. |
| `ScanProtocol.BindLineage` | src/paimon_storage/paimon_scan.cpp:892-906 | Over every sequence of operations a coordinator bind yields one that can execute exactly if nothing was done or the last operation assigned splits; a worker never becomes a coordinator, and the target stays. |
| `ScanProtocol.InitGlobal` | src/paimon_storage/paimon_scan.cpp:892-906 | A scan starts only from a plain coordinator, with what it plans, or an assigned worker, with its assignment. |
| `ScanProtocol.OptionsLineage` | src/paimon_storage/paimon_distributed_scan.cpp:375-378 | Over every sequence of operations, each option of the coordinator that travels has its value in the options the derived bind reads with, and all others are those of the process it last arrived in; a worker bind has none. |
| `ScanProtocol.OperationsExactly` | src/paimon_storage/paimon_distributed_scan.cpp:317-520 | When shipping, deriving and assigning succeed. |
| `ScanProtocol.DistributedScanExact` | src/paimon_storage/paimon_distributed_scan.cpp:443-520 | From any coordinator bind, by any route to a planning bind and on to worker binds, and for any deal of the plan, all workers may execute and together hold exactly the plan's splits, of its snapshot. |
| `SplitClaim.InvNext` | src/paimon_storage/paimon_scan.cpp:850-886 | Every atomic step of every thread keeps exclusive ownership of splits, the count of claims and the balance of batches. |
| `SplitClaim.ClaimedOnce` | src/paimon_storage/paimon_scan.cpp:850-859 | In every interleaving no split index is claimed twice, no two threads work on one split, and there are at most as many claims as splits and threads. |
| `SplitClaim.ExhaustedMeansComplete` | src/paimon_storage/paimon_scan.cpp:808-859 | When all threads are exhausted every split was claimed, claims number splits plus threads, and the batches returned are those of all splits apart from what departed threads abandoned. |
| `SplitClaim.QuiescentMeansComplete` | src/paimon_storage/paimon_scan.cpp:808-886 | A run that no thread can continue and none left has returned every batch of every split exactly once. |
| `SplitClaim.RunsAreBounded` | src/paimon_storage/paimon_scan.cpp:808-886 | Threads together take at most one step per batch, three per split and one each, and exactly that many less the work left if none departs. |
| `SplitClaim.CanComplete` | src/paimon_storage/paimon_scan.cpp:808-886 | Whatever its threads have done so far, a scan that none has left can be completed with every batch returned once. |
| `SplitClaim.OneThreadCompletes` | src/paimon_storage/paimon_scan.cpp:808-886 | Every scan can be completed. |
| `SplitClaim.LocalScan.NextSplit` | src/paimon_storage/paimon_scan.cpp:850-886 | One call advances the 64-bit counter by one, wrapping, and opens the split it got, fails on it, or exhausts the thread. |
| `SplitClaim.LocalScan.NextBatch` | src/paimon_storage/paimon_scan.cpp:808-831 | Undisturbed calls return the batches that are left one by one in order, and the end only when none is. |
| `CatalogCache.InvNext` | src/paimon_storage/paimon_table_set.cpp:41-154 | Every step of readers, loads and mutators keeps cache, in-flight reads and catalog in agreement. |
| `CatalogCache.FoldExactly` | src/include/paimon_table_set.hpp:46 | Two names share a cache key if and only if they have the same length and each pair of characters is equal or the two cases of one ASCII letter. |
| `CatalogCache.CacheCoherent` | src/paimon_storage/paimon_table_set.cpp:41-154 | In every interleaving, unless a DROP still has to update the cache, each cached table or schema agrees with the catalog and is found under exactly the spellings of its name. |
| `CatalogCache.ScanExact` | src/paimon_storage/paimon_table_set.cpp:101-135 | A scan of a filled cache with no mutator in flight lists exactly the catalog without the lost names, so it is exact if and only if nothing is lost. |
| `CatalogCache.ScanListsTheCatalog` | src/paimon_storage/paimon_schema_set.cpp:37-93 | A run without a losing step has exact scans however loads race with CREATE and DROP; right after a losing step the scan is not exact. |
| `CatalogCache.LossStep` | src/paimon_storage/paimon_schema_entry.cpp:201-223 | Names are lost only by dropping another spelling of an existing name or by a failed reload after CREATE TABLE, on a filled cache. |
| `CatalogCache.LookupAnswers` | src/paimon_storage/paimon_table_set.cpp:123-127 | With no mutator in flight a lookup never answers something stale or of another name; a table is not found only if absent, a schema only if no spelling of it exists or it is lost. |
| `CatalogCache.NobodyStuck` | src/paimon_storage/paimon_table_set.cpp:101-154 | Whoever holds the lock can go on to release it, and a pending cache update can then be made. |
| `CatalogCache.TableLookupHeals` | src/paimon_storage/paimon_table_set.cpp:123-127 | Looking up a lost table finds it and puts it back. |
| `CatalogCache.SchemaStaysLost` | src/paimon_storage/paimon_schema_set.cpp:69-79 | No reader brings a lost schema back. |
| `CatalogCache.OtherSpellingLosesSchema` | src/paimon_storage/paimon_catalog.cpp:398-411 | A concrete run: DROP SCHEMA IF EXISTS "DB" makes the existing "db" unfindable. |
| `CatalogCache.FailedReloadLosesTable` | src/paimon_storage/paimon_schema_entry.cpp:88-171 | A concrete run: CREATE TABLE whose reload fails leaves an existing table out of scans. |
| `TableCache.PaimonTableSet.BuildEntry` | src/paimon_storage/paimon_table_set.cpp:41-99 | A cached entry is returned for exactly the spellings of its name; otherwise the table is loaded and cached, absent, or an error that changes nothing. |
| `TableCache.PaimonTableSet.LoadEntries` | src/paimon_storage/paimon_table_set.cpp:101-121 | The loop over listed names is a run of the interleaved steps; it fills the cache or stops at an unreadable table with the cache not marked as filled. |
| `TableCache.PaimonTableSet.GetEntry` | src/paimon_storage/paimon_table_set.cpp:123-127 | A lookup is a run of the interleaved steps that ends in its answer, and fails exactly on an uncached unreadable name. |
| `TableCache.PaimonTableSet.Scan` | src/paimon_storage/paimon_table_set.cpp:129-135 | A scan that succeeds from a coherent state with no mutator in flight shows exactly the catalog's tables that are not lost. |
| `TableCache.PaimonTableSet.RefreshEntry` | src/paimon_storage/paimon_table_set.cpp:145-149 | The cache half of CREATE TABLE is a run of the interleaved steps, whether the reload succeeds or fails. |
| `TableCache.PaimonTableSet.DropEntry` | src/paimon_storage/paimon_table_set.cpp:151-154 | The cache half of DROP TABLE is the settling step of the interleaved model. |

## Left out

- paimon-cpp internals: message and split codecs, `FilterAndCommit`, predicate evaluation and manifest pruning appear only as stated contracts; a commit that reports an error may or may not have published.
- `Wire.MessageRoundTrip`: DuckDB's `BinarySerializer` is not modelled; `Wire` is a tagged, length-prefixed format with the same fields in the same order, not its byte layout.
- DuckDB's logical types are opaque non-empty strings, and `Result.Validate()` of a task result is a flag.
- `StringUtil::Split` is taken to split as `std::getline` does, and `Value::ToString` is a function of the value.
- MD5 digests, UUID generation and hashing are functions of their inputs; nothing is claimed about collisions.
- Arrow conversion and release callbacks, file systems, object store and REST options, secrets.
- Writers in other processes: the mutation mutex is process-wide and so are the claims.
- Whether DuckDB's optimizer ever emits NOT over a partially translated child, and which spelling of a name DuckDB passes to DROP.
- `Pushdown.PushdownSound`: its condition is sufficient and not necessary for a whole tree, because a dropped conjunct may be implied by the kept ones; the exact condition is stated for NOT over AND and over NOT IN, row by row.
- `CatalogCache.CacheCoherent`: assumes catalog names that are unique up to case, catalog calls that change nothing when they report failure, and no mutator other than through this attached catalog: one in another process, or through a second attachment of the same warehouse, changes the catalog without touching this cache.
- `TableCache.PaimonTableSet.Scan`: methods of the class run without interference; interleaving is covered by the steps they are runs of. The schema cache has no class of its own.
- `ScanProtocol.OptionsLineage`: a coordinator bind is taken to have no transport options beside its own scan options.
- `ScanProtocol.BindLineage`: assumes that a receiving process derives no portable scan option of its own, and snapshot ids of plans are taken to be non-negative.
- `SplitClaim.ClaimedOnce`: assumes that splits and threads together number less than 2^64, so the counter does not wrap.
- `WriteProtocol.AbortedXorCommitted`: a runner that calls Finalize after Abort is excluded, since the program does not guard that order.
- `DistributedInsert.CountsAgree`: for at most 2^64-1 rows; beyond that the native count wraps and the distributed insert raises.
- Read-only critical sections of the coordinator, and a creation inside its section, are single steps.
- Decimal literals (a 128-bit value assembled from two halves), type mapping, table paths, snapshots, transactions, statistics and registration would only add easy members.
