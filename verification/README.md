# Verified model of the event-sourced replication stack

This project models, in Dafny, the part of the repository that stores transactions, shows each
principal its own view of them, and keeps clients, replicas, projections and the explorer in
agreement with the store; and it proves what that part is for.

One log of transactions with two streams (meta and graph) is at the centre. Everything a store keeps
(arrays, index ranges, the id map, receipts) is a function of that log, the visible log of a principal
is another, and every endpoint, client and replica is stated against these.

How the files are organised:

- `text`, `json`, `jsonparser`, `canonical`, `utf8`, `digest`, `wiretexts`: UTF-16 text, canonical
  printing and the strict reader that inverts it, UTF-8, hashes and digests, and what the texts whose
  bytes are counted say. A digest is kept as the text it is computed from, which takes SHA-256 to be
  injective.
- `eventlog`, `storespec`, `rangeread`, `stores`, `stores_indexeddb`, `stores_file`, `arrivals`: the
  log, the abstract store, the in-memory, IndexedDB and file-backed stores that refine it, and appends
  made while someone awaits.
- `visibility`, `paging`, `polling`, `gateway`: who sees what, and the pull, read and poll endpoints.
- `client`, `frames`, `clientruns`, `recovery`, `subscribe`, `client_class`: the digest-validated sync
  client, what it does with any frames, its safety over every run, and when recovery succeeds.
- `shipping`, `network`, `replication`, `replication_class`, `receipts`, `convergence`: passive
  replication over a simulated network, its safety over every run, and its convergence.
- `passivereplica`, `passivereplica_class`: the production replicator with crashes.
- `kernel`, `kernel_class`: base-revision tokens as compare-and-swap for interleaved writers.
- `graph`, `undo`, `undo_class`, `ingestion`, `ingestion_class`: the graph fold, undo and redo, guarded
  ingestion, snapshots and the server's graph view.
- `projection`, `projectionruns`, `projection_class`: projections kept incrementally and seeded from
  snapshots, and runs of operations that interleave at every await.

Code that changes things in place is modelled by classes and loops (the modules without `Spec` in
their name), each method proved equal to a function or an abstract step; the theorems are about those
functions and about runs of those steps. Where other code can run during an await, what it does there is
a parameter, and the contract holds for every choice: for the sync client and the projection engine,
other writers' appends and any other call on the same object, cut at its own awaits; for the kernel,
`readGraphView` and `replicateUntilCaughtUp`, other writers' appends. `replicateOnce` reads its source
once, so what arrives later counts for the next round; it and the replication harness are taken to be
the only writers of their sinks, and the harness's concurrency is in the order of network deliveries.
Random choices of the network, faults, failed writes and crashes are parameters in the same way.

## What does not hold

The code and what its tests or comments suggest part ways in these places. The code is modelled as it
is, and the exact conditions are proved.

- `readTx` returns the preceding event for a part that has no events when its stream already had some
  (`StoreSpec.ReadTxExactIff`, `StoreSpec.ReadTxNotExact`). Simulated replicas copy that event
  (`Shipping.ShippedIsLogIff`). The production replicator takes it for a divergence: one crash before
  the checkpoint of such a transaction is saved, and nothing is replicated any more
  (`PassiveReplicaSpec.RedeliveryIff`, `PassiveReplicaSpec.CatchesUpIff`, `PassiveReplicaSpec.CrashCanStick`).
  Kernel-written logs are not affected (`Shipping.KernelLogsAreExact`).
- Full recovery followed by validation commits exactly when both collections stop at one cursor
  (`ClientRecovery.RecoverThenValidate`). When the full poll finishes within its 256 rounds they do, at
  the head (`ClientRecovery.FinishedPollRecovers`); when it does not and its first page ends within what
  is durable, they never will (`ClientRecovery.StalledForGood`, `ClientRecovery.OneAPullStalls`).
- A pull from a negative cursor is labelled with ranks that are not the true ones (`Paging.PullLabels`).
- After one failed file write the file-backed store never commits again until it is reopened, and a read
  during the failed write can leave a cache that answers wrongly during the next one: it finds the
  rolled-back transaction, or cuts the one being written (`FileStore.FileBackedLocalEventStore.AppendTx`,
  `FileStore.StaleReadDuringLaterWrite`, `FileStore.StaleRangeDuringLaterWrite`). The exact conditions
  are `FileStore.ReadTxWithOldMap` and `FileStore.RangeWithOldMap`.
- The in-memory snapshot store can load for one graph space what was saved for another, exactly when one
  name followed by `::` begins the other's (`Projection.LoadsForeignIff`); a seeded rebuild then goes
  wrong (`Projection.ForeignSnapshotSpoilsRebuild`). Otherwise each load is the scope's own last save
  (`Projection.LoadsLastSave`).
- A network with a queue bound of zero counts a drop that did not happen (`NetworkSpec.SendAccounts`).
- A head token does not resolve to the head when the last id is empty or was used before
  (`KernelSpec.TokenRoundTripIff`).

## Model

| member | source | states |
|---|---|---|
| Canonical.UniquelyDecodable | packages/kernel-minimal/src/canonicalHash.ts:3-61 | equal canonical texts are exactly equal values up to object key order |
| Canonical.ReaderInvertsPrinter | packages/kernel-minimal/src/canonicalHash.ts:15-61 | a strict reader of RFC 8259 text takes the whole of every printed text and reads the value itself: exactly its printed members, listed at every depth in ascending code-unit order of their keys |
| Texts.LessIsBefore | packages/kernel-minimal/src/canonicalHash.ts:50 | the sort puts a key first exactly when it is a proper prefix or smaller where the two first differ |
| Texts.DigitsRead | packages/kernel-minimal/src/canonicalHash.ts:31 | decimal digits stand for the number and start with a zero only for zero |
| Canonical.PrintsUnlessRefused | packages/kernel-minimal/src/canonicalHash.ts:3-13 | printing throws exactly on a top-level absent value and on trees holding a BigInt or Date |
| Canonical.CanonicalStringDecodable | packages/shared/src/normalizer.ts:2-39 | two payloads have one canonicalString exactly when they mean the same after dropping createdAt and timestamp at every depth |
| Canonical.CanonicalStringReads | packages/shared/src/normalizer.ts:2-39 | what canonicalString prints reads back as the payload without its members named createdAt and timestamp, at every depth, every other member kept |
| JsonParser.ParseInverts | packages/kernel-minimal/src/canonicalHash.ts:15-61 | printed text followed by anything reads back, up to that rest, as a value with the same meaning and members in ascending key order |
| JsonParser.EscapeInverts | packages/kernel-minimal/src/canonicalHash.ts:19-21 | string contents survive escaping and unescaping, surrogate pairs and lone surrogates included |
| JsonParser.EscapeIsShortest | packages/kernel-minimal/src/canonicalHash.ts:19-21 | of all the ways a strict reader takes for a string, lower-case hexadecimal digits given, the printed one is the shortest and no other is as short |
| JsonParser.SerializeOutcome | packages/kernel-minimal/src/canonicalHash.ts:15-36 | which values print, are skipped, or throw |
| JsonParser.Spelled | packages/kernel-minimal/src/canonicalHash.ts:15-61 | the words and punctuation the printer writes and the reader expects, spelled out |
| Digest.HashesAgree | packages/conformance-tests/src/v2/sim/passiveReplicator.ts:101-117 | replication hashes are equal exactly for equal spaces and bundles that are the same up to volatile keys and key order |
| Digest.BundleHashesAgree | packages/conformance-tests/src/v2/sim/passiveReplicator.ts:101-117 | payload hashes of replicated appends are equal exactly for bundles that are the same up to volatile keys and key order |
| Digest.DigestsAgree | packages/sync-local/src/internal/stateDigestClient.ts:50-75 | state digests agree exactly when the cursors are equal and the states hold the same transactions at the same ranks |
| Digest.BundleEssence | packages/sync-local/src/internal/stateDigestClient.ts:60-69 | two bundles print the same exactly when ids are equal and events agree one by one up to canonical form |
| Utf8.DecodeInverts | packages/sync-local/src/internal/transportGateway.ts:90 | decoding inverts the UTF-8 encoding of every text without lone surrogates |
| Utf8.EncodedLength | packages/sync-local/src/internal/transportGateway.ts:157 | the counted size of a text is the length of its encoding |
| Utf8.PrintedIsPaired | packages/sync-local/src/internal/transportGateway.ts:157 | printed text never holds a lone surrogate, so its bytes stand for it exactly |
| WireTexts.BundleTextReads | packages/sync-local/src/internal/transportGateway.ts:148-157 | the text whose bytes count for a pulled bundle decodes and reads back as that bundle: its id and both lists of stripped payloads, nothing else |
| WireTexts.EventsTextReads | packages/sync-local/src/internal/transportGateway.ts:259 | the text whose bytes count for a run of envelopes decodes and reads back as exactly those envelopes in order: space, stream, number, transaction, event id and stripped payload |
| WireTexts.HashTextReads | packages/conformance-tests/src/v2/sim/passiveReplicator.ts:101-117 | the text a replication hash is taken of reads back as the space and the bundle |
| WireTexts.DigestTextReads | packages/sync-local/src/internal/stateDigestClient.ts:50-75 | the text a state digest is taken of reads back as the principal, the space, the cursor and the ranked bundles in order |
| EventLog.EventsOfTx | packages/eventstore-local/src/InMemoryLocalEventStore.ts:112-149 | the events of transaction k sit exactly between the heads before and after it, so the index ranges partition both streams |
| EventLog.SeqNumbersDense | packages/eventstore-local/src/InMemoryLocalEventStore.ts:115-131 | a stream is numbered 1, 2, 3, ... without gaps |
| EventLog.StoredAt | packages/eventstore-local/src/InMemoryLocalEventStore.ts:115-131 | the stored event for part i of transaction k: its number, its id made of transaction, stream and place, its payload |
| EventLog.EntryNamesParts | packages/eventstore-local/src/InMemoryLocalEventStore.ts:136-149 | an index entry numbers its transaction and names the first and last event of each part, or where an empty part would go |
| EventLog.ReceiptNamesStored | packages/eventstore-local/src/InMemoryLocalEventStore.ts:151-163 | each reference of a receipt names the stored event at its place in the stream, and its cursor is the head of the new log |
| EventLog.IndexOfAt | packages/eventstore-local/src/InMemoryLocalEventStore.ts:136-149 | the entry of transaction k is the one its append computed, whatever was appended later |
| EventLog.HeadInjective | packages/eventstore-local/src/InMemoryLocalEventStore.ts:98-108 | no two positions of a log have the same head, so comparing a base cursor compares positions |
| StoreSpec.AppendKeepsHistory | packages/eventstore-local/src/InMemoryLocalEventStore.ts:84-96 | every append keeps: each slot commits one transaction and its row holds that transaction's receipt for good |
| StoreSpec.ReplayAfterCommit | packages/eventstore-local/src/InMemoryLocalEventStore.ts:84-96 | after a commit the slot replays the receipt for the same payload hash and refuses any other, the store unchanged |
| StoreSpec.FaultThenRetry | packages/eventstore-local/src/InMemoryLocalEventStore.ts:110-167 | a fault at any hook point changes nothing, and the retry gives the store and receipt of an unfaulted run |
| StoreSpec.ReadTxFinds | packages/eventstore-local/src/InMemoryLocalEventStore.ts:182-192 | readTx finds exactly transaction k's two index ranges in the arrays of a log with fresh ids |
| StoreSpec.ReadTxMisses | packages/eventstore-local/src/InMemoryLocalEventStore.ts:182-192 | readTx of an id the log lacks is null |
| StoreSpec.ReadTxExactIff | packages/eventstore-local/src/InMemoryLocalEventStore.ts:182-192 | readTx gives back the appended bundle exactly when each part has events or its stream was still empty |
| StoreSpec.ReadTxNotExact | packages/eventstore-local/src/InMemoryLocalEventStore.ts:139-148 | a concrete log whose second transaction reads back with an event it never had |
| RangeRead.RangeIsShortestClosed | packages/eventstore-local/src/InMemoryLocalEventStore.ts:209-245 | from a transaction boundary, uncapped or capped at a past head, readRange is the shortest transaction-closed run with min(limit, available) events |
| RangeRead.CappedReadIsStable | packages/eventstore-local/src/InMemoryLocalEventStore.ts:221-245 | a capped read does not change when the log grows |
| RangeRead.PagesReadEverything | packages/eventstore-local/src/InMemoryLocalEventStore.ts:209-245 | paging with any limit of at least one ends having read the stream exactly once |
| Stores.InMemoryLocalEventStore.AppendTx | packages/eventstore-local/src/InMemoryLocalEventStore.ts:70-180 | refines the abstract append: same new log, idempotency rows and outcome on every branch |
| Stores.InMemoryLocalEventStore.ReadTx | packages/eventstore-local/src/InMemoryLocalEventStore.ts:182-192 | equals the abstract readTx of the log |
| Stores.InMemoryLocalEventStore.ReadRange | packages/eventstore-local/src/InMemoryLocalEventStore.ts:209-245 | equals the abstract readRange of the log |
| Stores.InMemoryLocalEventStore.GetCursorHead | packages/eventstore-local/src/InMemoryLocalEventStore.ts:253-259 | equals the head of the log |
| Stores.InMemoryLocalEventStore.ReadPrincipalTxRange | packages/eventstore-local/src/InMemoryLocalEventStore.ts:261-280 | as many shown transactions as are left after the cursor, up to the limit, each in its place and numbered by visible rank |
| Stores.InMemoryLocalEventStore.GetPrincipalCursorHead | packages/eventstore-local/src/InMemoryLocalEventStore.ts:282-287 | the number of transactions the viewer is shown |
| IndexedDbStore.IndexedDbLocalEventStore.AppendTx | packages/eventstore-local/src/IndexedDbLocalEventStore.ts:70-170 | staged on a copy, refines the same abstract append; a fault leaves the database as it was |
| IndexedDbStore.IndexedDbLocalEventStore.ReadTx | packages/eventstore-local/src/IndexedDbLocalEventStore.ts:172-182 | equals the abstract readTx of the log |
| IndexedDbStore.IndexedDbLocalEventStore.ReadRange | packages/eventstore-local/src/IndexedDbLocalEventStore.ts:197-231 | equals the abstract readRange of the log |
| IndexedDbStore.IndexedDbLocalEventStore.GetCursorHead | packages/eventstore-local/src/IndexedDbLocalEventStore.ts:239-242 | the stored heads are the head of the log |
| IndexedDbStore.IndexedDbLocalEventStore.ReadPrincipalTxRange | packages/eventstore-local/src/IndexedDbLocalEventStore.ts:244-261 | as many shown transactions as are left after the cursor, up to the limit, each in its place and numbered by visible rank |
| IndexedDbStore.IndexedDbLocalEventStore.GetPrincipalCursorHead | packages/eventstore-local/src/IndexedDbLocalEventStore.ts:263-268 | the number of transactions the viewer is shown |
| FileStore.FileBackedLocalEventStore.StageAppend | packages/eventstore-local/src/FileBackedLocalEventStore.ts:64-170 | everything before the file write refines the abstract append, and the file is untouched |
| FileStore.FileBackedLocalEventStore.FinishPersist | packages/eventstore-local/src/FileBackedLocalEventStore.ts:171-177 | a written file makes the staged space durable; a failed write, or a queue rejected before, restores the old space and rejects the queue for good |
| FileStore.FileBackedLocalEventStore.AppendTx | packages/eventstore-local/src/FileBackedLocalEventStore.ts:64-180 | a committed and durable append, or memory and file both unchanged; after one failed write no append ever changes anything |
| FileStore.FileBackedLocalEventStore.GetTxIndexById | packages/eventstore-local/src/FileBackedLocalEventStore.ts:385-393 | the id map of the log readers see, unless a failed write left one of the same size for another transaction; then that one |
| FileStore.FileBackedLocalEventStore.ReadTx | packages/eventstore-local/src/FileBackedLocalEventStore.ts:182-193 | with or without a write in flight, equals the abstract readTx exactly when the cache is not stale, or the id is neither that of the transaction being written nor of the one cached in its place, or it is both and the cached ranges reach as far |
| FileStore.FileBackedLocalEventStore.ReadRange | packages/eventstore-local/src/FileBackedLocalEventStore.ts:208-244 | with or without a write in flight, equals the abstract readRange exactly when the cache is not stale, no page is cut inside the transaction being written, or the stale entry has its id and reaches as far |
| FileStore.FileBackedLocalEventStore.GetCursorHead | packages/eventstore-local/src/FileBackedLocalEventStore.ts:252-256 | equals the head of the log |
| FileStore.FileBackedLocalEventStore.ReadPrincipalTxRange | packages/eventstore-local/src/FileBackedLocalEventStore.ts:258-276 | as many shown transactions as are left after the cursor, up to the limit, each in its place and numbered by visible rank |
| FileStore.FileBackedLocalEventStore.GetPrincipalCursorHead | packages/eventstore-local/src/FileBackedLocalEventStore.ts:278-284 | the number of transactions the viewer is shown |
| FileStore.FileBackedLocalEventStore.Reopen | packages/eventstore-local/src/FileBackedLocalEventStore.ts:321-337 | a restart reads the file back and starts with an unrejected queue |
| FileStore.StaleReadDuringLaterWrite | packages/eventstore-local/src/FileBackedLocalEventStore.ts:385-393 | a read during a write that then fails leaves a cache through which the next write's readers find the rolled-back transaction and miss the current one |
| FileStore.RangeWithOldMap | packages/eventstore-local/src/FileBackedLocalEventStore.ts:208-244 | exactly when a range read through the id map of a log that ends in another transaction gives the right page |
| FileStore.ReadTxWithOldMap | packages/eventstore-local/src/FileBackedLocalEventStore.ts:182-193 | exactly when reading one transaction through the id map of a log that ends in another transaction gives the right answer |
| FileStore.StaleRangeDuringLaterWrite | packages/eventstore-local/src/FileBackedLocalEventStore.ts:208-244 | a run in which such a read with limit 1 returns the first of several events of the transaction being written, cutting it |
| Visibility.GroupByTx | packages/eventstore-local/src/internal/txVisibility.ts:100-111 | groups one stream by transaction id, each group in stream order, ids without events left out |
| Visibility.BuildTxBundles | packages/eventstore-local/src/internal/txVisibility.ts:62-75 | one view per index entry with exactly the events carrying its id |
| Visibility.BundlesOfLog | packages/eventstore-local/src/internal/txVisibility.ts:62-111 | rebuilding bundles from index and streams gives back the appended transactions, each with its own events, in order |
| Visibility.AllowedIsShown | packages/eventstore-local/src/internal/txVisibility.ts:32-60 | a policy allows a bundle exactly when, under the access lists, no event refuses the principal (its own entry, else the one for everyone, is deny or mask), or, under the entity secret, it is not user or no event is of E-secret |
| Visibility.VisibleRanks | packages/eventstore-local/src/internal/txVisibility.ts:77-98 | the visible log is the shown transactions in order, each at the rank of how many shown ones come before it |
| Visibility.WindowShows | packages/eventstore-local/src/internal/txVisibility.ts:77-98 | filtering and slicing views gives the window of the visible log, renumbered from the clipped cursor |
| Visibility.VisibleGrows | packages/eventstore-local/src/internal/txVisibility.ts:84-89 | appends never change the ranks a viewer already has |
| Visibility.HiddenLeavesVisibleLog | packages/eventstore-local/src/internal/txVisibility.ts:32-60 | transactions the viewer cannot see, put in anywhere, leave the visible log as it was |
| Visibility.VisibleKeepsShape | packages/eventstore-local/src/internal/txVisibility.ts:77-94 | a visible log repeats no id and holds no empty bundle if the log does not |
| Paging.PullIsGreedyPage | packages/sync-local/src/internal/transportGateway.ts:129-173 | a pull is a run of the visible log that makes progress, exceeds the limit on encoded bytes only with one bundle, and stops only at a limit |
| Paging.PullLabels | packages/sync-local/src/internal/transportGateway.ts:148-149 | pulled bundles carry their true visible rank exactly when the cursor is not negative (or nothing is visible) |
| Paging.PullsDeliverAll | packages/sync-local/src/internal/transportGateway.ts:129-173 | repeated pulls under any limits deliver the rest of the visible log once, in order |
| Paging.EventsReadIsClosedRun | packages/sync-local/src/internal/transportGateway.ts:234-269 | from a boundary, eventsRead is a transaction-closed run that makes progress, exceeds a limit (events, or bytes of the encoded texts) only with one leading transaction, and stops only at a limit |
| Paging.ReadsDeliverAll | packages/sync-local/src/internal/transportGateway.ts:234-269 | repeated reads from a boundary deliver the rest of the stream once, in order |
| Polling.PollWholeTransactions | packages/sync-local/src/internal/transportGateway.ts:293-351 | from any cursor the output is both parts of exactly the wanted transactions before some point, and neither cursor component drops |
| Polling.PollFromClosedCursor | packages/sync-local/src/internal/transportGateway.ts:271-364 | from the closed cursor at rank k: exactly transactions k+1..j of both streams and the closed cursor at j; j = k only at the head or a zero limit; more than one transaction stays within all four limits, bytes counted on the encoded texts; short of the head the next transaction would exceed one of them |
| Polling.ZeroLimitStops | packages/sync-local/src/internal/transportGateway.ts:327-336 | a zero event limit stops the poll at the first transaction with events in that stream |
| Polling.PollsDeliverAll | packages/sync-local/src/internal/transportGateway.ts:271-364 | polling on from a closed cursor with positive limits delivers the rest of both streams once, in order |
| Gateway.LocalSyncGateway.SyncPull | packages/sync-local/src/internal/transportGateway.ts:129-173 | equals the page function of the principal's visible log |
| Gateway.LocalSyncGateway.ReadVisiblePrincipalEvents | packages/sync-local/src/internal/transportGateway.ts:372-395 | both streams of the visible log, renumbered from 1 |
| Gateway.LocalSyncGateway.EventsRead | packages/sync-local/src/internal/transportGateway.ts:234-269 | equals the read function of the principal's visible log |
| Gateway.LocalSyncGateway.RunEndFrom | packages/sync-local/src/internal/transportGateway.ts:253-257 | where the run of one transaction's events ends |
| Gateway.LocalSyncGateway.SyncPoll | packages/sync-local/src/internal/transportGateway.ts:271-364 | equals the poll function of the principal's visible log |
| Gateway.MaskedEqualsAbsent | packages/sync-local/src/internal/transportGateway.ts:129-395 | two gateways over stores whose logs differ only in transactions hidden from a principal answer the same pull, the same read and the same poll identically, for every cursor and limit |
| ClientRuns.PullKeepsCall | packages/sync-local/src/internal/stateDigestClient.ts:254-271 | whatever arrives between its pulls, a collection stays one slice of the visible log as it then is |
| ClientRuns.FinishValidationIff | packages/sync-local/src/internal/stateDigestClient.ts:205-232 | the end of a validation commits exactly when no poll is asked for, nothing was committed since it started, and the candidate is what was polled up to there; it never moves the durable side back |
| ClientRuns.StepSafe | packages/sync-local/src/internal/stateDigestClient.ts:109-271 | every step keeps the durable prefix: appends by others, arbitrary frames, and the start, each pull and the end of any validation or recovery, any number of them under way at once |
| ClientRuns.DurableSafe | packages/sync-local/src/internal/stateDigestClient.ts:109-271 | over every interleaving of those steps the durable state is, up to canonical form, exactly the first durableCursor visible transactions, and the cursor never drops |
| ClientRuns.CorrectStart | packages/sync-local/src/internal/stateDigestClient.ts:109-120 | new clients and clients initialised with a true prefix start correct |
| ClientRecovery.RecoverThenValidate | packages/sync-local/src/internal/stateDigestClient.ts:205-248 | on a quiet log, recovery then validation commits exactly when the pulls from the start end where those from the durable cursor end, and lands on the visible head exactly when the pulls from the start do |
| ClientRecovery.FinishedPollRecovers | packages/sync-local/src/internal/stateDigestClient.ts:205-271 | whenever the full poll ends with an empty answer within its 256 rounds, recovery then validation commits and lands on the visible head |
| ClientRecovery.StalledForGood | packages/sync-local/src/internal/stateDigestClient.ts:205-271 | at any page limit: when the full poll ends short of the head and its first page no further than what is durable, no recovery and validation ever commits again, however the log grows |
| ClientRecovery.FullPagesRecover | packages/sync-local/src/internal/stateDigestClient.ts:205-271 | if any n transactions in a row fit one page, every log of at most 256 n transactions recovers to its head |
| ClientRecovery.SmallLogsRecover | packages/sync-local/src/internal/stateDigestClient.ts:205-271 | every log of at most 256 visible transactions recovers to its head, whatever the limits and sizes |
| ClientRecovery.OneAPullStalls | packages/sync-local/src/internal/stateDigestClient.ts:254-271 | one transaction a pull from a log of more than 256, a client with anything durable is stalled in that sense |
| ClientRecovery.PageEndMonotone | packages/sync-local/src/internal/transportGateway.ts:129-173 | a page that starts later never ends earlier |
| ClientRecovery.UninterruptedCalls | packages/sync-local/src/internal/stateDigestClient.ts:205-271 | with nothing in between, the steps of a recovery or a validation are the quiet recovery and validation those results speak of |
| SyncClient.StateDigestSyncClient.InitializeDurableState | packages/sync-local/src/internal/stateDigestClient.ts:109-120 | durable and candidate side become the given state, its ids are the seen ones, decisions stay |
| SyncClient.StateDigestSyncClient.IngestSubscribeTxBundles | packages/sync-local/src/internal/stateDigestClient.ts:122-203 | equals the frame-by-frame state machine on any frames, reports how many it applied, and asks for a poll exactly when some frame breaks the rule at the client the frames before it left |
| Frames.OneFrame | packages/sync-local/src/internal/stateDigestClient.ts:122-203 | any one frame goes on without a poll exactly when it is complete and either repeats (rank not beyond, id seen) or continues (next rank, new id); it is taken exactly when it continues; the recorded reasons follow |
| Frames.RunAsksIff | packages/sync-local/src/internal/stateDigestClient.ts:122-203 | a run of any frames asks for a poll exactly when some frame neither repeats nor continues at the client it meets; until then the candidate side grows by just the frames that continue |
| SyncClient.StateDigestSyncClient.PullForCall | packages/sync-local/src/internal/stateDigestClient.ts:261-268 | one pull is the pull step of that call on the log as it is then |
| SyncClient.StateDigestSyncClient.CommitPolled | packages/sync-local/src/internal/stateDigestClient.ts:205-232 | after the pulls: the end of a validation on the client as it is by then |
| SyncClient.StateDigestSyncClient.AdoptPolled | packages/sync-local/src/internal/stateDigestClient.ts:237-247 | after the pulls: the end of a recovery on the client as it is by then |
| SyncClient.StateDigestSyncClient.Perform | packages/sync-local/src/internal/stateDigestClient.ts:122-271 | anything that can happen during an await is the step of the same name |
| SyncClient.StateDigestSyncClient.CollectFromCursor | packages/sync-local/src/internal/stateDigestClient.ts:254-271 | the run of its own pulls amid whatever others and the client's other calls do before each, until one is empty or 256 were made |
| SyncClient.StateDigestSyncClient.ValidateAndCommit | packages/sync-local/src/internal/stateDigestClient.ts:205-232 | the run of its start, its pulls and its end amid whatever happens during its awaits, and the answer of its end |
| SyncClient.StateDigestSyncClient.RecoverByFullPoll | packages/sync-local/src/internal/stateDigestClient.ts:234-248 | the same run for a recovery, and the cursor and digest of the candidate it leaves |
| SyncClient.StateDigestSyncClient.RollbackCandidateToDurable | packages/sync-local/src/internal/stateDigestClient.ts:278-285 | the candidate side and the seen ids become those of the durable side |
| Subscribe.HonestRunApplied | packages/sync-local/src/internal/stateDigestClient.ts:122-203 | a run of true frames that overlaps or continues the candidate side is taken to its end: each frame applied once, repeats ignored, no poll asked for |
| Subscribe.GapAsksForPoll | packages/sync-local/src/internal/stateDigestClient.ts:152-166 | a run that starts beyond the candidate side applies nothing and asks for a poll |
| Subscribe.BlockedUntilPoll | packages/sync-local/src/internal/stateDigestClient.ts:122-126 | while a poll is asked for no frame changes the candidate side |
| Subscribe.FollowedHeadCommits | packages/sync-local/src/internal/stateDigestClient.ts:205-226 | a client that followed the head by subscription commits it at its next quiet validation exactly when the pulls from its durable cursor reach the head |
| Shipping.ShippedStable | packages/conformance-tests/src/v2/sim/passiveReplicator.ts:85-132 | what a primary ships for a transaction never changes as its log grows |
| Shipping.ShippedIsExact | packages/conformance-tests/src/v2/sim/passiveReplicator.ts:101-109 | shipped transactions keep their ids, are never empty, and read back exactly on a replica |
| Shipping.ShippedIsLogIff | packages/conformance-tests/src/v2/sim/passiveReplicator.ts:101-109 | replicas are built from the primary's own transactions exactly when the primary's log reads back exactly |
| Shipping.KernelLogsAreExact | packages/kernel-minimal/src/KernelMinimalImpl.ts:75-79 | logs of one graph event and no meta event per transaction read back exactly |
| Shipping.StableReceiptIsOriginal | packages/conformance-tests/src/v2/sim/passiveReplicator.ts:218-242 | the receipt rebuilt from a store is the one the commit returned |
| Shipping.ReplicatedByContent | packages/conformance-tests/src/v2/sim/passiveReplicator.ts:101-117 | once a replicated bundle is committed under its slot, the same content up to volatile keys replays its receipt and any other is refused |
| Shipping.ShippedContextIs | packages/conformance-tests/src/v2/sim/passiveReplicator.ts:101-117 | what a shipped envelope carries: the replicator's slot for the space and id, the bundle's canonical text as payload hash, no base |
| NetworkSpec.SendAccounts | packages/conformance-tests/src/v2/sim/simNetwork.ts:42-53 | a send adds exactly one message to queued + delivered + dropped - duplicated, unless the bound is zero and the queue empty |
| NetworkSpec.OthersConserve | packages/conformance-tests/src/v2/sim/simNetwork.ts:55-111 | delivering, dropping, duplicating, reordering, partitioning and healing conserve that count |
| NetworkSpec.PartitionStops | packages/conformance-tests/src/v2/sim/simNetwork.ts:42-45 | a partition drops what is sent between the two peers in either direction and leaves every other send alone |
| NetworkSpec.HealLetsThrough | packages/conformance-tests/src/v2/sim/simNetwork.ts:108-111 | after healing every message is queued last |
| NetworkSpec.SentStays | packages/conformance-tests/src/v2/sim/simNetwork.ts:42-53 | on a healed network with room, messages just sent are the end of the queue: what overflows is older |
| NetworkSpec.ReorderMembers | packages/conformance-tests/src/v2/sim/simNetwork.ts:86-97 | reordering permutes the queue |
| Network.SimNetwork.Send | packages/conformance-tests/src/v2/sim/simNetwork.ts:42-53 | partitioned messages are dropped, overflow drops the oldest, the counters follow |
| Network.SimNetwork.Tick | packages/conformance-tests/src/v2/sim/simNetwork.ts:55-61 | delivers the oldest message, if any |
| Network.SimNetwork.Drop | packages/conformance-tests/src/v2/sim/simNetwork.ts:63-70 | removes exactly the chosen messages and counts them |
| Network.SimNetwork.Duplicate | packages/conformance-tests/src/v2/sim/simNetwork.ts:72-84 | every chosen message appears twice in a row, everything else once, in order |
| Network.SimNetwork.Reorder | packages/conformance-tests/src/v2/sim/simNetwork.ts:86-97 | swaps two different positions, or does nothing on a short queue |
| Network.SimNetwork.Partition | packages/conformance-tests/src/v2/sim/simNetwork.ts:103-106 | the unordered pair of peers is partitioned |
| Network.SimNetwork.Heal | packages/conformance-tests/src/v2/sim/simNetwork.ts:108-111 | no pair is partitioned |
| ReplicationSpec.DeliverySound | packages/conformance-tests/src/v2/sim/passiveReplicator.ts:134-190 | delivering transaction k to a replica holding n: an order gap if k > n, appended if k = n, unchanged if k < n; a committed answer is always the same receipt, a divergence is never reported |
| ReplicationSpec.StepSafe | packages/conformance-tests/src/v2/sim/passiveReplicator.ts:63-211 | every action of the system (append, ship, network fault, delivery, restart) keeps all replicas consistent |
| ReplicationSpec.RunSafe | packages/conformance-tests/src/v2/sim/passiveReplicator.ts:63-211 | over every run each replica's log is a growing prefix of what the primary ships, its applied index is its length, and each delivery answers with an order gap exactly when its transaction lies beyond what the replica then held, else with that transaction's own receipt |
| ReplicationSpec.StartIsConsistent | packages/conformance-tests/src/v2/sim/passiveReplicator.ts:38-61 | the fresh system is consistent |
| ReplicationSpec.ReplicaHoldsPrimaryLogIff | packages/conformance-tests/src/v2/sim/passiveReplicator.ts:85-190 | a replica holds the primary's own transactions exactly when each one it holds reads back exactly from the primary |
| Replication.PassiveReplicationHarness.GetReplicaState | packages/conformance-tests/src/v2/sim/passiveReplicator.ts:63-71 | the remembered state, or one started from the last index entry |
| Replication.PassiveReplicationHarness.ApplyToReplica | packages/conformance-tests/src/v2/sim/passiveReplicator.ts:134-190 | one delivery moves the named replica as the protocol says, and no other |
| Replication.PassiveReplicationHarness.ShipFrom | packages/conformance-tests/src/v2/sim/passiveReplicator.ts:85-132 | exactly the envelopes of the primary's transactions after the cursor, read back from its store |
| Replication.PassiveReplicationHarness.RestartReplica | packages/conformance-tests/src/v2/sim/passiveReplicator.ts:204-211 | the store survives, the applier's state for that replica is forgotten |
| Receipts.FindInIndex | packages/conformance-tests/src/v2/sim/passiveReplicator.ts:221 | the first index entry with the id |
| Receipts.BuildStableReceipt | packages/conformance-tests/src/v2/sim/passiveReplicator.ts:218-242 | the receipt put together from readTx and the index, or a divergence |
| Convergence.RoundAdvances | packages/conformance-tests/src/ct_v2_passive_replication_chaos.test.ts:342-358 | after healing, for any queue: a round delivers all of it or 200 messages, and once it fits brings every lagging replica closer if there is room for one message each, at least one closer for any bound |
| Convergence.RoundWorks | packages/conformance-tests/src/ct_v2_passive_replication_chaos.test.ts:342-353 | whatever is queued or overflows, a round brings some lagging replica closer or works off 200 stale messages and leaves only wanted ones behind them |
| Convergence.FlushConverges | packages/conformance-tests/src/ct_v2_passive_replication_chaos.test.ts:335-363 | flushing ends with every replica holding all the primary ships, for any number of replicas, any queue and any queue bound, within a stated number of rounds |
| Convergence.FlushConvergesSoon | packages/conformance-tests/src/ct_v2_passive_replication_chaos.test.ts:335-363 | with fewer than 200 replicas, or once everything fits one round, that takes only the rounds that clear the backlog plus max-lag rounds with room or total-lag rounds for any bound |
| Convergence.CaughtUp | packages/conformance-tests/src/ct_v2_passive_replication_chaos.test.ts:355-359 | a replica holds all the primary ships exactly when it is not behind, and equal id sets mean it is not behind |
| PassiveReplicaSpec.ApplyNew | packages/sync-local/src/internal/passiveReplica.ts:94-125 | a transaction the sink lacks is appended with its own receipt |
| PassiveReplicaSpec.ReplicatedContextIs | packages/sync-local/src/internal/passiveReplica.ts:70-86 | what a pulled bundle carries: its rank, the replicator's slot for the space and id, the canonical texts as hashes |
| PassiveReplicaSpec.RedeliveryIff | packages/sync-local/src/internal/passiveReplica.ts:94-125 | redelivered after a crash, a transaction is accepted with its first receipt exactly when the sink reads it back exactly, else reported as divergence; the sink does not change |
| PassiveReplicaSpec.OnceSafe | packages/sync-local/src/internal/passiveReplica.ts:164-185 | a round, wherever it crashes, keeps the sink a prefix of the visible log with the checkpoint at most one behind; without a crash it applies everything pulled unless stuck |
| PassiveReplicaSpec.RunFollows | packages/sync-local/src/internal/passiveReplica.ts:164-201 | the invariant over every run of rounds and crashes on a growing source; once stuck, stuck for good |
| PassiveReplicaSpec.CatchesUpIff | packages/sync-local/src/internal/passiveReplica.ts:187-201 | given enough crash-free rounds for what is visible now, the checkpoint reaches its end exactly when not stuck, however the source grows between the pulls; one that stops early has all its last pull found |
| PassiveReplicaSpec.KernelSourceNeverSticks | packages/sync-local/src/internal/passiveReplica.ts:101-122 | a source the kernel wrote never gets a replicator stuck, whatever its principal sees |
| PassiveReplicaSpec.CrashCanStick | packages/sync-local/src/internal/passiveReplica.ts:101-117 | a concrete run that one crash leaves stuck |
| PassiveReplicaSpec.SinkShowsTheSame | packages/sync-local/src/internal/passiveReplica.ts:94-125 | a caught-up sink shows its principal what the source shows, so projections of it agree |
| PassiveReplica.InMemoryReplicaCheckpointStore.Save | packages/sync-local/src/internal/passiveReplica.ts:45-47 | the slot's next load returns the cursor, every other principal of the space and every other slot keep theirs |
| PassiveReplica.EventStoreReplicaSource.Pull | packages/sync-local/src/internal/passiveReplica.ts:56-88 | the replicated bundles of a window of the visible log, and the cursor after them |
| PassiveReplica.EventStoreReplicaSink.Apply | packages/sync-local/src/internal/passiveReplica.ts:94-125 | equals the sink step on every branch |
| PassiveReplica.PassiveReplicator.ReplicateOnce | packages/sync-local/src/internal/passiveReplica.ts:164-185 | equals one round, for a crash anywhere, and returns the saved checkpoint whatever stopped it |
| PassiveReplica.PassiveReplicator.ReplicateUntilCaughtUp | packages/sync-local/src/internal/passiveReplica.ts:187-201 | equals the rounds up to the first that applies nothing, with whatever others append to the source before each pull, and returns the checkpoint they end at |
| PassiveReplica.ViewsAmidGrow | packages/sync-local/src/internal/passiveReplica.ts:56-88 | what the pulls of such rounds find only grows, so catching up as above applies to them |
| KernelSpec.ResolveIsHead | packages/eventstore-local/src/revisionTokens.ts:11-27 | a token resolves to the head the log had right after the first transaction it names, or to nothing |
| KernelSpec.TokensAre | packages/eventstore-local/src/revisionTokens.ts:3-9 | the head of an empty log is rev:root, any other rev:tx: and the last id |
| KernelSpec.TokenRoundTripIff | packages/eventstore-local/src/revisionTokens.ts:6-27 | the head's token resolves to the head exactly when the last id is not empty and not an earlier transaction's |
| KernelSpec.TokenStable | packages/eventstore-local/src/revisionTokens.ts:11-27 | a token keeps naming one position however the log grows |
| KernelSpec.PayloadHashesAgree | packages/kernel-minimal/src/KernelMinimalImpl.ts:66-71 | two commands hash the same exactly when their payloads mean the same and they name the same base |
| KernelSpec.PayloadHashReads | packages/kernel-minimal/src/KernelMinimalImpl.ts:66-71 | the hashed text reads back as an object of the payload and, if one is named, the base, and nothing else |
| KernelSpec.FreshWorldOrdered | packages/kernel-minimal/src/KernelMinimalImpl.ts:37-82 | the empty store with no writer under way is ordered |
| KernelSpec.StepKeepsOrder | packages/kernel-minimal/src/KernelMinimalImpl.ts:47-82 | any resolve or append step of any writer, or a direct append, keeps the order and the history |
| KernelSpec.RunKeepsOrder | packages/kernel-minimal/src/KernelMinimalImpl.ts:47-82 | over every interleaving a commit that named a base lies right after the transaction its token names, and no slot commits twice |
| KernelSpec.CommitsIffBaseIsHead | packages/kernel-minimal/src/KernelMinimalImpl.ts:47-82 | under a fresh slot an append step commits exactly when no base was named or the log still ends where the token points, else it is a revision mismatch |
| KernelSpec.OneCommitPerBase | packages/kernel-minimal/src/KernelMinimalImpl.ts:47-82 | at most one command naming a given base ever commits |
| KernelSpec.RetryReplays | packages/kernel-minimal/src/KernelMinimalImpl.ts:66-82 | under the slot of a committed command, the same payload and base replay its receipt, anything else is refused, the store unchanged |
| Kernel.KernelMinimalImpl.ResolveRevision | packages/eventstore-local/src/revisionTokens.ts:11-27 | looking the token up in the store's index gives the head of the log at the position the token names, or nothing |
| Kernel.KernelMinimalImpl.Execute | packages/kernel-minimal/src/KernelMinimalImpl.ts:37-82 | equals resolve on the old log, then whatever others appended, then the append, with every rejection branch |
| Kernel.MalformedIff | packages/kernel-minimal/src/KernelMinimalImpl.ts:38-45 | a command is refused before anything else exactly when one of its four names is empty or its payload is one of the values JavaScript takes for false |
| Kernel.ExecuteCommitsIff | packages/kernel-minimal/src/KernelMinimalImpl.ts:37-82 | a whole execution under a fresh slot commits exactly when well formed, allowed and, if a base is named, that was the end of the log and nobody appended since; its transaction is then the only one added to theirs |
| Kernel.RefusedNeverAppends | packages/kernel-minimal/src/KernelMinimalImpl.ts:37-101 | a command that is not allowed never appends anything, masked and denied are told apart only by the two reasons, and only once it is well formed with a known base |
| UndoSpec.UndoRestoresIff | packages/mesh-explorer-ui/src/undoRedo.ts:44-126 | for each kind of item, undo right after record restores node and link maps exactly when the record passed current values |
| UndoSpec.RedoPerforms | packages/mesh-explorer-ui/src/undoRedo.ts:44-142 | what recording or redoing does, map entry by map entry: a rename sets just the name of a node that is there, a creation stores just its entry, a deletion removes just that link, or that node and the links touching it, a multi-delete the listed nodes, the links touching them and the explicit links |
| UndoSpec.UndoReverts | packages/mesh-explorer-ui/src/undoRedo.ts:44-134 | what undoing does, likewise, whatever happened since |
| UndoSpec.MultiDeletePerforms | packages/mesh-explorer-ui/src/undoRedo.ts:94-106 | a recorded multi-delete removes exactly the given nodes, the links touching them and those of the given links that touch none |
| UndoSpec.SortBySorts | packages/mesh-explorer-ui/src/undoRedo.ts:95-96 | the recorded lists are the given ones, as often, in the order of their ids |
| UndoSpec.IncidentLinksSuffice | packages/mesh-explorer-ui/src/undoRedo.ts:150-152 | the incident links read off the link map are enough to undo a node deletion |
| UndoSpec.MultiDeleteSuffices | packages/mesh-explorer-ui/src/undoRedo.ts:94-126 | current nodes, with current links including all those they take with them, are enough for a multi-delete, in any order |
| UndoSpec.StartTracks | packages/mesh-explorer-ui/src/undoRedo.ts:19-21 | a new manager tracks the history of one graph |
| UndoSpec.UndoIsHistoryPointer | packages/mesh-explorer-ui/src/undoRedo.ts:44-148 | after any sequence of records, undos, redos and resets the graph is the one the history points at |
| UndoRedo.GraphMaps.ApplyGraphEvent | apps/mesh-graph-server/src/index.ts:685-699 | equals the event's effect, cascade included |
| UndoRedo.GraphMaps.DeleteLinksTouching | apps/mesh-graph-server/src/index.ts:694 | removes exactly the links with an end at the node |
| UndoRedo.UndoRedoManager.Record | packages/mesh-explorer-ui/src/undoRedo.ts:44-126 | performs the item on the graph as above and makes it the latest, dropping what could be redone |
| UndoRedo.UndoRedoManager.RecordRename | packages/mesh-explorer-ui/src/undoRedo.ts:44-51 | as above for a rename |
| UndoRedo.UndoRedoManager.RecordDeleteNode | packages/mesh-explorer-ui/src/undoRedo.ts:62-74 | as above for a node with the links passed |
| UndoRedo.UndoRedoManager.RecordMultiDelete | packages/mesh-explorer-ui/src/undoRedo.ts:94-126 | as above for the sorted nodes and links and the links no deleted node takes |
| UndoRedo.UndoRedoManager.PerformUndo | packages/mesh-explorer-ui/src/undoRedo.ts:128-134 | undoes the latest item and moves it to the redo stack |
| UndoRedo.UndoRedoManager.PerformRedo | packages/mesh-explorer-ui/src/undoRedo.ts:136-142 | redoes the last undone item and moves it back |
| UndoRedo.UndoRedoManager.ClearRedo | packages/mesh-explorer-ui/src/undoRedo.ts:31-33 | forgets what could be redone, keeps what can be undone |
| UndoRedo.UndoRedoManager.Reset | packages/mesh-explorer-ui/src/undoRedo.ts:35-38 | forgets both stacks |
| GraphModel.EventsKeepKeys | apps/mesh-graph-server/src/index.ts:685-699 | every entry stays stored under its own id |
| GraphModel.DeleteNodesDoes | apps/mesh-graph-server/src/index.ts:692-696 | deleting nodes one by one removes them and exactly the links touching any of them |
| IngestionSpec.CursorOrder | packages/mesh-explorer-ui/src/syncGuards.ts:3-6 | cursors of a log compare like the positions they stand for |
| IngestionSpec.EventIdsDistinct | packages/eventstore-local/src/InMemoryLocalEventStore.ts:115-131 | no two events of a log with fresh transaction ids share an id |
| IngestionSpec.BatchCovers | packages/mesh-explorer-ui/src/syncIngestion.ts:20-72 | a batch that leaves no gap is ignored exactly when it brings nothing new, else applies exactly the missing events once, counts the rest as duplicates, and moves the cursor up |
| IngestionSpec.OverlapIsHarmless | packages/mesh-explorer-ui/src/syncIngestion.ts:20-72 | however batches overlap, repeat or arrive late while the log grows, the client graph is the server's fold up to the furthest batch end |
| IngestionSpec.StartCovers | packages/mesh-explorer-ui/src/syncIngestion.ts:20-34 | nothing ingested covers nothing of the log |
| IngestionSpec.GrowthCovers | packages/mesh-explorer-ui/src/syncIngestion.ts:20-72 | a covered prefix stays covered as the log grows |
| IngestionSpec.SnapshotRoundTrip | packages/mesh-explorer-ui/src/bootstrapCache.ts:29-42 | a snapshot listed in any order hydrates to the same node and link maps |
| IngestionSpec.GraphsAreKeyed | packages/mesh-explorer-ui/src/graphStore.ts:66-111 | every ingested graph is one a snapshot restores |
| Ingestion.ClientFoldIsServerFold | packages/mesh-explorer-ui/src/graphStore.ts:66-111 | the explorer's fold builds the server's graph and never leaves something selected that is gone |
| Ingestion.GraphStore.ApplyGraphEvents | packages/mesh-explorer-ui/src/graphStore.ts:66-111 | equals the fold on graph and selection, cursor untouched |
| Ingestion.GraphStore.Cascade | packages/mesh-explorer-ui/src/graphStore.ts:86-91 | drops exactly the links of the node and exactly their selection |
| Ingestion.GraphStore.SetCursor | packages/mesh-explorer-ui/src/graphStore.ts:112-114 | changes the cursor and nothing else |
| Ingestion.GraphStore.ResetProjection | packages/mesh-explorer-ui/src/graphStore.ts:148-157 | empty maps and selection, cursor at zero |
| Ingestion.GraphStore.CreateProjectionSnapshot | packages/mesh-explorer-ui/src/bootstrapCache.ts:29-36 | lists every node and link and nothing else |
| Ingestion.GraphStore.HydrateFromProjection | packages/mesh-explorer-ui/src/bootstrapCache.ts:38-42 | the graph re-created from what is listed, selection and cursor reset |
| Ingestion.SyncIngestion.EnsureGraphSpaceDedup | packages/mesh-explorer-ui/src/syncIngestion.ts:74-80 | the ids seen in this graph space, created empty if missing, other spaces untouched |
| Ingestion.SyncIngestion.ApplyGuardedSyncBatch | packages/mesh-explorer-ui/src/syncIngestion.ts:20-72 | equals the ingestion step for this graph space, other spaces' ids untouched |
| Ingestion.ReadGraphView | apps/mesh-graph-server/src/index.ts:670-683 | whatever others append between its pulls, the loop ends and its view is the fold of the visible log as the last pull found it, with exactly the links that have both ends in it |
| Ingestion.PollingBuildsServerGraph | packages/mesh-explorer-ui/src/syncIngestion.ts:20-72 | polling with positive limits and ingesting every answer builds the server's graph of at least what is visible now, within one round per transaction missing, however the log grows between the polls |
| ProjectionSpec.RebuildIsFull | packages/projection-minimal/src/index.ts:34-38 | a rebuild is the full one and leaves every cache entry and snapshot right |
| ProjectionSpec.IncrementalIsFull | packages/projection-minimal/src/index.ts:70-76 | an incremental read is the full rebuild |
| ProjectionSpec.SnapshotRebuildIsFull | packages/projection-minimal/src/index.ts:40-68 | a snapshot-seeded rebuild is the full one and replays only what came after the snapshot |
| ProjectionSpec.CompactionKeepsMeaning | packages/projection-minimal/src/index.ts:98-122 | compacting a snapshot does not change what a rebuild makes of it |
| ProjectionSpec.CompactionSettles | packages/projection-minimal/src/index.ts:98-122 | a compacted snapshot holds no ids and is not compacted again |
| ProjectionSpec.CompactsIff | packages/projection-minimal/src/index.ts:98-122 | a stored snapshot is compacted exactly when it can be reused and lists ids, or does not cover just its own cursor under this policy; it then lists none and covers just that |
| ProjectionSpec.OtherPolicyNotReused | packages/projection-minimal/src/index.ts:143-148 | a snapshot saved under one policy is never reused under another, for spaces and principals without a colon in their names |
| ProjectionSpec.SavedEnvelopeIs | packages/projection-minimal/src/index.ts:56-63 | what a rebuild saves: the current version, its cursor, an id that ends in the policy's name; without a policy any snapshot is taken |
| ProjectionSpec.FullRebuildCounts | packages/projection-minimal/src/index.ts:84-96 | the full projection counts exactly what its principal sees |
| ProjectionSpec.RebuildAgainReplaysNothing | packages/projection-minimal/src/index.ts:40-68 | rebuilding again with nothing new replays nothing and changes nothing |
| ProjectionRuns.StepFaithful | packages/projection-minimal/src/index.ts:34-122 | every step keeps caches, stored snapshots and all calls under way right: appends, the start of any operation, the end of each of its awaits (load, read, save, caching), foreign saves and invalidations |
| ProjectionRuns.ReadRight | packages/projection-minimal/src/index.ts:84-96 | a read that goes on from any right seed, however the log grew since, gives the full projection of what the principal sees by then |
| ProjectionRuns.StartFaithful | packages/projection-minimal/src/index.ts:29-32 | a new engine over an empty snapshot store is right, whatever the log holds |
| ProjectionRuns.EveryProjectionIsFull | packages/projection-minimal/src/index.ts:34-122 | over every interleaving of those steps, any number of operations under way at once, every projection handed out is the full rebuild of what its principal saw at some moment between asking and being answered |
| ProjectionRuns.UninterruptedRebuild | packages/projection-minimal/src/index.ts:34-38 | with nothing in between, the steps of a rebuild are the rebuild at once |
| ProjectionRuns.UninterruptedIncremental | packages/projection-minimal/src/index.ts:70-76 | likewise for an incremental read |
| ProjectionRuns.UninterruptedSnapshotRebuild | packages/projection-minimal/src/index.ts:40-68 | likewise for a snapshot-seeded rebuild |
| ProjectionRuns.UninterruptedCompaction | packages/projection-minimal/src/index.ts:98-122 | likewise for a compaction |
| ProjectionSpec.CacheKeysDiffer | packages/projection-minimal/src/index.ts:124-126 | no two principals share a cache key |
| Projection.InMemorySnapshotStore.SaveSnapshot | packages/snapshot-minimal/src/index.ts:44-51 | the store after one save: the envelope under its scope's key, nothing for another version |
| Projection.PrincipalProjectionEngine.Load | packages/projection-minimal/src/index.ts:44-52 | after the load: the rebuild's seed, or what compaction will save, or its end |
| Projection.PrincipalProjectionEngine.ReadLog | packages/projection-minimal/src/index.ts:84-96 | after the read: the projection of what the principal sees by then, and the envelope a seeded rebuild saves |
| Projection.PrincipalProjectionEngine.Save | packages/projection-minimal/src/index.ts:64 | after the save: the envelope is the scope's latest |
| Projection.PrincipalProjectionEngine.Finish | packages/projection-minimal/src/index.ts:66-67 | the projection is cached and handed out |
| Projection.PrincipalProjectionEngine.Perform | packages/projection-minimal/src/index.ts:34-122 | anything that can happen during an await is the step of the same name |
| Projection.LoadsLastSave | packages/snapshot-minimal/src/index.ts:44-55 | after any saves, loading gives the last envelope of the supported version saved for that very space and principal, when no other space can reach its key |
| Projection.LoadsForeignIff | packages/snapshot-minimal/src/index.ts:34-55 | a space can load what was saved for another exactly when one name with the separator begins the other with it |
| Projection.ForeignSnapshotSpoilsRebuild | packages/projection-minimal/src/index.ts:40-68 | in two such spaces, what one engine saved makes the other's seeded rebuild start beyond its empty log |
| Projection.PrincipalProjectionEngine.Rebuild | packages/projection-minimal/src/index.ts:34-38 | the run of its start, its read and its caching amid whatever happens during the awaits, and the projection its last step hands out |
| Projection.PrincipalProjectionEngine.Incremental | packages/projection-minimal/src/index.ts:70-76 | likewise, from what was cached when it started |
| Projection.PrincipalProjectionEngine.RebuildWithSnapshot | packages/projection-minimal/src/index.ts:40-68 | the run of its start, load, read, save and caching amid whatever happens during the awaits, and the projection and replay count its last step hands out |
| Projection.PrincipalProjectionEngine.CompactSnapshots | packages/projection-minimal/src/index.ts:98-122 | the run of its start, load and save amid whatever happens during the awaits, true exactly when something was saved |
| ProjectionRuns.InvalidationHeals | packages/projection-minimal/src/index.ts:78-82 | an invalidation forgets whatever the cache had got wrong: with stored snapshots and calls under way right, every projection of any run after it is full again |

## Left out

- Compaction followed by reads or appends: it shrinks arrays whose lengths later sequence numbers are taken from, so every statement is about compaction-free runs.
- Transactions that reuse an id under a new slot: the store accepts them, but index, id map and visible bundles then disagree; reads, gateway and replication are stated for fresh ids (the kernel's compare-and-swap is not restricted).
- Several graph spaces in one store: each store object is one space; the per-space maps of the gateway's scope check and of the stores are not modelled.
- Idempotency slots, event ids and partition keys are kept as their components, not as concatenated strings, so collisions between differently split strings are not modelled.
- SHA-256 and the FNV digest of the bootstrap cache: digests are the canonical text; the persistence of the bootstrap record is not modelled.
- `localeCompare` is replaced by the order on UTF-16 code units. Sizes and equalities do not depend on which total order it is, but different keys that a collation takes for equal, and an own key named `__proto__`, are not modelled.
- Canonical.PrintsUnlessRefused: cyclic values, on which the printer also throws, are outside the model, whose payloads are finite trees.
- Null-prototype objects, which the printer hands to `JSON.stringify` with keys unsorted, and values with custom classes: payloads are finite trees of data, as JSON events are; a payload the printers throw on never reaches a log here.
- Number formatting: a number is the text it prints as.
- `Number.MAX_SAFE_INTEGER` as a read limit: the gateway model passes the visible head count instead, and projections assume a log no longer than that constant.
- `syncSubscribe`'s timing, heartbeats and frames: a client may be handed any frames at all.
- Appends arriving for ever during `readGraphView`: its loop need not end then; any finite number of them is covered.
- `initializeDurableState` in the middle of a run: it is a way to start one (`ClientRuns.CorrectStart`), since it may move the durable cursor back.
- Read-cost counters, debug logs, `readTxForPrincipal`, chaos statistics, and HTTP, SSE, CLI and user-interface code: plumbing, or easy members.
- `FileBackedSnapshotStore`, and runs in which the visibility policy changes: of those only that the other policy's snapshots are not reused.
- Access lists and payloads that are strings or arrays, and principals named like a property every JavaScript object inherits: lookups see own members of plain objects only.
- A failing action in the middle of an undo or redo: the graph actions are taken to succeed.
- JavaScript `Map` iteration order: node and link maps are compared as maps.
- The notes application's replica, whose deduplication by content is not a replay of the log.
- Polling.PollsDeliverAll: stated for positive event limits; a zero limit blocks at the first transaction with events in that stream, as `Polling.ZeroLimitStops` says.
- RangeRead.RangeIsShortestClosed: stated from transaction boundaries and caps at past heads, where the source promises closed runs; other starting points are only covered by the stores' equality with the abstract read.
