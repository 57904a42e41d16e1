# Verification of the hifumi synchronisation backend

This project models the per-owner synchronisation engine of the backend, the event stream that reads its
log, and the three small protocols beside it (wake-up hub, realtime outbox, fixed-window limiter), and proves
what they keep over whole runs. `dafny verify dfyconfig.toml` checks everything.

**How the model is built.**

- An owner's rows are a value (`Tables.Tables`): the cursor, records, operations and receipts (`Tables.Core`),
  the lineage, the resolution receipts, the archive with its heads, and the outbox. Statements are functions on
  that value, with the key constraints of the schema: a violated key, a full `BIGINT` or an overlong
  `progress_day` is an error.
- `SyncSpec` gives `Exchange`, `Diff`, `ResolveBaseline` and `ReadFeedPage` as functions from tables to tables
  and reply. An error is a rolled-back transaction.
- `OwnerTx` and `Service` are the imperative code: a transaction object whose methods update its tables, a
  store that commits it whole or not at all, and the service's methods with their loops. Each method is proved
  to compute its `SyncSpec` function and to leave the store alone on every error.
- `CoreInvariant`, `ArchiveInvariant`, `OwnerInvariant` and `ResolveInvariant` prove one invariant for every
  committed command, and a relation `Later` between any state and any state reached from it. `History`,
  `Replay`, `Resending`, `Batching`, `Halving`, `Resets`, `Resolutions`, `CommandOutcomes`, `ClientView`,
  `WireBounds`, `ExchangePages` and `Replies` draw the consequences, for all runs that start from an owner without rows;
  `Scenarios`, `HalvingScenario` and `ResendScenario` hold concrete runs that reach the exceptions.
- `ProgressLaws` and `Encoding` say what the leaf computations mean without repeating them: which keys and JSON values
  carry which date, and that the sizes are the lengths of encodings that read back.
- `FeedPages`, `FeedStream` and `StreamSession` are the stream: every page is read from a later state than the
  one before, with any commits and resets in between.
- `WakeHub`, `Outbox` and `RateLimit` are the small protocols: the code as classes, the interleavings as
  state machines over atomic steps. `WakeSession` puts the wake-up protocol and the stream together.

**What comes from outside.** The clock, the random bytes of a new baseline id, and the decoders
`json.Unmarshal` and `url.PathUnescape` are parameters (`SyncSpec.Env`, `Progress.Codec`). The one assumption on
the random source is the one the code relies on: sixteen bytes whose id has no archive head yet. MySQL is
taken to run in strict mode, as by default. Redis keeps a key visible through the millisecond of its expiry,
which is the case that the limiter's `ttl < 1` branch serves.

**Findings.** Three of the expected properties hold only under a condition.

- "Halving a diff that is too large makes progress" fails when an early part of the batch, committed alone, leaves a
  progress day that does not derive or does not fit its column, which a later mutation of the batch would have
  mended. A batch cut in two goes through iff its first part applies nothing or leaves a day that derives and fits
  (`Halving.HalvedDiffsMatchWhole`); the second part then always commits. With every prefix of that kind the whole
  retry succeeds and delivers what the batch would have (`Halving.RetryDelivers`).
  `HalvingScenario.HalvingCanFail` is a history in which it never delivers anything: a batch of six small mutations
  creates a live record under `stella/v1/%zz`, conflicts four times with one large record, whose value is repeated in
  each answer, and deletes the record again.
- "A `USE_LOCAL` request takes effect at most once" holds whenever it expects a version of at least 1. In general a
  request that has taken effect can do so again iff the baseline it expects was not archived before it and the id the
  reset takes is another one (`Resolutions.OnceIffArchived`): an empty lineage that was never archived can be adopted
  again. `Scenarios.SameResetTwice` is such a history, from an owner without rows.
- Hints leave the outbox in commit order with one publisher; any two publishers can reverse an owner's hints, even when
  nothing fails, because the second skips the row the first still holds (`Outbox.TwoPublishersCanReorder`).

Two more facts a client may not expect. An operation taken over from a `USE_LOCAL` snapshot has an op_id in the log but
no receipt: the same change sent again as a mutation is not replayed, and fails on the op_id key unless it conflicts
(`Replay.OpIdCollision`; `Scenarios.SnapshotOpIdIsRefused` is a concrete history). And a committed diff that is sent
again later can be refused for its size, because the header of the response has grown (`Resending.ResentDiff`;
`ResendScenario.ResentCanBeTooLarge` is a concrete history, in which a later record has a longer progress day).

The limiter is better than twice its limit: in any half-open interval of one window length at most `2 * limit - 1` calls
are accepted. Every limit reaches that bound with every window of at least two milliseconds; a window of one millisecond
never admits more than its limit.

## Model

| member | source | states |
|---|---|---|
| CoreInvariant.ApplyMutationsKeepsInv | internal/sync/service.go:482-547 | every batch that commits keeps the log dense, op ids unique, each record the latest operation on its key, and applied receipts in one-to-one correspondence with the operations after the snapshot prefix; acks and canonical changes align with the mutations, and the archived changes are exactly the appended operations |
| CoreInvariant.AcceptKeepsInv | internal/sync/service.go:523-546 | accepting a fresh mutation keeps all of that and overwrites no operation or receipt |
| CoreInvariant.RejectKeepsInv | internal/sync/service.go:534-546 | a rejected mutation always gets its receipt, which points at an existing operation |
| CoreInvariant.LoadSnapshotKeepsInv | internal/sync/service.go:395-408 | a snapshot becomes operations 1..n without receipts, and the tables are consistent again |
| ArchiveInvariant.ArchiveChangesEffect | internal/store/mysql/store.go:434-459 | archiving consecutive changes past the archived head never meets an existing key and changes no archived row |
| ArchiveInvariant.PublishInLine | internal/sync/service.go:587-605 | the end of a commit always succeeds, appends to one baseline's archive only, and adds exactly one event |
| History.ArchivedVersionsClimb | internal/store/mysql/store.go:219-231 | in every state of every run the archived versions of each baseline are a non-decreasing map from cursors 1..head onto versions 1..version of its head |
| OwnerInvariant.EnsureLineageKeepsInv | internal/sync/service.go:629-661 | a missing lineage implies cursor 0, so the branch that forks a baseline for a positive cursor is never taken |
| OwnerInvariant.MutateKeepsInv | internal/sync/service.go:557-606 | an applied and finalized batch keeps every table consistent, the progress day included, and leads to a later state |
| OwnerInvariant.LaterTransitive | internal/sync/service.go:375-386 | "later" composes: retired baselines stay retired across any number of resets |
| ResolveInvariant.NewBaselineIdIsValid | internal/sync/service.go:747-754 | sixteen random bytes give a well-formed baseline id |
| ResolveInvariant.HexReadsBack | internal/sync/service.go:747-754 | the digits read back to the bytes, the high half of each byte first |
| ResolveInvariant.NewBaselineIdsDiffer | internal/sync/service.go:747-754 | two new ids are equal iff their sixteen random bytes are |
| ResolveInvariant.UseLocalKeepsInv | internal/sync/service.go:371-458 | a reset keeps the invariant and retires the archived baseline it replaces for good |
| ResolveInvariant.ResolveKeepsInv | internal/sync/service.go:325-474 | every resolution, replayed, stale, local or server, keeps the invariant |
| ResolveInvariant.CommitKeepsInv | internal/sync/service.go:94-474 | every committed command keeps the invariant and leads to a later state |
| History.RunKeepsInv | internal/sync/service.go:94-474 | the invariant holds in every state of every run |
| History.HistoryIsWrittenOnce | internal/sync/service.go:375-445 | over every run, a pair of baseline id and cursor never denotes two changes; each baseline's log is dense and only grows at its end |
| History.VersionDeterminesState | internal/sync/service.go:365-369 | baseline id and version determine the log, the records and the progress day |
| History.ExpectationIsSound | internal/sync/service.go:365-369 | when a resolution's expectation matches, the server holds exactly what any earlier observer of that pair saw |
| CommandOutcomes.OnlyExpectedErrors | internal/sync/service.go:482-606 | in reachable states no lookup misses and no key is violated but the op_id key of the log |
| CommandOutcomes.OneEventPerChange | internal/sync/service.go:584-602 | one event per state-changing commit, carrying the baseline, cursor and version it leaves, and none otherwise |
| Replies.ExchangeReply | internal/sync/service.go:94-190 | a committed exchange answers with the lineage of the tables it leaves; a mismatch, exactly when that baseline is not the requested one, has no acks and no changes, the cursor of the request, and changes nothing; otherwise one ack a mutation, the next cursor one page on or at the head, has_more iff the head is not reached, reset_required iff the cursor lies past it, and a state change reported iff the log grew |
| Replies.DiffReply | internal/sync/service.go:192-266 | the same for a committed diff: lineage and cursor of the tables it leaves, mismatch exactly on another baseline and then empty, else one ack and one canonical change a mutation |
| Replies.ResolveReply | internal/sync/service.go:325-474 | a committed resolution answers with the lineage and cursor it leaves; it is stale iff its receipt, or without one its expectation, is not the current head, and then has no records and changes nothing; else the records left, each once in key order; a new receipt remembers the request and that head; only a local choice without a receipt changes the state |
| Replies.RepeatedRequest | internal/sync/service.go:345-348 | a request_id with a receipt is refused iff one of the four remembered fields differs |
| Replies.FeedReply | internal/sync/service.go:268-323 | a feed read fails iff an id is malformed, the cursor unsafe or the limit negative; else every field of the page in terms of the tables, for every limit |
| Replies.InvalidFails | internal/sync/service.go:94-101 | an invalid command fails with what validation says, whatever the tables |
| Replay.NoLostUpdates | internal/sync/service.go:513-547 | a fresh mutation is applied with its own content iff no operation on its key lies above its base version, earlier ones of the batch included, and stored with the time of [1, now + 5 min] nearest to its own; otherwise it is answered with the latest operation on its key |
| Replay.OpIdCollision | migrations/001_sync_core.up.sql:63 | the op_id key stops a mutation iff its op_id was taken over from a USE_LOCAL snapshot |
| Replay.AckIsStable | internal/sync/service.go:499-508 | once acknowledged under a baseline, an op_id in a later diff that commits gets a mismatch or the identical ack and canonical change |
| Resending.ResentDiff | internal/sync/service.go:192-266 | a valid diff whose mutations were all acknowledged, sent again at any later time, gets a mismatch, the identical acks and canonical changes, or a refusal for its size; nothing else, never the refusal with at most three mutations, and nothing is written |
| ResendScenario.ResentCanBeTooLarge | internal/sync/service.go:250-254 | a concrete history: a diff within the request limit commits with a response of exactly the maximal size, a later commit lengthens the progress day, and the diff sent again is refused for its size at any clock |
| Resending.ResentExchange | internal/sync/service.go:94-190 | such an exchange never fails and writes nothing: a mismatch or the identical acks |
| Resending.ExchangeAckIsStable | internal/sync/service.go:499-508 | an acknowledged op_id in any later exchange that commits gets a mismatch or the identical ack, whose operation is still in the log |
| Replay.ResentDiffIsIdentical | internal/sync/service.go:192-266 | resending a committed diff at any clock value returns the identical response and changes nothing |
| Batching.ApplySplit | internal/sync/service.go:495-553 | applying a batch is applying its parts in turn |
| Batching.HalvesMatchWhole | internal/sync/service.go:482-606 | a batch and its halves, when all commit at one clock, give the same log, records, receipts, acks, canonical changes and progress day |
| Halving.MutateCommits | internal/sync/service.go:557-606 | a batch commits iff it applies and, if it changed a record, the progress day of the records derives and fits |
| Halving.HalvesCommit | internal/sync/service.go:557-606 | of a batch that commits, the first part commits iff it applies nothing or leaves a fitting day, and then the second part commits |
| Halving.TooLargeMeansCommittable | internal/sync/service.go:250-254 | only a batch on the current baseline that would commit, of at least four mutations, is refused for its size |
| Halving.HalvedDiffsMatchWhole | README.md:89 | for a diff that would commit but perhaps for its size, cut anywhere: the first part is accepted or too large iff it applies nothing or leaves a fitting day; after it the second part is accepted or too large; both together deliver what the whole would have |
| Halving.RetryDelivers | README.md:89 | the halve-and-retry loop never ends in a refusal for size; if it ends well it has delivered what the batch would have, if not a part failed for its progress day, and it ends well when every prefix is committable |
| HalvingScenario.HalvingCanFail | internal/sync/progress.go:15-32 | a concrete history and batch, small as requests, whose response is too large and of which no proper prefix is ever accepted |
| Resets.ResetLosesNothing | internal/sync/service.go:387-445 | the replaced baseline's whole log stays in its archive; the new log is the snapshot in key order at cursors 1..n |
| Resets.ResetIsOrderIndependent | internal/sync/service.go:390-393 | tables and reply depend only on the set of snapshot mutations |
| Resets.TakesEffectAtMostOnce | internal/sync/service.go:345-386 | a USE_LOCAL request that expects a version of at least 1 takes effect at most once in any run, and so does every request that expects the same baseline |
| Resets.ArchivedMeansOnce | internal/sync/service.go:374-386 | a reset whose expected baseline is archived before it, or is the one whose id it takes, never takes effect again |
| Resolutions.UnarchivedCanRecur | internal/sync/service.go:642-659 | otherwise one further commit leads to a state where the same request takes effect again |
| Resolutions.OnceIffArchived | internal/sync/service.go:345-386 | both together: the exact condition, on the tables before the request |
| Scenarios.SameResetTwice | internal/sync/service.go:345-386 | a concrete run from an owner without rows in which one request with expected version 0 takes effect twice |
| Scenarios.SnapshotOpIdIsRefused | internal/sync/service.go:395-408 | a concrete reset after which a diff that resends the snapshot's own change, based on what the reset left, always fails on the op_id key |
| Resolutions.ReplayedResolutionIsIdentical | internal/sync/service.go:345-360 | replaying a resolution whose version is still current returns the original response and changes nothing |
| Resolutions.ResolutionsAreCurrent | internal/sync/service.go:434-437 | in every state of every run a resolution receipt names the current baseline and lies no further than its head |
| ClientView.RecordsAreFoldedLog | internal/store/mysql/store.go:290-325 | the record table is the fold of the log, tombstones included |
| ClientView.ClientRebuildsRecords | internal/sync/service.go:524-537 | in every state of every run a client that folds the log page by page, however it is cut, or drains it at any page limit, holds exactly the records |
| ClientView.DrainOverStates | internal/sync/service.go:161-164 | iterating on the next cursor while other devices commit to the same baseline reads its log without gap or repeat, up to the head of a state it has seen unless its reads run out |
| WireBounds.ChangeBound | internal/sync/validation.go:57-71 | a stored change within the validated limits encodes to at most 132901 bytes |
| WireBounds.DiffNeverTooLarge | internal/sync/service.go:608-617 | a diff of at most three mutations is never refused for its size |
| WireBounds.TooLargeMeansFour | README.md:89 | so a refused diff carries at least four |
| WireBounds.FourFullValuesAreTooLarge | internal/sync/service.go:608-617 | a response with four canonical values of the maximal size is always too large |
| HalvingScenario.FourCanBeTooLarge | internal/sync/service.go:250-254 | a concrete history and diff of four small mutations that is refused for its size, so the bound of three cannot be raised |
| WireBounds.RequestBound | internal/httpapi/server.go:681-683 | a valid diff request is longer than its values by at most 1854 bytes a mutation and 200 in all |
| Encoding.EncodeDiffResponse | api/sync/v1/sync.proto:69-78 | an encoding, field by field, whose length is the size that the limit is checked against |
| Encoding.EncodeDiffRequest | api/sync/v1/sync.proto:60-67 | the same for a diff request |
| Encoding.EncodeSyncResponse | api/sync/v1/sync.proto:47-58 | the same for an exchange reply, the shape of a feed event |
| Encoding.VarintRoundTrip | internal/sync/service.go:608-617 | the varints of that encoding read back, whatever follows |
| Encoding.Utf8IsInjective | internal/sync/service.go:608-617 | so do its strings, characters of two, three and four bytes included |
| Encoding.UnitsRoundTrip | internal/sync/validation.go:217-219 | the code units counted for a key make up its characters again |
| ExchangePages.PageIsSlice | internal/store/mysql/store.go:273-288 | a page is the next part of the log, says truthfully whether more follows and ends at its last cursor |
| ExchangePages.ExchangeResponseMeaning | internal/sync/service.go:141-181 | the response is sorted, holds every operation in (cursor, next] exactly once, and outside that range only forced changes, each the canonical change of a conflict of the batch; it advances while there is something to read |
| ExchangePages.ExchangeCovers | internal/sync/service.go:141-181 | the same in terms of a committed exchange, its acks and the tables it leaves, with the bounds and the progress of the next cursor |
| ExchangePages.DrainReadsTheRest | internal/sync/service.go:161-164 | iterating on the next cursor reads the rest of the log without gap or repeat |
| OwnerTx.Tx.ClearCurrentBaseline | internal/store/mysql/store.go:403-417 | receipts, operations, records and resolutions are gone, the cursor is 0; archive, heads, outbox and lineage stay |
| OwnerTx.Tx.AppendOperation | internal/store/mysql/store.go:290-305 | writes the row, or fails on the cursor key or the op_id key |
| OwnerTx.Store.Commit | internal/store/mysql/store.go:72-80 | a commit replaces the rows of its owner only |
| Service.ApplyMutations | internal/sync/service.go:482-553 | the loop computes the specified batch and tables, or its first error |
| Service.FinalizeMutationBatch | internal/sync/service.go:557-606 | version, progress day, archive rows, archive head and event as specified |
| Service.EnsureLineage | internal/sync/service.go:629-661 | the existing lineage, or the one the specification creates |
| Service.SyncService.Exchange | internal/sync/service.go:94-190 | reply and rows as specified; on any error the store is unchanged |
| Service.SyncService.Diff | internal/sync/service.go:192-266 | reply and rows as specified; an oversized response leaves no trace of the batch |
| Service.SyncService.ResolveBaseline | internal/sync/service.go:325-474 | reply and rows as specified; on any error the store is unchanged |
| Service.SyncService.ReadFeedPage | internal/sync/service.go:268-323 | one page of one consistent state |
| Validation.ValidateLocalSnapshot | internal/sync/validation.go:190-202 | accepts exactly the snapshots of valid mutations without a repeated key |
| Validation.AcceptedMutation | internal/sync/validation.go:57-71 | the exact limits of a mutation, the match with the device of the request among them |
| Validation.AcceptedRequests | internal/sync/validation.go:73-188 | which exchanges, diffs and resolutions get past validation |
| Ordering.BelowMeaning | internal/sync/service.go:391-393 | the order of the snapshot is that of the first difference, a prefix coming first |
| Progress.ProgressDayMeaning | internal/sync/progress.go:15-65 | the day exists iff every record's date derives; it is the campaign start or the greatest of those dates (`ProgressLaws.ProgressDayLaw` says which they are) |
| Progress.DeriveProgressDay | internal/sync/progress.go:15-65 | the loop, the sort and the last element give that day |
| ProgressLaws.RecordDateMeaning | internal/sync/progress.go:15-64 | which date a record carries, said on the percent-decoded segments of its key and its JSON value; deleted rows and all other keys carry none; a key stops the derivation iff it has segments that do not decode |
| ProgressLaws.ProgressDayLaw | internal/sync/progress.go:15-65 | the day of the record rows in those terms: the greatest date carried, or the campaign start |
| ProgressLaws.DayOfRecord | internal/sync/progress.go:40-87 | each kind of record alone: journal, goals, blessing and item give their day iff they say something, quote its date, raffle its draw date or else its date |
| ProgressLaws.TextOfValues | internal/sync/progress.go:101-125 | the text of each kind of value; an array joins the texts of its items with commas |
| ProgressLaws.FalsyValues | internal/sync/progress.go:127-140 | only null, false, zero and the empty string are falsy |
| ProgressLaws.BlankStrings | internal/sync/progress.go:70-76 | a text is blank iff all its characters are Unicode white space |
| FeedPages.BoundedFeedResponse | internal/httpapi/sse.go:237-274 | the whole page if it fits, else the longest prefix that fits with the cursor of its last change; an error only when not one change fits |
| FeedPages.PrefixSizeMonotone | internal/httpapi/sse.go:249-265 | a longer prefix never encodes smaller, which the binary search needs |
| FeedStream.StillFollows | internal/httpapi/sse.go:174-197 | commits and resets between two reads leave a stream able to continue, or its baseline replaced |
| FeedStream.SendPage | internal/httpapi/sse.go:174-223 | one round: a mismatch, a reset, or the log from the cursor on, then ready exactly at the head; every event carries the baseline, version, update time and progress day of the state read |
| FeedStream.SendFeed | internal/httpapi/sse.go:167-225 | under any interleaving, exactly the baseline's log over (start, final]; every event carries the lineage of a state that was read, in the order of the reads, or the defaults without one; reset_required only on the first read; ready last and at the head of the last state read; no failure while cursors are safe integers; every read but the last advances; each changes event fits and its next cursor is that of its last change; a finished catch-up from cursor 0 folds to the records of the last state read |
| FeedStream.CaughtUpClient | internal/httpapi/sse.go:167-225 | a client that folds what was sent from cursor 0 up to the head of a state holds exactly its records, tombstones included |
| StreamSession.EventStream | internal/httpapi/sse.go:117-161 | the same over all catch-ups of a stream, headers of the events included, each ending as SendFeed says; only a finished one is followed by another; ready only in the first; from cursor 0 a client that followed finished catch-ups holds the records of the last state read |
| StreamSession.RunIsObserved | internal/store/mysql/store.go:86-154 | reading any run at non-decreasing points gives the states one catch-up asks for |
| StreamSession.RunIsObservedAll | internal/store/mysql/store.go:86-154 | and those a whole session asks for, when its reads go forward over all catch-ups |
| WakeHub.WakeHub.Register | internal/realtime/wake_hub.go:39-57 | an open channel, or a closed one after Close |
| WakeHub.WakeHub.Publish | internal/realtime/wake_hub.go:63-75 | a token for every open channel of the owner, none sent on a closed one |
| WakeHub.WakeHub.Unregister | internal/realtime/wake_hub.go:79-95 | removes and closes once, however often it is called |
| WakeHub.WakeHub.Close | internal/realtime/wake_hub.go:100-113 | closes every open channel exactly once |
| WakeHub.NoWakeUpIsLost | internal/realtime/wake_hub.go:63-75 | in every interleaving, a live stream that waits without a token last read after every commit published for its owner |
| WakeHub.TokensAndChannels | internal/realtime/wake_hub.go:39-113 | in every interleaving a token only ever stands in a channel whose owner was published for, and a channel is open iff its stream lives and the hub was not shut |
| WakeSession.FollowWakeUps | internal/httpapi/sse.go:82-161 | whenever a live stream waits without a token after a finished catch-up, it has delivered every change of its baseline's log, from its start on, that any commit published for its owner had made |
| Outbox.OutboxTable.PublishOne | internal/store/mysql/outbox.go:40-91 | one call, whatever rows other publishers hold: a select of the first free row, a send or a refusal, and a finish, or a rollback when the update or the commit fails |
| Outbox.MarkedOnlyAfterSend | internal/store/mysql/outbox.go:48-90 | for any number of publishers with crashes, no two hold one row and a row is marked only after a send |
| Outbox.MarksMeanTries | internal/store/mysql/outbox.go:40-91 | in every interleaving a row counts the transactions committed on it, and is marked published iff one of them had sent its hint |
| Outbox.SinglePublisherKeepsOrder | internal/store/mysql/outbox.go:18-38 | with one publisher each owner's hints first go out in commit order, counting hints that went out although the publish reported an error |
| Outbox.TwoPublishersCanReorder | internal/store/mysql/outbox.go:53-54 | with any two publishers they need not |
| RateLimit.Limiter.CheckFixedWindow | internal/realtime/redis.go:50-72 | the script's result and counter |
| RateLimit.CountsItsWindow | internal/realtime/redis.go:50-63 | the counter is the number of calls accepted since the first of them opened its window, at most the limit |
| RateLimit.RejectedWhenFull | internal/realtime/redis.go:50-72 | a call is rejected iff limit calls were accepted in the open window, and then told to wait for exactly what remains of it, or a second in its last millisecond |
| RateLimit.FewerThanTwiceTheLimit | internal/realtime/redis.go:50-63 | at most 2 * limit - 1 calls accepted in any half-open interval of one window length |
| RateLimit.BoundIsReached | internal/realtime/redis.go:50-63 | for every limit and every window of at least two milliseconds some ordered calls reach that bound |
| RateLimit.OneMillisecond | internal/realtime/redis.go:50-63 | with a window of one millisecond no interval of its length holds more than limit |

## Left out

- HTTP routing, cookies, OAuth, tokens, configuration, migrations, logging: plumbing around the engine.
- WebSocket and SSE byte writing, base64 and JSON envelopes: a stream is the sequence of its events; only protobuf sizes are modelled.
- SQL isolation, driver errors and collation: tables are exact maps, an owner transaction is one atomic step, a failed one changes nothing.
- Column widths that validation already guarantees are not checked again; only `progress_day` can overflow.
- Nil elements of repeated message fields: a decoded protobuf message never holds one.
- The 512 KiB limit on an exchange reply: the server checks it after the commit, so no rollback is claimed.
- JSON decoding and percent-decoding: parameters of the model.
- Deriving the progress day does not say it is monotone or not before the campaign start; it is neither.
- Connection leases, user profiles and the older broadcast hub: short invariants of their own.
- Heartbeats, session expiry and the reconcile timer: a stream's catch-ups happen at any time and in any number.
- RunOutbox: the 500 ms polling loop around publishOne is not modelled; its calls are the acts of the outbox protocol.
- Halving.MutateCommits: a progress day is a string of characters, so a percent-decoded segment that is not valid UTF-8, which a strict utf8mb4 column refuses, is not covered.
- Service.ApplyMutation and Service.Publish are parts of the loops of applyMutations and finalizeMutationBatch, split off as methods of their own.
- FeedStream.SendFeed: the number of reads is given with the states they see, since writers may outrun a reader for ever.
