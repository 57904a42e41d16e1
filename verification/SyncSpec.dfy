/** The engine as functions on an owner's tables: the specification of the service's methods. */
module SyncSpec {
  import opened Prelude
  import opened Ordering
  import opened SyncTypes
  import opened Validation
  import opened Wire
  import opened Progress
  import opened Tables

  /** What one call sees of its environment: the clock, the random source and the decoders. */
  datatype Env = Env(now: Uint64, random: Option<seq<Byte>>, codec: Codec)

  const HEX_DIGITS := "0123456789abcdef"

  function Hex(bytes: seq<Byte>): (digits: string)
    ensures |digits| == 2 * |bytes|
    ensures AllLowerHex(digits)
  {
    if bytes == [] then ""
    else [HEX_DIGITS[(bytes[0] as int) / 16], HEX_DIGITS[(bytes[0] as int) % 16]] + Hex(bytes[1..])
  }

  function NewBaselineId(env: Env): Result<string> {
    if env.random.None? then Err(NoRandomness) else Ok(BASELINE_PREFIX + Hex(env.random.value))
  }

  // ----- mutations -----

  datatype Batch = Batch(
    acks: seq<MutationAck>, canonicalChanges: seq<Change>, forcedChanges: seq<Change>,
    archiveChanges: seq<Change>, appliedCount: nat)
  {
    function Acked(ack: MutationAck, canonical: Change): Batch {
      this.(acks := acks + [ack], canonicalChanges := canonicalChanges + [canonical])
    }
  }

  const EMPTY_BATCH := Batch([], [], [], [], 0)

  predicate Conflicts(core: Core, m: Mutation) {
    m.entityKey in core.records && core.records[m.entityKey].cursor > m.baseVersion
  }

  /** A fresh mutation that does not conflict: the next cursor, the log, the record, the receipt. */
  function Accept(core: Core, batch: Batch, m: Mutation, now: Uint64): Result<(Core, Batch)> {
    var numbered :- core.NextCursor();
    var change := MutationChange(m, numbered.cursor, ClampClientTime(m.clientTimeMs, now));
    var logged :- numbered.AppendOperation(change);
    var receipt := Receipt(m.opId, numbered.cursor, false, true);
    var receipted :- logged.UpsertRecord(change).InsertReceipt(receipt);
    Ok((receipted,
        batch.(archiveChanges := batch.archiveChanges + [change], appliedCount := batch.appliedCount + 1)
        .Acked(receipt.Ack(), change)))
  }

  /** A fresh mutation below the record of its key: only a receipt that points at the record. */
  function Reject(core: Core, batch: Batch, m: Mutation): Result<(Core, Batch)>
    requires Conflicts(core, m)
  {
    var existing := core.records[m.entityKey];
    var receipt := Receipt(m.opId, existing.cursor, true, false);
    var receipted :- core.InsertReceipt(receipt);
    Ok((receipted, batch.(forcedChanges := batch.forcedChanges + [existing]).Acked(receipt.Ack(), existing)))
  }

  /** A mutation whose op_id has a receipt: its acknowledgement and the operation it points at. */
  function Replay(core: Core, batch: Batch, m: Mutation): Result<(Core, Batch)>
    requires m.opId in core.receipts
  {
    var receipt := core.receipts[m.opId];
    if receipt.serverCursor !in core.operations then Err(RowNotFound)
    else Ok((core, batch.Acked(receipt.Ack(), core.operations[receipt.serverCursor])))
  }

  function ApplyMutation(core: Core, batch: Batch, m: Mutation, deviceId: string, now: Uint64): Result<(Core, Batch)> {
    var valid := ValidateMutation(m, deviceId);
    if valid.Fail? then Err(valid.error) else
    if m.opId in core.receipts then Replay(core, batch, m)
    else if Conflicts(core, m) then Reject(core, batch, m)
    else Accept(core, batch, m, now)
  }

  function ApplyMutations(core: Core, ms: seq<Mutation>, deviceId: string, now: Uint64): Result<(Core, Batch)> {
    if ms == [] then Ok((core, EMPTY_BATCH))
    else
      var (before, batch) :- ApplyMutations(core, ms[..|ms| - 1], deviceId, now);
      ApplyMutation(before, batch, ms[|ms| - 1], deviceId, now)
  }

  // ----- the end of a batch -----

  function ArchiveChanges(t: Tables, baselineId: string, version: nat, at: nat,
                          changes: seq<Change>): (r: Result<Tables>)
    ensures r.Ok? ==> r.value == t.(archive := r.value.archive)
  {
    if changes == [] then Ok(t)
    else
      var before :- ArchiveChanges(t, baselineId, version, at, changes[..|changes| - 1]);
      before.ArchiveChange(baselineId, version, at, changes[|changes| - 1])
  }

  /** Archive the changes of a commit, move the archive head and enqueue the hint. */
  function Publish(env: Env, origin: string, t: Tables, changes: seq<Change>): (r: Result<Tables>)
    requires t.lineage.Some?
    ensures r.Ok? ==> r.value.lineage == t.lineage && r.value.core == t.core && r.value.resolutions == t.resolutions
  {
    var l := t.lineage.value;
    var archived :- ArchiveChanges(t, l.baselineId, l.version, env.now, changes);
    Ok(archived
       .UpsertArchiveHead(l.baselineId, t.core.cursor, l.version, env.now)
       .InsertEvent(RealtimeEvent(l.baselineId, t.core.cursor, l.version, origin, env.now)))
  }

  function FinalizeBatch(env: Env, origin: string, t: Tables, batch: Batch): (r: Result<Tables>)
    ensures r.Ok? && t.lineage.Some? ==> r.value.lineage.Some?
  {
    if batch.appliedCount == 0 then Ok(t)
    else
      var day :- ProgressDay(env.codec, RecordRows(t.core.records));
      var versioned :- t.IncrementLineage(env.now, day);
      Publish(env, origin, versioned, batch.archiveChanges)
  }

  /** A batch applied to the tables and finalized. */
  function Mutate(env: Env, origin: string, t: Tables, ms: seq<Mutation>,
                  deviceId: string): (r: Result<(Tables, Batch)>)
    ensures r.Ok? && t.lineage.Some? ==> r.value.0.lineage.Some?
  {
    var (core, batch) :- ApplyMutations(t.core, ms, deviceId, env.now);
    var finalized :- FinalizeBatch(env, origin, t.(core := core), batch);
    Ok((finalized, batch))
  }

  /** The lineage a first request creates; the fork on a positive cursor covers rows without a lineage. */
  function EnsureLineage(env: Env, t: Tables, requestedBaselineId: string): (r: Result<Tables>)
    ensures r.Ok? ==> r.value.lineage.Some?
  {
    if t.lineage.Some? then Ok(t)
    else if t.core.cursor == 0 then
      t.WriteLineage(Lineage(requestedBaselineId, 0, 0, CAMPAIGN_START))
    else
      var newId :- NewBaselineId(env);
      var day :- ProgressDay(env.codec, RecordRows(t.core.records));
      t.WriteLineage(Lineage(newId, 0, env.now, day))
  }

  // ----- exchange -----

  predicate InPage(page: seq<Change>, change: Change) {
    exists i :: 0 <= i < |page| && page[i].cursor == change.cursor && page[i].entityKey == change.entityKey
  }

  /** The forced changes whose identity (cursor and key) is not on the page, repeats included. */
  function NotInPage(forced: seq<Change>, page: seq<Change>): seq<Change> {
    if forced == [] then []
    else
      var before := NotInPage(forced[..|forced| - 1], page);
      var last := forced[|forced| - 1];
      if InPage(page, last) then before else before + [last]
  }

  predicate ByCursor(changes: seq<Change>) {
    forall i, j :: 0 <= i < j < |changes| ==> changes[i].cursor <= changes[j].cursor
  }

  /** Insertion after the last element that is not greater, which keeps equal cursors in order. */
  function InsertByCursor(sorted: seq<Change>, c: Change): (r: seq<Change>)
    requires ByCursor(sorted)
    ensures ByCursor(r)
    ensures multiset(r) == multiset(sorted) + multiset{c}
  {
    if sorted == [] || sorted[|sorted| - 1].cursor <= c.cursor then sorted + [c]
    else
      var init, last := sorted[..|sorted| - 1], sorted[|sorted| - 1];
      assert sorted == init + [last];
      var r := InsertByCursor(init, c);
      assert forall i :: 0 <= i < |r| ==> r[i].cursor <= last.cursor by {
        forall i | 0 <= i < |r| ensures r[i].cursor <= last.cursor {
          assert r[i] in multiset(r);
          assert r[i] == c || r[i] in init;
        }
      }
      r + [last]
  }

  /** sort.SliceStable by cursor */
  function SortByCursor(changes: seq<Change>): (r: seq<Change>)
    ensures ByCursor(r)
    ensures multiset(r) == multiset(changes)
  {
    if changes == [] then []
    else
      assert changes == changes[..|changes| - 1] + [changes[|changes| - 1]];
      InsertByCursor(SortByCursor(changes[..|changes| - 1]), changes[|changes| - 1])
  }

  datatype Page = Page(changes: seq<Change>, hasMore: bool) {
    function NextCursor(cursor: nat): nat {
      if changes == [] then cursor else changes[|changes| - 1].cursor
    }
  }

  /** At most limit operations after a cursor; one more is read to learn whether there are more. */
  function ReadPage(core: Core, cursor: nat, limit: nat): Page {
    var rows := RowsAfter(core.operations, cursor, limit + 1);
    if |rows| > limit then Page(rows[..limit], true) else Page(rows, false)
  }

  datatype Metadata = Metadata(ownerKey: string, originConnectionId: string)

  function ExchangeResponse(t: Tables, batch: Batch, request: SyncRequest): SyncResponse
    requires t.lineage.Some?
  {
    var page := ReadPage(t.core, request.cursor, NormalizedPullLimit(request.pullLimit));
    var l := t.lineage.value;
    SyncResponse(
      page.NextCursor(request.cursor), batch.acks,
      SortByCursor(page.changes + NotInPage(batch.forcedChanges, page.changes)),
      page.hasMore, request.cursor > t.core.cursor, l.baselineId, l.version, l.updatedAtMs, l.progressDay, false)
  }

  function Exchange(env: Env, meta: Metadata, t: Tables, request: SyncRequest): Result<(Tables, Reply<SyncResponse>)> {
    var valid := ValidateExchange(meta.ownerKey, request);
    if valid.Fail? then Err(valid.error) else
    var ensured :- EnsureLineage(env, t, request.baselineId);
    var l := ensured.lineage.value;
    if l.baselineId != request.baselineId then
      Ok((ensured,
          Reply(SyncResponse(request.cursor, [], [], false, false, l.baselineId, l.version, l.updatedAtMs,
                             l.progressDay, true), false)))
    else
      var (done, batch) :- Mutate(env, meta.originConnectionId, ensured, request.mutations, request.deviceId);
      Ok((done, Reply(ExchangeResponse(done, batch, request), batch.appliedCount > 0)))
  }

  // ----- diff -----

  function CheckedDiff(response: DiffResponse): Result<DiffResponse> {
    if DiffResponseSize(response) > MAX_PROTOBUF_BYTES then Err(ResponseTooLarge) else Ok(response)
  }

  function DiffResponseOf(t: Tables, acks: seq<MutationAck>, canonical: seq<Change>, mismatch: bool): DiffResponse
    requires t.lineage.Some?
  {
    var l := t.lineage.value;
    DiffResponse(acks, canonical, l.baselineId, t.core.cursor, l.version, l.updatedAtMs, l.progressDay, mismatch)
  }

  /** The size check runs inside the transaction, so an oversized response undoes the batch. */
  function Diff(env: Env, meta: Metadata, t: Tables, request: DiffRequest): Result<(Tables, Reply<DiffResponse>)> {
    var valid := ValidateDiff(meta.ownerKey, request);
    if valid.Fail? then Err(valid.error) else
    var ensured :- EnsureLineage(env, t, request.baselineId);
    if ensured.lineage.value.baselineId != request.baselineId then
      var response :- CheckedDiff(DiffResponseOf(ensured, [], [], true));
      Ok((ensured, Reply(response, false)))
    else
      var (done, batch) :- Mutate(env, meta.originConnectionId, ensured, request.mutations, request.deviceId);
      var response :- CheckedDiff(DiffResponseOf(done, batch.acks, batch.canonicalChanges, false));
      Ok((done, Reply(response, batch.appliedCount > 0)))
  }

  // ----- baseline resolution -----

  predicate ByKey(ms: seq<Mutation>) {
    forall i, j :: 0 <= i < j < |ms| ==> AtMost(ms[i].entityKey, ms[j].entityKey)
  }

  function InsertByKey(sorted: seq<Mutation>, m: Mutation): (r: seq<Mutation>)
    requires ByKey(sorted)
    ensures ByKey(r)
    ensures multiset(r) == multiset(sorted) + multiset{m}
  {
    if sorted == [] then [m]
    else
      var init, last := sorted[..|sorted| - 1], sorted[|sorted| - 1];
      assert sorted == init + [last];
      if AtMost(last.entityKey, m.entityKey) then
        assert forall i :: 0 <= i < |sorted| ==> AtMost(sorted[i].entityKey, m.entityKey) by {
          forall i | 0 <= i < |sorted| ensures AtMost(sorted[i].entityKey, m.entityKey) {
            AtMostTransitive(sorted[i].entityKey, last.entityKey, m.entityKey);
          }
        }
        sorted + [m]
      else
        var r := InsertByKey(init, m);
        BelowTotal(last.entityKey, m.entityKey);
        assert forall i :: 0 <= i < |r| ==> AtMost(r[i].entityKey, last.entityKey) by {
          forall i | 0 <= i < |r| ensures AtMost(r[i].entityKey, last.entityKey) {
            assert r[i] in multiset(r);
            assert r[i] == m || r[i] in init;
          }
        }
        r + [last]
  }

  /** sort.Slice by entity key; the keys of a validated snapshot are distinct. */
  function SortByKey(ms: seq<Mutation>): (r: seq<Mutation>)
    ensures ByKey(r)
    ensures multiset(r) == multiset(ms)
  {
    if ms == [] then []
    else
      assert ms == ms[..|ms| - 1] + [ms[|ms| - 1]];
      InsertByKey(SortByKey(ms[..|ms| - 1]), ms[|ms| - 1])
  }

  /** The snapshot written as operations 1, 2, …, without receipts. */
  function LoadSnapshot(core: Core, ms: seq<Mutation>, now: Uint64): Result<(Core, seq<Change>)> {
    if ms == [] then Ok((core, []))
    else
      var (before, changes) :- LoadSnapshot(core, ms[..|ms| - 1], now);
      var numbered :- before.NextCursor();
      var change := MutationChange(ms[|ms| - 1], numbered.cursor, now);
      var logged :- numbered.AppendOperation(change);
      Ok((logged.UpsertRecord(change), changes + [change]))
  }

  function ResolutionReceiptOf(request: ResolveRequest, l: Lineage, cursor: nat): ResolutionReceipt {
    ResolutionReceipt(
      request.requestId, request.localBaselineId, request.expectedServerBaselineId, request.expectedServerVersion,
      request.choice, l.baselineId, cursor, l.version, l.updatedAtMs)
  }

  predicate SameResolution(receipt: ResolutionReceipt, request: ResolveRequest) {
    && receipt.localBaselineId == request.localBaselineId
    && receipt.expectedServerBaselineId == request.expectedServerBaselineId
    && receipt.expectedServerVersion == request.expectedServerVersion
    && receipt.choice == request.choice
  }

  function ResolveResponseOf(t: Tables, records: seq<Change>, stale: bool): ResolveResponse
    requires t.lineage.Some?
  {
    var l := t.lineage.value;
    ResolveResponse(l.baselineId, l.version, l.updatedAtMs, l.progressDay, records, stale, t.core.cursor)
  }

  /** The id the new lineage takes: the client's, unless that id already has an archive. */
  function ResultBaselineId(env: Env, t: Tables, request: ResolveRequest): Result<string> {
    if request.localBaselineId in t.archiveHeads then NewBaselineId(env) else Ok(request.localBaselineId)
  }

  /** The client's snapshot replaces the current baseline. */
  function UseLocal(env: Env, meta: Metadata, t: Tables,
                    request: ResolveRequest): (r: Result<(Tables, Reply<ResolveResponse>)>)
    ensures r.Ok? ==> r.value.0.lineage.Some?
  {
    var valid := CheckSnapshot(request.localSnapshot, request.deviceId);
    if valid.Fail? then Err(valid.error) else
    var baselineId :- ResultBaselineId(env, t, request);
    var (core, changes) :- LoadSnapshot(EMPTY_CORE, SortByKey(request.localSnapshot), env.now);
    var records := RecordRows(core.records);
    var day :- ProgressDay(env.codec, records);
    var l := Lineage(baselineId, if |request.localSnapshot| > 0 then 1 else 0, env.now, day);
    var lined :- t.ClearCurrentBaseline().(core := core).WriteLineage(l);
    var receipted :- lined.InsertResolution(ResolutionReceiptOf(request, l, core.cursor));
    var done :- Publish(env, meta.originConnectionId, receipted, changes);
    Ok((done, Reply(ResolveResponseOf(done, records, false), true)))
  }

  /** The server's state is kept; only the receipt is written. */
  function UseServer(t: Tables, request: ResolveRequest): (r: Result<(Tables, Reply<ResolveResponse>)>)
    requires t.lineage.Some?
  {
    var done :- t.InsertResolution(ResolutionReceiptOf(request, t.lineage.value, t.core.cursor));
    Ok((done, Reply(ResolveResponseOf(done, RecordRows(done.core.records), false), false)))
  }

  /** A request_id that has a receipt: the current records if nothing has moved since, else stale. */
  function ReplayResolution(t: Tables, request: ResolveRequest): (r: Result<(Tables, Reply<ResolveResponse>)>)
    requires t.lineage.Some? && request.requestId in t.resolutions
  {
    var receipt := t.resolutions[request.requestId];
    if !SameResolution(receipt, request) then
      Err(FailedPrecondition("resolution request_id was reused with different data"))
    else
      var current := t.lineage.value.baselineId == receipt.resultBaselineId
                     && t.lineage.value.version == receipt.resultVersion;
      Ok((t, Reply(ResolveResponseOf(t, if current then RecordRows(t.core.records) else [], !current), false)))
  }

  predicate ExpectationHolds(t: Tables, request: ResolveRequest)
    requires t.lineage.Some?
  {
    && t.lineage.value.baselineId == request.expectedServerBaselineId
    && t.lineage.value.version == request.expectedServerVersion
  }

  function Resolve(env: Env, meta: Metadata, t: Tables,
                   request: ResolveRequest): Result<(Tables, Reply<ResolveResponse>)>
  {
    var valid := ValidateResolve(meta.ownerKey, request);
    if valid.Fail? then Err(valid.error) else
    var ensured :- EnsureLineage(env, t, request.localBaselineId);
    if request.requestId in ensured.resolutions then ReplayResolution(ensured, request)
    else if !ExpectationHolds(ensured, request) then
      Ok((ensured, Reply(ResolveResponseOf(ensured, [], true), false)))
    else if request.choice == ChooseLocal then UseLocal(env, meta, ensured, request)
    else UseServer(ensured, request)
  }

  // ----- the read side -----

  datatype FeedPage = FeedPage(
    changes: seq<Change>, nextCursor: nat, hasMore: bool, baselineId: string, headCursor: nat,
    serverVersion: nat, serverUpdatedAtMs: nat, serverProgressDay: string,
    baselineMismatch: bool, resetRequired: bool)

  function NormalizedFeedLimit(value: nat): (limit: nat)
    ensures 1 <= limit <= MAX_PULL_LIMIT
  {
    if value == 0 then DEFAULT_PULL_LIMIT else if value > MAX_PULL_LIMIT then MAX_PULL_LIMIT else value
  }

  /** One page of the log after a cursor, read from one consistent snapshot of the tables. */
  function ReadFeedPage(t: Tables, ownerKey: string, baselineId: string, cursor: nat, limit: int): Result<FeedPage> {
    if !IsOwnerKey(ownerKey) then Err(InvalidArgument("invalid owner_key"))
    else if !IsBaselineId(baselineId) then Err(InvalidArgument("invalid baseline_id"))
    else if cursor > MAX_SAFE_INTEGER then
      Err(InvalidArgument("protobuf uint64 exceeds JavaScript safe integer range"))
    else if limit < 0 then Err(InvalidArgument("invalid feed limit"))
    else if t.lineage.None? then
      Ok(FeedPage([], cursor, false, baselineId, 0, 0, 0, CAMPAIGN_START, false, cursor > 0))
    else
      var l := t.lineage.value;
      var mismatch := l.baselineId != baselineId;
      var reset := cursor > t.core.cursor;
      var page := if mismatch || reset then Page([], false) else ReadPage(t.core, cursor, NormalizedFeedLimit(limit));
      Ok(FeedPage(page.changes, page.NextCursor(cursor), page.hasMore, l.baselineId, t.core.cursor,
                  l.version, l.updatedAtMs, l.progressDay, mismatch, reset))
  }
}
