/** What the replies of the three commands and of a feed read say, field by field, about the tables they leave. */
module Replies {
  import opened Prelude
  import opened Ordering
  import opened SyncTypes
  import opened Validation
  import opened Progress
  import opened Tables
  import opened SyncSpec
  import opened CoreInvariant
  import opened ArchiveInvariant
  import opened OwnerInvariant
  import opened ResolveInvariant
  import opened History
  import opened Replay
  import opened ExchangePages
  import opened Resets
  import opened Resolutions
  import opened Halving

  /** The four lineage fields that every reply carries. */
  ghost predicate OfLineage(t: Tables, baselineId: string, version: nat, updatedAtMs: nat, progressDay: string) {
    && t.lineage.Some?
    && baselineId == t.lineage.value.baselineId
    && version == t.lineage.value.version
    && updatedAtMs == t.lineage.value.updatedAtMs
    && progressDay == t.lineage.value.progressDay
  }

  /** The rows are the records, each once, in ascending key order. */
  ghost predicate AreRecords(rows: seq<Change>, records: map<string, Change>) {
    && |rows| == |records|
    && (forall i :: 0 <= i < |rows| ==> rows[i] in records.Values)
    && (forall k :: k in records ==> records[k] in rows)
    && (forall i, j :: 0 <= i < j < |rows| ==> Below(rows[i].entityKey, rows[j].entityKey))
  }

  lemma RecordRowsAreRecords(records: map<string, Change>)
    requires forall k :: k in records ==> records[k].entityKey == k
    ensures AreRecords(RecordRows(records), records)
  {
    var keys, rows := SortedKeys(records.Keys), RecordRows(records);
    forall i | 0 <= i < |rows| ensures rows[i] in records.Values && rows[i].entityKey == keys[i] {
      assert keys[i] in keys;
    }
    forall k | k in records ensures records[k] in rows {
      assert k in keys;
      var i :| 0 <= i < |keys| && keys[i] == k;
      assert rows[i] == records[k];
    }
  }

  lemma RecordsKeyed(codec: Codec, o: Owner)
    requires Inv(codec, o)
    ensures forall k :: k in o.tables.core.records ==> o.tables.core.records[k].entityKey == k
  {
    hide Dense, UniqueOpIds, ReceiptsMatchLog, LogWithinLimits, ArchiveInv, CurrentArchived, ResolutionsCurrent,
         LineageSound;
  }

  // ----- exchange -----

  /** The position an exchange answers with: one page further, or the head; 128 changes by default and 256 at most. */
  function PageEnd(cursor: nat, head: nat, pullLimit: nat): nat {
    if cursor >= head then cursor
    else Min(cursor + (if pullLimit == 0 then 128 else Min(pullLimit, 256)), head)
  }

  /** A batch leaves the baseline id, and says it changed something exactly when the log has grown. */
  lemma MutateOutcome(codec: Codec, env: Env, origin: string, o: Owner, ms: seq<Mutation>, deviceId: string)
    requires env.codec == codec && IsDeviceId(deviceId) && Inv(codec, o) && o.tables.lineage.Some?
    requires Mutate(env, origin, o.tables, ms, deviceId).Ok?
    ensures var (after, batch) := Mutate(env, origin, o.tables, ms, deviceId).value;
            && after.lineage.Some? && after.lineage.value.baselineId == o.tables.lineage.value.baselineId
            && Dense(after.core) && |batch.acks| == |ms| && |batch.canonicalChanges| == |ms|
            && (batch.appliedCount > 0 <==> after.core.cursor > o.tables.core.cursor)
  {
    hide ApplyMutations, Aligned, Grows, Dense, UniqueOpIds, RecordsViewLog, ReceiptsMatchLog, LogWithinLimits,
         ForcedAreConflicts, Mutate, ArchiveInv, CurrentArchived, ResolutionsCurrent, LineageSound;
    MutateParts(env, origin, o.tables, ms, deviceId);
    ApplyMutationsKeepsInv(o.tables.core, ms, deviceId, env.now, o.snapshotLen);
    var (core, batch) := ApplyMutations(o.tables.core, ms, deviceId, env.now).value;
    AlignedLengths(core, ms, batch);
  }

  lemma AlignedLengths(core: Core, ms: seq<Mutation>, batch: Batch)
    requires Aligned(core, ms, batch)
    ensures |batch.acks| == |ms| && |batch.canonicalChanges| == |ms|
  {}

  /** What an exchange that commits answers. */
  ghost predicate ExchangeAnswers(before: Tables, after: Tables, request: SyncRequest, reply: Reply<SyncResponse>) {
    var r := reply.response;
    && OfLineage(after, r.baselineId, r.serverVersion, r.serverUpdatedAtMs, r.serverProgressDay)
    && (r.baselineMismatch <==> r.baselineId != request.baselineId)
    && if r.baselineMismatch then
         && r.acks == [] && r.changes == [] && r.nextCursor == request.cursor && !r.hasMore && !r.resetRequired
         && after == before && !reply.stateChanged
       else
         && |r.acks| == |request.mutations|
         && (r.resetRequired <==> request.cursor > after.core.cursor)
         && r.nextCursor == PageEnd(request.cursor, after.core.cursor, request.pullLimit)
         && (r.hasMore <==> r.nextCursor < after.core.cursor)
         && (reply.stateChanged <==> after.core.cursor > before.core.cursor)
  }

  /** Every field of a committed exchange's reply but the contents of its acks and changes. */
  lemma ExchangeReply(codec: Codec, env: Env, meta: Metadata, o: Owner, request: SyncRequest)
    requires env.codec == codec && Inv(codec, o) && Exchange(env, meta, o.tables, request).Ok?
    ensures var (after, reply) := Exchange(env, meta, o.tables, request).value;
            ExchangeAnswers(Ensured(o.tables, request.baselineId), after, request, reply)
  {
    hide ValidateExchange, Inv, Mutate, IsDeviceId, IsBaselineId, EnsureLineage, Dense, ReadPage, SortByCursor,
         NotInPage, Log;
    ValidRequests(meta.ownerKey);
    EnsureLineageKeepsInv(codec, env, o, request.baselineId);
    var t := Ensured(o.tables, request.baselineId);
    if Current(t, request.baselineId) {
      MutateOutcome(codec, env, meta.originConnectionId, o.(tables := t), request.mutations, request.deviceId);
      var (done, batch) := Mutate(env, meta.originConnectionId, t, request.mutations, request.deviceId).value;
      PageIsSlice(done.core, request.cursor, NormalizedPullLimit(request.pullLimit));
    }
  }

  // ----- diff -----

  ghost predicate DiffReplies(before: Tables, after: Tables, request: DiffRequest, reply: Reply<DiffResponse>) {
    var r := reply.response;
    && OfLineage(after, r.baselineId, r.serverVersion, r.serverUpdatedAtMs, r.serverProgressDay)
    && r.serverCursor == after.core.cursor
    && (r.baselineMismatch <==> r.baselineId != request.baselineId)
    && if r.baselineMismatch then
         r.acks == [] && r.canonicalChanges == [] && after == before && !reply.stateChanged
       else
         && |r.acks| == |r.canonicalChanges| == |request.mutations|
         && (reply.stateChanged <==> after.core.cursor > before.core.cursor)
  }

  /** Every field of a committed diff's reply but the contents of its acks and canonical changes. */
  lemma DiffReply(codec: Codec, env: Env, meta: Metadata, o: Owner, request: DiffRequest)
    requires env.codec == codec && Inv(codec, o) && Diff(env, meta, o.tables, request).Ok?
    ensures var (after, reply) := Diff(env, meta, o.tables, request).value;
            DiffReplies(Ensured(o.tables, request.baselineId), after, request, reply)
  {
    hide ValidateDiff, Inv, Mutate, IsDeviceId, IsBaselineId, EnsureLineage, Dense;
    ValidRequests(meta.ownerKey);
    EnsureLineageKeepsInv(codec, env, o, request.baselineId);
    var t := Ensured(o.tables, request.baselineId);
    if Current(t, request.baselineId) {
      MutateOutcome(codec, env, meta.originConnectionId, o.(tables := t), request.mutations, request.deviceId);
    }
  }

  // ----- resolutions -----

  /** When a resolution is answered as stale, on the tables before it. */
  ghost predicate IsStale(t: Tables, request: ResolveRequest) {
    && t.lineage.Some?
    && var l := t.lineage.value;
    if request.requestId in t.resolutions then
      var receipt := t.resolutions[request.requestId];
      l.baselineId != receipt.resultBaselineId || l.version != receipt.resultVersion
    else
      l.baselineId != request.expectedServerBaselineId || l.version != request.expectedServerVersion
  }

  /** The request repeats a request_id with other data. */
  ghost predicate Reuses(t: Tables, request: ResolveRequest) {
    && request.requestId in t.resolutions
    && var receipt := t.resolutions[request.requestId];
    || receipt.localBaselineId != request.localBaselineId
    || receipt.expectedServerBaselineId != request.expectedServerBaselineId
    || receipt.expectedServerVersion != request.expectedServerVersion
    || receipt.choice != request.choice
  }

  /** The receipt repeats the request and the head that the reply gives. */
  ghost predicate Remembers(receipt: ResolutionReceipt, request: ResolveRequest, r: ResolveResponse) {
    && receipt.requestId == request.requestId
    && receipt.localBaselineId == request.localBaselineId
    && receipt.expectedServerBaselineId == request.expectedServerBaselineId
    && receipt.expectedServerVersion == request.expectedServerVersion
    && receipt.choice == request.choice
    && receipt.resultBaselineId == r.baselineId
    && receipt.resultCursor == r.serverCursor
    && receipt.resultVersion == r.serverVersion
    && receipt.resultUpdatedAtMs == r.serverUpdatedAtMs
  }

  ghost predicate ResolveAnswers(before: Tables, after: Tables, request: ResolveRequest,
                                 reply: Reply<ResolveResponse>) {
    var r := reply.response;
    && OfLineage(after, r.baselineId, r.serverVersion, r.serverUpdatedAtMs, r.serverProgressDay)
    && r.serverCursor == after.core.cursor
    && (r.stale <==> IsStale(before, request))
    && (r.stale ==> r.records == [] && after == before)
    && (!r.stale ==> AreRecords(r.records, after.core.records))
    && (reply.stateChanged <==>
          !r.stale && request.requestId !in before.resolutions && request.choice == ChooseLocal)
    && (!reply.stateChanged ==> after == before.(resolutions := after.resolutions))
    && (request.requestId in before.resolutions ==> after == before)
    && (request.requestId !in before.resolutions && !r.stale ==>
          && request.requestId in after.resolutions
          && Remembers(after.resolutions[request.requestId], request, r))
  }

  /** Every field of a committed resolution's reply; a reused request_id never commits. */
  lemma ResolveReply(codec: Codec, env: Env, meta: Metadata, o: Owner, request: ResolveRequest)
    requires env.codec == codec && Inv(codec, o) && FreshIds(env, o.tables) && Resolve(env, meta, o.tables, request).Ok?
    ensures var (after, reply) := Resolve(env, meta, o.tables, request).value;
            && !Reuses(Ensured(o.tables, request.localBaselineId), request)
            && ResolveAnswers(Ensured(o.tables, request.localBaselineId), after, request, reply)
  {
    hide ValidateResolve, Inv, UseLocal, UseServer, EnsureLineage, IsDeviceId, IsBaselineId, RecordRows, AreRecords,
         FreshIds;
    ValidRequests(meta.ownerKey);
    EnsureLineageKeepsInv(codec, env, o, request.localBaselineId);
    var t := Ensured(o.tables, request.localBaselineId);
    ResolveKeepsInv(codec, env, meta, o, request);
    var after := Resolve(env, meta, o.tables, request).value.0;
    RecordsAfter(codec, env, meta, o, request);
    if request.requestId !in t.resolutions && ExpectationHolds(t, request) {
      if request.choice == ChooseLocal {
        UseLocalForm(env, meta, t, request);
        UseLocalChanges(env, meta, t, request);
      } else {
        ServerKept(t, request);
        UseServerForm(t, request);
      }
    }
  }

  lemma RecordsAfter(codec: Codec, env: Env, meta: Metadata, o: Owner, request: ResolveRequest)
    requires env.codec == codec && Inv(codec, o) && FreshIds(env, o.tables) && Resolve(env, meta, o.tables, request).Ok?
    ensures var after := Resolve(env, meta, o.tables, request).value.0;
            AreRecords(RecordRows(after.core.records), after.core.records)
  {
    hide Inv, Resolve, FreshIds, AreRecords, RecordRows, Later;
    ResolveKeepsInv(codec, env, meta, o, request);
    var (after, reply) := Resolve(env, meta, o.tables, request).value;
    RecordsKeyed(codec, Owner(after, if reply.stateChanged then |request.localSnapshot| else o.snapshotLen));
    RecordRowsAreRecords(after.core.records);
  }

  /** Keeping the server's state writes one receipt and nothing else. */
  lemma ServerKept(t: Tables, request: ResolveRequest)
    requires t.lineage.Some? && request.requestId !in t.resolutions
    ensures UseServer(t, request).Ok?
    ensures var (after, reply) := UseServer(t, request).value;
            && after == t.(resolutions := after.resolutions)
            && after.resolutions.Keys == t.resolutions.Keys + {request.requestId}
            && reply == Reply(ResolveResponseOf(after, RecordRows(after.core.records), false), false)
  {
    hide RecordRows;
  }

  /** A valid request whose request_id has a receipt is refused iff it repeats it with other data. */
  lemma RepeatedRequest(codec: Codec, env: Env, meta: Metadata, o: Owner, request: ResolveRequest)
    requires env.codec == codec && Inv(codec, o) && ValidateResolve(meta.ownerKey, request).Pass?
    requires request.requestId in o.tables.resolutions
    ensures Resolve(env, meta, o.tables, request).Ok? <==> !Reuses(o.tables, request)
    ensures Reuses(o.tables, request) ==> Resolve(env, meta, o.tables, request).error.FailedPrecondition?
  {
    hide ValidateResolve, Inv, UseLocal, UseServer, RecordRows, IsDeviceId, IsBaselineId;
    if o.tables.lineage.None? { NoResolutionsYet(codec, o); }
  }

  // ----- a feed read -----

  /** The size of a feed page: 128 changes by default and 256 at most. */
  function FeedPageSize(limit: int): int {
    if limit == 0 then 128 else Min(limit, 256)
  }

  /** Every field of a page that a valid feed read returns. */
  ghost predicate FeedAnswers(t: Tables, b: string, cursor: nat, limit: int, page: FeedPage)
    requires Dense(t.core) && limit >= 0
  {
    if t.lineage.None? then
      page == FeedPage([], cursor, false, b, 0, 0, 0, "2026-07-13", false, cursor > 0)
    else
      var head := t.core.cursor;
      && OfLineage(t, page.baselineId, page.serverVersion, page.serverUpdatedAtMs, page.serverProgressDay)
      && page.headCursor == head
      && (page.baselineMismatch <==> page.baselineId != b)
      && (page.resetRequired <==> cursor > head)
      && if page.baselineMismatch || page.resetRequired then
           page.changes == [] && page.nextCursor == cursor && !page.hasMore
         else
           && page.nextCursor == Min(cursor + FeedPageSize(limit), head)
           && page.changes == Log(t.core)[cursor..page.nextCursor]
           && (page.hasMore <==> page.nextCursor < head)
  }

  /** A feed read fails exactly on a malformed id or an unsafe cursor or a negative limit; what it returns otherwise. */
  lemma FeedReply(codec: Codec, o: Owner, ownerKey: string, b: string, cursor: nat, limit: int)
    requires Inv(codec, o)
    ensures ReadFeedPage(o.tables, ownerKey, b, cursor, limit).Ok? <==>
              IsOwnerKey(ownerKey) && IsBaselineId(b) && cursor <= 9007199254740991 && limit >= 0
    ensures ReadFeedPage(o.tables, ownerKey, b, cursor, limit).Ok? ==>
              && Dense(o.tables.core)
              && FeedAnswers(o.tables, b, cursor, limit, ReadFeedPage(o.tables, ownerKey, b, cursor, limit).value)
  {
    hide Inv, ReadPage, IsOwnerKey, IsBaselineId, Log, Dense, ArchiveInv, BaselineLog;
    InvKeyed(codec, o);
    if limit >= 0 {
      PageIsSlice(o.tables.core, cursor, NormalizedFeedLimit(limit));
    }
  }

  // ----- requests that do not get past validation -----

  /** A command whose request is not valid fails with what is wrong with it, whatever the tables. */
  lemma InvalidFails(env: Env, meta: Metadata, t: Tables, sync: SyncRequest, diff: DiffRequest, resolve: ResolveRequest)
    ensures ValidateExchange(meta.ownerKey, sync).Fail? ==>
              Exchange(env, meta, t, sync) == Err(ValidateExchange(meta.ownerKey, sync).error)
    ensures ValidateDiff(meta.ownerKey, diff).Fail? ==>
              Diff(env, meta, t, diff) == Err(ValidateDiff(meta.ownerKey, diff).error)
    ensures ValidateResolve(meta.ownerKey, resolve).Fail? ==>
              Resolve(env, meta, t, resolve) == Err(ValidateResolve(meta.ownerKey, resolve).error)
  {
    hide ValidateExchange, ValidateDiff, ValidateResolve, Mutate, UseLocal, UseServer;
  }
}
