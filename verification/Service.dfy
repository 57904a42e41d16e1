/** The service's methods: statement by statement over a transaction, proved against SyncSpec. */
module Service {
  import opened Prelude
  import opened SyncTypes
  import opened Validation
  import opened Wire
  import opened Progress
  import opened Tables
  import Spec = SyncSpec
  import opened OwnerTx

  // ----- an error stops the loop for good -----

  lemma {:induction false} ApplyStops(core: Core, ms: seq<Mutation>, i: nat, deviceId: string, now: Uint64)
    requires i <= |ms| && Spec.ApplyMutations(core, ms[..i], deviceId, now).Err?
    ensures Spec.ApplyMutations(core, ms, deviceId, now) == Spec.ApplyMutations(core, ms[..i], deviceId, now)
    decreases |ms| - i
  {
    if i < |ms| {
      assert ms[..i + 1][..i] == ms[..i];
      ApplyStops(core, ms, i + 1, deviceId, now);
    } else {
      assert ms[..i] == ms;
    }
  }

  lemma {:induction false} ArchiveStops(t: Tables, b: string, version: nat, at: nat, changes: seq<Change>, i: nat)
    requires i <= |changes| && Spec.ArchiveChanges(t, b, version, at, changes[..i]).Err?
    ensures Spec.ArchiveChanges(t, b, version, at, changes) == Spec.ArchiveChanges(t, b, version, at, changes[..i])
    decreases |changes| - i
  {
    if i < |changes| {
      assert changes[..i + 1][..i] == changes[..i];
      ArchiveStops(t, b, version, at, changes, i + 1);
    } else {
      assert changes[..i] == changes;
    }
  }

  lemma {:induction false} LoadStops(core: Core, ms: seq<Mutation>, i: nat, now: Uint64)
    requires i <= |ms| && Spec.LoadSnapshot(core, ms[..i], now).Err?
    ensures Spec.LoadSnapshot(core, ms, now) == Spec.LoadSnapshot(core, ms[..i], now)
    decreases |ms| - i
  {
    if i < |ms| {
      assert ms[..i + 1][..i] == ms[..i];
      LoadStops(core, ms, i + 1, now);
    } else {
      assert ms[..i] == ms;
    }
  }

  // ----- batches -----

  /** One round of the loop over the mutations. */
  method ApplyMutation(tx: Tx, batch: Spec.Batch, m: Mutation, deviceId: string, now: Uint64)
    returns (r: Result<Spec.Batch>)
    modifies tx
    ensures var spec := Spec.ApplyMutation(old(tx.CoreRows()), batch, m, deviceId, now);
            if r.Ok? then spec == Ok((tx.CoreRows(), r.value)) && tx.Rows() == old(tx.Rows()).(core := tx.CoreRows())
            else spec == Err(r.error)
  {
    var valid := ValidateMutation(m, deviceId);
    if valid.Fail? { return Err(valid.error); }
    if m.opId in tx.receipts {
      var receipt := tx.receipts[m.opId];
      if receipt.serverCursor !in tx.operations { return Err(RowNotFound); }
      return Ok(batch.Acked(receipt.Ack(), tx.operations[receipt.serverCursor]));
    }
    var existing := if m.entityKey in tx.records then Some(tx.records[m.entityKey]) else None;
    var conflict := existing.Some? && existing.value.cursor > m.baseVersion;
    var serverCursor := if existing.Some? then existing.value.cursor else 0;
    var applied, next := !conflict, batch;
    var canonical := if existing.Some? then existing.value else MutationChange(m, 0, 0);
    if applied {
      serverCursor :- tx.NextCursor();
      canonical := MutationChange(m, serverCursor, ClampClientTime(m.clientTimeMs, now));
      var _ :- tx.AppendOperation(canonical);
      tx.UpsertRecord(canonical);
      next := next.(archiveChanges := next.archiveChanges + [canonical], appliedCount := next.appliedCount + 1);
    } else {
      next := next.(forcedChanges := next.forcedChanges + [canonical]);
    }
    var receipt := Receipt(m.opId, serverCursor, conflict, applied);
    var _ :- tx.InsertReceipt(receipt);
    return Ok(next.Acked(receipt.Ack(), canonical));
  }

  method ApplyMutations(tx: Tx, deviceId: string, ms: seq<Mutation>, now: Uint64) returns (r: Result<Spec.Batch>)
    modifies tx
    ensures var spec := Spec.ApplyMutations(old(tx.CoreRows()), ms, deviceId, now);
            if r.Ok? then spec == Ok((tx.CoreRows(), r.value)) && tx.Rows() == old(tx.Rows()).(core := tx.CoreRows())
            else spec == Err(r.error)
  {
    var batch := Spec.EMPTY_BATCH;
    for i := 0 to |ms|
      invariant Spec.ApplyMutations(old(tx.CoreRows()), ms[..i], deviceId, now) == Ok((tx.CoreRows(), batch))
      invariant tx.Rows() == old(tx.Rows()).(core := tx.CoreRows())
    {
      assert ms[..i + 1][..i] == ms[..i];
      var next := ApplyMutation(tx, batch, ms[i], deviceId, now);
      if next.Err? {
        ApplyStops(old(tx.CoreRows()), ms, i + 1, deviceId, now);
        return Err(next.error);
      }
      batch := next.value;
    }
    assert ms[..|ms|] == ms;
    return Ok(batch);
  }

  /** The archive rows, the archive head and the event of a commit. */
  method Publish(env: Spec.Env, origin: string, tx: Tx, l: Lineage, changes: seq<Change>) returns (r: Result<()>)
    requires tx.lineage == Some(l)
    modifies tx
    ensures var spec := Spec.Publish(env, origin, old(tx.Rows()), changes);
            if r.Ok? then spec == Ok(tx.Rows()) else spec == Err(r.error)
  {
    for i := 0 to |changes|
      invariant Spec.ArchiveChanges(old(tx.Rows()), l.baselineId, l.version, env.now, changes[..i]) == Ok(tx.Rows())
    {
      assert changes[..i + 1][..i] == changes[..i];
      var archived := tx.ArchiveChange(l.baselineId, l.version, env.now, changes[i]);
      if archived.Err? {
        ArchiveStops(old(tx.Rows()), l.baselineId, l.version, env.now, changes, i + 1);
        return Err(archived.error);
      }
    }
    assert changes[..|changes|] == changes;
    tx.UpsertArchiveHead(l.baselineId, tx.cursor, l.version, env.now);
    tx.InsertRealtimeEvent(RealtimeEvent(l.baselineId, tx.cursor, l.version, origin, env.now));
    return Ok(());
  }

  method FinalizeMutationBatch(env: Spec.Env, origin: string, tx: Tx, batch: Spec.Batch) returns (r: Result<()>)
    modifies tx
    ensures var spec := Spec.FinalizeBatch(env, origin, old(tx.Rows()), batch);
            if r.Ok? then spec == Ok(tx.Rows()) else spec == Err(r.error)
  {
    if batch.appliedCount == 0 { return Ok(()); }
    var records := tx.ListRecords();
    var day := DeriveProgressDay(env.codec, records);
    if day.Err? { return Err(day.error); }
    var l := tx.IncrementLineage(env.now, day.value);
    if l.Err? { return Err(l.error); }
    r := Publish(env, origin, tx, l.value, batch.archiveChanges);
  }

  method EnsureLineage(env: Spec.Env, tx: Tx, requestedBaselineId: string) returns (r: Result<Lineage>)
    modifies tx
    ensures var spec := Spec.EnsureLineage(env, old(tx.Rows()), requestedBaselineId);
            if r.Ok? then spec == Ok(tx.Rows()) && tx.lineage == Some(r.value) else spec == Err(r.error)
  {
    if tx.lineage.Some? { return Ok(tx.lineage.value); }
    var l := Lineage(requestedBaselineId, 0, 0, CAMPAIGN_START);
    if tx.cursor > 0 {
      var id := Spec.NewBaselineId(env);
      if id.Err? { return Err(id.error); }
      var records := tx.ListRecords();
      var day := DeriveProgressDay(env.codec, records);
      if day.Err? { return Err(day.error); }
      l := Lineage(id.value, 0, env.now, day.value);
    }
    var written := tx.WriteLineage(l);
    if written.Err? { return Err(written.error); }
    return Ok(l);
  }

  /** The snapshot, in key order, written to the cleared tables. */
  method LoadSnapshot(tx: Tx, ms: seq<Mutation>, now: Uint64) returns (r: Result<seq<Change>>)
    modifies tx
    ensures var spec := Spec.LoadSnapshot(old(tx.CoreRows()), ms, now);
            if r.Ok? then spec == Ok((tx.CoreRows(), r.value)) && tx.Rows() == old(tx.Rows()).(core := tx.CoreRows())
            else spec == Err(r.error)
  {
    var changes: seq<Change> := [];
    for i := 0 to |ms|
      invariant Spec.LoadSnapshot(old(tx.CoreRows()), ms[..i], now) == Ok((tx.CoreRows(), changes))
      invariant tx.Rows() == old(tx.Rows()).(core := tx.CoreRows())
    {
      assert ms[..i + 1][..i] == ms[..i];
      var cursor := tx.NextCursor();
      if cursor.Err? {
        LoadStops(old(tx.CoreRows()), ms, i + 1, now);
        return Err(cursor.error);
      }
      var change := MutationChange(ms[i], cursor.value, now);
      var appended := tx.AppendOperation(change);
      if appended.Err? {
        LoadStops(old(tx.CoreRows()), ms, i + 1, now);
        return Err(appended.error);
      }
      tx.UpsertRecord(change);
      changes := changes + [change];
    }
    assert ms[..|ms|] == ms;
    return Ok(changes);
  }

  // ----- the commands -----

  /** Clock and random source arrive with each call as env. */
  class SyncService {
    const store: Store

    constructor (store: Store)
      ensures this.store == store
    {
      this.store := store;
    }

    /** A batch: apply, then finalize. */
    method Mutate(env: Spec.Env, origin: string, tx: Tx, ms: seq<Mutation>, deviceId: string)
      returns (r: Result<Spec.Batch>)
      modifies tx
      ensures var spec := Spec.Mutate(env, origin, old(tx.Rows()), ms, deviceId);
              if r.Ok? then spec == Ok((tx.Rows(), r.value)) else spec == Err(r.error)
    {
      var batch :- ApplyMutations(tx, deviceId, ms, env.now);
      var _ :- FinalizeMutationBatch(env, origin, tx, batch);
      return Ok(batch);
    }

    /** On success the owner's rows become the specified ones; on any error the store is unchanged. */
    method Exchange(env: Spec.Env, meta: Spec.Metadata, request: SyncRequest) returns (r: Result<Reply<SyncResponse>>)
      modifies store
      ensures var spec := Spec.Exchange(env, meta, old(store.Owner(meta.ownerKey)), request);
              if r.Ok? then spec.Ok? && r.value == spec.value.1
                    && store.owners == old(store.owners)[meta.ownerKey := spec.value.0]
              else spec == Err(r.error) && store.owners == old(store.owners)
    {
      hide Spec.Mutate, Spec.ExchangeResponse, Spec.EnsureLineage, ValidateExchange;
      var valid := ValidateExchange(meta.ownerKey, request);
      if valid.Fail? { return Err(valid.error); }
      var tx := store.Begin(meta.ownerKey);
      var l :- EnsureLineage(env, tx, request.baselineId);
      if l.baselineId != request.baselineId {
        store.Commit(meta.ownerKey, tx);
        return Ok(Reply(SyncResponse(request.cursor, [], [], false, false, l.baselineId, l.version, l.updatedAtMs,
                                     l.progressDay, true), false));
      }
      var batch :- Mutate(env, meta.originConnectionId, tx, request.mutations, request.deviceId);
      var response := ExchangeReply(tx, batch, request);
      store.Commit(meta.ownerKey, tx);
      return Ok(Reply(response, batch.appliedCount > 0));
    }

    /** The page of the log after the request's cursor, with the forced changes the page does not hold. */
    method ExchangeReply(tx: Tx, batch: Spec.Batch, request: SyncRequest) returns (response: SyncResponse)
      requires tx.lineage.Some?
      ensures response == Spec.ExchangeResponse(tx.Rows(), batch, request)
    {
      hide RowsAfter, Spec.SortByCursor, Spec.NotInPage, NormalizedPullLimit;
      var limit := NormalizedPullLimit(request.pullLimit);
      var rows := tx.PullOperations(request.cursor, limit + 1);
      var hasMore := |rows| > limit;
      var page := if hasMore then rows[..limit] else rows;
      var changes := Spec.SortByCursor(page + Spec.NotInPage(batch.forcedChanges, page));
      var nextCursor := if |page| > 0 then page[|page| - 1].cursor else request.cursor;
      var l := tx.lineage.value;
      response := SyncResponse(nextCursor, batch.acks, changes, hasMore, request.cursor > tx.cursor, l.baselineId,
                               l.version, l.updatedAtMs, l.progressDay, false);
    }

    /** The size is checked before the commit, so an oversized response leaves no trace of the batch. */
    method Diff(env: Spec.Env, meta: Spec.Metadata, request: DiffRequest) returns (r: Result<Reply<DiffResponse>>)
      modifies store
      ensures var spec := Spec.Diff(env, meta, old(store.Owner(meta.ownerKey)), request);
              if r.Ok? then spec.Ok? && r.value == spec.value.1
                    && store.owners == old(store.owners)[meta.ownerKey := spec.value.0]
              else spec == Err(r.error) && store.owners == old(store.owners)
    {
      var valid := ValidateDiff(meta.ownerKey, request);
      if valid.Fail? { return Err(valid.error); }
      var tx := store.Begin(meta.ownerKey);
      var l :- EnsureLineage(env, tx, request.baselineId);
      if l.baselineId != request.baselineId {
        var response := DiffResponse([], [], l.baselineId, tx.cursor, l.version, l.updatedAtMs, l.progressDay, true);
        if DiffResponseSize(response) > MAX_PROTOBUF_BYTES { return Err(ResponseTooLarge); }
        store.Commit(meta.ownerKey, tx);
        return Ok(Reply(response, false));
      }
      var batch :- Mutate(env, meta.originConnectionId, tx, request.mutations, request.deviceId);
      l := tx.lineage.value;
      var response := DiffResponse(batch.acks, batch.canonicalChanges, l.baselineId, tx.cursor, l.version,
                                   l.updatedAtMs, l.progressDay, false);
      if DiffResponseSize(response) > MAX_PROTOBUF_BYTES { return Err(ResponseTooLarge); }
      store.Commit(meta.ownerKey, tx);
      return Ok(Reply(response, batch.appliedCount > 0));
    }

    /** The USE_LOCAL branch: validate, clear, refill, archive. */
    method UseLocal(env: Spec.Env, meta: Spec.Metadata, tx: Tx, request: ResolveRequest)
      returns (r: Result<Reply<ResolveResponse>>)
      modifies tx
      ensures var spec := Spec.UseLocal(env, meta, old(tx.Rows()), request);
              if r.Ok? then spec == Ok((tx.Rows(), r.value)) else spec == Err(r.error)
    {
      var valid := ValidateLocalSnapshot(request);
      if valid.Fail? { return Err(valid.error); }
      var resultBaselineId := request.localBaselineId;
      if resultBaselineId in tx.archiveHeads {
        resultBaselineId :- GenerateId(env);
      }
      tx.ClearCurrentBaseline();
      var snapshot := Spec.SortByKey(request.localSnapshot);
      var changes :- LoadSnapshot(tx, snapshot, env.now);
      var records := tx.ListRecords();
      var day :- DeriveProgressDay(env.codec, records);
      var l := Lineage(resultBaselineId, if |request.localSnapshot| > 0 then 1 else 0, env.now, day);
      var _ :- tx.WriteLineage(l);
      var inserted := tx.InsertResolutionReceipt(Spec.ResolutionReceiptOf(request, l, tx.cursor));
      assert inserted.Ok?;  // the table was just cleared
      var _ :- Publish(env, meta.originConnectionId, tx, l, changes);
      return Ok(Reply(ResolveResponse(l.baselineId, l.version, l.updatedAtMs, l.progressDay, records, false,
                                      tx.cursor), true));
    }

    method GenerateId(env: Spec.Env) returns (r: Result<string>)
      ensures r == Spec.NewBaselineId(env)
    {
      r := Spec.NewBaselineId(env);
    }

    method ResolveBaseline(env: Spec.Env, meta: Spec.Metadata, request: ResolveRequest)
      returns (r: Result<Reply<ResolveResponse>>)
      modifies store
      ensures var spec := Spec.Resolve(env, meta, old(store.Owner(meta.ownerKey)), request);
              if r.Ok? then spec.Ok? && r.value == spec.value.1
                    && store.owners == old(store.owners)[meta.ownerKey := spec.value.0]
              else spec == Err(r.error) && store.owners == old(store.owners)
    {
      var valid := ValidateResolve(meta.ownerKey, request);
      if valid.Fail? { return Err(valid.error); }
      var tx := store.Begin(meta.ownerKey);
      var l :- EnsureLineage(env, tx, request.localBaselineId);
      if request.requestId in tx.resolutions {
        var receipt := tx.resolutions[request.requestId];
        if !Spec.SameResolution(receipt, request) {
          return Err(FailedPrecondition("resolution request_id was reused with different data"));
        }
        var current := l.baselineId == receipt.resultBaselineId && l.version == receipt.resultVersion;
        var records: seq<Change> := [];
        if current { records := tx.ListRecords(); }
        store.Commit(meta.ownerKey, tx);
        return Ok(Reply(Response(tx, l, records, !current), false));
      }
      if l.baselineId != request.expectedServerBaselineId || l.version != request.expectedServerVersion {
        store.Commit(meta.ownerKey, tx);
        return Ok(Reply(Response(tx, l, [], true), false));
      }
      if request.choice == ChooseLocal {
        var reply :- UseLocal(env, meta, tx, request);
        store.Commit(meta.ownerKey, tx);
        return Ok(reply);
      }
      var inserted := tx.InsertResolutionReceipt(Spec.ResolutionReceiptOf(request, l, tx.cursor));
      assert inserted.Ok?;  // the lookup found no receipt
      var records := tx.ListRecords();
      store.Commit(meta.ownerKey, tx);
      return Ok(Reply(Response(tx, l, records, false), false));
    }

    function Response(tx: Tx, l: Lineage, records: seq<Change>, stale: bool): ResolveResponse
      reads tx
    {
      ResolveResponse(l.baselineId, l.version, l.updatedAtMs, l.progressDay, records, stale, tx.cursor)
    }

    /** A read takes no lock and changes nothing. */
    method ReadFeedPage(ownerKey: string, baselineId: string, cursor: nat, limit: int)
      returns (r: Result<Spec.FeedPage>)
      ensures r == Spec.ReadFeedPage(store.Owner(ownerKey), ownerKey, baselineId, cursor, limit)
    {
      if !IsOwnerKey(ownerKey) { return Err(InvalidArgument("invalid owner_key")); }
      if !IsBaselineId(baselineId) { return Err(InvalidArgument("invalid baseline_id")); }
      if cursor > MAX_SAFE_INTEGER {
        return Err(InvalidArgument("protobuf uint64 exceeds JavaScript safe integer range"));
      }
      if limit < 0 { return Err(InvalidArgument("invalid feed limit")); }
      var feedLimit := Spec.NormalizedFeedLimit(limit);
      var t := store.Owner(ownerKey);
      if t.lineage.None? {
        return Ok(Spec.FeedPage([], cursor, false, baselineId, 0, 0, 0, CAMPAIGN_START, false, cursor > 0));
      }
      var l := t.lineage.value;
      var rows := RowsAfter(t.core.operations, cursor, feedLimit + 1);
      var page := Spec.FeedPage([], cursor, false, l.baselineId, t.core.cursor, l.version, l.updatedAtMs, l.progressDay,
                                l.baselineId != baselineId, cursor > t.core.cursor);
      if page.baselineMismatch || page.resetRequired { return Ok(page); }
      var hasMore := |rows| > feedLimit;
      var changes := if hasMore then rows[..feedLimit] else rows;
      page := page.(hasMore := hasMore, changes := changes);
      if |changes| > 0 { page := page.(nextCursor := changes[|changes| - 1].cursor); }
      return Ok(page);
    }
  }
}
