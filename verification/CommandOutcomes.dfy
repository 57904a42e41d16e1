/** How a command can fail, and the hint a commit leaves in the outbox. */
module CommandOutcomes {
  import opened Prelude
  import opened SyncTypes
  import opened Validation
  import opened Progress
  import opened Tables
  import opened SyncSpec
  import opened CoreInvariant
  import opened ArchiveInvariant
  import opened OwnerInvariant
  import opened ResolveInvariant
  import opened History
  import opened Resets

  /** Not a missing row, and no key violated but the log's op_id key. */
  predicate ExpectedError(e: Error) {
    e != RowNotFound && (e.DuplicateKey? ==> e.table == Operations)
  }

  /** What can stop a mutation batch. */
  predicate MutationError(e: Error) {
    e.InvalidArgument? || e in {OutOfRange, DuplicateKey(Operations), DataTooLong, BadPercentEncoding}
  }

  // ----- errors -----

  lemma {:induction false} UnescapeErrors(codec: Codec, parts: seq<string>)
    ensures UnescapeAll(codec, parts).Err? ==> UnescapeAll(codec, parts).error == BadPercentEncoding
  {
    if parts != [] { UnescapeErrors(codec, parts[1..]); }
  }

  lemma {:induction false} ProgressErrors(codec: Codec, records: seq<Change>)
    ensures Dates(codec, records).Err? ==> Dates(codec, records).error == BadPercentEncoding
    ensures ProgressDay(codec, records).Err? ==> ProgressDay(codec, records).error == BadPercentEncoding
  {
    hide MeaningfulDayRecord, ObjectString, LastDate;
    if records != [] {
      ProgressErrors(codec, records[..|records| - 1]);
      var parts := Split(records[|records| - 1].entityKey);
      if |parts| >= 3 { UnescapeErrors(codec, parts[2..]); }
    }
  }

  lemma ApplyError(core: Core, batch: Batch, m: Mutation, deviceId: string, now: Uint64, snapshotLen: nat)
    requires CoreInv(core, snapshotLen)
    ensures var r := ApplyMutation(core, batch, m, deviceId, now);
            r.Err? ==> r.error.InvalidArgument? || r.error == OutOfRange || r.error == DuplicateKey(Operations)
  {
    hide UniqueOpIds, RecordsViewLog, LogWithinLimits, Accept;
    if m.opId in core.receipts {
      ReplayFinds(core, batch, m, snapshotLen);
    } else if !Conflicts(core, m) {
      AcceptEffect(core, batch, m, now);
    }
  }

  lemma {:induction false} ApplyErrors(core: Core, ms: seq<Mutation>, deviceId: string, now: Uint64, snapshotLen: nat)
    requires CoreInv(core, snapshotLen) && IsDeviceId(deviceId)
    ensures var r := ApplyMutations(core, ms, deviceId, now);
            r.Err? ==> r.error.InvalidArgument? || r.error == OutOfRange || r.error == DuplicateKey(Operations)
  {
    hide CoreInv, ApplyMutation, IsDeviceId, Grows, Aligned, ForcedAreConflicts, ArchivesAppended;
    if ms != [] {
      var init, last := ms[..|ms| - 1], ms[|ms| - 1];
      ApplyErrors(core, init, deviceId, now, snapshotLen);
      if ApplyMutations(core, init, deviceId, now).Ok? {
        ApplyMutationsKeepsInv(core, init, deviceId, now, snapshotLen);
        var (mid, batch) := ApplyMutations(core, init, deviceId, now).value;
        ApplyError(mid, batch, last, deviceId, now, snapshotLen);
      }
    }
  }

  lemma FinalizeErrors(env: Env, origin: string, t: Tables, core: Core, batch: Batch)
    requires t.lineage.Some? && Dense(t.core) && Dense(core) && ArchiveInv(t) && CurrentArchived(t)
    requires Grows(t.core, core) && ArchivesAppended(t.core, core, batch)
    ensures var r := FinalizeBatch(env, origin, t.(core := core), batch);
            r.Err? ==> MutationError(r.error)
  {
    hide ProgressDay, RecordRows, Publish, Dense, Grows, ArchivesAppended, CurrentArchived, NextInLine, Rows,
         ArchiveInv;
    var records := RecordRows(core.records);
    ProgressErrors(env.codec, records);
    if batch.appliedCount > 0 && ProgressDay(env.codec, records).Ok? {
      var versioned := t.(core := core).IncrementLineage(env.now, ProgressDay(env.codec, records).value);
      if versioned.Ok? {
        VersionedInLine(t, core, batch, versioned.value.lineage.value);
        PublishInLine(env, origin, versioned.value, batch.archiveChanges);
      }
    }
  }

  lemma MutateErrors(codec: Codec, env: Env, origin: string, o: Owner, ms: seq<Mutation>, deviceId: string)
    requires env.codec == codec && IsDeviceId(deviceId) && Inv(codec, o) && o.tables.lineage.Some?
    ensures var r := Mutate(env, origin, o.tables, ms, deviceId);
            r.Err? ==> MutationError(r.error)
  {
    hide Dense, UniqueOpIds, RecordsViewLog, ReceiptsMatchLog, LogWithinLimits, ArchiveInv, CurrentArchived,
         ApplyMutations, ResolutionsCurrent, LineageSound, Grows, Aligned, ForcedAreConflicts, ArchivesAppended,
         FinalizeBatch;
    ApplyErrors(o.tables.core, ms, deviceId, env.now, o.snapshotLen);
    if ApplyMutations(o.tables.core, ms, deviceId, env.now).Ok? {
      ApplyMutationsKeepsInv(o.tables.core, ms, deviceId, env.now, o.snapshotLen);
      var (core, batch) := ApplyMutations(o.tables.core, ms, deviceId, env.now).value;
      assert ArchiveInv(o.tables) by { InvArchive(codec, o); }
      FinalizeErrors(env, origin, o.tables, core, batch);
    }
  }

  lemma {:induction false} LoadErrors(core: Core, ms: seq<Mutation>, now: Uint64)
    ensures LoadSnapshot(core, ms, now).Err? ==> ExpectedError(LoadSnapshot(core, ms, now).error)
  {
    if ms != [] { LoadErrors(core, ms[..|ms| - 1], now); }
  }

  lemma {:induction false} CheckErrors(ms: seq<Mutation>, deviceId: string)
    ensures CheckSnapshot(ms, deviceId).Fail? ==> CheckSnapshot(ms, deviceId).error.InvalidArgument?
  {
    if ms != [] { CheckErrors(ms[..|ms| - 1], deviceId); }
  }

  lemma UseLocalErrors(env: Env, meta: Metadata, t: Tables, request: ResolveRequest)
    requires ArchiveInv(t) && FreshIds(env, t)
    requires IsDeviceId(request.deviceId) && IsBaselineId(request.localBaselineId)
    ensures var r := UseLocal(env, meta, t, request);
            r.Err? ==> ExpectedError(r.error)
  {
    hide ProgressDay, RecordRows, Keyed, Rows, Climbs, CoreInv, IsSnapshotLog, NextInLine, AllValid, CheckSnapshot,
         SortByKey, LoadSnapshot, Publish, IsDeviceId, IsBaselineId;
    var ms := request.localSnapshot;
    CheckErrors(ms, request.deviceId);
    CheckSnapshotMeaning(ms, request.deviceId);
    LoadErrors(EMPTY_CORE, SortByKey(ms), env.now);
    if CheckSnapshot(ms, request.deviceId).Pass? && ResultBaselineId(env, t, request).Ok?
       && LoadSnapshot(EMPTY_CORE, SortByKey(ms), env.now).Ok?
    {
      SortedStaysValid(ms, request.deviceId);
      LoadSnapshotKeepsInv(SortByKey(ms), request.deviceId, env.now);
      ResultIdIsNew(env, t, request);
      var id := ResultBaselineId(env, t, request).value;
      var (core, changes) := LoadSnapshot(EMPTY_CORE, SortByKey(ms), env.now).value;
      ProgressErrors(env.codec, RecordRows(core.records));
      hide ResultBaselineId, FreshIds;
      if ProgressDay(env.codec, RecordRows(core.records)).Ok? {
        var day := ProgressDay(env.codec, RecordRows(core.records)).value;
        var l := Lineage(id, if |ms| > 0 then 1 else 0, env.now, day);
        var receipted := t.(core := core, lineage := Some(l),
                            resolutions := map[request.requestId := ResolutionReceiptOf(request, l, core.cursor)]);
        SnapshotInLine(t, core, l, receipted.resolutions, SortByKey(ms), changes, env.now);
        PublishInLine(env, meta.originConnectionId, receipted, changes);
      }
    }
  }

  /**
   * In every reachable state a command that fails does so for its input, its size, a column's range or the
   * op_id key of the log: the archive's key, the receipts' keys and the lookups of rows never fail.
   */
  lemma OnlyExpectedErrors(codec: Codec, env: Env, meta: Metadata, o: Owner, command: Command)
    requires env.codec == codec && Inv(codec, o) && FreshIds(env, o.tables)
    ensures Execute(env, meta, o.tables, command).Err? ==> ExpectedError(Execute(env, meta, o.tables, command).error)
  {
    hide ValidateExchange, ValidateDiff, ValidateResolve, Inv, Mutate, UseLocal, UseServer, EnsureLineage, FreshIds,
         IsDeviceId, IsBaselineId, ExchangeResponse, DiffResponseOf, RecordRows;
    ValidRequests(meta.ownerKey);
    ValidationErrors(meta.ownerKey);
    match command
    case ExchangeCommand(request) =>
      if ValidateExchange(meta.ownerKey, request).Pass? {
        EnsureLineageKeepsInv(codec, env, o, request.baselineId);
        var ensured := EnsureLineage(env, o.tables, request.baselineId).value;
        MutateErrors(codec, env, meta.originConnectionId, o.(tables := ensured), request.mutations, request.deviceId);
      }
    case DiffCommand(request) =>
      if ValidateDiff(meta.ownerKey, request).Pass? {
        EnsureLineageKeepsInv(codec, env, o, request.baselineId);
        var ensured := EnsureLineage(env, o.tables, request.baselineId).value;
        MutateErrors(codec, env, meta.originConnectionId, o.(tables := ensured), request.mutations, request.deviceId);
      }
    case ResolveCommand(request) =>
      if ValidateResolve(meta.ownerKey, request).Pass? {
        EnsureLineageKeepsInv(codec, env, o, request.localBaselineId);
        var ensured := EnsureLineage(env, o.tables, request.localBaselineId).value;
        FreshStaysFresh(codec, env, o, ensured);
        InvArchive(codec, o.(tables := ensured));
        UseLocalErrors(env, meta, ensured, request);
        if request.requestId !in ensured.resolutions { UseServerKeepsInv(codec, o.(tables := ensured), request); }
      }
  }

  lemma ValidationErrors(ownerKey: string)
    ensures forall q: SyncRequest :: ValidateExchange(ownerKey, q).Fail? ==>
              ValidateExchange(ownerKey, q).error.InvalidArgument?
    ensures forall q: DiffRequest :: ValidateDiff(ownerKey, q).Fail? ==>
              ValidateDiff(ownerKey, q).error.InvalidArgument?
    ensures forall q: ResolveRequest :: ValidateResolve(ownerKey, q).Fail? ==>
              ValidateResolve(ownerKey, q).error.InvalidArgument?
  {}

  // ----- the outbox -----

  /** The commit enqueued exactly one event, for the head, version and baseline it leaves. */
  ghost predicate OneEvent(env: Env, meta: Metadata, t: Tables, after: Tables) {
    && after.lineage.Some?
    && var l := after.lineage.value;
    && after.outbox == t.outbox
          + [RealtimeEvent(l.baselineId, after.core.cursor, l.version, meta.originConnectionId, env.now)]
  }

  /** Nothing a stream or another device could see has changed. */
  ghost predicate Quiet(t: Tables, after: Tables) {
    && after.outbox == t.outbox
    && after.archive == t.archive && after.archiveHeads == t.archiveHeads
    && after.core.operations == t.core.operations && after.core.records == t.core.records
          && after.core.cursor == t.core.cursor
    && (t.lineage.Some? ==> after.lineage == t.lineage)
  }

  lemma MutateEvents(codec: Codec, env: Env, meta: Metadata, o: Owner, ms: seq<Mutation>, deviceId: string)
    requires env.codec == codec && IsDeviceId(deviceId) && Inv(codec, o) && o.tables.lineage.Some?
    requires Mutate(env, meta.originConnectionId, o.tables, ms, deviceId).Ok?
    ensures var (after, batch) := Mutate(env, meta.originConnectionId, o.tables, ms, deviceId).value;
            if batch.appliedCount > 0
            then OneEvent(env, meta, o.tables, after) && after.core.cursor > o.tables.core.cursor
            else Quiet(o.tables, after)
  {
    hide Dense, UniqueOpIds, RecordsViewLog, ReceiptsMatchLog, LogWithinLimits, ArchiveInv, CurrentArchived,
         ApplyMutations, ResolutionsCurrent, LineageSound, Grows, Aligned, ForcedAreConflicts, ProgressDay,
         RecordRows;
    var t := o.tables;
    ApplyMutationsKeepsInv(t.core, ms, deviceId, env.now, o.snapshotLen);
    var (core, batch) := ApplyMutations(t.core, ms, deviceId, env.now).value;
    if batch.appliedCount > 0 {
      hide FinalizeBatch;
      assert ArchiveInv(t) by { InvArchive(codec, o); }
      FinalizeEffect(env, meta.originConnectionId, t, core, batch);
      MutatedEvent(env, meta, t, core, batch,
                   FinalizeBatch(env, meta.originConnectionId, t.(core := core), batch).value);
    }
  }

  lemma MutatedEvent(env: Env, meta: Metadata, t: Tables, core: Core, batch: Batch, after: Tables)
    requires t.lineage.Some? && ArchiveInv(t) && ArchiveInv(after)
    requires MutatedTo(env, meta.originConnectionId, t, core, batch, after)
    ensures OneEvent(env, meta, t, after) && after.core == core
  {
    hide Keyed, Rows, Climbs;
  }

  lemma ResetEvent(env: Env, meta: Metadata, t: Tables, request: ResolveRequest, after: Tables)
    requires Keyed(t) && Keyed(after) && ResetTo(env, meta.originConnectionId, t, request, after)
    ensures OneEvent(env, meta, t, after)
  {
    hide Keyed, Rows, SortByKey, ResultBaselineId;
  }

  /**
   * The outbox receives exactly one event for each commit that changes state, carrying the baseline, cursor
   * and version the commit leaves, and none for any other commit.
   */
  lemma OneEventPerChange(codec: Codec, env: Env, meta: Metadata, o: Owner, command: Command)
    requires env.codec == codec && Inv(codec, o) && FreshIds(env, o.tables)
    requires Execute(env, meta, o.tables, command).Ok?
    ensures var (after, changed) := Execute(env, meta, o.tables, command).value;
            if changed then OneEvent(env, meta, o.tables, after) else Quiet(o.tables, after)
  {
    hide ValidateExchange, ValidateDiff, ValidateResolve, Inv, Mutate, UseLocal, UseServer, EnsureLineage, FreshIds,
         IsDeviceId, IsBaselineId, ExchangeResponse, DiffResponseOf, CheckedDiff, RecordRows, ResetTo, Keyed;
    ValidRequests(meta.ownerKey);
    match command
    case ExchangeCommand(request) =>
      EnsureLineageKeepsInv(codec, env, o, request.baselineId);
      var ensured := EnsureLineage(env, o.tables, request.baselineId).value;
      EmptyWithout(codec, o);
      if ensured.lineage.value.baselineId == request.baselineId {
        MutateEvents(codec, env, meta, o.(tables := ensured), request.mutations, request.deviceId);
      }
    case DiffCommand(request) =>
      EnsureLineageKeepsInv(codec, env, o, request.baselineId);
      var ensured := EnsureLineage(env, o.tables, request.baselineId).value;
      EmptyWithout(codec, o);
      if ensured.lineage.value.baselineId == request.baselineId {
        MutateEvents(codec, env, meta, o.(tables := ensured), request.mutations, request.deviceId);
      }
    case ResolveCommand(request) =>
      EnsureLineageKeepsInv(codec, env, o, request.localBaselineId);
      var ensured := EnsureLineage(env, o.tables, request.localBaselineId).value;
      EmptyWithout(codec, o);
      if TakesEffect(env, meta, o.tables, request) {
        ResetEffect(codec, env, meta, o, request);
        ResetEvent(env, meta, ensured, request, Resolve(env, meta, o.tables, request).value.0);
      } else if request.requestId !in ensured.resolutions && ExpectationHolds(ensured, request) {
        if request.choice == ChooseLocal { UseLocalChanges(env, meta, ensured, request); }
        else { UseServerQuiet(ensured, request); }
      }
  }

  lemma EmptyWithout(codec: Codec, o: Owner)
    requires Inv(codec, o)
    ensures o.tables.lineage.None? ==> o.tables == EMPTY
  {}

  lemma UseServerQuiet(t: Tables, request: ResolveRequest)
    requires t.lineage.Some? && UseServer(t, request).Ok?
    ensures Quiet(t, UseServer(t, request).value.0)
  {
    hide RecordRows;
  }
}
