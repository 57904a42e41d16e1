/** Resolving a baseline keeps the invariant; USE_LOCAL retires the old baseline for good. */
module ResolveInvariant {
  import opened Prelude
  import opened SyncTypes
  import opened Validation
  import opened Progress
  import opened Tables
  import opened SyncSpec
  import opened CoreInvariant
  import opened ArchiveInvariant
  import opened OwnerInvariant

  /** Sixteen random bytes make a well-formed baseline id. */
  lemma NewBaselineIdIsValid(env: Env)
    requires env.random.Some? && |env.random.value| == 16
    ensures IsBaselineId(NewBaselineId(env).value)
  {
    var digits := Hex(env.random.value);
    assert (BASELINE_PREFIX + digits)[9..] == digits;
  }

  function DigitValue(c: char): int {
    if c <= '9' then c as int - '0' as int else c as int - 'a' as int + 10
  }

  lemma DigitsReadBack(i: int)
    requires 0 <= i < 16
    ensures DigitValue(HEX_DIGITS[i]) == i
  {}

  /** Each byte is written as two hexadecimal digits, the high one first. */
  lemma {:induction false} HexReadsBack(bytes: seq<Byte>, i: nat)
    requires i < |bytes|
    ensures 16 * DigitValue(Hex(bytes)[2 * i]) + DigitValue(Hex(bytes)[2 * i + 1]) == bytes[i] as int
  {
    if i == 0 {
      DigitsReadBack((bytes[0] as int) / 16);
      DigitsReadBack((bytes[0] as int) % 16);
    } else {
      HexReadsBack(bytes[1..], i - 1);
      assert Hex(bytes)[2..] == Hex(bytes[1..]);
      assert Hex(bytes)[2 * i] == Hex(bytes[1..])[2 * (i - 1)];
      assert Hex(bytes)[2 * i + 1] == Hex(bytes[1..])[2 * (i - 1) + 1];
    }
  }

  lemma HexIsInjective(a: seq<Byte>, b: seq<Byte>)
    requires |a| == |b| && Hex(a) == Hex(b)
    ensures a == b
  {
    forall i | 0 <= i < |a| ensures a[i] == b[i] {
      HexReadsBack(a, i);
      HexReadsBack(b, i);
    }
  }

  /** Two calls take the same id only if they drew the same sixteen bytes. */
  lemma NewBaselineIdsDiffer(a: Env, b: Env)
    requires a.random.Some? && b.random.Some? && |a.random.value| == |b.random.value| == 16
    ensures NewBaselineId(a) == NewBaselineId(b) <==> a.random == b.random
  {
    if NewBaselineId(a) == NewBaselineId(b) {
      assert (BASELINE_PREFIX + Hex(a.random.value))[9..] == Hex(a.random.value);
      assert (BASELINE_PREFIX + Hex(b.random.value))[9..] == Hex(b.random.value);
      HexIsInjective(a.random.value, b.random.value);
    }
  }

  /** The id a reset takes was never archived, so no archived row can be overwritten. */
  lemma ResultIdIsNew(env: Env, t: Tables, request: ResolveRequest)
    requires FreshIds(env, t) && IsBaselineId(request.localBaselineId)
    requires ResultBaselineId(env, t, request).Ok?
    ensures ResultBaselineId(env, t, request).value !in t.archiveHeads
    ensures IsBaselineId(ResultBaselineId(env, t, request).value)
  {
    if request.localBaselineId in t.archiveHeads { NewBaselineIdIsValid(env); }
  }

  lemma SortedStaysValid(ms: seq<Mutation>, deviceId: string)
    requires AllValid(ms, deviceId)
    ensures AllValid(SortByKey(ms), deviceId)
    ensures |SortByKey(ms)| == |ms|
  {
    var sorted := SortByKey(ms);
    assert |sorted| == |multiset(sorted)| == |multiset(ms)| == |ms|;
    forall i | 0 <= i < |sorted| ensures ValidateMutation(sorted[i], deviceId).Pass? {
      assert sorted[i] in multiset(sorted);
      assert sorted[i] in ms;
    }
  }

  /** The tables a reset leaves: the snapshot as the whole log, one receipt, the old archive and one event more. */
  ghost predicate ResetTo(env: Env, origin: string, t: Tables, request: ResolveRequest, after: Tables)
    requires Keyed(t) && Keyed(after)
  {
    var sorted := SortByKey(request.localSnapshot);
    && after.lineage.Some?
    && var l := after.lineage.value;
    && ResultBaselineId(env, t, request) == Ok(l.baselineId)
    && l == Lineage(l.baselineId, if sorted == [] then 0 else 1, env.now, l.progressDay)
    && after.resolutions == map[request.requestId := ResolutionReceiptOf(request, l, |sorted|)]
    && after.core.receipts == map[]
    && var changes := SnapshotChanges(sorted, env.now);
    && IsSnapshotLog(after.core, sorted, changes, env.now)
    && Rows(after, l.baselineId) == NewRows(changes, l.version, env.now)
    && (forall key :: key in t.archive ==> key in after.archive && after.archive[key] == t.archive[key])
    && after.archiveHeads == t.archiveHeads[l.baselineId := ArchiveHead(|sorted|, l.version, env.now)]
    && after.outbox == t.outbox + [RealtimeEvent(l.baselineId, |sorted|, l.version, origin, env.now)]
  }

  lemma SnapshotInLine(t: Tables, core: Core, l: Lineage, resolutions: map<string, ResolutionReceipt>,
                       sorted: seq<Mutation>, changes: seq<Change>, now: Uint64)
    requires ArchiveInv(t) && l.baselineId !in t.archiveHeads
    requires IsSnapshotLog(core, sorted, changes, now) && l.version == if sorted == [] then 0 else 1
    ensures ArchiveInv(t.(core := core, lineage := Some(l), resolutions := resolutions))
    ensures NextInLine(t.(core := core, lineage := Some(l), resolutions := resolutions), changes)
  {
    SameArchive(t, t.(core := core, lineage := Some(l), resolutions := resolutions));
    hide Climbs;
  }

  lemma UseLocalEffect(env: Env, meta: Metadata, t: Tables, request: ResolveRequest)
    requires ArchiveInv(t) && FreshIds(env, t)
    requires IsDeviceId(request.deviceId) && IsBaselineId(request.localBaselineId)
    requires UseLocal(env, meta, t, request).Ok?
    ensures var after := UseLocal(env, meta, t, request).value.0;
            && ArchiveInv(after)
            && ResetTo(env, meta.originConnectionId, t, request, after)
            && CoreInv(after.core, |request.localSnapshot|)
            && ProgressDay(env.codec, RecordRows(after.core.records)) == Ok(after.lineage.value.progressDay)
            && |after.lineage.value.progressDay| <= MAX_PROGRESS_DAY
  {
    hide ProgressDay, RecordRows, Keyed, Rows, Climbs, CoreInv, IsSnapshotLog, NextInLine, AllValid, CheckSnapshot,
         SortByKey, LoadSnapshot;
    CheckSnapshotMeaning(request.localSnapshot, request.deviceId);
    SortedStaysValid(request.localSnapshot, request.deviceId);
    var sorted := SortByKey(request.localSnapshot);
    LoadSnapshotKeepsInv(sorted, request.deviceId, env.now);
    var (core, changes) := LoadSnapshot(EMPTY_CORE, sorted, env.now).value;
    ResultIdIsNew(env, t, request);
    var after := UseLocal(env, meta, t, request).value.0;
    var l := after.lineage.value;
    var receipt := ResolutionReceiptOf(request, l, core.cursor);
    var receipted := t.(core := core, lineage := Some(l), resolutions := map[request.requestId := receipt]);
    SnapshotInLine(t, core, l, receipted.resolutions, sorted, changes, env.now);
    hide Publish;
    PublishInLine(env, meta.originConnectionId, receipted, changes);
    SnapshotLength(core, sorted, changes, env.now);
    RowsFrame(t, receipted, l.baselineId);
    NoRows(t, l.baselineId);
    assert [] + NewRows(changes, l.version, env.now) == NewRows(changes, l.version, env.now);
  }

  lemma NoRows(t: Tables, b: string)
    requires Keyed(t) && b !in t.archiveHeads
    ensures Rows(t, b) == []
  {}

  lemma SnapshotLength(core: Core, sorted: seq<Mutation>, changes: seq<Change>, now: Uint64)
    requires IsSnapshotLog(core, sorted, changes, now)
    ensures core.cursor == |sorted| == |changes| && changes == SnapshotChanges(sorted, now)
  {}

  lemma RowsFrame(t: Tables, u: Tables, b: string)
    requires Keyed(t) && Keyed(u) && u.archive == t.archive && u.archiveHeads == t.archiveHeads
    ensures Rows(u, b) == Rows(t, b)
  {}

  lemma ResetKeepsCurrent(env: Env, origin: string, t: Tables, request: ResolveRequest, after: Tables)
    requires Keyed(t) && Keyed(after) && Dense(after.core) && ResetTo(env, origin, t, request, after)
    ensures CurrentArchived(after) && ResolutionsCurrent(after)
  {
    hide SortByKey, ResultBaselineId;
    var l := after.lineage.value;
    var changes := SnapshotChanges(SortByKey(request.localSnapshot), env.now);
    assert BaselineLog(after, l.baselineId) == changes;
    assert Log(after.core) == changes;
  }

  lemma ResetIsLater(env: Env, origin: string, t: Tables, request: ResolveRequest, after: Tables)
    requires Keyed(t) && Keyed(after) && ResetTo(env, origin, t, request, after)
    requires FreshIds(env, t) && IsBaselineId(request.localBaselineId)
    ensures Later(t, after)
  {
    hide SortByKey, ResultBaselineId, Keyed, Rows, IsSnapshotLog, FreshIds, IsBaselineId, SnapshotChanges, NewRows,
         Grows;
    ResultIdIsNew(env, t, request);
  }

  /** A reset keeps the invariant, now with the whole log as its snapshot prefix. */
  lemma UseLocalKeepsInv(codec: Codec, env: Env, meta: Metadata, o: Owner, request: ResolveRequest)
    requires env.codec == codec && Inv(codec, o) && o.tables.lineage.Some? && FreshIds(env, o.tables)
    requires IsDeviceId(request.deviceId) && IsBaselineId(request.localBaselineId)
    requires UseLocal(env, meta, o.tables, request).Ok?
    ensures var after := UseLocal(env, meta, o.tables, request).value.0;
            Inv(codec, Owner(after, |request.localSnapshot|)) && Later(o.tables, after)
  {
    hide CoreInv, CurrentArchived, ResolutionsCurrent, Climbs, Rows, ProgressDay, RecordRows, ResetTo, Later,
         UseLocal, FreshIds, Keyed, IsBaselineId, IsDeviceId;
    var after := UseLocal(env, meta, o.tables, request).value.0;
    UseLocalEffect(env, meta, o.tables, request);
    CoreInvDense(after.core, |request.localSnapshot|);
    ResetKeepsCurrent(env, meta.originConnectionId, o.tables, request, after);
    ResetIsLater(env, meta.originConnectionId, o.tables, request, after);
    ResetLineage(env, meta.originConnectionId, o.tables, request, after);
  }

  lemma CoreInvDense(core: Core, snapshotLen: nat)
    requires CoreInv(core, snapshotLen)
    ensures Dense(core)
  {}

  lemma ResetLineage(env: Env, origin: string, t: Tables, request: ResolveRequest, after: Tables)
    requires Keyed(t) && Keyed(after) && ResetTo(env, origin, t, request, after)
    requires FreshIds(env, t) && IsBaselineId(request.localBaselineId)
    ensures after.lineage.Some? && IsBaselineId(after.lineage.value.baselineId)
              && after.lineage.value.updatedAtMs <= MAX_UINT64
  {
    ResultIdIsNew(env, t, request);
  }

  lemma UseServerKeepsInv(codec: Codec, o: Owner, request: ResolveRequest)
    requires Inv(codec, o) && o.tables.lineage.Some? && request.requestId !in o.tables.resolutions
    ensures UseServer(o.tables, request).Ok?
    ensures Inv(codec, o.(tables := UseServer(o.tables, request).value.0))
    ensures Later(o.tables, UseServer(o.tables, request).value.0)
  {
    hide CoreInv, Climbs, ProgressDay, RecordRows, Log, BaselineLog, Rows, Dense, Keyed, Grows;
    var after := UseServer(o.tables, request).value.0;
    SameArchive(o.tables, after);
    SameBaselineLog(o.tables, after, o.tables.lineage.value.baselineId);
    CoreInvDense(after.core, o.snapshotLen);
    GrowsReflexive(after.core);
  }

  lemma SameBaselineLog(t: Tables, u: Tables, b: string)
    requires Keyed(t) && Keyed(u) && Rows(u, b) == Rows(t, b)
    ensures BaselineLog(u, b) == BaselineLog(t, b)
  {}

  /** Validated requests name a device and a baseline. */
  lemma ValidRequests(ownerKey: string)
    ensures forall q: SyncRequest :: ValidateExchange(ownerKey, q).Pass? ==>
              IsDeviceId(q.deviceId) && IsBaselineId(q.baselineId)
    ensures forall q: DiffRequest :: ValidateDiff(ownerKey, q).Pass? ==>
              IsDeviceId(q.deviceId) && IsBaselineId(q.baselineId)
    ensures forall q: ResolveRequest :: ValidateResolve(ownerKey, q).Pass? ==>
              IsDeviceId(q.deviceId) && IsBaselineId(q.localBaselineId) && IsBaselineId(q.expectedServerBaselineId)
  {
    hide IsOwnerKey, IsDeviceId, IsBaselineId, IsRequestId, ValidateMutationNumbers;
  }

  lemma FreshStaysFresh(codec: Codec, env: Env, o: Owner, t: Tables)
    requires Inv(codec, o) && FreshIds(env, o.tables)
    requires t == if o.tables.lineage.Some? then o.tables else EMPTY.(lineage := t.lineage)
    ensures FreshIds(env, t)
  {}

  /** Every resolution that commits keeps the invariant. */
  lemma ResolveKeepsInv(codec: Codec, env: Env, meta: Metadata, o: Owner, request: ResolveRequest)
    requires env.codec == codec && Inv(codec, o) && FreshIds(env, o.tables)
    requires Resolve(env, meta, o.tables, request).Ok?
    ensures var (after, reply) := Resolve(env, meta, o.tables, request).value;
            && Inv(codec, Owner(after, if reply.stateChanged then |request.localSnapshot| else o.snapshotLen))
            && Later(o.tables, after)
  {
    hide ValidateResolve, Inv, Later, UseLocal, UseServer, EnsureLineage, IsDeviceId, IsBaselineId, FreshIds;
    ValidRequests(meta.ownerKey);
    EnsureLineageKeepsInv(codec, env, o, request.localBaselineId);
    var ensured := EnsureLineage(env, o.tables, request.localBaselineId).value;
    assert FreshIds(env, ensured) by { FreshStaysFresh(codec, env, o, ensured); }
    var start := Owner(ensured, o.snapshotLen);
    LaterReflexive(ensured);
    var (after, reply) := Resolve(env, meta, o.tables, request).value;
    if request.requestId in ensured.resolutions || !ExpectationHolds(ensured, request) {
    } else if request.choice == ChooseLocal {
      UseLocalKeepsInv(codec, env, meta, start, request);
      assert reply.stateChanged by { UseLocalChanges(env, meta, ensured, request); }
    } else {
      UseServerKeepsInv(codec, start, request);
      assert !reply.stateChanged by { UseServerDoesNotChange(ensured, request); }
    }
    LaterTransitive(o.tables, ensured, after);
  }

  lemma UseLocalChanges(env: Env, meta: Metadata, t: Tables, request: ResolveRequest)
    requires UseLocal(env, meta, t, request).Ok?
    ensures UseLocal(env, meta, t, request).value.1.stateChanged
  {
    hide CheckSnapshot, LoadSnapshot, SortByKey, ProgressDay, RecordRows, Publish, NewBaselineId;
  }

  lemma UseServerDoesNotChange(t: Tables, request: ResolveRequest)
    requires t.lineage.Some? && UseServer(t, request).Ok?
    ensures !UseServer(t, request).value.1.stateChanged
  {}

  // ----- every command -----

  lemma ExchangeKeepsInv(codec: Codec, env: Env, meta: Metadata, o: Owner, request: SyncRequest)
    requires env.codec == codec && Inv(codec, o) && Exchange(env, meta, o.tables, request).Ok?
    ensures var after := Exchange(env, meta, o.tables, request).value.0;
            Inv(codec, o.(tables := after)) && Later(o.tables, after)
  {
    hide ValidateExchange, Inv, Later, Mutate, ExchangeResponse, IsDeviceId, IsBaselineId, EnsureLineage;
    ValidRequests(meta.ownerKey);
    EnsureLineageKeepsInv(codec, env, o, request.baselineId);
    var ensured := EnsureLineage(env, o.tables, request.baselineId).value;
    if ensured.lineage.value.baselineId == request.baselineId {
      MutateKeepsInv(codec, env, meta.originConnectionId, o.(tables := ensured), request.mutations, request.deviceId);
      LaterTransitive(o.tables, ensured, Exchange(env, meta, o.tables, request).value.0);
    }
  }

  lemma DiffKeepsInv(codec: Codec, env: Env, meta: Metadata, o: Owner, request: DiffRequest)
    requires env.codec == codec && Inv(codec, o) && Diff(env, meta, o.tables, request).Ok?
    ensures var after := Diff(env, meta, o.tables, request).value.0;
            Inv(codec, o.(tables := after)) && Later(o.tables, after)
  {
    hide ValidateDiff, Inv, Later, Mutate, CheckedDiff, DiffResponseOf, IsDeviceId, IsBaselineId, EnsureLineage;
    ValidRequests(meta.ownerKey);
    EnsureLineageKeepsInv(codec, env, o, request.baselineId);
    var ensured := EnsureLineage(env, o.tables, request.baselineId).value;
    if ensured.lineage.value.baselineId == request.baselineId {
      MutateKeepsInv(codec, env, meta.originConnectionId, o.(tables := ensured), request.mutations, request.deviceId);
      LaterTransitive(o.tables, ensured, Diff(env, meta, o.tables, request).value.0);
    }
  }

  /** Every committed command keeps the invariant and leads to a later state. */
  lemma CommitKeepsInv(codec: Codec, env: Env, meta: Metadata, o: Owner, command: Command, after: Owner)
    requires Inv(codec, o) && Commits(codec, env, meta, o, command, after)
    ensures Inv(codec, after) && Later(o.tables, after.tables)
  {
    hide Inv, Later, Exchange, Diff, Resolve, FreshIds;
    match command
    case ExchangeCommand(request) => ExchangeKeepsInv(codec, env, meta, o, request);
    case DiffCommand(request) => DiffKeepsInv(codec, env, meta, o, request);
    case ResolveCommand(request) => ResolveKeepsInv(codec, env, meta, o, request);
  }
}
