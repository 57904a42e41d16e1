/** Replayed resolutions, and the one reset that can take effect twice. */
module Resolutions {
  import opened Prelude
  import opened SyncTypes
  import opened Validation
  import opened Progress
  import opened Tables
  import opened SyncSpec
  import opened CoreInvariant
  import opened ArchiveInvariant
  import opened OwnerInvariant
  import opened ResolveInvariant
  import opened History
  import opened Resets

  // ----- replay -----

  /** A resolution that is not stale answers with the records it leaves and leaves its receipt with them. */
  lemma FreshReplyForm(codec: Codec, env: Env, meta: Metadata, o: Owner, request: ResolveRequest)
    requires env.codec == codec && Inv(codec, o) && Resolve(env, meta, o.tables, request).Ok?
    requires !Resolve(env, meta, o.tables, request).value.1.response.stale
    ensures ValidateResolve(meta.ownerKey, request).Pass?
    ensures var (after, reply) := Resolve(env, meta, o.tables, request).value;
            && after.lineage.Some?
            && reply.response == ResolveResponseOf(after, RecordRows(after.core.records), false)
            && request.requestId in after.resolutions
            && SameResolution(after.resolutions[request.requestId], request)
            && after.resolutions[request.requestId].resultVersion == after.lineage.value.version
            && after.resolutions[request.requestId].resultBaselineId == after.lineage.value.baselineId
  {
    hide ValidateResolve, Inv, EnsureLineage, IsDeviceId, IsBaselineId, UseLocal, UseServer, RecordRows;
    ValidRequests(meta.ownerKey);
    EnsureLineageKeepsInv(codec, env, o, request.localBaselineId);
    var ensured := EnsureLineage(env, o.tables, request.localBaselineId).value;
    if request.requestId in ensured.resolutions || !ExpectationHolds(ensured, request) {
    } else if request.choice == ChooseLocal {
      UseLocalForm(env, meta, ensured, request);
    } else {
      UseServerForm(ensured, request);
    }
  }

  lemma UseLocalForm(env: Env, meta: Metadata, t: Tables, request: ResolveRequest)
    requires UseLocal(env, meta, t, request).Ok?
    ensures var (after, reply) := UseLocal(env, meta, t, request).value;
            && after.lineage.Some?
            && reply.response == ResolveResponseOf(after, RecordRows(after.core.records), false)
            && request.requestId in after.resolutions
            && after.resolutions[request.requestId]
                  == ResolutionReceiptOf(request, after.lineage.value, after.core.cursor)
  {
    hide CheckSnapshot, LoadSnapshot, SortByKey, ProgressDay, RecordRows, Publish, ResultBaselineId;
  }

  lemma UseServerForm(t: Tables, request: ResolveRequest)
    requires t.lineage.Some? && UseServer(t, request).Ok?
    ensures var (after, reply) := UseServer(t, request).value;
            && after.lineage.Some?
            && reply.response == ResolveResponseOf(after, RecordRows(after.core.records), false)
            && request.requestId in after.resolutions
            && after.resolutions[request.requestId]
                  == ResolutionReceiptOf(request, after.lineage.value, after.core.cursor)
  {
    hide RecordRows;
  }

  /**
   * Replaying a resolution whose receipt is still there and whose version is still current returns exactly
   * the original response and changes nothing.
   */
  lemma ReplayedResolutionIsIdentical(codec: Codec, env: Env, meta: Metadata, before: Owner, o: Owner,
                                      request: ResolveRequest, later: Owner, env': Env, meta': Metadata)
    requires Inv(codec, before) && Commits(codec, env, meta, before, ResolveCommand(request), o)
    requires !Resolve(env, meta, before.tables, request).value.1.response.stale
    requires Reaches(codec, o, later) && meta'.ownerKey == meta.ownerKey
    requires request.requestId in o.tables.resolutions && request.requestId in later.tables.resolutions
    requires later.tables.resolutions[request.requestId] == o.tables.resolutions[request.requestId]
    requires later.tables.lineage.Some?
    requires later.tables.resolutions[request.requestId].resultVersion == later.tables.lineage.value.version
    ensures Resolve(env', meta', later.tables, request) ==
            Ok((later.tables, Reply(Resolve(env, meta, before.tables, request).value.1.response, false)))
  {
    hide Reaches, ValidateResolve, Inv, RecordRows, FreshIds, UseLocal, UseServer;
    ResolveCommitted(codec, env, meta, before, request, o);
    FreshReplyForm(codec, env, meta, before, request);
    SameReceiptSameLineage(codec, o, later, request.requestId);
  }

  lemma SameReceiptSameLineage(codec: Codec, o: Owner, later: Owner, q: string)
    requires Reaches(codec, o, later) && o.tables.lineage.Some? && later.tables.lineage.Some?
    requires q in o.tables.resolutions && q in later.tables.resolutions
    requires later.tables.resolutions[q] == o.tables.resolutions[q]
    requires o.tables.resolutions[q].resultVersion == o.tables.lineage.value.version
              == later.tables.lineage.value.version
    ensures later.tables.lineage == o.tables.lineage
    ensures later.tables.core.records == o.tables.core.records && later.tables.core.cursor == o.tables.core.cursor
  {
    InvResolutions(codec, o);
    InvResolutions(codec, later);
    hide Reaches;
    VersionDeterminesState(codec, o, later);
  }

  lemma InvResolutions(codec: Codec, o: Owner)
    requires Inv(codec, o) && o.tables.lineage.Some?
    ensures ResolutionsCurrent(o.tables)
  {
    hide CoreInv, ArchiveInv, CurrentArchived, LineageSound, ResolutionsCurrent;
  }

  lemma NoResolutionsYet(codec: Codec, o: Owner)
    requires Inv(codec, o) && o.tables.lineage.None?
    ensures o.tables.resolutions == map[]
  {
    hide CoreInv, ArchiveInv, CurrentArchived, LineageSound, ResolutionsCurrent;
  }

  /**
   * In every state of every run each resolution receipt names the current baseline and lies no further than
   * its head; one that names the current version names the current head and update time too.
   */
  lemma ResolutionsAreCurrent(codec: Codec, states: seq<Owner>, i: nat, requestId: string)
    requires Run(codec, states) && i < |states| && requestId in states[i].tables.resolutions
    ensures states[i].tables.lineage.Some?
    ensures var t, r := states[i].tables, states[i].tables.resolutions[requestId];
            var l := t.lineage.value;
            && r.requestId == requestId && r.resultBaselineId == l.baselineId
            && r.resultVersion <= l.version && r.resultCursor <= t.core.cursor
            && (r.resultVersion == l.version ==>
                  r.resultCursor == t.core.cursor && r.resultUpdatedAtMs == l.updatedAtMs)
  {
    hide Run, Inv;
    RunKeepsInv(codec, states, i);
    if states[i].tables.lineage.None? { NoResolutionsYet(codec, states[i]); }
    InvResolutions(codec, states[i]);
  }

  // ----- twice -----

  const OTHER_REQUEST_IDS := ("request_id_a", "request_id_b")

  function OtherRequestId(requestId: string): (other: string)
    ensures other != requestId && IsRequestId(other)
  {
    if requestId == OTHER_REQUEST_IDS.0 then OTHER_REQUEST_IDS.1 else OTHER_REQUEST_IDS.0
  }

  /** A request that takes the lineage back to an id with an empty snapshot. */
  function ReturnTo(request: ResolveRequest, l: Lineage): ResolveRequest {
    ResolveRequest(OtherRequestId(request.requestId), request.deviceId, request.expectedServerBaselineId,
                   l.baselineId, l.version, ChooseLocal, [], 0, 0)
  }

  /** On tables without an archive for its id and with its expectation met, an empty reset succeeds. */
  lemma EmptyResetSucceeds(codec: Codec, env: Env, meta: Metadata, o: Owner, request: ResolveRequest)
    requires env.codec == codec && Inv(codec, o) && o.tables.lineage.Some? && FreshIds(env, o.tables)
    requires ValidateResolve(meta.ownerKey, request).Pass? && request.choice == ChooseLocal
              && request.localSnapshot == []
    requires request.requestId !in o.tables.resolutions && ExpectationHolds(o.tables, request)
    requires request.localBaselineId !in o.tables.archiveHeads
    ensures TakesEffect(env, meta, o.tables, request)
    ensures var after := Resolve(env, meta, o.tables, request).value.0;
            && after.lineage == Some(Lineage(request.localBaselineId, 0, env.now, CAMPAIGN_START))
            && after.resolutions.Keys == {request.requestId}
            && after.archiveHeads.Keys == o.tables.archiveHeads.Keys + {request.localBaselineId}
  {
    hide ValidateResolve, ProgressDay, RecordRows, Publish, Climbs, Keyed, Rows, NextInLine, CoreInv, CurrentArchived,
         ResolutionsCurrent, LineageSound, IsSnapshotLog;
    EmptyProgress(codec);
    var l := Lineage(request.localBaselineId, 0, env.now, CAMPAIGN_START);
    var receipt := ResolutionReceiptOf(request, l, 0);
    var receipted := o.tables.(core := EMPTY_CORE, lineage := Some(l),
                               resolutions := map[request.requestId := receipt]);
    EmptySnapshot(env.now);
    SnapshotInLine(o.tables, EMPTY_CORE, l, receipted.resolutions, [], [], env.now);
    hide ArchiveInv;
    PublishInLine(env, meta.originConnectionId, receipted, []);
    assert UseLocal(env, meta, o.tables, request).Ok?;
  }

  lemma EmptySnapshot(now: Uint64)
    ensures IsSnapshotLog(EMPTY_CORE, [], [], now)
  {}

  /** With a fresh id at hand, a snapshot that was accepted once is accepted again at the same clock. */
  lemma SameSnapshotSucceeds(codec: Codec, env: Env, meta: Metadata, t: Tables, request: ResolveRequest,
                             later: Owner, env': Env, meta': Metadata)
    requires env.codec == env'.codec == codec && env'.now == env.now && meta'.ownerKey == meta.ownerKey
    requires UseLocal(env, meta, t, request).Ok? && ValidateResolve(meta.ownerKey, request).Pass?
    requires request.choice == ChooseLocal && IsDeviceId(request.deviceId)
    requires Inv(codec, later) && later.tables.lineage.Some?
    requires request.requestId !in later.tables.resolutions && ExpectationHolds(later.tables, request)
    requires env'.random.Some? && FreshIds(env', later.tables) && request.localBaselineId in later.tables.archiveHeads
    ensures TakesEffect(env', meta', later.tables, request)
  {
    hide ValidateResolve, CheckSnapshot, LoadSnapshot, SortByKey, ProgressDay, RecordRows, Climbs, Keyed, Rows,
         NextInLine, CoreInv, CurrentArchived, ResolutionsCurrent, LineageSound, IsSnapshotLog, AllValid;
    CheckSnapshotMeaning(request.localSnapshot, request.deviceId);
    SortedStaysValid(request.localSnapshot, request.deviceId);
    var sorted := SortByKey(request.localSnapshot);
    LoadSnapshotKeepsInv(sorted, request.deviceId, env.now);
    var (core, changes) := LoadSnapshot(EMPTY_CORE, sorted, env.now).value;
    var day := ProgressDay(codec, RecordRows(core.records)).value;
    var l := Lineage(NewBaselineId(env').value, if |request.localSnapshot| > 0 then 1 else 0, env'.now, day);
    var receipt := ResolutionReceiptOf(request, l, core.cursor);
    var receipted := later.tables.(core := core, lineage := Some(l), resolutions := map[request.requestId := receipt]);
    SnapshotInLine(later.tables, core, l, receipted.resolutions, sorted, changes, env'.now);
    hide Publish, ArchiveInv;
    PublishInLine(env', meta'.originConnectionId, receipted, changes);
    assert UseLocal(env', meta', later.tables, request).Ok?;
  }

  /**
   * The exception to "at most once". If the reset does not archive the baseline it expects, one more commit
   * leads to a state where the very same request takes effect again.
   */
  lemma UnarchivedCanRecur(codec: Codec, env: Env, meta: Metadata, before: Owner, o: Owner, request: ResolveRequest,
                           env': Env)
    requires Inv(codec, before) && Commits(codec, env, meta, before, ResolveCommand(request), o)
    requires TakesEffect(env, meta, before.tables, request) && !ArchivesExpected(env, before.tables, request)
    requires env'.codec == codec && env'.now == env.now && env'.random.Some? && |env'.random.value| == 16
    requires NewBaselineId(env').value !in o.tables.archiveHeads
    requires NewBaselineId(env').value != request.expectedServerBaselineId
    ensures exists later :: Step(codec, o, later) && FreshIds(env', later.tables)
              && TakesEffect(env', meta, later.tables, request)
  {
    hide Inv, Commits, TakesEffect, Later, FreshIds, ValidateResolve, EnsureLineage, UseLocal, Resolve, NewBaselineId,
         ArchivesExpected;
    ExpectedArchived(codec, env, meta, before, o, request);
    CommitKeepsInv(codec, env, meta, before, ResolveCommand(request), o);
    ResolveCommitted(codec, env, meta, before, request, o);
    ResetMovesOn(codec, env, meta, before, o, request);
    ResetKeys(codec, env, meta, before, request);
    EffectParts(codec, env, meta, before, request);
    ReturnIsValid(codec, meta, o, request);
    var back := ReturnTo(request, o.tables.lineage.value);
    FreshFor(env', o.tables);
    EmptyResetSucceeds(codec, env', meta, o, back);
    ResetCommits(codec, env', meta, o, back);
    var later := Owner(Resolve(env', meta, o.tables, back).value.0, 0);
    CommitKeepsInv(codec, env', meta, o, ResolveCommand(back), later);
    FreshFor(env', later.tables);
    ChoiceIsLocal(env, meta, before.tables, request);
    var ensured := EnsureLineage(env, before.tables, request.localBaselineId).value;
    SameSnapshotSucceeds(codec, env, meta, ensured, request, later, env', meta);
    assert Step(codec, o, later);
  }

  /** Some continuation of the history leads to a state where the request takes effect. */
  ghost predicate CanTakeEffect(codec: Codec, o: Owner, request: ResolveRequest) {
    exists states, env, meta :: TakesEffectAfter(codec, o, states, env, meta, request)
  }

  ghost predicate TakesEffectAfter(codec: Codec, o: Owner, states: seq<Owner>, env: Env, meta: Metadata,
                                   request: ResolveRequest)
  {
    && Path(codec, states) && states[0] == o && env.codec == codec
    && var last := states[|states| - 1];
    && FreshIds(env, last.tables) && TakesEffect(env, meta, last.tables, request)
  }

  /**
   * The exact condition, on what is stored before the request: once it has taken effect, a USE_LOCAL request
   * can take effect again iff the baseline it expects is not archived and the id it takes is another one.
   * (bytes stands for sixteen random bytes that name no archived baseline of the owner, nor the expected one.)
   */
  lemma OnceIffArchived(codec: Codec, env: Env, meta: Metadata, before: Owner, o: Owner, request: ResolveRequest,
                        bytes: seq<Byte>)
    requires Inv(codec, before) && Commits(codec, env, meta, before, ResolveCommand(request), o)
    requires TakesEffect(env, meta, before.tables, request) && |bytes| == 16
    requires var id := NewBaselineId(env.(random := Some(bytes))).value;
             id !in o.tables.archiveHeads && id != request.expectedServerBaselineId
    ensures CanTakeEffect(codec, o, request) <==> !ArchivesExpected(env, before.tables, request)
  {
    hide Inv, Commits, TakesEffect, Later, FreshIds, NewBaselineId, ArchivesExpected, Reaches, Resolve;
    ResolveCommitted(codec, env, meta, before, request, o);
    CommitKeepsInv(codec, env, meta, before, ResolveCommand(request), o);
    var env' := env.(random := Some(bytes));
    if ArchivesExpected(env, before.tables, request) {
      forall states, e, m ensures !TakesEffectAfter(codec, o, states, e, m, request) {
        if TakesEffectAfter(codec, o, states, e, m, request) {
          PathReaches(codec, states, |states| - 1);
          ArchivedMeansOnce(codec, env, meta, before, o, request, states[|states| - 1], e, m);
        }
      }
    } else {
      UnarchivedCanRecur(codec, env, meta, before, o, request, env');
      var later :| Step(codec, o, later) && FreshIds(env', later.tables)
            && TakesEffect(env', meta, later.tables, request);
      assert TakesEffectAfter(codec, o, [o, later], env', meta, request);
    }
  }

  lemma FreshFor(env: Env, t: Tables)
    requires env.random.Some? && |env.random.value| == 16
    ensures FreshIds(env, t) <==> NewBaselineId(env).value !in t.archiveHeads
  {}

  lemma ResolveCommitted(codec: Codec, env: Env, meta: Metadata, o: Owner, request: ResolveRequest, after: Owner)
    requires Commits(codec, env, meta, o, ResolveCommand(request), after)
    ensures env.codec == codec && FreshIds(env, o.tables)
    ensures Resolve(env, meta, o.tables, request).Ok? && after.tables == Resolve(env, meta, o.tables, request).value.0
  {
    hide Resolve, FreshIds;
  }

  lemma ResetCommits(codec: Codec, env: Env, meta: Metadata, o: Owner, request: ResolveRequest)
    requires env.codec == codec && FreshIds(env, o.tables) && TakesEffect(env, meta, o.tables, request)
    ensures Resolve(env, meta, o.tables, request).Ok?
    ensures Commits(codec, env, meta, o, ResolveCommand(request),
                    Owner(Resolve(env, meta, o.tables, request).value.0, |request.localSnapshot|))
  {
    hide Resolve, FreshIds;
  }

  lemma ChoiceIsLocal(env: Env, meta: Metadata, t: Tables, request: ResolveRequest)
    requires TakesEffect(env, meta, t, request)
    ensures request.choice == ChooseLocal
  {
    hide UseLocal, UseServer, ValidateResolve, EnsureLineage;
    var ensured := EnsureLineage(env, t, request.localBaselineId).value;
    if request.requestId !in ensured.resolutions && ExpectationHolds(ensured, request)
          && request.choice != ChooseLocal {
      UseServerDoesNotChange(ensured, request);
    }
  }

  /** The receipts and archive heads right after a reset. */
  lemma ResetKeys(codec: Codec, env: Env, meta: Metadata, before: Owner, request: ResolveRequest)
    requires env.codec == codec && Inv(codec, before) && FreshIds(env, before.tables)
    requires TakesEffect(env, meta, before.tables, request)
    ensures var after := Resolve(env, meta, before.tables, request).value.0;
            && after.resolutions.Keys == {request.requestId}
            && request.localBaselineId in after.archiveHeads
            && after.lineage.Some? && after.lineage.value.version <= 1
  {
    hide Inv, Resolve, UseLocal, EnsureLineage, SortByKey, IsSnapshotLog, Keyed, Rows, FreshIds, Dense, ProgressDay,
         RecordRows, TakesEffect, SnapshotChanges, NewRows, NewBaselineId;
    ResetEffect(codec, env, meta, before, request);
  }

  lemma ReturnIsValid(codec: Codec, meta: Metadata, o: Owner, request: ResolveRequest)
    requires ValidateResolve(meta.ownerKey, request).Pass? && Inv(codec, o) && o.tables.lineage.Some?
    requires o.tables.lineage.value.version <= 1
    ensures ValidateResolve(meta.ownerKey, ReturnTo(request, o.tables.lineage.value)).Pass?
  {
    hide CoreInv, ArchiveInv, CurrentArchived, ResolutionsCurrent, IsBaselineId, IsOwnerKey, IsDeviceId, IsRequestId,
         ValidateMutationNumbers, ProgressDay, RecordRows;
    NoMutations();
  }

  lemma NoMutations()
    ensures ValidateMutationNumbers([]).Pass?
  {}
}
