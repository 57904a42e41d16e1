/** Two concrete histories, from an owner without rows: what the exceptions of the general theorems look like. */
module Scenarios {
  import opened Prelude
  import opened SyncTypes
  import opened Validation
  import opened Progress
  import opened Tables
  import opened SyncSpec
  import opened CoreInvariant
  import opened ArchiveInvariant
  import opened OwnerInvariant
  import opened ResolveInvariant
  import opened History
  import opened Replay
  import opened Resets
  import opened Resolutions

  const DEVICE := "device_a"
  const META := Metadata(Repeated('0', 64), "connection_a")
  const FIRST_ID := BASELINE_PREFIX + Repeated('a', 32)
  const SECOND_ID := BASELINE_PREFIX + Repeated('b', 32)

  function Repeated<T>(x: T, n: nat): (xs: seq<T>)
    ensures |xs| == n && forall i :: 0 <= i < n ==> xs[i] == x
  {
    seq(n, _ => x)
  }

  /** The rows and the batch after a valid mutation that neither conflicts nor meets its op_id. */
  lemma FreshIsAccepted(core: Core, batch: Batch, m: Mutation, deviceId: string, now: Uint64)
    requires Dense(core) && core.cursor < MAX_UINT64 && ValidateMutation(m, deviceId).Pass? && m.opId !in core.receipts
    requires !Conflicts(core, m) && !core.HasOpId(m.opId)
    ensures var change := MutationChange(m, core.cursor + 1, ClampClientTime(m.clientTimeMs, now));
            var r := ApplyMutation(core, batch, m, deviceId, now);
            && r.Ok?
            && r.value.0.cursor == core.cursor + 1
            && r.value.0.operations == core.operations[core.cursor + 1 := change]
            && r.value.0.records == core.records[m.entityKey := change]
            && r.value.0.receipts.Keys == core.receipts.Keys + {m.opId}
            && r.value.1.appliedCount == batch.appliedCount + 1
            && r.value.1.acks == batch.acks + [MutationAck(m.opId, core.cursor + 1, false, true)]
            && r.value.1.canonicalChanges == batch.canonicalChanges + [change]
  {
    hide ValidateMutation, Accept, ClampClientTime, Dense;
    AcceptEffect(core, batch, m, now);
  }

  /** Sixteen zero bytes, whose id differs from both of the clients'. */
  function ZeroEnv(codec: Codec, now: Uint64): Env {
    Env(now, Some(Repeated(0, 16)), codec)
  }

  lemma ZeroId(codec: Codec, now: Uint64)
    ensures var env := ZeroEnv(codec, now);
            NewBaselineId(env).value != FIRST_ID && NewBaselineId(env).value != SECOND_ID
  {
    var digits := Hex(ZeroEnv(codec, now).random.value);
    assert digits[0] == '0';
    assert (BASELINE_PREFIX + digits)[9] == '0';
    assert FIRST_ID[9] == 'a' && SECOND_ID[9] == 'b';
  }

  lemma GoodIds()
    ensures IsOwnerKey(META.ownerKey) && IsDeviceId(DEVICE)
    ensures IsBaselineId(FIRST_ID) && IsBaselineId(SECOND_ID) && FIRST_ID != SECOND_ID
    ensures IsRequestId("request_id_0") && IsRequestId("request_id_1")
  {
    assert FIRST_ID[9..] == Repeated('a', 32) && SECOND_ID[9..] == Repeated('b', 32);
    assert FIRST_ID[9] == 'a' && SECOND_ID[9] == 'b';
  }

  /** An owner whose only commit created a lineage. */
  function Adopted(baselineId: string): Owner {
    Owner(EMPTY.(lineage := Some(Lineage(baselineId, 0, 0, CAMPAIGN_START))), 0)
  }

  /** A request to keep the device's empty snapshot, expecting the lineage at version 0. */
  function ResetRequest(requestId: string, local: string, expected: string): ResolveRequest {
    ResolveRequest(requestId, DEVICE, local, expected, 0, ChooseLocal, [], 0, 0)
  }

  lemma ResetRequestIsValid(local: string, expected: string)
    requires IsBaselineId(local) && IsBaselineId(expected)
    ensures ValidateResolve(META.ownerKey, ResetRequest("request_id_0", local, expected)).Pass?
    ensures ValidateResolve(META.ownerKey, ResetRequest("request_id_1", local, expected)).Pass?
  {
    hide IsOwnerKey, IsDeviceId, IsBaselineId, IsRequestId;
    GoodIds();
    NoMutations();
  }

  /** A first request whose expectation fails commits the lineage it adopts, and nothing else. */
  lemma FirstAdopts(codec: Codec, env: Env, local: string, expected: string)
    requires env.codec == codec && FreshIds(env, NEW_OWNER.tables)
    requires IsBaselineId(local) && IsBaselineId(expected) && local != expected
    ensures Commits(codec, env, META, NEW_OWNER, ResolveCommand(ResetRequest("request_id_0", local, expected)),
                    Adopted(local))
  {
    hide ValidateResolve, FreshIds, IsBaselineId, UseLocal, UseServer;
    ResetRequestIsValid(local, expected);
  }

  /**
   * The same request takes effect twice. A first request adopts FIRST_ID, whose empty lineage is never
   * archived. A reset to SECOND_ID takes effect; a reset back to FIRST_ID follows, and then the former
   * request finds its expectation met and no receipt.
   */
  lemma SameResetTwice(codec: Codec, now: Uint64)
    ensures var env := ZeroEnv(codec, now);
            var request := ResetRequest("request_id_1", SECOND_ID, FIRST_ID);
            exists states: seq<Owner> :: Run(codec, states) && |states| == 4
                             && Commits(codec, env, META, states[1], ResolveCommand(request), states[2])
                             && TakesEffect(env, META, states[1].tables, request)
                             && TakesEffect(env, META, states[3].tables, request)
  {
    hide Inv, Commits, TakesEffect, FreshIds, ValidateResolve, Resolve, NewBaselineId, IsBaselineId, Hex, Later;
    var env := ZeroEnv(codec, now);
    var request := ResetRequest("request_id_1", SECOND_ID, FIRST_ID);
    GoodIds();
    ZeroId(codec, now);
    EmptyInv(codec);
    var first := Adopted(FIRST_ID);
    FreshFor(env, NEW_OWNER.tables);
    FreshFor(env, first.tables);
    FirstAdopts(codec, env, FIRST_ID, SECOND_ID);
    CommitKeepsInv(codec, env, META, NEW_OWNER, ResolveCommand(ResetRequest("request_id_0", FIRST_ID, SECOND_ID)),
                   first);
    ResetRequestIsValid(SECOND_ID, FIRST_ID);
    EmptyResetSucceeds(codec, env, META, first, request);
    ResetCommits(codec, env, META, first, request);
    var second := Owner(Resolve(env, META, first.tables, request).value.0, 0);
    UnarchivedCanRecur(codec, env, META, first, second, request, env);
    var third :| Step(codec, second, third) && TakesEffect(env, META, third.tables, request);
    assert Step(codec, NEW_OWNER, first);
    assert Step(codec, first, second);
    ghost var states := [NEW_OWNER, first, second, third];
    assert Run(codec, states);
  }

  // ----- an op_id taken over from a snapshot -----

  const KEY := ENTITY_PREFIX + "x"
  const DELETION := Mutation("op_id_00", KEY, 0, 0, [], true, DEVICE, 0)
  const TAKEOVER := ResolveRequest("request_id_0", DEVICE, FIRST_ID, FIRST_ID, 0, ChooseLocal, [DELETION], 0, 0)

  /** The same change sent as a mutation, based on what the reset left. */
  function Resent(): DiffRequest {
    DiffRequest(DEVICE, [DELETION.(baseVersion := 1)], FIRST_ID, 1, 0)
  }

  lemma DeletionIsValid(base: nat)
    requires base <= 1
    ensures var m := DELETION.(baseVersion := base);
            ValidateMutation(m, DEVICE).Pass? && ValidateMutationNumbers([m]).Pass?
  {
    GoodIds();
    assert IsDeviceId(DELETION.opId);
    hide IsDeviceId, Utf16Length;
    Utf16AtMostDouble(KEY);
  }

  lemma {:induction false} Utf16AtMostDouble(s: string)
    ensures Utf16Length(s) <= 2 * |s|
  {
    if s != "" { Utf16AtMostDouble(s[1..]); }
  }

  lemma RequestsAreValid()
    ensures ValidateResolve(META.ownerKey, TAKEOVER).Pass? && ValidateDiff(META.ownerKey, Resent()).Pass?
    ensures CheckSnapshot([DELETION], DEVICE).Pass?
  {
    hide IsOwnerKey, IsDeviceId, IsBaselineId, IsRequestId, ValidateMutation, ValidateMutationNumbers;
    GoodIds();
    DeletionIsValid(0);
    DeletionIsValid(1);
    assert DELETION.(baseVersion := 0) == DELETION;
    assert [DELETION][..0] == [];
    assert CheckSnapshot([], DEVICE).Pass?;
  }

  lemma DeletionLoads(codec: Codec, now: Uint64)
    ensures LoadSnapshot(EMPTY_CORE, [DELETION], now).Ok?
    ensures var (core, changes) := LoadSnapshot(EMPTY_CORE, [DELETION], now).value;
            IsSnapshotLog(core, [DELETION], changes, now)
                  && ProgressDay(codec, RecordRows(core.records)) == Ok(CAMPAIGN_START)
  {
    assert [DELETION][..0] == [];
    assert LoadSnapshot(EMPTY_CORE, [], now) == Ok((EMPTY_CORE, []));
    hide RecordRows, ProgressDay;
    DeletedRowsHaveNoDay(codec, MutationChange(DELETION, 1, now));
  }

  lemma DeletedRowsHaveNoDay(codec: Codec, change: Change)
    requires change.deleted
    ensures ProgressDay(codec, RecordRows(map[change.entityKey := change])) == Ok(CAMPAIGN_START)
  {
    var rows := RecordRows(map[change.entityKey := change]);
    assert rows == [change];
    hide RecordRows, ProgressDay, UnescapeAll, ObjectString, MeaningfulDayRecord;
    assert RecordDate(codec, change) == Ok(None);
    hide RecordDate;
    ProgressDayMeaning(codec, rows);
  }

  lemma TakeoverSucceeds(codec: Codec, env: Env)
    requires env.codec == codec && Inv(codec, Adopted(FIRST_ID))
    ensures TakesEffect(env, META, NEW_OWNER.tables, TAKEOVER)
  {
    hide ValidateResolve, CheckSnapshot, LoadSnapshot, ProgressDay, RecordRows, Climbs, Keyed, Rows, NextInLine,
         CoreInv, CurrentArchived, ResolutionsCurrent, LineageSound, IsSnapshotLog;
    var t := Adopted(FIRST_ID).tables;
    RequestsAreValid();
    DeletionLoads(codec, env.now);
    assert SortByKey([DELETION]) == [DELETION] by { assert [DELETION][..0] == []; }
    hide SortByKey;
    var (core, changes) := LoadSnapshot(EMPTY_CORE, [DELETION], env.now).value;
    var l := Lineage(FIRST_ID, 1, env.now, CAMPAIGN_START);
    var receipt := ResolutionReceiptOf(TAKEOVER, l, core.cursor);
    var receipted := t.(core := core, lineage := Some(l), resolutions := map[TAKEOVER.requestId := receipt]);
    SnapshotInLine(t, core, l, receipted.resolutions, [DELETION], changes, env.now);
    hide ArchiveInv, Publish;
    PublishInLine(env, META.originConnectionId, receipted, changes);
    assert UseLocal(env, META, t, TAKEOVER).Ok?;
  }

  lemma TakenOver(codec: Codec, env: Env)
    requires env.codec == codec && FreshIds(env, NEW_OWNER.tables) && TakesEffect(env, META, NEW_OWNER.tables, TAKEOVER)
    requires Inv(codec, NEW_OWNER)
    ensures var after := Resolve(env, META, NEW_OWNER.tables, TAKEOVER).value.0;
            && after.lineage.Some? && after.lineage.value.baselineId == FIRST_ID
            && after.core.cursor == 1 && after.core.receipts == map[]
            && 1 in after.core.operations && after.core.operations[1].opId == DELETION.opId
  {
    hide Inv, CoreInv, Resolve, UseLocal, ProgressDay, RecordRows, Keyed, Rows, Climbs, FreshIds, TakesEffect, Dense,
         NewRows;
    EffectParts(codec, env, META, NEW_OWNER, TAKEOVER);
    ResetEffect(codec, env, META, NEW_OWNER, TAKEOVER);
    assert SortByKey([DELETION]) == [DELETION] by { assert [DELETION][..0] == []; }
  }

  /**
   * A device's local snapshot replaces an owner's empty baseline; its change keeps its op_id in the log but has
   * no receipt. Sent again as a mutation with an up-to-date base version it is not replayed: the diff fails on
   * the op_id key, and so does every retry on that state.
   */
  lemma SnapshotOpIdIsRefused(codec: Codec, now: Uint64)
    ensures var env := ZeroEnv(codec, now);
            exists o :: Run(codec, [NEW_OWNER, o])
                        && Commits(codec, env, META, NEW_OWNER, ResolveCommand(TAKEOVER), o)
                        && forall retry: Env :: Diff(retry, META, o.tables, Resent()) == Err(DuplicateKey(Operations))
  {
    hide Inv, Commits, TakesEffect, FreshIds, ValidateResolve, ValidateDiff, Resolve, NewBaselineId, ValidateMutation,
         Hex, Later, Diff;
    var env := ZeroEnv(codec, now);
    EmptyInv(codec);
    GoodIds();
    NewLineageInv(codec, FIRST_ID);
    FreshFor(env, NEW_OWNER.tables);
    TakeoverSucceeds(codec, env);
    ResetCommits(codec, env, META, NEW_OWNER, TAKEOVER);
    TakenOver(codec, env);
    var o := Owner(Resolve(env, META, NEW_OWNER.tables, TAKEOVER).value.0, 1);
    CommitKeepsInv(codec, env, META, NEW_OWNER, ResolveCommand(TAKEOVER), o);
    forall retry: Env ensures Diff(retry, META, o.tables, Resent()) == Err(DuplicateKey(Operations)) {
      RetryFails(codec, retry, o);
    }
    assert Step(codec, NEW_OWNER, o);
    assert Run(codec, [NEW_OWNER, o]);
  }

  lemma RetryFails(codec: Codec, env: Env, o: Owner)
    requires Inv(codec, o) && o.snapshotLen == 1
    requires o.tables.lineage.Some? && o.tables.lineage.value.baselineId == FIRST_ID
    requires o.tables.core.cursor == 1 && o.tables.core.receipts == map[]
    requires 1 in o.tables.core.operations && o.tables.core.operations[1].opId == DELETION.opId
    ensures Diff(env, META, o.tables, Resent()) == Err(DuplicateKey(Operations))
  {
    assert CoreInv(o.tables.core, 1);
    RequestsAreValid();
    DeletionIsValid(1);
    var core, ms := o.tables.core, Resent().mutations;
    assert UpToDate(core, KEY, 1);
    hide Inv, CoreInv, ValidateDiff, ValidateMutation, UpToDate, FinalizeBatch;
    OpIdCollision(core, EMPTY_BATCH, ms[0], DEVICE, env.now, 1);
    assert ms[..0] == [];
    assert ApplyMutations(core, ms, DEVICE, env.now) == Err(DuplicateKey(Operations));
  }
}
