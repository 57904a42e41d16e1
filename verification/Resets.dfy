/** What a USE_LOCAL reset keeps, what it depends on, and how often it can take effect. */
module Resets {
  import opened Prelude
  import opened Ordering
  import opened SyncTypes
  import opened Validation
  import opened Progress
  import opened Tables
  import opened SyncSpec
  import opened CoreInvariant
  import opened ArchiveInvariant
  import opened OwnerInvariant
  import opened ResolveInvariant
  import opened History

  /** The resolution resets the baseline. */
  predicate TakesEffect(env: Env, meta: Metadata, t: Tables, request: ResolveRequest) {
    Resolve(env, meta, t, request).Ok? && Resolve(env, meta, t, request).value.1.stateChanged
  }

  /** A resolution takes effect exactly through UseLocal, on tables that meet its expectation. */
  lemma EffectParts(codec: Codec, env: Env, meta: Metadata, o: Owner, request: ResolveRequest)
    requires env.codec == codec && Inv(codec, o) && TakesEffect(env, meta, o.tables, request)
    ensures IsDeviceId(request.deviceId) && IsBaselineId(request.localBaselineId)
              && ValidateResolve(meta.ownerKey, request).Pass?
    ensures EnsureLineage(env, o.tables, request.localBaselineId).Ok?
    ensures var ensured := EnsureLineage(env, o.tables, request.localBaselineId).value;
            && ensured == (if o.tables.lineage.Some? then o.tables
                           else EMPTY.(lineage := Some(Lineage(request.localBaselineId, 0, 0, CAMPAIGN_START))))
            && Inv(codec, o.(tables := ensured))
            && request.requestId !in ensured.resolutions
            && ExpectationHolds(ensured, request)
            && UseLocal(env, meta, ensured, request).Ok?
            && Resolve(env, meta, o.tables, request) == UseLocal(env, meta, ensured, request)
  {
    hide ValidateResolve, Inv, UseLocal, UseServer, EnsureLineage, IsDeviceId, IsBaselineId;
    ValidRequests(meta.ownerKey);
    EnsureLineageKeepsInv(codec, env, o, request.localBaselineId);
    var ensured := EnsureLineage(env, o.tables, request.localBaselineId).value;
    if request.requestId !in ensured.resolutions && ExpectationHolds(ensured, request)
          && request.choice != ChooseLocal {
      UseServerDoesNotChange(ensured, request);
    }
  }

  // ----- what a reset leaves -----

  /** The tables before the reset, once their lineage exists, and the tables after it. */
  lemma ResetEffect(codec: Codec, env: Env, meta: Metadata, o: Owner, request: ResolveRequest)
    requires env.codec == codec && Inv(codec, o) && FreshIds(env, o.tables) && TakesEffect(env, meta, o.tables, request)
    ensures var ensured := EnsureLineage(env, o.tables, request.localBaselineId).value;
            var after := Resolve(env, meta, o.tables, request).value.0;
            && FreshIds(env, ensured) && Keyed(ensured) && Keyed(after) && Dense(after.core)
            && ResetTo(env, meta.originConnectionId, ensured, request, after)
            && after.lineage.value.baselineId !in ensured.archiveHeads
            && ProgressDay(codec, RecordRows(after.core.records)) == Ok(after.lineage.value.progressDay)
  {
    EffectParts(codec, env, meta, o, request);
    var ensured := EnsureLineage(env, o.tables, request.localBaselineId).value;
    FreshStaysFresh(codec, env, o, ensured);
    InvArchive(codec, o.(tables := ensured));
    hide Inv, CoreInv, Resolve, EnsureLineage, UseLocal, ResetTo, ProgressDay, RecordRows, Keyed, Rows, Climbs,
         FreshIds;
    UseLocalEffect(env, meta, ensured, request);
    ResultIdIsNew(env, ensured, request);
    ResetId(env, meta.originConnectionId, ensured, request, Resolve(env, meta, o.tables, request).value.0);
    CoreInvDense(Resolve(env, meta, o.tables, request).value.0.core, |request.localSnapshot|);
  }

  lemma ResetId(env: Env, origin: string, t: Tables, request: ResolveRequest, after: Tables)
    requires Keyed(t) && Keyed(after) && ResetTo(env, origin, t, request, after)
    ensures after.lineage.Some? && ResultBaselineId(env, t, request) == Ok(after.lineage.value.baselineId)
  {}

  lemma InvArchive(codec: Codec, o: Owner)
    requires Inv(codec, o)
    ensures ArchiveInv(o.tables)
  {}

  /**
   * A reset loses nothing: the whole log of the baseline it replaces stays in that baseline's archive, and
   * the new log is the snapshot in key order at cursors 1..n.
   */
  lemma ResetLosesNothing(codec: Codec, env: Env, meta: Metadata, o: Owner, request: ResolveRequest)
    requires env.codec == codec && Inv(codec, o) && o.tables.lineage.Some? && FreshIds(env, o.tables)
    requires TakesEffect(env, meta, o.tables, request)
    ensures var after := Resolve(env, meta, o.tables, request).value.0;
            && Dense(o.tables.core) && Dense(after.core) && Keyed(after)
            && Log(o.tables.core) <= BaselineLog(after, o.tables.lineage.value.baselineId)
            && Log(after.core) == SnapshotChanges(SortByKey(request.localSnapshot), env.now)
  {
    ResetEffect(codec, env, meta, o, request);
    EffectParts(codec, env, meta, o, request);
    InvKeyed(codec, o);
    var after := Resolve(env, meta, o.tables, request).value.0;
    hide Resolve, Inv, UseLocal, EnsureLineage, SortByKey, Climbs, ProgressDay, RecordRows, FreshIds, Keyed, Rows,
         Log, BaselineLog, Dense, ResultBaselineId, TakesEffect;
    ResetLog(env, meta.originConnectionId, o.tables, request, after);
  }

  lemma ResetLog(env: Env, origin: string, t: Tables, request: ResolveRequest, after: Tables)
    requires Keyed(t) && Keyed(after) && Dense(after.core) && ResetTo(env, origin, t, request, after)
    requires after.lineage.value.baselineId !in t.archiveHeads
    ensures forall b :: BaselineLog(t, b) <= BaselineLog(after, b)
    ensures Log(after.core) == SnapshotChanges(SortByKey(request.localSnapshot), env.now)
  {
    hide SortByKey, ResultBaselineId;
    assert Log(after.core) == SnapshotChanges(SortByKey(request.localSnapshot), env.now);
    hide Log, Dense, IsSnapshotLog;
    forall b ensures BaselineLog(t, b) <= BaselineLog(after, b) {
      assert |Rows(t, b)| <= |Rows(after, b)|;
      SameRows(t, after, b);
    }
  }

  ghost predicate StrictByKey(ms: seq<Mutation>) {
    forall i, j :: 0 <= i < j < |ms| ==> Below(ms[i].entityKey, ms[j].entityKey)
  }

  lemma {:induction false} InsertStrict(sorted: seq<Mutation>, m: Mutation)
    requires ByKey(sorted) && StrictByKey(sorted)
    requires forall i :: 0 <= i < |sorted| ==> sorted[i].entityKey != m.entityKey
    ensures StrictByKey(InsertByKey(sorted, m))
  {
    var r := InsertByKey(sorted, m);
    if sorted != [] {
      var init, last := sorted[..|sorted| - 1], sorted[|sorted| - 1];
      assert sorted == init + [last];
      if AtMost(last.entityKey, m.entityKey) {
        forall i | 0 <= i < |sorted| ensures Below(sorted[i].entityKey, m.entityKey) {
          AtMostTransitive(sorted[i].entityKey, last.entityKey, m.entityKey);
        }
        assert r == sorted + [m];
      } else {
        InsertStrict(init, m);
        var rest := InsertByKey(init, m);
        BelowTotal(last.entityKey, m.entityKey);
        forall i | 0 <= i < |rest| ensures Below(rest[i].entityKey, last.entityKey) {
          assert rest[i] in multiset(rest);
          assert rest[i] == m || rest[i] in init;
        }
        assert r == rest + [last];
      }
    }
  }

  /** Distinct keys sort into a strictly ascending sequence of the same mutations. */
  lemma {:induction false} SortStrict(ms: seq<Mutation>)
    requires DistinctKeys(ms)
    ensures StrictByKey(SortByKey(ms))
    ensures forall m :: m in SortByKey(ms) <==> m in ms
  {
    var r := SortByKey(ms);
    forall m ensures m in r <==> m in ms {
      assert m in multiset(r) <==> m in multiset(ms);
    }
    if ms != [] {
      var init, last := ms[..|ms| - 1], ms[|ms| - 1];
      assert DistinctKeys(init);
      SortStrict(init);
      var sorted := SortByKey(init);
      forall i | 0 <= i < |sorted| ensures sorted[i].entityKey != last.entityKey {
        assert sorted[i] in init;
      }
      InsertStrict(sorted, last);
    }
  }

  lemma LastIsGreatest(xs: seq<Mutation>, m: Mutation)
    requires StrictByKey(xs) && m in xs
    ensures AtMost(m.entityKey, xs[|xs| - 1].entityKey)
    ensures m in xs[..|xs| - 1] <==> m != xs[|xs| - 1]
  {
    var i :| 0 <= i < |xs| && xs[i] == m;
    BelowIrreflexive(m.entityKey);
    if i < |xs| - 1 { assert xs[..|xs| - 1][i] == m; }
  }

  lemma {:induction false} StrictUnique(xs: seq<Mutation>, ys: seq<Mutation>)
    requires StrictByKey(xs) && StrictByKey(ys)
    requires forall m :: m in xs <==> m in ys
    ensures xs == ys
  {
    if ys != [] { assert ys[0] in xs; }
    if xs != [] {
      assert xs[0] in ys;
      var x, y := xs[|xs| - 1], ys[|ys| - 1];
      assert x in xs && y in ys;
      LastIsGreatest(ys, x);
      LastIsGreatest(xs, y);
      AtMostAntisymmetric(x.entityKey, y.entityKey);
      BelowIrreflexive(x.entityKey);
      var i :| 0 <= i < |ys| && ys[i] == x;
      assert x == y;
      var xs', ys' := xs[..|xs| - 1], ys[..|ys| - 1];
      forall m ensures m in xs' <==> m in ys' {
        if m in xs { LastIsGreatest(xs, m); }
        if m in ys { LastIsGreatest(ys, m); }
      }
      StrictUnique(xs', ys');
      assert xs == xs[..|xs| - 1] + [x] && ys == ys[..|ys| - 1] + [y];
    }
  }

  lemma AtMostAntisymmetric(a: string, b: string)
    requires AtMost(a, b) && AtMost(b, a)
    ensures a == b
  {
    if a != b {
      BelowTransitive(a, b, a);
      BelowIrreflexive(a);
    }
  }

  /**
   * A reset depends only on the set of snapshot mutations: two valid snapshots with the same mutations in
   * any order give the same log, records, progress day, archive, event and reply.
   */
  lemma ResetIsOrderIndependent(env: Env, meta: Metadata, t: Tables, request: ResolveRequest, permuted: seq<Mutation>)
    requires CheckSnapshot(request.localSnapshot, request.deviceId).Pass?
              && CheckSnapshot(permuted, request.deviceId).Pass?
    requires forall m :: m in permuted <==> m in request.localSnapshot
    ensures UseLocal(env, meta, t, request.(localSnapshot := permuted)) == UseLocal(env, meta, t, request)
  {
    var ms := request.localSnapshot;
    CheckSnapshotMeaning(ms, request.deviceId);
    CheckSnapshotMeaning(permuted, request.deviceId);
    hide CheckSnapshot, AllValid, SortByKey, ProgressDay, RecordRows, Publish, LoadSnapshot;
    SortStrict(ms);
    SortStrict(permuted);
    StrictUnique(SortByKey(ms), SortByKey(permuted));
    assert ms == [] <==> permuted == [] by {
      if ms != [] { assert ms[0] in permuted; }
      if permuted != [] { assert permuted[0] in ms; }
    }
  }

  // ----- at most once -----

  /** After a reset of baseline b, b is current only if the reset kept the id. */
  lemma ResetMovesOn(codec: Codec, env: Env, meta: Metadata, before: Owner, o: Owner, request: ResolveRequest)
    requires Inv(codec, before) && Commits(codec, env, meta, before, ResolveCommand(request), o)
    requires TakesEffect(env, meta, before.tables, request)
    ensures request.requestId in o.tables.resolutions
    ensures o.tables.lineage.Some?
    ensures o.tables.lineage.value.baselineId in o.tables.archiveHeads
    ensures request.expectedServerBaselineId in before.tables.archiveHeads ==>
              request.expectedServerBaselineId in o.tables.archiveHeads
                    && !Current(o.tables, request.expectedServerBaselineId)
    ensures request.expectedServerVersion > 0 ==> request.expectedServerBaselineId in before.tables.archiveHeads
  {
    hide Inv, Resolve, UseLocal, EnsureLineage, SortByKey, IsSnapshotLog, Keyed, Rows, FreshIds, IsBaselineId,
         IsDeviceId, ValidateResolve, Dense, ProgressDay, RecordRows, ResultBaselineId;
    ResetEffect(codec, env, meta, before, request);
    EffectParts(codec, env, meta, before, request);
    var ensured := EnsureLineage(env, before.tables, request.localBaselineId).value;
    ZeroVersion(codec, before.(tables := ensured));
    HeadsWithout(codec, before);
  }

  lemma HeadsWithout(codec: Codec, o: Owner)
    requires Inv(codec, o)
    ensures o.tables.lineage.None? ==> o.tables.archiveHeads == map[]
  {
    hide CoreInv, ArchiveInv, ResolutionsCurrent, LineageSound, CurrentArchived;
  }

  lemma ZeroVersion(codec: Codec, o: Owner)
    requires Inv(codec, o) && o.tables.lineage.Some?
    ensures o.tables.lineage.value.baselineId !in o.tables.archiveHeads ==> o.tables.lineage.value.version == 0
  {
    hide CoreInv, ArchiveInv, ResolutionsCurrent, LineageSound;
  }

  /** What is left of a reset's expectation in any later state. */
  lemma ExpectationGone(codec: Codec, o: Owner, later: Owner, b: string, requestId: string)
    requires Reaches(codec, o, later) && o.tables.lineage.Some? && b in o.tables.archiveHeads
    ensures later.tables.lineage.Some?
    ensures !Current(o.tables, b) ==> !Current(later.tables, b)
    ensures Current(later.tables, b) && requestId in o.tables.resolutions ==> requestId in later.tables.resolutions
  {
    hide CoreInv, ArchiveInv, CurrentArchived, ResolutionsCurrent, LineageSound, ArchiveKept, Grows;
    assert Retired(o.tables, later.tables, b) && Continues(o.tables, later.tables, b);
    assert b in later.tables.archiveHeads;
  }

  /**
   * The expected baseline is archived already, or the reset is about to archive it because the id it takes is
   * the expected one.
   */
  predicate ArchivesExpected(env: Env, t: Tables, request: ResolveRequest) {
    || request.expectedServerBaselineId in t.archiveHeads
    || ResultBaselineId(env, t, request) == Ok(request.expectedServerBaselineId)
  }

  lemma ExpectedArchived(codec: Codec, env: Env, meta: Metadata, before: Owner, o: Owner, request: ResolveRequest)
    requires Inv(codec, before) && Commits(codec, env, meta, before, ResolveCommand(request), o)
    requires TakesEffect(env, meta, before.tables, request)
    ensures ArchivesExpected(env, before.tables, request) <==> request.expectedServerBaselineId in o.tables.archiveHeads
  {
    hide Inv, Resolve, UseLocal, EnsureLineage, SortByKey, IsSnapshotLog, Keyed, Rows, FreshIds, IsBaselineId,
         IsDeviceId, ValidateResolve, Dense, ProgressDay, RecordRows, NewBaselineId;
    ResetEffect(codec, env, meta, before, request);
    EffectParts(codec, env, meta, before, request);
    HeadsWithout(codec, before);
  }

  /** A reset that archives the baseline it expects never takes effect again. */
  lemma ArchivedMeansOnce(codec: Codec, env: Env, meta: Metadata, before: Owner, o: Owner, request: ResolveRequest,
                          later: Owner, env': Env, meta': Metadata)
    requires Inv(codec, before) && Commits(codec, env, meta, before, ResolveCommand(request), o)
    requires TakesEffect(env, meta, before.tables, request) && Reaches(codec, o, later) && env'.codec == codec
    requires ArchivesExpected(env, before.tables, request)
    ensures !TakesEffect(env', meta', later.tables, request)
  {
    ResetMovesOn(codec, env, meta, before, o, request);
    ExpectedArchived(codec, env, meta, before, o, request);
    hide Commits, TakesEffect, Resolve, UseLocal, ArchivesExpected;
    ExpectationGone(codec, o, later, request.expectedServerBaselineId, request.requestId);
    hide Later, Inv;
    if TakesEffect(env', meta', later.tables, request) {
      EffectParts(codec, env', meta', later, request);
    }
  }

  /**
   * A USE_LOCAL request that expects a version of at least 1 takes effect at most once in any run, whatever
   * resets come later and delete its receipt; neither does any other request that expects the same baseline.
   */
  lemma TakesEffectAtMostOnce(codec: Codec, env: Env, meta: Metadata, before: Owner, o: Owner, request: ResolveRequest,
                              later: Owner, env': Env, meta': Metadata, other: ResolveRequest)
    requires Inv(codec, before) && Commits(codec, env, meta, before, ResolveCommand(request), o)
    requires TakesEffect(env, meta, before.tables, request) && Reaches(codec, o, later) && env'.codec == codec
    requires request.expectedServerVersion > 0
    requires other.expectedServerBaselineId == request.expectedServerBaselineId
    ensures !TakesEffect(env', meta', later.tables, other)
  {
    ResetMovesOn(codec, env, meta, before, o, request);
    hide Commits, TakesEffect, Resolve, UseLocal;
    ExpectationGone(codec, o, later, request.expectedServerBaselineId, request.requestId);
    hide Later, Inv;
    if TakesEffect(env', meta', later.tables, other) {
      EffectParts(codec, env', meta', later, other);
    }
  }
}
