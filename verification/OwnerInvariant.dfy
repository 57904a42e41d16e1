/** What every command keeps of an owner's tables, and how a later state relates to an earlier one. */
module OwnerInvariant {
  import opened Prelude
  import opened SyncTypes
  import opened Validation
  import opened Progress
  import opened Tables
  import opened SyncSpec
  import opened CoreInvariant
  import opened ArchiveInvariant

  /** An owner's tables, with the number of operations the lineage took over from a USE_LOCAL snapshot. */
  datatype Owner = Owner(tables: Tables, snapshotLen: nat)

  const NEW_OWNER := Owner(EMPTY, 0)

  /** The current lineage is archived up to its head, or has never been archived and is still empty. */
  ghost predicate CurrentArchived(t: Tables)
    requires t.lineage.Some? && Dense(t.core) && Keyed(t)
  {
    var l := t.lineage.value;
    && BaselineLog(t, l.baselineId) == Log(t.core)
    && if l.baselineId in t.archiveHeads
       then t.archiveHeads[l.baselineId] == ArchiveHead(t.core.cursor, l.version, l.updatedAtMs)
       else l == Lineage(l.baselineId, 0, 0, CAMPAIGN_START)
  }

  /** Resolution receipts belong to the current lineage and never lie beyond its head. */
  ghost predicate ResolutionsCurrent(t: Tables)
    requires t.lineage.Some?
  {
    var l := t.lineage.value;
    forall q :: q in t.resolutions ==>
      var r := t.resolutions[q];
      && r.requestId == q
      && r.resultBaselineId == l.baselineId
      && r.resultVersion <= l.version
      && r.resultCursor <= t.core.cursor
      && (r.resultVersion == l.version ==> r.resultCursor == t.core.cursor && r.resultUpdatedAtMs == l.updatedAtMs)
  }

  /** The cached progress day is the one derived from the records, and every field fits its column. */
  ghost predicate LineageSound(codec: Codec, t: Tables)
    requires t.lineage.Some?
  {
    var l := t.lineage.value;
    && ProgressDay(codec, RecordRows(t.core.records)) == Ok(l.progressDay)
    && |l.progressDay| <= MAX_PROGRESS_DAY
    && IsBaselineId(l.baselineId)
    && l.updatedAtMs <= MAX_UINT64
  }

  ghost predicate Inv(codec: Codec, o: Owner) {
    if o.tables.lineage.None? then o == NEW_OWNER
    else
      && CoreInv(o.tables.core, o.snapshotLen)
      && ArchiveInv(o.tables)
      && CurrentArchived(o.tables)
      && ResolutionsCurrent(o.tables)
      && LineageSound(codec, o.tables)
  }

  // ----- later states -----

  predicate Current(t: Tables, b: string) {
    t.lineage.Some? && t.lineage.value.baselineId == b
  }

  ghost predicate HeadLater(h: ArchiveHead, later: ArchiveHead) {
    h == later || (h.cursor < later.cursor && h.version < later.version)
  }

  ghost predicate ResolutionsKept(t: Tables, later: Tables) {
    forall q :: q in t.resolutions ==> q in later.resolutions && later.resolutions[q] == t.resolutions[q]
  }

  /** Archived rows are never changed or removed. */
  ghost predicate ArchiveKept(t: Tables, later: Tables) {
    forall key :: key in t.archive ==> key in later.archive && later.archive[key] == t.archive[key]
  }

  /** An archived baseline that is not current never becomes current again, and its head never moves. */
  ghost predicate Retired(t: Tables, later: Tables, b: string) {
    b in t.archiveHeads && !Current(t, b) ==>
      !Current(later, b) && b in later.archiveHeads && later.archiveHeads[b] == t.archiveHeads[b]
  }

  /** While an archived baseline stays current, its operations and receipts are only added to. */
  ghost predicate Continues(t: Tables, later: Tables, b: string) {
    b in t.archiveHeads && Current(t, b) && Current(later, b) ==>
      Grows(t.core, later.core) && ResolutionsKept(t, later)
  }

  ghost predicate Later(t: Tables, later: Tables) {
    && ArchiveKept(t, later)
    && (forall b :: b in t.archiveHeads ==>
          b in later.archiveHeads && HeadLater(t.archiveHeads[b], later.archiveHeads[b]))
    && (forall b :: Retired(t, later, b))
    && (forall b :: Continues(t, later, b))
    && t.outbox <= later.outbox
  }

  lemma LaterReflexive(t: Tables)
    ensures Later(t, t)
  {}

  lemma ContinuesTransitive(a: Tables, b: Tables, c: Tables, id: string)
    requires Later(a, b) && Later(b, c)
    ensures Continues(a, c, id)
  {
    if id in a.archiveHeads && Current(a, id) && Current(c, id) {
      assert Retired(b, c, id);
      assert Continues(a, b, id) && Continues(b, c, id);
    }
  }

  lemma LaterTransitive(a: Tables, b: Tables, c: Tables)
    requires Later(a, b) && Later(b, c)
    ensures Later(a, c)
  {
    forall id ensures Retired(a, c, id) {
      assert Retired(a, b, id) && Retired(b, c, id);
    }
    forall id ensures Continues(a, c, id) {
      ContinuesTransitive(a, b, c, id);
    }
    assert forall id :: id in a.archiveHeads ==> id in b.archiveHeads;
  }

  // ----- the commands -----

  datatype Command =
    | ExchangeCommand(sync: SyncRequest)
    | DiffCommand(diff: DiffRequest)
    | ResolveCommand(resolve: ResolveRequest)

  /** What a command commits: the new tables, and whether the reply reports a change of state. */
  function Execute(env: Env, meta: Metadata, t: Tables, command: Command): Result<(Tables, bool)> {
    match command
    case ExchangeCommand(request) =>
      var (after, reply) :- Exchange(env, meta, t, request);
      Ok((after, reply.stateChanged))
    case DiffCommand(request) =>
      var (after, reply) :- Diff(env, meta, t, request);
      Ok((after, reply.stateChanged))
    case ResolveCommand(request) =>
      var (after, reply) :- Resolve(env, meta, t, request);
      Ok((after, reply.stateChanged))
  }

  /** The random source yields 16 bytes whose id has no archive head yet. */
  predicate FreshIds(env: Env, t: Tables) {
    env.random.Some? ==> |env.random.value| == 16 && NewBaselineId(env).value !in t.archiveHeads
  }

  function SnapshotLenAfter(o: Owner, command: Command, stateChanged: bool): nat {
    if command.ResolveCommand? && stateChanged then |command.resolve.localSnapshot| else o.snapshotLen
  }

  /** One committed command. A command that fails rolls back and is no step. */
  ghost predicate Commits(codec: Codec, env: Env, meta: Metadata, o: Owner, command: Command, after: Owner) {
    && env.codec == codec
    && FreshIds(env, o.tables)
    && Execute(env, meta, o.tables, command).Ok?
    && after.tables == Execute(env, meta, o.tables, command).value.0
    && after.snapshotLen == SnapshotLenAfter(o, command, Execute(env, meta, o.tables, command).value.1)
  }

  // ----- ensureLineage -----

  lemma EmptyProgress(codec: Codec)
    ensures ProgressDay(codec, RecordRows(map[])) == Ok(CAMPAIGN_START)
  {
    assert RecordRows(map[]) == [];
  }

  lemma NewLineageInv(codec: Codec, requested: string)
    requires IsBaselineId(requested)
    ensures var t := EMPTY.(lineage := Some(Lineage(requested, 0, 0, CAMPAIGN_START)));
            Inv(codec, Owner(t, 0)) && Later(EMPTY, t)
  {
    EmptyProgress(codec);
    var t := EMPTY.(lineage := Some(Lineage(requested, 0, 0, CAMPAIGN_START)));
    hide ProgressDay;
    assert CoreInv(t.core, 0);
    assert Keyed(t) && Rows(t, requested) == [];
    assert Log(t.core) == [];
  }

  /** Only an owner without rows lacks a lineage, so the fork on a positive cursor is never taken. */
  lemma EnsureLineageKeepsInv(codec: Codec, env: Env, o: Owner, requested: string)
    requires Inv(codec, o) && IsBaselineId(requested)
    ensures o.tables.lineage.None? ==> o.tables.core.cursor == 0
    ensures EnsureLineage(env, o.tables, requested) ==
            Ok(if o.tables.lineage.Some? then o.tables
               else EMPTY.(lineage := Some(Lineage(requested, 0, 0, CAMPAIGN_START))))
    ensures Inv(codec, o.(tables := EnsureLineage(env, o.tables, requested).value))
    ensures Later(o.tables, EnsureLineage(env, o.tables, requested).value)
  {
    assert o.tables.lineage.None? ==> o == NEW_OWNER;
    hide Inv, Later;
    LaterReflexive(o.tables);
    NewLineageInv(codec, requested);
  }

  // ----- a mutation batch -----

  /** The archive of the current baseline ends where the log ends, under the current version. */
  lemma CurrentEnds(t: Tables)
    requires t.lineage.Some? && Dense(t.core) && Keyed(t) && CurrentArchived(t)
    ensures |Rows(t, t.lineage.value.baselineId)| == t.core.cursor
    ensures ArchivedVersion(t, t.lineage.value.baselineId) == t.lineage.value.version
  {}

  lemma LogAfter(before: Core, after: Core, batch: Batch)
    requires Dense(before) && Dense(after) && Grows(before, after) && ArchivesAppended(before, after, batch)
    ensures Log(after) == Log(before) + batch.archiveChanges
    ensures Follow(batch.archiveChanges, before.cursor)
  {
    forall j | 0 <= j < |batch.archiveChanges| ensures batch.archiveChanges[j].cursor == before.cursor + 1 + j {
      assert before.cursor + 1 + j in after.operations;
    }
    forall i | 0 <= i < after.cursor ensures Log(after)[i] == (Log(before) + batch.archiveChanges)[i] {
      if i >= before.cursor {
        var j := i - before.cursor;
        assert batch.archiveChanges[j] == after.operations[before.cursor + 1 + j];
      } else {
        assert i + 1 in before.operations;
      }
    }
  }

  lemma BaselineLogOf(t: Tables, after: Tables, b: string, changes: seq<Change>, version: nat, at: nat)
    requires Keyed(t) && Keyed(after)
    requires Rows(after, b) == Rows(t, b) + NewRows(changes, version, at)
    ensures BaselineLog(after, b) == BaselineLog(t, b) + changes
  {}

  /** The tables after a batch that applied something, named through its parts. */
  ghost predicate MutatedTo(env: Env, origin: string, t: Tables, core: Core, batch: Batch, after: Tables)
    requires t.lineage.Some? && Keyed(t) && Keyed(after)
  {
    var l := t.lineage.value;
    && after.lineage.Some?
    && after.lineage.value == Lineage(l.baselineId, l.version + 1, env.now, after.lineage.value.progressDay)
    && Published(env, origin, t.(core := core, lineage := after.lineage), batch.archiveChanges, after)
  }

  lemma VersionedInLine(t: Tables, core: Core, batch: Batch, l: Lineage)
    requires t.lineage.Some? && Dense(t.core) && Dense(core) && ArchiveInv(t) && CurrentArchived(t)
    requires Grows(t.core, core) && ArchivesAppended(t.core, core, batch) && batch.appliedCount > 0
    requires l.baselineId == t.lineage.value.baselineId && l.version == t.lineage.value.version + 1
    ensures ArchiveInv(t.(core := core, lineage := Some(l)))
    ensures NextInLine(t.(core := core, lineage := Some(l)), batch.archiveChanges)
  {
    var versioned := t.(core := core, lineage := Some(l));
    CurrentEnds(t);
    LogAfter(t.core, core, batch);
    SameArchive(t, versioned);
    hide ArchiveInv, Rows, Log, Dense, Grows;
  }

  lemma FinalizeEffect(env: Env, origin: string, t: Tables, core: Core, batch: Batch)
    requires t.lineage.Some? && Dense(t.core) && Dense(core) && ArchiveInv(t) && CurrentArchived(t)
    requires Grows(t.core, core) && ArchivesAppended(t.core, core, batch) && batch.appliedCount > 0
    requires FinalizeBatch(env, origin, t.(core := core), batch).Ok?
    ensures var after := FinalizeBatch(env, origin, t.(core := core), batch).value;
            && ArchiveInv(after)
            && MutatedTo(env, origin, t, core, batch, after)
            && ProgressDay(env.codec, RecordRows(core.records)) == Ok(after.lineage.value.progressDay)
            && |after.lineage.value.progressDay| <= MAX_PROGRESS_DAY
  {
    hide ProgressDay, RecordRows, Publish, Dense, Grows, ArchivesAppended, CurrentArchived, NextInLine, Rows;
    var day := ProgressDay(env.codec, RecordRows(core.records)).value;
    var versioned := t.(core := core).IncrementLineage(env.now, day).value;
    VersionedInLine(t, core, batch, versioned.lineage.value);
    PublishInLine(env, origin, versioned, batch.archiveChanges);
  }

  /** A batch that applied nothing leaves only receipts behind. */
  lemma IdleBatchKeepsInv(codec: Codec, o: Owner, core: Core, batch: Batch)
    requires o.tables.lineage.Some? && Inv(codec, o) && CoreInv(core, o.snapshotLen)
    requires Grows(o.tables.core, core) && ArchivesAppended(o.tables.core, core, batch) && batch.appliedCount == 0
    ensures Inv(codec, o.(tables := o.tables.(core := core)))
    ensures Later(o.tables, o.tables.(core := core))
  {
    hide UniqueOpIds, RecordsViewLog, ReceiptsMatchLog, LogWithinLimits, Climbs, ProgressDay, RecordRows, Grows;
    var t := o.tables;
    var after := t.(core := core);
    SameArchive(t, after);
    assert Log(core) == Log(t.core);
    assert BaselineLog(after, t.lineage.value.baselineId) == BaselineLog(t, t.lineage.value.baselineId);
    hide Dense, Log, BaselineLog, Rows, Keyed;
  }

  lemma BusyBatchIsLater(env: Env, origin: string, t: Tables, core: Core, batch: Batch, after: Tables)
    requires t.lineage.Some? && Dense(t.core) && Keyed(t) && Keyed(after) && CurrentArchived(t)
    requires Grows(t.core, core) && ArchivesAppended(t.core, core, batch) && batch.appliedCount > 0
    requires MutatedTo(env, origin, t, core, batch, after)
    ensures Later(t, after)
  {
    assert after.core == core;
    hide Dense, Keyed, Rows, BaselineLog, Log, Grows;
  }

  lemma BusyBatchKeepsCurrent(env: Env, origin: string, t: Tables, core: Core, batch: Batch, after: Tables)
    requires t.lineage.Some? && Dense(t.core) && Dense(core) && Keyed(t) && Keyed(after)
    requires CurrentArchived(t) && ResolutionsCurrent(t)
    requires Grows(t.core, core) && ArchivesAppended(t.core, core, batch) && batch.appliedCount > 0
    requires MutatedTo(env, origin, t, core, batch, after)
    ensures CurrentArchived(after) && ResolutionsCurrent(after)
  {
    var l := after.lineage.value;
    var versioned := t.(core := core, lineage := after.lineage);
    assert Rows(versioned, l.baselineId) == Rows(t, l.baselineId);
    BaselineLogOf(t, after, l.baselineId, batch.archiveChanges, l.version, env.now);
    LogAfter(t.core, core, batch);
    assert after.core == core;
    hide Dense, Keyed, Rows, BaselineLog, Log, Grows;
  }

  /**
   * A batch that commits keeps every table consistent with the others and only adds to the log, the
   * receipts, the archive and the outbox.
   */
  lemma MutateKeepsInv(codec: Codec, env: Env, origin: string, o: Owner, ms: seq<Mutation>, deviceId: string)
    requires env.codec == codec && IsDeviceId(deviceId) && Inv(codec, o) && o.tables.lineage.Some?
    requires Mutate(env, origin, o.tables, ms, deviceId).Ok?
    ensures var after := Mutate(env, origin, o.tables, ms, deviceId).value.0;
            Inv(codec, o.(tables := after)) && Later(o.tables, after)
  {
    hide Dense, UniqueOpIds, RecordsViewLog, ReceiptsMatchLog, LogWithinLimits, Keyed, Climbs, Rows, CurrentArchived,
         ResolutionsCurrent, Grows, Aligned, ForcedAreConflicts, ArchivesAppended, Later, MutatedTo, ApplyMutations,
         ProgressDay, RecordRows;
    var t := o.tables;
    var (core, batch) := ApplyMutations(t.core, ms, deviceId, env.now).value;
    ApplyMutationsKeepsInv(t.core, ms, deviceId, env.now, o.snapshotLen);
    if batch.appliedCount == 0 {
      IdleBatchKeepsInv(codec, o, core, batch);
    } else {
      hide FinalizeBatch;
      FinalizeEffect(env, origin, t, core, batch);
      var after := FinalizeBatch(env, origin, t.(core := core), batch).value;
      BusyBatchIsLater(env, origin, t, core, batch, after);
      BusyBatchKeepsCurrent(env, origin, t, core, batch, after);
      BusyBatchLineage(env, origin, t, core, batch, after);
    }
  }

  lemma BusyBatchLineage(env: Env, origin: string, t: Tables, core: Core, batch: Batch, after: Tables)
    requires t.lineage.Some? && Keyed(t) && Keyed(after)
    requires MutatedTo(env, origin, t, core, batch, after)
    ensures after.lineage.Some? && after.core == core
    ensures var l, m := t.lineage.value, after.lineage.value;
            m == Lineage(l.baselineId, l.version + 1, env.now, m.progressDay)
  {}
}
