/** Properties of whole runs: any finite sequence of committed commands from an owner without rows. */
module History {
  import opened Prelude
  import opened SyncTypes
  import opened Validation
  import opened Progress
  import opened Tables
  import opened SyncSpec
  import opened CoreInvariant
  import opened ArchiveInvariant
  import opened OwnerInvariant
  import opened ResolveInvariant

  ghost predicate Step(codec: Codec, o: Owner, after: Owner) {
    exists env, meta, command :: Commits(codec, env, meta, o, command, after)
  }

  /** The successive states of one owner; failed commands leave no state behind. */
  ghost predicate Run(codec: Codec, states: seq<Owner>) {
    && |states| > 0
    && states[0] == NEW_OWNER
    && forall i :: 0 < i < |states| ==> Step(codec, states[i - 1], states[i])
  }

  lemma {:induction false} RunKeepsInv(codec: Codec, states: seq<Owner>, i: nat)
    requires Run(codec, states) && i < |states|
    ensures Inv(codec, states[i])
  {
    hide Inv, Commits;
    if i == 0 {
      EmptyInv(codec);
    } else {
      RunKeepsInv(codec, states, i - 1);
      assert Step(codec, states[i - 1], states[i]);
      var env, meta, command :| Commits(codec, env, meta, states[i - 1], command, states[i]);
      CommitKeepsInv(codec, env, meta, states[i - 1], command, states[i]);
    }
  }

  lemma EmptyInv(codec: Codec)
    ensures Inv(codec, NEW_OWNER)
  {}

  lemma {:induction false} RunIsLater(codec: Codec, states: seq<Owner>, i: nat, j: nat)
    requires Run(codec, states) && i <= j < |states|
    ensures Later(states[i].tables, states[j].tables)
    decreases j
  {
    hide Later, Inv, Commits;
    if i == j {
      LaterReflexive(states[i].tables);
    } else {
      RunIsLater(codec, states, i, j - 1);
      RunKeepsInv(codec, states, j - 1);
      assert Step(codec, states[j - 1], states[j]);
      var env, meta, command :| Commits(codec, env, meta, states[j - 1], command, states[j]);
      CommitKeepsInv(codec, env, meta, states[j - 1], command, states[j]);
      LaterTransitive(states[i].tables, states[j - 1].tables, states[j].tables);
    }
  }

  /** A pair of reachable states, the second no earlier than the first. */
  ghost predicate Reaches(codec: Codec, o: Owner, later: Owner) {
    Inv(codec, o) && Inv(codec, later) && Later(o.tables, later.tables)
  }

  lemma RunReaches(codec: Codec, states: seq<Owner>, i: nat, j: nat)
    requires Run(codec, states) && i <= j < |states|
    ensures Reaches(codec, states[i], states[j])
  {
    hide Inv, Later;
    RunKeepsInv(codec, states, i);
    RunKeepsInv(codec, states, j);
    RunIsLater(codec, states, i, j);
  }

  /** The successive states from any state on. */
  ghost predicate Path(codec: Codec, states: seq<Owner>) {
    |states| > 0 && forall i :: 0 < i < |states| ==> Step(codec, states[i - 1], states[i])
  }

  lemma {:induction false} PathReaches(codec: Codec, states: seq<Owner>, i: nat)
    requires Path(codec, states) && Inv(codec, states[0]) && i < |states|
    ensures Reaches(codec, states[0], states[i])
  {
    hide Later, Inv, Commits;
    if i == 0 {
      LaterReflexive(states[0].tables);
    } else {
      PathReaches(codec, states, i - 1);
      assert Step(codec, states[i - 1], states[i]);
      var env, meta, command :| Commits(codec, env, meta, states[i - 1], command, states[i]);
      CommitKeepsInv(codec, env, meta, states[i - 1], command, states[i]);
      LaterTransitive(states[0].tables, states[i - 1].tables, states[i].tables);
    }
  }

  // ----- history is written once -----

  lemma InvKeyed(codec: Codec, o: Owner)
    requires Inv(codec, o)
    ensures ArchiveInv(o.tables) && Dense(o.tables.core)
    ensures o.tables.lineage.Some? ==> BaselineLog(o.tables, o.tables.lineage.value.baselineId) == Log(o.tables.core)
  {}

  /** The archived log of every baseline id only ever grows by appending. */
  lemma BaselineLogGrows(t: Tables, later: Tables, b: string)
    requires Keyed(t) && Keyed(later) && Later(t, later)
    ensures BaselineLog(t, b) <= BaselineLog(later, b)
  {
    hide Retired, Continues;
    SameRows(t, later, b);
    hide Keyed, Rows;
  }

  /**
   * A pair (baseline id, cursor) never denotes two different changes, over every run and every reset: each
   * baseline's log is dense on 1..head and a later log of the same baseline extends an earlier one, whether
   * it is read from the archive or, while the baseline is current, from the operations.
   */
  lemma HistoryIsWrittenOnce(codec: Codec, states: seq<Owner>, i: nat, j: nat, b: string)
    requires Run(codec, states) && i <= j < |states|
    ensures Keyed(states[i].tables) && Keyed(states[j].tables)
    ensures BaselineLog(states[i].tables, b) <= BaselineLog(states[j].tables, b)
    ensures Dense(states[i].tables.core)
    ensures Current(states[i].tables, b) ==> Log(states[i].tables.core) == BaselineLog(states[i].tables, b)
  {
    RunReaches(codec, states, i, j);
    hide Run, Later, Keyed, BaselineLog, Log, Dense, Inv, Climbs;
    InvKeyed(codec, states[i]);
    InvKeyed(codec, states[j]);
    BaselineLogGrows(states[i].tables, states[j].tables, b);
  }

  /**
   * In every state of every run the archived versions of every baseline are a non-decreasing map from the
   * cursors 1..head onto the versions 1..version of its archive head.
   */
  lemma ArchivedVersionsClimb(codec: Codec, states: seq<Owner>, i: nat, b: string)
    requires Run(codec, states) && i < |states|
    ensures Keyed(states[i].tables)
    ensures NonDecreasing(Rows(states[i].tables, b))
    ensures forall v: nat :: 1 <= v <= ArchivedVersion(states[i].tables, b)
              <==> HasVersion(Rows(states[i].tables, b), v)
  {
    hide Run, Inv, Keyed, Dense, BaselineLog, Log, Rows, NonDecreasing, HasVersion, Climbs;
    RunKeepsInv(codec, states, i);
    InvKeyed(codec, states[i]);
    RowsClimb(states[i].tables, b);
    VersionsMonotoneOnto(Rows(states[i].tables, b), ArchivedVersion(states[i].tables, b));
  }

  lemma RowsClimb(t: Tables, b: string)
    requires ArchiveInv(t)
    ensures Climbs(Rows(t, b), ArchivedVersion(t, b))
  {}

  // ----- the compare-and-set check -----

  lemma SameVersionSameHead(codec: Codec, o: Owner, later: Owner)
    requires Reaches(codec, o, later) && o.tables.lineage.Some? && later.tables.lineage.Some?
    requires o.tables.lineage.value.baselineId == later.tables.lineage.value.baselineId
    requires o.tables.lineage.value.version == later.tables.lineage.value.version
    ensures o.tables.core.cursor == later.tables.core.cursor
  {
    var b := o.tables.lineage.value.baselineId;
    hide CoreInv, ResolutionsCurrent, LineageSound, Continues, Retired, ArchiveKept;
    if b !in later.tables.archiveHeads {
      assert later.tables.core.cursor == 0;
    } else {
      assert later.tables.archiveHeads[b].version == later.tables.lineage.value.version;
      assert Climbs(Rows(later.tables, b), later.tables.archiveHeads[b].version);
      VersionZero(Rows(later.tables, b), later.tables.archiveHeads[b].version);
    }
  }

  lemma VersionZero(rows: seq<ArchivedChange>, version: nat)
    requires Climbs(rows, version)
    ensures version == 0 <==> rows == []
    ensures version <= |rows|
  {}

  lemma SameLogSameOperations(a: Core, b: Core)
    requires Dense(a) && Dense(b) && Log(a) == Log(b)
    ensures a.operations == b.operations
  {
    forall c | c in a.operations || c in b.operations
      ensures c in a.operations && c in b.operations && a.operations[c] == b.operations[c]
    {
      assert Log(a)[c - 1] == Log(b)[c - 1];
    }
  }

  lemma SameLogSameCore(a: Core, b: Core, p: nat, q: nat)
    requires CoreInv(a, p) && CoreInv(b, q) && Log(a) == Log(b)
    ensures a.operations == b.operations && a.records == b.records
  {
    hide Dense, UniqueOpIds, ReceiptsMatchLog, LogWithinLimits, RecordsViewLog;
    SameLogSameOperations(a, b);
    RecordsFromLog(a, b);
  }

  /** Within a run, the pair (baseline id, version) determines the log, the records and the progress day. */
  lemma VersionDeterminesState(codec: Codec, o: Owner, later: Owner)
    requires Reaches(codec, o, later) && o.tables.lineage.Some? && later.tables.lineage.Some?
    requires o.tables.lineage.value.baselineId == later.tables.lineage.value.baselineId
    requires o.tables.lineage.value.version == later.tables.lineage.value.version
    ensures later.tables.core.operations == o.tables.core.operations
    ensures later.tables.core.records == o.tables.core.records
    ensures later.tables.core.cursor == o.tables.core.cursor
    ensures later.tables.lineage.value.progressDay == o.tables.lineage.value.progressDay
  {
    var b := o.tables.lineage.value.baselineId;
    SameVersionSameHead(codec, o, later);
    InvKeyed(codec, o);
    InvKeyed(codec, later);
    hide ArchiveInv, CurrentArchived, ResolutionsCurrent, CoreInv, Climbs, Dense, ProgressDay, RecordRows, Log,
         BaselineLog;
    BaselineLogGrows(o.tables, later.tables, b);
    assert Log(o.tables.core) <= Log(later.tables.core);
    assert |Log(o.tables.core)| == |Log(later.tables.core)|;
    assert Log(o.tables.core) == Log(later.tables.core);
    SameLogSameCore(o.tables.core, later.tables.core, o.snapshotLen, later.snapshotLen);
  }

  /**
   * The compare-and-set of a resolution is sound: when the expected pair matches, the server still holds
   * exactly the records any earlier observer of that pair saw.
   */
  lemma ExpectationIsSound(codec: Codec, states: seq<Owner>, i: nat, j: nat, request: ResolveRequest)
    requires Run(codec, states) && i <= j < |states|
    requires states[i].tables.lineage.Some? && states[j].tables.lineage.Some?
    requires ExpectationHolds(states[i].tables, request) && ExpectationHolds(states[j].tables, request)
    ensures states[j].tables.core.operations == states[i].tables.core.operations
    ensures states[j].tables.core.records == states[i].tables.core.records
  {
    RunReaches(codec, states, i, j);
    hide Run, Reaches;
    VersionDeterminesState(codec, states[i], states[j]);
  }
}
