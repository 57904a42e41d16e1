/** The archive: one dense, versioned, append-only log for each baseline id that was ever archived. */
module ArchiveInvariant {
  import opened Prelude
  import opened SyncTypes
  import opened Tables
  import opened SyncSpec

  /** The archived keys are exactly (b, 1..head(b)), and every archived change sits at its own cursor. */
  ghost predicate Keyed(t: Tables) {
    && (forall key :: key in t.archive <==>
          key.baselineId in t.archiveHeads && 1 <= key.cursor <= t.archiveHeads[key.baselineId].cursor)
    && (forall key :: key in t.archive ==> t.archive[key].change.cursor == key.cursor)
  }

  /** The archived rows of a baseline in cursor order; empty when the baseline was never archived. */
  ghost function Rows(t: Tables, b: string): (rows: seq<ArchivedChange>)
    requires Keyed(t)
    ensures |rows| == if b in t.archiveHeads then t.archiveHeads[b].cursor else 0
  {
    if b !in t.archiveHeads then []
    else seq(t.archiveHeads[b].cursor, i requires 0 <= i < t.archiveHeads[b].cursor => t.archive[ArchiveKey(b, i + 1)])
  }

  /** The archived log of a baseline. */
  ghost function BaselineLog(t: Tables, b: string): (log: seq<Change>)
    requires Keyed(t)
    ensures |log| == |Rows(t, b)|
  {
    var rows := Rows(t, b);
    seq(|rows|, i requires 0 <= i < |rows| => rows[i].change)
  }

  lemma SameArchive(t: Tables, u: Tables)
    requires ArchiveInv(t) && u.archive == t.archive && u.archiveHeads == t.archiveHeads
    ensures ArchiveInv(u)
    ensures forall b :: Rows(u, b) == Rows(t, b)
  {
    hide Climbs;
    assert Keyed(u);
    forall b ensures Rows(u, b) == Rows(t, b) {}
  }

  ghost function ArchivedVersion(t: Tables, b: string): nat {
    if b in t.archiveHeads then t.archiveHeads[b].version else 0
  }

  /** Versions start at 1, never skip, and end at the given one. */
  ghost predicate Climbs(rows: seq<ArchivedChange>, version: nat) {
    && (|rows| == 0 ==> version == 0)
    && (|rows| > 0 ==> rows[0].serverVersion == 1 && rows[|rows| - 1].serverVersion == version)
    && (forall i :: 0 < i < |rows| ==>
          rows[i - 1].serverVersion <= rows[i].serverVersion <= rows[i - 1].serverVersion + 1)
    && (forall i :: 0 <= i < |rows| ==> 1 <= rows[i].serverVersion <= i + 1)
  }

  ghost predicate ArchiveInv(t: Tables) {
    && Keyed(t)
    && (forall b :: b in t.archiveHeads ==> Climbs(Rows(t, b), t.archiveHeads[b].version))
  }

  lemma {:induction false} ClimbsMonotone(rows: seq<ArchivedChange>, version: nat, i: nat, j: nat)
    requires Climbs(rows, version) && i <= j < |rows|
    ensures rows[i].serverVersion <= rows[j].serverVersion
    decreases j - i
  {
    if i < j { ClimbsMonotone(rows, version, i, j - 1); }
  }

  ghost predicate HasVersion(rows: seq<ArchivedChange>, v: nat) {
    exists i :: 0 <= i < |rows| && rows[i].serverVersion == v
  }

  lemma {:induction false} ClimbsOnto(rows: seq<ArchivedChange>, version: nat, i: nat, v: nat)
    requires Climbs(rows, version) && i < |rows| && 1 <= v <= rows[i].serverVersion
    ensures HasVersion(rows, v)
    decreases i
  {
    if rows[i].serverVersion != v { ClimbsOnto(rows, version, i - 1, v); }
  }

  ghost predicate NonDecreasing(rows: seq<ArchivedChange>) {
    forall i, j :: 0 <= i <= j < |rows| ==> rows[i].serverVersion <= rows[j].serverVersion
  }

  /** The archived versions of a baseline are a non-decreasing map from cursors 1..head onto versions 1..version. */
  lemma VersionsMonotoneOnto(rows: seq<ArchivedChange>, version: nat)
    requires Climbs(rows, version)
    ensures NonDecreasing(rows)
    ensures forall v: nat :: 1 <= v <= version <==> HasVersion(rows, v)
  {
    forall i, j | 0 <= i <= j < |rows| ensures rows[i].serverVersion <= rows[j].serverVersion {
      ClimbsMonotone(rows, version, i, j);
    }
    forall v: nat ensures 1 <= v <= version <==> HasVersion(rows, v) {
      if 1 <= v <= version { ClimbsOnto(rows, version, |rows| - 1, v); }
    }
  }

  // ----- publishing -----

  /** Changes at consecutive cursors after start. */
  ghost predicate Follow(changes: seq<Change>, start: nat) {
    forall j :: 0 <= j < |changes| ==> changes[j].cursor == start + 1 + j
  }

  /** after is before with the changes archived for b at cursors start + 1, start + 2, … */
  ghost predicate Archives(before: map<ArchiveKey, ArchivedChange>, after: map<ArchiveKey, ArchivedChange>,
                           b: string, version: nat, at: nat, changes: seq<Change>, start: nat)
  {
    && (forall key :: key in after <==>
          key in before || (key.baselineId == b && start < key.cursor <= start + |changes|))
    && (forall key :: key in before ==> key in after && after[key] == before[key])
    && (forall j :: 0 <= j < |changes| ==>
          ArchiveKey(b, start + 1 + j) in after
          && after[ArchiveKey(b, start + 1 + j)] == ArchivedChange(changes[j], version, at))
  }

  /** Archiving consecutive changes past the last archived cursor never meets an existing key. */
  lemma {:induction false} ArchiveChangesEffect(t: Tables, b: string, version: nat, at: nat, changes: seq<Change>,
                                                start: nat)
    requires Follow(changes, start)
    requires forall key :: key in t.archive && key.baselineId == b ==> key.cursor <= start
    ensures ArchiveChanges(t, b, version, at, changes).Ok?
    ensures Archives(t.archive, ArchiveChanges(t, b, version, at, changes).value.archive, b, version, at, changes,
                     start)
  {
    if changes != [] {
      var init, last := changes[..|changes| - 1], changes[|changes| - 1];
      ArchiveChangesEffect(t, b, version, at, init, start);
      var mid := ArchiveChanges(t, b, version, at, init).value;
      var key := ArchiveKey(b, last.cursor);
      assert key !in mid.archive;
      var after := ArchiveChanges(t, b, version, at, changes).value;
      assert after.archive == mid.archive[key := ArchivedChange(last, version, at)];
      forall j | 0 <= j < |changes|
        ensures ArchiveKey(b, start + 1 + j) in after.archive
        ensures after.archive[ArchiveKey(b, start + 1 + j)] == ArchivedChange(changes[j], version, at)
      {
        if j < |init| { assert init[j] == changes[j]; }
      }
    }
  }

  /** The rows a publication adds. */
  ghost function NewRows(changes: seq<Change>, version: nat, at: nat): seq<ArchivedChange> {
    seq(|changes|, i requires 0 <= i < |changes| => ArchivedChange(changes[i], version, at))
  }

  lemma ClimbsOn(rows: seq<ArchivedChange>, previous: nat, changes: seq<Change>, version: nat, at: nat)
    requires Climbs(rows, previous)
    requires if changes == [] then version == previous else version == previous + 1
    ensures Climbs(rows + NewRows(changes, version, at), version)
  {
    var more := rows + NewRows(changes, version, at);
    forall i | 0 < i < |more|
      ensures more[i - 1].serverVersion <= more[i].serverVersion <= more[i - 1].serverVersion + 1
    {}
    assert |rows| > 0 ==> previous <= |rows|;
  }

  /** A publication: the tables it leaves, given where the baseline's archive ended before. */
  ghost predicate Published(env: Env, origin: string, t: Tables, changes: seq<Change>, after: Tables)
    requires t.lineage.Some? && Keyed(t) && Keyed(after)
  {
    var l := t.lineage.value;
    && after == t.(archive := after.archive,
                   archiveHeads := t.archiveHeads[l.baselineId := ArchiveHead(t.core.cursor, l.version, env.now)],
                   outbox := t.outbox + [RealtimeEvent(l.baselineId, t.core.cursor, l.version, origin, env.now)])
    && (forall key :: key in t.archive ==> key in after.archive && after.archive[key] == t.archive[key])
    && Rows(after, l.baselineId) == Rows(t, l.baselineId) + NewRows(changes, l.version, env.now)
    && (forall b :: b != l.baselineId ==> Rows(after, b) == Rows(t, b))
  }

  /**
   * Publishing consecutive changes that end at the head succeeds, appends them to the baseline's archive,
   * leaves every other baseline's archive alone and enqueues exactly one event for the new head.
   */
  lemma PublishEffect(env: Env, origin: string, t: Tables, changes: seq<Change>)
    requires t.lineage.Some? && Keyed(t)
    requires Follow(changes, |Rows(t, t.lineage.value.baselineId)|)
    requires t.core.cursor == |Rows(t, t.lineage.value.baselineId)| + |changes|
    ensures Publish(env, origin, t, changes).Ok?
    ensures Keyed(Publish(env, origin, t, changes).value)
    ensures Published(env, origin, t, changes, Publish(env, origin, t, changes).value)
  {
    var l := t.lineage.value;
    var start := |Rows(t, l.baselineId)|;
    ArchiveChangesEffect(t, l.baselineId, l.version, env.now, changes, start);
    var after := Publish(env, origin, t, changes).value;
    assert Archives(t.archive, after.archive, l.baselineId, l.version, env.now, changes, start);
    assert Keyed(after) by {
      forall key | key in after.archive ensures after.archive[key].change.cursor == key.cursor {
        if key !in t.archive {
          var j := key.cursor - start - 1;
          assert key == ArchiveKey(l.baselineId, start + 1 + j);
          assert after.archive[key] == ArchivedChange(changes[j], l.version, env.now);
        }
      }
    }
    PublishedRows(t, after, changes, l.baselineId, l.version, env.now, start);
  }

  lemma RowAt(t: Tables, b: string, i: nat)
    requires Keyed(t) && i < |Rows(t, b)|
    ensures ArchiveKey(b, i + 1) in t.archive && Rows(t, b)[i] == t.archive[ArchiveKey(b, i + 1)]
  {}

  /** Two tables with the same head for a baseline and the same archive rows for it have the same rows. */
  lemma SameRows(t: Tables, after: Tables, b: string)
    requires Keyed(t) && Keyed(after) && |Rows(t, b)| <= |Rows(after, b)|
    requires forall key :: key in t.archive && key.baselineId == b ==>
               key in after.archive && after.archive[key] == t.archive[key]
    ensures Rows(t, b) <= Rows(after, b)
  {
    hide Rows, Keyed;
    forall i | 0 <= i < |Rows(t, b)| ensures Rows(t, b)[i] == Rows(after, b)[i] {
      RowAt(t, b, i);
      RowAt(after, b, i);
    }
  }

  lemma PublishedRows(t: Tables, after: Tables, changes: seq<Change>, b: string, version: nat, at: nat, start: nat)
    requires Keyed(t) && Keyed(after) && start == |Rows(t, b)|
    requires Archives(t.archive, after.archive, b, version, at, changes, start)
    requires b in after.archiveHeads && after.archiveHeads[b].cursor == start + |changes|
    requires after.archiveHeads == t.archiveHeads[b := after.archiveHeads[b]]
    ensures Rows(after, b) == Rows(t, b) + NewRows(changes, version, at)
    ensures forall other :: other != b ==> Rows(after, other) == Rows(t, other)
  {
    var rows, more := Rows(after, b), Rows(t, b) + NewRows(changes, version, at);
    assert |rows| == |more|;
    assert forall other :: other != b ==> |Rows(after, other)| == |Rows(t, other)|;
    hide Rows, Keyed;
    SameRows(t, after, b);
    forall i | 0 <= i < |rows| ensures rows[i] == more[i] {
      if i >= start {
        RowAt(after, b, i);
        var j := i - start;
        assert after.archive[ArchiveKey(b, start + 1 + j)] == ArchivedChange(changes[j], version, at);
      }
    }
    forall other | other != b ensures Rows(after, other) == Rows(t, other) {
      SameRows(t, after, other);
    }
  }

  /** A publication with the next version keeps the archive in order. */
  lemma PublishKeepsArchive(env: Env, origin: string, t: Tables, changes: seq<Change>, after: Tables)
    requires t.lineage.Some? && ArchiveInv(t) && Keyed(after) && Published(env, origin, t, changes, after)
    requires var previous := ArchivedVersion(t, t.lineage.value.baselineId);
             t.lineage.value.version == if changes == [] then previous else previous + 1
    ensures ArchiveInv(after)
  {
    var l := t.lineage.value;
    forall b | b in after.archiveHeads ensures Climbs(Rows(after, b), after.archiveHeads[b].version) {
      if b == l.baselineId {
        ClimbsOn(Rows(t, b), ArchivedVersion(t, b), changes, l.version, env.now);
      }
    }
  }

  /** A baseline's archive ends where these changes start, and its version is the one before theirs. */
  ghost predicate NextInLine(t: Tables, changes: seq<Change>)
    requires t.lineage.Some? && Keyed(t)
  {
    var l := t.lineage.value;
    && Follow(changes, |Rows(t, l.baselineId)|)
    && t.core.cursor == |Rows(t, l.baselineId)| + |changes|
    && l.version == ArchivedVersion(t, l.baselineId) + if changes == [] then 0 else 1
  }

  lemma PublishInLine(env: Env, origin: string, t: Tables, changes: seq<Change>)
    requires t.lineage.Some? && ArchiveInv(t) && NextInLine(t, changes)
    ensures Publish(env, origin, t, changes).Ok?
    ensures ArchiveInv(Publish(env, origin, t, changes).value)
    ensures Published(env, origin, t, changes, Publish(env, origin, t, changes).value)
  {
    hide Publish, Published, Rows, ArchivedVersion, Climbs;
    PublishEffect(env, origin, t, changes);
    hide Keyed;
    PublishKeepsArchive(env, origin, t, changes, Publish(env, origin, t, changes).value);
  }
}
