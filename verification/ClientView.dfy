/** A client that folds the log in cursor order rebuilds the server's records. */
module ClientView {
  import opened Prelude
  import opened SyncTypes
  import opened Progress
  import opened Tables
  import opened SyncSpec
  import opened CoreInvariant
  import opened ArchiveInvariant
  import opened OwnerInvariant
  import opened History
  import opened Replay
  import opened ExchangePages

  /** What a client does with the changes it receives: each replaces what it held for the key, tombstones included. */
  function Fold(records: map<string, Change>, changes: seq<Change>): map<string, Change> {
    if changes == [] then records
    else
      var last := changes[|changes| - 1];
      Fold(records, changes[..|changes| - 1])[last.entityKey := last]
  }

  lemma {:induction false} FoldConcat(records: map<string, Change>, xs: seq<Change>, ys: seq<Change>)
    ensures Fold(records, xs + ys) == Fold(Fold(records, xs), ys)
  {
    if ys == [] {
      assert xs + ys == xs;
    } else {
      assert (xs + ys)[..|xs + ys| - 1] == xs + ys[..|ys| - 1];
      FoldConcat(records, xs, ys[..|ys| - 1]);
    }
  }

  /** Position i holds the last change of its key. */
  ghost predicate LastOf(changes: seq<Change>, i: nat) {
    i < |changes| && forall j :: i < j < |changes| ==> changes[j].entityKey != changes[i].entityKey
  }

  lemma {:induction false} FoldedIsLast(changes: seq<Change>, k: string) returns (i: nat)
    requires k in Fold(map[], changes)
    ensures LastOf(changes, i) && changes[i].entityKey == k && Fold(map[], changes)[k] == changes[i]
  {
    var n := |changes| - 1;
    if changes[n].entityKey == k { return n; }
    i := FoldedIsLast(changes[..n], k);
    forall j | i < j < |changes| ensures changes[j].entityKey != k {
      if j < n { assert changes[..n][j] == changes[j]; }
    }
  }

  lemma {:induction false} FoldedHasKey(changes: seq<Change>, i: nat)
    requires i < |changes|
    ensures changes[i].entityKey in Fold(map[], changes)
  {
    var n := |changes| - 1;
    if i < n { FoldedHasKey(changes[..n], i); }
  }

  lemma FoldedKey(core: Core, k: string)
    requires Dense(core) && RecordsViewLog(core)
    ensures k in Fold(map[], Log(core)) <==> k in core.records
    ensures k in core.records ==> Fold(map[], Log(core))[k] == core.records[k]
  {
    hide Fold;
    var log := Log(core);
    if k in core.records {
      var c := core.records[k].cursor;
      assert log[c - 1] == core.operations[c];
      FoldedHasKey(log, c - 1);
    }
    if k in Fold(map[], log) {
      var i := FoldedIsLast(log, k);
      assert core.operations[i + 1] == log[i];
      var c := core.records[k].cursor;
      assert log[c - 1] == core.operations[c];
      hide Log;
      assert i + 1 <= c;
      assert !(i < c - 1 < |log|);
    }
  }

  /** The record table is a materialised view of the log. */
  lemma RecordsAreFoldedLog(core: Core, snapshotLen: nat)
    requires CoreInv(core, snapshotLen)
    ensures Fold(map[], Log(core)) == core.records
  {
    hide Fold, UniqueOpIds, ReceiptsMatchLog, LogWithinLimits, Dense, RecordsViewLog, Log;
    forall k ensures k in Fold(map[], Log(core)) <==> k in core.records
      ensures k in core.records ==> Fold(map[], Log(core))[k] == core.records[k]
    {
      FoldedKey(core, k);
    }
  }

  /** A client that takes pages in one by one. */
  function FoldPages(records: map<string, Change>, pages: seq<seq<Change>>): map<string, Change> {
    if pages == [] then records else Fold(FoldPages(records, pages[..|pages| - 1]), pages[|pages| - 1])
  }

  function Joined(pages: seq<seq<Change>>): seq<Change> {
    if pages == [] then [] else Joined(pages[..|pages| - 1]) + pages[|pages| - 1]
  }

  /** Where the log is cut into pages does not matter. */
  lemma {:induction false} FoldJoined(records: map<string, Change>, pages: seq<seq<Change>>)
    ensures FoldPages(records, pages) == Fold(records, Joined(pages))
  {
    if pages != [] {
      FoldJoined(records, pages[..|pages| - 1]);
      FoldConcat(records, Joined(pages[..|pages| - 1]), pages[|pages| - 1]);
    }
  }

  /**
   * In every state of every run, a client that folds the log page by page, however it is cut into pages,
   * holds exactly the records; so does one that drains it at any page limit.
   */
  lemma ClientRebuildsRecords(codec: Codec, states: seq<Owner>, n: nat, pages: seq<seq<Change>>, limit: nat)
    requires Run(codec, states) && n < |states| && limit > 0
    ensures Dense(states[n].tables.core)
    ensures Joined(pages) == Log(states[n].tables.core) ==> FoldPages(map[], pages) == states[n].tables.core.records
    ensures Fold(map[], Drain(states[n].tables.core, 0, limit)) == states[n].tables.core.records
  {
    hide CoreInv, Run, Inv, Drain, Fold, Log, Dense, ArchiveInv, BaselineLog;
    RunKeepsInv(codec, states, n);
    InvKeyed(codec, states[n]);
    AnyCoreInv(codec, states[n]);
    var core := states[n].tables.core;
    RecordsAreFoldedLog(core, states[n].snapshotLen);
    FoldJoined(map[], pages);
    DrainReadsTheRest(core, 0, limit);
  }

  lemma AnyCoreInv(codec: Codec, o: Owner)
    requires Inv(codec, o)
    ensures CoreInv(o.tables.core, o.snapshotLen)
  {}

  // ----- draining while others commit -----

  function CoresOf(seen: seq<Owner>): (cores: seq<Core>)
    ensures |cores| == |seen|
  {
    seq(|seen|, i requires 0 <= i < |seen| => seen[i].tables.core)
  }

  lemma UnarchivedIsEmpty(codec: Codec, o: Owner, b: string)
    requires Inv(codec, o) && Current(o.tables, b) && b !in o.tables.archiveHeads
    ensures o.tables.core.cursor == 0 && o.tables.core.operations == map[] && o.tables.core.receipts == map[]
  {
    hide UniqueOpIds, RecordsViewLog, LogWithinLimits, ResolutionsCurrent, LineageSound;
    var core := o.tables.core;
    assert |Log(core)| == |BaselineLog(o.tables, b)| == 0;
    assert forall c :: c !in core.operations;
    assert forall q :: q in core.receipts ==> core.receipts[q].serverCursor in core.operations;
    assert core.receipts.Keys == {} && core.operations.Keys == {};
  }

  /** Between two states with the same baseline current, the log and the receipts are only added to. */
  lemma CurrentGrows(codec: Codec, o: Owner, later: Owner, b: string)
    requires Reaches(codec, o, later) && Current(o.tables, b) && Current(later.tables, b)
    ensures Grows(o.tables.core, later.tables.core)
  {
    assert Inv(codec, o);
    hide Inv, Later;
    if b in o.tables.archiveHeads { StillCurrent(codec, o, later, b); } else { UnarchivedIsEmpty(codec, o, b); }
  }

  /**
   * An exchange client that reads page after page while other devices commit, the baseline staying current,
   * reads the log of the last state seen from its cursor on without gap or repeat, and stops only at the head
   * of a state it has seen or when it has made all its reads.
   */
  lemma DrainOverStates(codec: Codec, seen: seq<Owner>, b: string, cursor: nat, limit: nat)
    requires seen != [] && limit > 0 && cursor <= seen[0].tables.core.cursor
    requires forall i :: 0 <= i < |seen| ==> Current(seen[i].tables, b)
    requires forall i, j :: 0 <= i <= j < |seen| ==> Reaches(codec, seen[i], seen[j])
    ensures var last := seen[|seen| - 1].tables.core;
            var (changes, end) := DrainAcross(CoresOf(seen), cursor, limit);
            && Dense(last) && cursor <= end <= last.cursor
            && changes == Log(last)[cursor..end]
            && (ReachedHead(CoresOf(seen), end) || end == cursor + limit * |seen|)
  {
    CoresGrow(codec, seen, b);
    hide Growing, DrainAcross, Log, Reaches, Current, ReachedHead;
    LastAgain(CoresOf(seen));
    DrainKeepsUp(CoresOf(seen), seen[|seen| - 1].tables.core, cursor, limit);
  }

  lemma CoresGrow(codec: Codec, seen: seq<Owner>, b: string)
    requires forall i :: 0 <= i < |seen| ==> Current(seen[i].tables, b)
    requires forall i, j :: 0 <= i <= j < |seen| ==> Reaches(codec, seen[i], seen[j])
    ensures Growing(CoresOf(seen))
  {
    hide Dense, Grows, Current, Reaches;
    var cores := CoresOf(seen);
    forall i | 0 <= i < |seen| ensures Dense(cores[i]) { DenseAt(codec, seen[i], seen[i]); }
    forall i, j | 0 <= i <= j < |seen| ensures Grows(cores[i], cores[j]) { CurrentGrows(codec, seen[i], seen[j], b); }
  }

  lemma LastAgain(cores: seq<Core>)
    requires cores != [] && Growing(cores)
    ensures Growing(cores + [cores[|cores| - 1]])
    ensures (cores + [cores[|cores| - 1]])[0] == cores[0]
  {
    hide Dense, Grows;
    var n := |cores|;
    var all := cores + [cores[n - 1]];
    forall i, j | 0 <= i <= j < |all| ensures Grows(all[i], all[j]) {
      assert all[i] == cores[Min(i, n - 1)] && all[j] == cores[Min(j, n - 1)];
    }
  }

  lemma DenseAt(codec: Codec, o: Owner, later: Owner)
    requires Reaches(codec, o, later)
    ensures Dense(o.tables.core)
  {
    hide Inv, Later, Dense, ArchiveInv, BaselineLog, Log;
    InvKeyed(codec, o);
  }
}
