/** The log, the records and the receipts stay mutually consistent through every batch. */
module CoreInvariant {
  import opened Prelude
  import opened Ordering
  import opened SyncTypes
  import opened Validation
  import opened Tables
  import opened SyncSpec

  /** The log occupies exactly the cursors 1..cursor. */
  ghost predicate Dense(core: Core) {
    && core.cursor <= MAX_UINT64
    && (forall c: nat :: c in core.operations <==> 1 <= c <= core.cursor)
    && (forall c :: c in core.operations ==> core.operations[c].cursor == c)
  }

  ghost predicate UniqueOpIds(core: Core) {
    forall c, d :: c in core.operations && d in core.operations && core.operations[c].opId == core.operations[d].opId
                   ==> c == d
  }

  /** Each record is the operation on its key with the highest cursor. */
  ghost predicate RecordsViewLog(core: Core) {
    && (forall k :: k in core.records ==>
          && core.records[k].entityKey == k
          && core.records[k].cursor in core.operations
          && core.operations[core.records[k].cursor] == core.records[k])
    && (forall c :: c in core.operations ==>
          && core.operations[c].entityKey in core.records
          && c <= core.records[core.operations[c].entityKey].cursor)
  }

  predicate Receipted(core: Core, c: nat)
    requires c in core.operations
  {
    var opId := core.operations[c].opId;
    opId in core.receipts && core.receipts[opId] == Receipt(opId, c, false, true)
  }

  /**
   * The operations after the snapshot prefix are exactly those an applied receipt points at, and every
   * other receipt is a rejection that points at some operation.
   */
  ghost predicate ReceiptsMatchLog(core: Core, snapshotLen: nat) {
    && snapshotLen <= core.cursor
    && (forall c :: c in core.operations ==> (Receipted(core, c) <==> c > snapshotLen))
    && (forall o :: o in core.receipts ==>
          var r := core.receipts[o];
          && r.opId == o
          && r.conflict == !r.applied
          && r.serverCursor in core.operations
          && (r.applied ==> core.operations[r.serverCursor].opId == o))
  }

  /** The field limits that validation gives every stored change. */
  ghost predicate WithinLimits(c: Change) {
    && IsDeviceId(c.opId)
    && IsDeviceId(c.deviceId)
    && Utf16Length(c.entityKey) <= MAX_ENTITY_KEY_UTF16
    && |c.valueJson| <= MAX_VALUE_JSON_BYTES
    && c.clientTimeMs <= MAX_UINT64
  }

  ghost predicate LogWithinLimits(core: Core) {
    forall c :: c in core.operations ==> WithinLimits(core.operations[c])
  }

  ghost predicate CoreInv(core: Core, snapshotLen: nat) {
    && Dense(core)
    && UniqueOpIds(core)
    && RecordsViewLog(core)
    && ReceiptsMatchLog(core, snapshotLen)
    && LogWithinLimits(core)
  }

  /** Operations and receipts are written once. */
  ghost predicate Grows(before: Core, after: Core) {
    && before.cursor <= after.cursor
    && (forall c :: c in before.operations ==> c in after.operations && after.operations[c] == before.operations[c])
    && (forall o :: o in before.receipts ==> o in after.receipts && after.receipts[o] == before.receipts[o])
  }

  // ----- writing one operation -----

  /** The core after a change took the next cursor and was written to the log and the records. */
  function Logged(core: Core, change: Change): Core {
    Core(core.cursor + 1, core.records[change.entityKey := change],
         core.operations[core.cursor + 1 := change], core.receipts)
  }

  lemma LoggedKeepsLog(core: Core, change: Change)
    requires Dense(core) && UniqueOpIds(core) && LogWithinLimits(core)
    requires change.cursor == core.cursor + 1 <= MAX_UINT64 && !core.HasOpId(change.opId) && WithinLimits(change)
    ensures Dense(Logged(core, change)) && UniqueOpIds(Logged(core, change)) && LogWithinLimits(Logged(core, change))
  {}

  lemma LoggedKeepsView(core: Core, change: Change)
    requires Dense(core) && RecordsViewLog(core) && change.cursor == core.cursor + 1
    ensures RecordsViewLog(Logged(core, change))
  {
    var after := Logged(core, change);
    forall c | c in after.operations
      ensures after.operations[c].entityKey in after.records
      ensures c <= after.records[after.operations[c].entityKey].cursor
    {
      if c != core.cursor + 1 { assert core.operations[c].entityKey in core.records; }
    }
  }

  /** The three statements that write an operation, as one update, or the key or range that stops them. */
  lemma AppendIsLogged(core: Core, change: Change)
    requires Dense(core) && change.cursor == core.cursor + 1
    ensures core.NextCursor().Ok? <==> core.cursor < MAX_UINT64
    ensures core.NextCursor().Ok? ==>
              var appended := core.NextCursor().value.AppendOperation(change);
              if core.HasOpId(change.opId) then appended == Err(DuplicateKey(Operations))
              else appended.Ok? && appended.value.UpsertRecord(change) == Logged(core, change)
  {
    assert core.cursor + 1 !in core.operations;
    if core.NextCursor().Ok? {
      var numbered := core.NextCursor().value;
      assert numbered.HasOpId(change.opId) <==> core.HasOpId(change.opId);
    }
  }

  // ----- one mutation -----

  function WithReceipt(core: Core, receipt: Receipt): Core {
    core.(receipts := core.receipts[receipt.opId := receipt])
  }

  lemma RejectedReceipts(core: Core, receipt: Receipt, snapshotLen: nat)
    requires Dense(core) && ReceiptsMatchLog(core, snapshotLen) && receipt.opId !in core.receipts
    requires receipt.conflict && !receipt.applied && receipt.serverCursor in core.operations
    ensures ReceiptsMatchLog(WithReceipt(core, receipt), snapshotLen)
  {
    var after := WithReceipt(core, receipt);
    forall c | c in after.operations ensures Receipted(after, c) <==> c > snapshotLen {
      assert Receipted(core, c) <==> c > snapshotLen;
    }
  }

  lemma RejectKeepsInv(core: Core, batch: Batch, m: Mutation, snapshotLen: nat)
    requires CoreInv(core, snapshotLen) && m.opId !in core.receipts && Conflicts(core, m)
    ensures Reject(core, batch, m).Ok?
    ensures CoreInv(Reject(core, batch, m).value.0, snapshotLen)
    ensures Grows(core, Reject(core, batch, m).value.0)
  {
    hide UniqueOpIds, LogWithinLimits, ReceiptsMatchLog, Dense;
    assert core.records[m.entityKey].cursor in core.operations;
    hide RecordsViewLog;
    var receipt := Receipt(m.opId, core.records[m.entityKey].cursor, true, false);
    RejectedReceipts(core, receipt, snapshotLen);
    WithReceiptKeepsRest(core, receipt);
    assert Reject(core, batch, m).value.0 == WithReceipt(core, receipt);
  }

  /** What a fresh, non-conflicting mutation writes, and when the unique op_id key stops it. */
  lemma AcceptEffect(core: Core, batch: Batch, m: Mutation, now: Uint64)
    requires Dense(core) && m.opId !in core.receipts
    ensures var change := MutationChange(m, core.cursor + 1, ClampClientTime(m.clientTimeMs, now));
            var receipt := Receipt(m.opId, core.cursor + 1, false, true);
            Accept(core, batch, m, now) ==
            if core.cursor == MAX_UINT64 then Err(OutOfRange)
            else if core.HasOpId(m.opId) then Err(DuplicateKey(Operations))
            else Ok((WithReceipt(Logged(core, change), receipt),
                     Batch(batch.acks + [receipt.Ack()], batch.canonicalChanges + [change], batch.forcedChanges,
                           batch.archiveChanges + [change], batch.appliedCount + 1)))
  {
    var change := MutationChange(m, core.cursor + 1, ClampClientTime(m.clientTimeMs, now));
    AppendIsLogged(core, change);
  }

  lemma ReceiptKeepsMatch(core: Core, change: Change, snapshotLen: nat)
    requires Dense(core) && ReceiptsMatchLog(core, snapshotLen)
    requires change.cursor == core.cursor + 1 && change.opId !in core.receipts && !core.HasOpId(change.opId)
    ensures ReceiptsMatchLog(WithReceipt(Logged(core, change), Receipt(change.opId, core.cursor + 1, false, true)),
                             snapshotLen)
  {
    var after := WithReceipt(Logged(core, change), Receipt(change.opId, core.cursor + 1, false, true));
    forall c | c in after.operations ensures Receipted(after, c) <==> c > snapshotLen {
      if c != core.cursor + 1 {
        assert c in core.operations;
        assert Receipted(core, c) <==> c > snapshotLen;
        assert core.operations[c].opId != change.opId;
      }
    }
  }

  lemma AcceptKeepsInv(core: Core, batch: Batch, m: Mutation, deviceId: string, now: Uint64, snapshotLen: nat)
    requires CoreInv(core, snapshotLen) && m.opId !in core.receipts
    requires ValidateMutation(m, deviceId).Pass? && IsDeviceId(deviceId)
    requires Accept(core, batch, m, now).Ok?
    ensures CoreInv(Accept(core, batch, m, now).value.0, snapshotLen)
    ensures Grows(core, Accept(core, batch, m, now).value.0)
  {
    assert core.cursor <= MAX_UINT64;
    hide Accept, Dense, UniqueOpIds, RecordsViewLog, ReceiptsMatchLog, LogWithinLimits, Grows;
    AcceptEffect(core, batch, m, now);
    var change := MutationChange(m, core.cursor + 1, ClampClientTime(m.clientTimeMs, now));
    LoggedKeepsLog(core, change);
    LoggedKeepsView(core, change);
    ReceiptKeepsMatch(core, change, snapshotLen);
    var receipt := Receipt(m.opId, core.cursor + 1, false, true);
    WithReceiptKeepsRest(Logged(core, change), receipt);
    LoggedGrows(core, change, receipt);
  }

  lemma LoggedGrows(core: Core, change: Change, receipt: Receipt)
    requires Dense(core) && receipt.opId !in core.receipts
    ensures Grows(core, WithReceipt(Logged(core, change), receipt))
  {}

  lemma WithReceiptKeepsRest(core: Core, receipt: Receipt)
    ensures Dense(WithReceipt(core, receipt)) <==> Dense(core)
    ensures UniqueOpIds(WithReceipt(core, receipt)) <==> UniqueOpIds(core)
    ensures RecordsViewLog(WithReceipt(core, receipt)) <==> RecordsViewLog(core)
    ensures LogWithinLimits(WithReceipt(core, receipt)) <==> LogWithinLimits(core)
  {}

  /** A replayed mutation finds its operation: the lookup never misses. */
  lemma ReplayFinds(core: Core, batch: Batch, m: Mutation, snapshotLen: nat)
    requires CoreInv(core, snapshotLen) && m.opId in core.receipts
    ensures Replay(core, batch, m).Ok? && Replay(core, batch, m).value.0 == core
  {}

  lemma GrowsReflexive(core: Core)
    ensures Grows(core, core)
  {}

  lemma GrowsTransitive(a: Core, b: Core, c: Core)
    requires Grows(a, b) && Grows(b, c)
    ensures Grows(a, c)
  {}

  lemma ApplyMutationKeepsInv(core: Core, batch: Batch, m: Mutation, deviceId: string, now: Uint64, snapshotLen: nat)
    requires CoreInv(core, snapshotLen) && IsDeviceId(deviceId)
    requires ApplyMutation(core, batch, m, deviceId, now).Ok?
    ensures CoreInv(ApplyMutation(core, batch, m, deviceId, now).value.0, snapshotLen)
    ensures Grows(core, ApplyMutation(core, batch, m, deviceId, now).value.0)
  {
    hide CoreInv, Grows, Accept, Reject, Replay;
    if m.opId in core.receipts {
      ReplayFinds(core, batch, m, snapshotLen);
      GrowsReflexive(core);
    } else if Conflicts(core, m) {
      RejectKeepsInv(core, batch, m, snapshotLen);
    } else {
      AcceptKeepsInv(core, batch, m, deviceId, now, snapshotLen);
    }
  }

  // ----- a batch -----

  /** Acks and canonical changes align one to one with the mutations. */
  ghost predicate Aligned(after: Core, ms: seq<Mutation>, batch: Batch) {
    && |batch.acks| == |batch.canonicalChanges| == |ms|
    && (forall i :: 0 <= i < |ms| ==>
          && ms[i].opId in after.receipts
          && batch.acks[i] == after.receipts[ms[i].opId].Ack()
          && batch.acks[i].serverCursor in after.operations
          && batch.canonicalChanges[i] == after.operations[batch.acks[i].serverCursor])
  }

  /** The archived changes of a batch are exactly the operations it appended. */
  ghost predicate ArchivesAppended(before: Core, after: Core, batch: Batch) {
    && after.cursor == before.cursor + batch.appliedCount
    && |batch.archiveChanges| == batch.appliedCount
    && (forall j :: 0 <= j < |batch.archiveChanges| ==>
          && before.cursor + 1 + j in after.operations
          && batch.archiveChanges[j] == after.operations[before.cursor + 1 + j])
    && (batch.appliedCount == 0 ==> after.records == before.records && after.operations == before.operations)
  }

  /** Some conflict of the batch has this canonical change. */
  ghost predicate ForcedBy(batch: Batch, change: Change) {
    exists i :: 0 <= i < |batch.acks| == |batch.canonicalChanges|
                && batch.acks[i].conflict && batch.canonicalChanges[i] == change
  }

  ghost predicate ForcedAreConflicts(batch: Batch) {
    forall j :: 0 <= j < |batch.forcedChanges| ==> ForcedBy(batch, batch.forcedChanges[j])
  }

  ghost predicate BatchMatches(before: Core, after: Core, ms: seq<Mutation>, batch: Batch) {
    Aligned(after, ms, batch) && ArchivesAppended(before, after, batch) && ForcedAreConflicts(batch)
  }

  /** What one mutation adds to the acks and canonical changes. */
  ghost predicate OneMore(after: Core, batch: Batch, m: Mutation, done: Batch) {
    && m.opId in after.receipts
    && var ack := after.receipts[m.opId].Ack();
    && ack.serverCursor in after.operations
    && done.acks == batch.acks + [ack]
    && done.canonicalChanges == batch.canonicalChanges + [after.operations[ack.serverCursor]]
  }

  lemma StepIsOneMore(mid: Core, batch: Batch, m: Mutation, deviceId: string, now: Uint64, snapshotLen: nat)
    requires CoreInv(mid, snapshotLen) && ApplyMutation(mid, batch, m, deviceId, now).Ok?
    ensures var (after, done) := ApplyMutation(mid, batch, m, deviceId, now).value;
            OneMore(after, batch, m, done)
  {
    hide Accept, UniqueOpIds, LogWithinLimits, ReceiptsMatchLog;
    if m.opId !in mid.receipts && !Conflicts(mid, m) {
      AcceptEffect(mid, batch, m, now);
    }
  }

  lemma AlignedOneMore(mid: Core, after: Core, ms: seq<Mutation>, batch: Batch, m: Mutation, done: Batch)
    requires Aligned(mid, ms, batch) && Grows(mid, after) && OneMore(after, batch, m, done)
    ensures Aligned(after, ms + [m], done)
  {
    forall i | 0 <= i < |ms + [m]|
      ensures (ms + [m])[i].opId in after.receipts
      ensures done.acks[i] == after.receipts[(ms + [m])[i].opId].Ack()
      ensures done.acks[i].serverCursor in after.operations
      ensures done.canonicalChanges[i] == after.operations[done.acks[i].serverCursor]
    {
      if i < |ms| {
        assert ms[i].opId in mid.receipts && batch.acks[i].serverCursor in mid.operations;
      }
    }
  }

  /** The step from a matching batch: one more ack and canonical change, which the new core explains. */
  lemma StepAligned(mid: Core, ms: seq<Mutation>, batch: Batch, m: Mutation, deviceId: string, now: Uint64,
                    snapshotLen: nat)
    requires CoreInv(mid, snapshotLen) && IsDeviceId(deviceId) && Aligned(mid, ms, batch)
    requires ApplyMutation(mid, batch, m, deviceId, now).Ok?
    ensures var (after, done) := ApplyMutation(mid, batch, m, deviceId, now).value;
            Aligned(after, ms + [m], done)
  {
    hide CoreInv, Aligned, Grows, OneMore, ApplyMutation, IsDeviceId;
    ApplyMutationKeepsInv(mid, batch, m, deviceId, now, snapshotLen);
    StepIsOneMore(mid, batch, m, deviceId, now, snapshotLen);
    var (after, done) := ApplyMutation(mid, batch, m, deviceId, now).value;
    AlignedOneMore(mid, after, ms, batch, m, done);
  }

  lemma StepArchives(before: Core, mid: Core, batch: Batch, m: Mutation, deviceId: string, now: Uint64,
                     snapshotLen: nat)
    requires CoreInv(mid, snapshotLen) && IsDeviceId(deviceId) && ArchivesAppended(before, mid, batch)
    requires ApplyMutation(mid, batch, m, deviceId, now).Ok?
    ensures var (after, done) := ApplyMutation(mid, batch, m, deviceId, now).value;
            ArchivesAppended(before, after, done)
  {
    hide Accept, UniqueOpIds, LogWithinLimits, ReceiptsMatchLog, RecordsViewLog;
    if m.opId !in mid.receipts && !Conflicts(mid, m) {
      AcceptEffect(mid, batch, m, now);
    }
  }

  lemma StepForced(core: Core, batch: Batch, m: Mutation, deviceId: string, now: Uint64)
    requires Dense(core) && ForcedAreConflicts(batch) && |batch.acks| == |batch.canonicalChanges|
    requires ApplyMutation(core, batch, m, deviceId, now).Ok?
    ensures var (after, done) := ApplyMutation(core, batch, m, deviceId, now).value;
            ForcedAreConflicts(done)
  {
    hide Accept, Dense;
    if m.opId !in core.receipts && !Conflicts(core, m) {
      AcceptEffect(core, batch, m, now);
    }
    var done := ApplyMutation(core, batch, m, deviceId, now).value.1;
    var n := |batch.acks|;
    forall j | 0 <= j < |done.forcedChanges| ensures ForcedBy(done, done.forcedChanges[j]) {
      if j < |batch.forcedChanges| {
        assert ForcedBy(batch, batch.forcedChanges[j]);
        var i :| 0 <= i < n && batch.acks[i].conflict && batch.canonicalChanges[i] == batch.forcedChanges[j];
        assert done.acks[i] == batch.acks[i] && done.canonicalChanges[i] == batch.canonicalChanges[i];
      } else {
        assert done.acks[n].conflict && done.canonicalChanges[n] == done.forcedChanges[j];
      }
    }
  }

  /**
   * Every batch that commits keeps the invariant; its acks and canonical changes align one to one with
   * the mutations, canonical[i] being the operation that ack[i] points at, and its archived changes are
   * exactly the operations it appended.
   */
  lemma {:induction false} ApplyMutationsKeepsInv(core: Core, ms: seq<Mutation>, deviceId: string, now: Uint64,
                                                  snapshotLen: nat)
    requires CoreInv(core, snapshotLen) && IsDeviceId(deviceId)
    requires ApplyMutations(core, ms, deviceId, now).Ok?
    ensures var (after, batch) := ApplyMutations(core, ms, deviceId, now).value;
            CoreInv(after, snapshotLen) && Grows(core, after) && BatchMatches(core, after, ms, batch)
  {
    hide Grows, ApplyMutation;
    GrowsReflexive(core);
    if ms != [] {
      var init, last := ms[..|ms| - 1], ms[|ms| - 1];
      assert init + [last] == ms;
      ApplyMutationsKeepsInv(core, init, deviceId, now, snapshotLen);
      var (mid, batch) := ApplyMutations(core, init, deviceId, now).value;
      assert |batch.acks| == |batch.canonicalChanges| && Dense(mid);
      hide CoreInv, Dense, Aligned, ArchivesAppended, ForcedAreConflicts;
      ApplyMutationKeepsInv(mid, batch, last, deviceId, now, snapshotLen);
      StepAligned(mid, init, batch, last, deviceId, now, snapshotLen);
      StepArchives(core, mid, batch, last, deviceId, now, snapshotLen);
      StepForced(mid, batch, last, deviceId, now);
      GrowsTransitive(core, mid, ApplyMutations(core, ms, deviceId, now).value.0);
    }
  }

  // ----- a snapshot -----

  /** The operations a snapshot becomes: mutation i at cursor i + 1, stamped with the server's clock. */
  function SnapshotChanges(ms: seq<Mutation>, now: nat): seq<Change> {
    seq(|ms|, i requires 0 <= i < |ms| => MutationChange(ms[i], i + 1, now))
  }

  /** The snapshot in order: operation i + 1 is mutation i, stamped with the server's clock. */
  ghost predicate IsSnapshotLog(core: Core, ms: seq<Mutation>, changes: seq<Change>, now: Uint64) {
    && core.cursor == |ms| == |changes|
    && (forall i :: 0 <= i < |ms| ==>
          && changes[i] == MutationChange(ms[i], i + 1, now)
          && i + 1 in core.operations
          && core.operations[i + 1] == changes[i])
  }

  lemma SnapshotStep(mid: Core, before: seq<Change>, init: seq<Mutation>, last: Mutation, deviceId: string, now: Uint64)
    requires CoreInv(mid, |init|) && IsSnapshotLog(mid, init, before, now) && mid.receipts == map[]
    requires ValidateMutation(last, deviceId).Pass? && IsDeviceId(deviceId)
    requires mid.cursor < MAX_UINT64 && !mid.HasOpId(last.opId)
    ensures var change := MutationChange(last, mid.cursor + 1, now);
            CoreInv(Logged(mid, change), |init| + 1)
            && IsSnapshotLog(Logged(mid, change), init + [last], before + [change], now)
  {
    hide UniqueOpIds, RecordsViewLog, Utf16Length;
    var change := MutationChange(last, mid.cursor + 1, now);
    LoggedKeepsLog(mid, change);
    LoggedKeepsView(mid, change);
    hide LogWithinLimits;
    SnapshotReceipts(mid, change);
  }

  lemma SnapshotReceipts(mid: Core, change: Change)
    requires Dense(mid) && mid.receipts == map[]
    ensures ReceiptsMatchLog(Logged(mid, change), mid.cursor + 1)
  {}

  lemma EmptyCoreInv()
    ensures CoreInv(EMPTY_CORE, 0)
  {}

  /** A snapshot loads into an empty core as operations 1..n, all of them before the receipted ones. */
  lemma {:induction false} LoadSnapshotKeepsInv(ms: seq<Mutation>, deviceId: string, now: Uint64)
    requires AllValid(ms, deviceId) && IsDeviceId(deviceId)
    requires LoadSnapshot(EMPTY_CORE, ms, now).Ok?
    ensures var (core, changes) := LoadSnapshot(EMPTY_CORE, ms, now).value;
            CoreInv(core, |ms|) && IsSnapshotLog(core, ms, changes, now) && core.receipts == map[]
  {
    hide UniqueOpIds, RecordsViewLog, ReceiptsMatchLog, LogWithinLimits, Dense, ValidateMutation;
    if ms == [] {
      EmptyCoreInv();
    } else {
      var init, last := ms[..|ms| - 1], ms[|ms| - 1];
      assert init + [last] == ms;
      assert AllValid(init, deviceId) by { assert forall i :: 0 <= i < |init| ==> init[i] == ms[i]; }
      LoadSnapshotKeepsInv(init, deviceId, now);
      var (mid, before) := LoadSnapshot(EMPTY_CORE, init, now).value;
      var change := MutationChange(last, mid.cursor + 1, now);
      assert ValidateMutation(last, deviceId).Pass?;
      AppendIsLogged(mid, change);
      hide CoreInv, IsSnapshotLog, ValidateMutation;
      SnapshotStep(mid, before, init, last, deviceId, now);
    }
  }

  // ----- the log as a sequence -----

  ghost function Log(core: Core): (log: seq<Change>)
    requires Dense(core)
    ensures |log| == core.cursor
  {
    seq(core.cursor, i requires 0 <= i < core.cursor => core.operations[i + 1])
  }

  /** Two cores with the same log have the same records. */
  lemma RecordsFromLog(a: Core, b: Core)
    requires RecordsViewLog(a) && RecordsViewLog(b) && a.operations == b.operations
    ensures a.records == b.records
  {
    forall k | k in a.records || k in b.records
      ensures k in a.records && k in b.records && a.records[k] == b.records[k]
    {
      if k in a.records { assert a.operations[a.records[k].cursor].entityKey == k; }
      if k in b.records { assert b.operations[b.records[k].cursor].entityKey == k; }
    }
  }
}
