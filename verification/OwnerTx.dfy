/** A transaction on one owner's rows, and the store that commits it whole or not at all. */
module OwnerTx {
  import opened Prelude
  import opened SyncTypes
  import opened Tables

  /** The rows of one owner as one transaction sees and changes them. */
  class Tx {
    var cursor: nat
    var lineage: Option<Lineage>
    var records: map<string, Change>
    var operations: map<nat, Change>
    var receipts: map<string, Receipt>
    var resolutions: map<string, ResolutionReceipt>
    var archive: map<ArchiveKey, ArchivedChange>
    var archiveHeads: map<string, ArchiveHead>
    var outbox: seq<RealtimeEvent>

    ghost function CoreRows(): Core
      reads this
    {
      Core(cursor, records, operations, receipts)
    }

    ghost function Rows(): Tables
      reads this
    {
      Tables(CoreRows(), lineage, resolutions, archive, archiveHeads, outbox)
    }

    /** The transaction starts from a copy of the committed rows. */
    constructor (t: Tables)
      ensures Rows() == t
    {
      cursor, records, operations, receipts := t.core.cursor, t.core.records, t.core.operations, t.core.receipts;
      lineage, resolutions, archive, archiveHeads, outbox :=
        t.lineage, t.resolutions, t.archive, t.archiveHeads, t.outbox;
    }

    method NextCursor() returns (r: Result<nat>)
      modifies this`cursor
      ensures r.Ok? <==> old(CoreRows()).NextCursor().Ok?
      ensures if r.Ok? then r.value == cursor && CoreRows() == old(CoreRows()).NextCursor().value
              else r.error == old(CoreRows()).NextCursor().error
    {
      if cursor >= MAX_UINT64 { return Err(OutOfRange); }
      cursor := cursor + 1;
      return Ok(cursor);
    }

    method WriteLineage(l: Lineage) returns (r: Result<()>)
      modifies this`lineage
      ensures r.Ok? <==> old(Rows()).WriteLineage(l).Ok?
      ensures if r.Ok? then Rows() == old(Rows()).WriteLineage(l).value
                else r.error == old(Rows()).WriteLineage(l).error
    {
      if |l.progressDay| > MAX_PROGRESS_DAY { return Err(DataTooLong); }
      lineage := Some(l);
      return Ok(());
    }

    method IncrementLineage(updatedAtMs: nat, progressDay: string) returns (r: Result<Lineage>)
      modifies this`lineage
      ensures r.Ok? <==> old(Rows()).IncrementLineage(updatedAtMs, progressDay).Ok?
      ensures if r.Ok? then Rows() == old(Rows()).IncrementLineage(updatedAtMs, progressDay).value
                && lineage == Some(r.value)
              else r.error == old(Rows()).IncrementLineage(updatedAtMs, progressDay).error
    {
      if lineage.Some? {
        if lineage.value.version >= MAX_UINT64 { return Err(OutOfRange); }
        if |progressDay| > MAX_PROGRESS_DAY { return Err(DataTooLong); }
        lineage := Some(lineage.value.(version := lineage.value.version + 1, updatedAtMs := updatedAtMs,
                                       progressDay := progressDay));
      }
      if lineage.None? { return Err(RowNotFound); }
      return Ok(lineage.value);
    }

    method AppendOperation(change: Change) returns (r: Result<()>)
      modifies this`operations
      ensures r.Ok? <==> old(CoreRows()).AppendOperation(change).Ok?
      ensures if r.Ok? then CoreRows() == old(CoreRows()).AppendOperation(change).value
              else r.error == old(CoreRows()).AppendOperation(change).error
    {
      if change.cursor in operations || exists c :: c in operations && operations[c].opId == change.opId {
        return Err(DuplicateKey(Operations));
      }
      operations := operations[change.cursor := change];
      return Ok(());
    }

    method UpsertRecord(change: Change)
      modifies this`records
      ensures CoreRows() == old(CoreRows()).UpsertRecord(change)
    {
      records := records[change.entityKey := change];
    }

    method InsertReceipt(receipt: Receipt) returns (r: Result<()>)
      modifies this`receipts
      ensures r.Ok? <==> old(CoreRows()).InsertReceipt(receipt).Ok?
      ensures if r.Ok? then CoreRows() == old(CoreRows()).InsertReceipt(receipt).value
              else r.error == old(CoreRows()).InsertReceipt(receipt).error
    {
      if receipt.opId in receipts { return Err(DuplicateKey(Receipts)); }
      receipts := receipts[receipt.opId := receipt];
      return Ok(());
    }

    method InsertResolutionReceipt(receipt: ResolutionReceipt) returns (r: Result<()>)
      modifies this`resolutions
      ensures r.Ok? <==> old(Rows()).InsertResolution(receipt).Ok?
      ensures if r.Ok? then Rows() == old(Rows()).InsertResolution(receipt).value
              else r.error == old(Rows()).InsertResolution(receipt).error
    {
      if receipt.requestId in resolutions { return Err(DuplicateKey(Resolutions)); }
      resolutions := resolutions[receipt.requestId := receipt];
      return Ok(());
    }

    /** Five statements: receipts, operations, records and resolutions are deleted, the cursor restarts. */
    method ClearCurrentBaseline()
      modifies this`cursor, this`records, this`operations, this`receipts, this`resolutions
      ensures Rows() == old(Rows()).ClearCurrentBaseline()
    {
      receipts := map[];
      operations := map[];
      records := map[];
      resolutions := map[];
      cursor := 0;
    }

    method ArchiveChange(baselineId: string, version: nat, archivedAtMs: nat, change: Change) returns (r: Result<()>)
      modifies this`archive
      ensures r.Ok? <==> old(Rows()).ArchiveChange(baselineId, version, archivedAtMs, change).Ok?
      ensures if r.Ok? then Rows() == old(Rows()).ArchiveChange(baselineId, version, archivedAtMs, change).value
              else r.error == old(Rows()).ArchiveChange(baselineId, version, archivedAtMs, change).error
    {
      var key := ArchiveKey(baselineId, change.cursor);
      if key in archive { return Err(DuplicateKey(Archive)); }
      archive := archive[key := ArchivedChange(change, version, archivedAtMs)];
      return Ok(());
    }

    method UpsertArchiveHead(baselineId: string, headCursor: nat, version: nat, updatedAtMs: nat)
      modifies this`archiveHeads
      ensures Rows() == old(Rows()).UpsertArchiveHead(baselineId, headCursor, version, updatedAtMs)
    {
      archiveHeads := archiveHeads[baselineId := ArchiveHead(headCursor, version, updatedAtMs)];
    }

    method InsertRealtimeEvent(event: RealtimeEvent)
      modifies this`outbox
      ensures Rows() == old(Rows()).InsertEvent(event)
    {
      outbox := outbox + [event];
    }

    method ListRecords() returns (rows: seq<Change>)
      ensures rows == RecordRows(records)
    {
      rows := RecordRows(records);
    }

    method PullOperations(after: nat, limit: nat) returns (rows: seq<Change>)
      ensures rows == RowsAfter(operations, after, limit)
    {
      rows := RowsAfter(operations, after, limit);
    }

    /** What a commit writes back. */
    method Committed() returns (t: Tables)
      ensures t == Rows()
    {
      t := Tables(Core(cursor, records, operations, receipts), lineage, resolutions, archive, archiveHeads, outbox);
    }
  }

  /** The committed rows of every owner. */
  class Store {
    var owners: map<string, Tables>

    constructor ()
      ensures owners == map[]
    {
      owners := map[];
    }

    function Owner(ownerKey: string): Tables
      reads this
    {
      if ownerKey in owners then owners[ownerKey] else EMPTY
    }

    method Begin(ownerKey: string) returns (tx: Tx)
      ensures fresh(tx) && tx.Rows() == Owner(ownerKey)
    {
      tx := new Tx(Owner(ownerKey));
    }

    /** A transaction that is never committed leaves the store as it was. */
    method Commit(ownerKey: string, tx: Tx)
      modifies this
      ensures owners == old(owners)[ownerKey := tx.Rows()]
    {
      var t := tx.Committed();
      owners := owners[ownerKey := t];
    }
  }
}
