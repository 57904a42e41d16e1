/** One owner's rows and, as functions on values, the statements that read and write them. */
module Tables {
  import opened Prelude
  import opened Ordering
  import opened SyncTypes

  const MAX_PROGRESS_DAY := 64

  lemma {:induction false} NextKeyExists(keys: set<nat>, after: nat) returns (k: nat)
    requires exists j :: j in keys && j > after
    ensures k in keys && k > after && forall j :: j in keys && j > after ==> k <= j
    decreases keys
  {
    k :| k in keys && k > after;
    var first, rest := k, keys - {k};
    assert forall j :: j in keys ==> j == first || j in rest;
    if exists j :: j in rest && j > after {
      var other := NextKeyExists(rest, after);
      if other < k { k := other; }
    }
  }

  function NextKey(keys: set<nat>, after: nat): (k: nat)
    requires exists j :: j in keys && j > after
    ensures k in keys && k > after && forall j :: j in keys && j > after ==> k <= j
  {
    assert exists k :: k in keys && k > after && forall j :: j in keys && j > after ==> k <= j by {
      var k := NextKeyExists(keys, after);
    }
    var k :| k in keys && k > after && forall j :: j in keys && j > after ==> k <= j;
    k
  }

  /** SELECT … WHERE `cursor` > after ORDER BY `cursor` ASC LIMIT limit */
  function RowsAfter(operations: map<nat, Change>, after: nat, limit: nat): (rows: seq<Change>)
    ensures |rows| <= limit
    decreases limit
  {
    if limit == 0 || forall k :: k in operations.Keys ==> k <= after then []
    else
      var k := NextKey(operations.Keys, after);
      [operations[k]] + RowsAfter(operations, k, limit - 1)
  }

  /** SELECT … FROM sync_records ORDER BY entity_key ASC */
  function RecordRows(records: map<string, Change>): (rows: seq<Change>)
    ensures |rows| == |records|
  {
    var keys := SortedKeys(records.Keys);
    seq(|keys|, i requires 0 <= i < |keys| => assert keys[i] in keys; records[keys[i]])
  }

  /** The rows that mutations read and write. */
  datatype Core = Core(
    cursor: nat,
    records: map<string, Change>,
    operations: map<nat, Change>,
    receipts: map<string, Receipt>)
  {
    function NextCursor(): Result<Core> {
      if cursor >= MAX_UINT64 then Err(OutOfRange) else Ok(this.(cursor := cursor + 1))
    }

    predicate HasOpId(opId: string) {
      exists c :: c in operations && operations[c].opId == opId
    }

    function AppendOperation(change: Change): Result<Core> {
      if change.cursor in operations || HasOpId(change.opId) then Err(DuplicateKey(Operations))
      else Ok(this.(operations := operations[change.cursor := change]))
    }

    function UpsertRecord(change: Change): Core {
      this.(records := records[change.entityKey := change])
    }

    function InsertReceipt(receipt: Receipt): Result<Core> {
      if receipt.opId in receipts then Err(DuplicateKey(Receipts))
      else Ok(this.(receipts := receipts[receipt.opId := receipt]))
    }
  }

  const EMPTY_CORE := Core(0, map[], map[], map[])

  datatype Tables = Tables(
    core: Core,
    lineage: Option<Lineage>,
    resolutions: map<string, ResolutionReceipt>,
    archive: map<ArchiveKey, ArchivedChange>,
    archiveHeads: map<string, ArchiveHead>,
    outbox: seq<RealtimeEvent>)
  {
    function WriteLineage(l: Lineage): Result<Tables> {
      if |l.progressDay| > MAX_PROGRESS_DAY then Err(DataTooLong) else Ok(this.(lineage := Some(l)))
    }

    /** Without a lineage no row is updated and the read that follows finds nothing. */
    function IncrementLineage(updatedAtMs: nat, progressDay: string): Result<Tables> {
      if lineage.None? then Err(RowNotFound)
      else if lineage.value.version >= MAX_UINT64 then Err(OutOfRange)
      else if |progressDay| > MAX_PROGRESS_DAY then Err(DataTooLong)
      else
        var l := lineage.value;
        Ok(this.(lineage := Some(Lineage(l.baselineId, l.version + 1, updatedAtMs, progressDay))))
    }

    function InsertResolution(receipt: ResolutionReceipt): Result<Tables> {
      if receipt.requestId in resolutions then Err(DuplicateKey(Resolutions))
      else Ok(this.(resolutions := resolutions[receipt.requestId := receipt]))
    }

    function ArchiveChange(baselineId: string, version: nat, archivedAtMs: nat, change: Change): Result<Tables> {
      var key := ArchiveKey(baselineId, change.cursor);
      if key in archive then Err(DuplicateKey(Archive))
      else Ok(this.(archive := archive[key := ArchivedChange(change, version, archivedAtMs)]))
    }

    function UpsertArchiveHead(baselineId: string, cursor: nat, version: nat, updatedAtMs: nat): Tables {
      this.(archiveHeads := archiveHeads[baselineId := ArchiveHead(cursor, version, updatedAtMs)])
    }

    function InsertEvent(event: RealtimeEvent): Tables {
      this.(outbox := outbox + [event])
    }

    function ClearCurrentBaseline(): Tables {
      this.(core := EMPTY_CORE, resolutions := map[])
    }
  }

  /** An owner without rows. */
  const EMPTY := Tables(EMPTY_CORE, None, map[], map[], map[], [])
}
