/** Pages of the log, and what an exchange response contains. */
module ExchangePages {
  import opened Prelude
  import opened SyncTypes
  import opened Validation
  import opened Progress
  import opened Tables
  import opened SyncSpec
  import opened CoreInvariant
  import opened OwnerInvariant
  import opened ResolveInvariant
  import opened Replay

  // ----- pages are slices of the log -----

  /** The rows after a cursor are the next part of the log. */
  lemma {:induction false} RowsAreSlice(core: Core, after: nat, limit: nat)
    requires Dense(core)
    ensures RowsAfter(core.operations, after, limit) ==
            Log(core)[Min(after, core.cursor)..Min(after + limit, core.cursor)]
    decreases limit
  {
    var log := Log(core);
    if limit > 0 && after < core.cursor {
      assert after + 1 in core.operations;
      var k := NextKey(core.operations.Keys, after);
      assert k == after + 1;
      RowsAreSlice(core, k, limit - 1);
      hide Dense, RowsAfter;
      HeadOfSlice(log, after, Min(after + limit, core.cursor));
    } else if limit > 0 {
      assert forall k :: k in core.operations.Keys ==> k <= after;
    }
  }

  lemma HeadOfSlice<T>(s: seq<T>, low: nat, high: nat)
    requires low < high <= |s|
    ensures s[low..high] == [s[low]] + s[low + 1..high]
  {}

  /** A page is the next limit operations, it says whether more follow, and it moves the cursor to its end. */
  lemma PageIsSlice(core: Core, cursor: nat, limit: nat)
    requires Dense(core) && limit > 0
    ensures var page := ReadPage(core, cursor, limit);
            && page.changes == Log(core)[Min(cursor, core.cursor)..Min(cursor + limit, core.cursor)]
            && (page.hasMore <==> cursor + limit < core.cursor)
            && page.NextCursor(cursor) == (if cursor >= core.cursor then cursor else Min(cursor + limit, core.cursor))
  {
    hide RowsAfter, Log, Dense;
    RowsAreSlice(core, cursor, limit + 1);
    var low, high := Min(cursor, core.cursor), Min(cursor + limit, core.cursor);
    LogAtCursor(core, low, high);
    var rows := RowsAfter(core.operations, cursor, limit + 1);
    assert |rows| == Min(cursor + limit + 1, core.cursor) - low;
    assert rows[..high - low] == Log(core)[low..high];
  }

  lemma LogAtCursor(core: Core, low: nat, high: nat)
    requires Dense(core) && low <= high <= core.cursor
    ensures forall i :: 0 <= i < high - low ==> Log(core)[low..high][i].cursor == low + i + 1
  {
    forall i | 0 <= i < high - low ensures Log(core)[low..high][i].cursor == low + i + 1 {
      assert low + i + 1 in core.operations;
    }
  }

  // ----- the exchange response -----

  lemma {:induction false} NotInPageMeaning(forced: seq<Change>, page: seq<Change>)
    ensures forall e :: e in NotInPage(forced, page) <==> e in forced && !InPage(page, e)
  {
    if forced != [] {
      NotInPageMeaning(forced[..|forced| - 1], page);
      assert forced == forced[..|forced| - 1] + [forced[|forced| - 1]];
    }
  }

  /** A forced change is the operation at its cursor. */
  lemma ForcedIsOperation(core: Core, ms: seq<Mutation>, batch: Batch, e: Change)
    requires Dense(core) && Aligned(core, ms, batch) && ForcedAreConflicts(batch) && e in batch.forcedChanges
    ensures e.cursor in core.operations && core.operations[e.cursor] == e
    ensures ForcedBy(batch, e)
  {
    var j :| 0 <= j < |batch.forcedChanges| && batch.forcedChanges[j] == e;
    assert ForcedBy(batch, batch.forcedChanges[j]);
    var i :| 0 <= i < |batch.acks| && batch.acks[i].conflict && batch.canonicalChanges[i] == e;
    assert batch.acks[i].serverCursor in core.operations;
  }

  predicate Within(c: nat, low: nat, high: nat) {
    low < c <= high
  }

  lemma InSlice(core: Core, low: nat, high: nat, e: Change)
    requires Dense(core) && low <= high <= core.cursor
    ensures InPage(Log(core)[low..high], e) ==> Within(e.cursor, low, high)
    ensures e in Log(core)[low..high] <==> Within(e.cursor, low, high) && core.operations[e.cursor] == e
    ensures e in Log(core)[low..high] ==> InPage(Log(core)[low..high], e)
  {
    var slice := Log(core)[low..high];
    if Within(e.cursor, low, high) && core.operations[e.cursor] == e {
      assert slice[e.cursor - low - 1] == e;
    }
    forall i | 0 <= i < |slice| ensures slice[i].cursor == low + i + 1 {
      assert slice[i] == core.operations[low + i + 1];
    }
  }

  lemma CountOnce<T>(s: seq<T>, k: nat)
    requires k < |s| && forall i :: 0 <= i < |s| && i != k ==> s[i] != s[k]
    ensures multiset(s)[s[k]] == 1
  {
    var before, after := s[..k], s[k + 1..];
    assert s == before + [s[k]] + after;
    assert multiset(s) == multiset(before) + multiset{s[k]} + multiset(after);
    assert s[k] !in before && s[k] !in after;
  }

  lemma SliceCount(core: Core, low: nat, high: nat, c: nat)
    requires Dense(core) && low <= high <= core.cursor && Within(c, low, high)
    ensures multiset(Log(core)[low..high])[core.operations[c]] == 1
  {
    var slice := Log(core)[low..high];
    forall i | 0 <= i < |slice| ensures slice[i] == core.operations[low + i + 1] && slice[i].cursor == low + i + 1 {}
    assert slice[c - low - 1] == core.operations[c];
    CountOnce(slice, c - low - 1);
  }

  /** The forced changes of a batch are operations of the log. */
  ghost predicate ForcedInLog(core: Core, forced: seq<Change>) {
    forall e :: e in forced ==> e.cursor in core.operations && core.operations[e.cursor] == e
  }

  /** Every operation in the range exactly once, and outside the range only forced changes. */
  ghost predicate CoversOnce(core: Core, changes: seq<Change>, forced: seq<Change>, low: nat, high: nat) {
    && (forall c :: Within(c, low, high) ==> c in core.operations && multiset(changes)[core.operations[c]] == 1)
    && (forall e :: e in changes ==> e.cursor in core.operations && core.operations[e.cursor] == e)
    && (forall e :: e in changes && !Within(e.cursor, low, high) ==> e in forced)
    && (forall e :: e in forced ==> e in changes)
  }

  lemma MergedCoversOnce(core: Core, low: nat, high: nat, forced: seq<Change>, changes: seq<Change>)
    requires Dense(core) && low <= high <= core.cursor && ForcedInLog(core, forced)
    requires var page := Log(core)[low..high];
             multiset(changes) == multiset(page) + multiset(NotInPage(forced, page))
    ensures CoversOnce(core, changes, forced, low, high)
  {
    var page := Log(core)[low..high];
    var extra := NotInPage(forced, page);
    hide NotInPage, Log, InPage, Dense;
    NotInPageMeaning(forced, page);
    forall e ensures e in changes <==> e in page || e in extra {
      assert e in multiset(changes) <==> e in multiset(page) || e in multiset(extra);
    }
    forall c | Within(c, low, high) ensures c in core.operations && multiset(changes)[core.operations[c]] == 1 {
      InSliceAt(core, low, high, c);
      SliceCount(core, low, high, c);
      assert core.operations[c] !in extra;
      assert multiset(extra)[core.operations[c]] == 0;
    }
    PageEntries(core, low, high);
  }

  lemma PageEntries(core: Core, low: nat, high: nat)
    requires Dense(core) && low <= high <= core.cursor
    ensures forall e :: e in Log(core)[low..high] ==>
              Within(e.cursor, low, high) && e.cursor in core.operations && core.operations[e.cursor] == e
    ensures forall e :: InPage(Log(core)[low..high], e) && e.cursor in core.operations && core.operations[e.cursor] == e
                        ==> e in Log(core)[low..high]
  {
    forall e
      ensures e in Log(core)[low..high] ==>
                Within(e.cursor, low, high) && e.cursor in core.operations && core.operations[e.cursor] == e
      ensures InPage(Log(core)[low..high], e) && e.cursor in core.operations && core.operations[e.cursor] == e
              ==> e in Log(core)[low..high]
    {
      InSlice(core, low, high, e);
    }
  }

  lemma InSliceAt(core: Core, low: nat, high: nat, c: nat)
    requires Dense(core) && low <= high <= core.cursor && Within(c, low, high)
    ensures c in core.operations && InPage(Log(core)[low..high], core.operations[c])
  {
    InSlice(core, low, high, core.operations[c]);
  }

  /**
   * An exchange response is sorted by cursor. It holds every operation in (cursor, next] exactly once, and
   * every other entry is the canonical record of a conflict of this batch that lies outside that range. It
   * says truthfully whether more follows, and it advances whenever there is something to read.
   */
  lemma ExchangeResponseMeaning(t: Tables, ms: seq<Mutation>, batch: Batch, request: SyncRequest)
    requires t.lineage.Some? && Dense(t.core) && Aligned(t.core, ms, batch) && ForcedAreConflicts(batch)
    ensures var r := ExchangeResponse(t, batch, request);
            && ByCursor(r.changes)
            && CoversOnce(t.core, r.changes, batch.forcedChanges, request.cursor, r.nextCursor)
            && (forall e :: e in batch.forcedChanges ==> ForcedBy(batch, e))
            && r.resetRequired == (request.cursor > t.core.cursor)
            && (request.cursor <= t.core.cursor ==>
                  && request.cursor <= r.nextCursor <= t.core.cursor
                  && (r.hasMore <==> r.nextCursor < t.core.cursor)
                  && (request.cursor < t.core.cursor ==> request.cursor < r.nextCursor))
            && (request.cursor > t.core.cursor ==> r.nextCursor == request.cursor && !r.hasMore)
  {
    hide ForcedBy, ReadPage, NotInPage, SortByCursor, Aligned, Log, InPage, Dense, ForcedAreConflicts;
    var r := ExchangeResponse(t, batch, request);
    var limit := NormalizedPullLimit(request.pullLimit);
    PageIsSlice(t.core, request.cursor, limit);
    var low, high := Min(request.cursor, t.core.cursor), Min(request.cursor + limit, t.core.cursor);
    forall e | e in batch.forcedChanges
      ensures e.cursor in t.core.operations && t.core.operations[e.cursor] == e && ForcedBy(batch, e)
    {
      ForcedIsOperation(t.core, ms, batch, e);
    }
    var page := ReadPage(t.core, request.cursor, limit).changes;
    MergedMultiset(page, NotInPage(batch.forcedChanges, page));
    MergedCoversOnce(t.core, low, high, batch.forcedChanges, r.changes);
  }

  lemma MergedMultiset(page: seq<Change>, extra: seq<Change>)
    ensures multiset(SortByCursor(page + extra)) == multiset(page) + multiset(extra)
  {}

  /** A change the response repeats because some ack of the response reports a conflict with it. */
  ghost predicate Conflicting(acks: seq<MutationAck>, e: Change) {
    exists i :: 0 <= i < |acks| && acks[i].conflict && acks[i].serverCursor == e.cursor
  }

  lemma ForcedConflicts(core: Core, ms: seq<Mutation>, batch: Batch, e: Change)
    requires Dense(core) && Aligned(core, ms, batch) && ForcedBy(batch, e)
    ensures Conflicting(batch.acks, e)
  {
    var i :| 0 <= i < |batch.acks| && batch.acks[i].conflict && batch.canonicalChanges[i] == e;
    assert batch.acks[i].serverCursor == e.cursor;
  }

  /** The same for the reply of a committed exchange, in terms of the reply and the tables it leaves alone. */
  lemma ExchangeCovers(codec: Codec, env: Env, meta: Metadata, o: Owner, request: SyncRequest)
    requires env.codec == codec && Inv(codec, o) && Exchange(env, meta, o.tables, request).Ok?
    requires !Exchange(env, meta, o.tables, request).value.1.response.baselineMismatch
    ensures var (after, reply) := Exchange(env, meta, o.tables, request).value;
            var r := reply.response;
            && ByCursor(r.changes)
            && (forall c :: Within(c, request.cursor, r.nextCursor) ==>
                  c in after.core.operations && multiset(r.changes)[after.core.operations[c]] == 1)
            && (forall e :: e in r.changes && !Within(e.cursor, request.cursor, r.nextCursor) ==>
                  && e.cursor in after.core.operations && after.core.operations[e.cursor] == e
                  && Conflicting(r.acks, e))
            && r.resetRequired == (request.cursor > after.core.cursor)
            && (request.cursor <= after.core.cursor ==>
                  && request.cursor <= r.nextCursor <= after.core.cursor
                  && (r.hasMore <==> r.nextCursor < after.core.cursor)
                  && (request.cursor < after.core.cursor ==> request.cursor < r.nextCursor))
            && (request.cursor > after.core.cursor ==> r.nextCursor == request.cursor && !r.hasMore)
  {
    hide ValidateExchange, Inv, Mutate, ExchangeResponse, IsDeviceId, IsBaselineId, EnsureLineage, Dense, Aligned,
         ByCursor, ForcedAreConflicts, Grows, ForcedBy, Conflicting;
    ValidRequests(meta.ownerKey);
    EnsureLineageKeepsInv(codec, env, o, request.baselineId);
    var ensured := EnsureLineage(env, o.tables, request.baselineId).value;
    MutateForced(codec, env, meta.originConnectionId, o.(tables := ensured), request.mutations, request.deviceId);
    var (done, batch) := Mutate(env, meta.originConnectionId, ensured, request.mutations, request.deviceId).value;
    ExchangeResponseMeaning(done, request.mutations, batch, request);
    ResponseAcks(done, batch, request);
    forall e | e in batch.forcedChanges ensures Conflicting(batch.acks, e) {
      ForcedConflicts(done.core, request.mutations, batch, e);
    }
  }

  lemma ResponseAcks(t: Tables, batch: Batch, request: SyncRequest)
    requires t.lineage.Some?
    ensures ExchangeResponse(t, batch, request).acks == batch.acks
  {}

  lemma MutateForced(codec: Codec, env: Env, origin: string, o: Owner, ms: seq<Mutation>, deviceId: string)
    requires env.codec == codec && IsDeviceId(deviceId) && Inv(codec, o) && o.tables.lineage.Some?
    requires Mutate(env, origin, o.tables, ms, deviceId).Ok?
    ensures var (after, batch) := Mutate(env, origin, o.tables, ms, deviceId).value;
            after.lineage.Some? && Dense(after.core) && Aligned(after.core, ms, batch) && ForcedAreConflicts(batch)
  {
    hide ApplyMutations, Aligned, Grows, Dense, UniqueOpIds, RecordsViewLog, ReceiptsMatchLog, LogWithinLimits,
         ArchivesAppended, ForcedAreConflicts, Mutate;
    MutateParts(env, origin, o.tables, ms, deviceId);
    ApplyMutationsKeepsInv(o.tables.core, ms, deviceId, env.now, o.snapshotLen);
  }

  /** The pages read one after the other from a cursor, until none says that more follows. */
  function Drain(core: Core, cursor: nat, limit: nat): seq<Change>
    requires limit > 0 && Dense(core)
    decreases Max(core.cursor - cursor, 0)
  {
    var page := ReadPage(core, cursor, limit);
    PageIsSlice(core, cursor, limit);
    if page.hasMore then page.changes + Drain(core, page.NextCursor(cursor), limit) else page.changes
  }

  /** Iterating on the next cursor, at any page limit, reads the rest of the log without gap or repeat. */
  lemma {:induction false} DrainReadsTheRest(core: Core, cursor: nat, limit: nat)
    requires limit > 0 && Dense(core) && cursor <= core.cursor
    ensures Drain(core, cursor, limit) == Log(core)[cursor..]
    decreases core.cursor - cursor
  {
    PageIsSlice(core, cursor, limit);
    var page := ReadPage(core, cursor, limit);
    var log := Log(core);
    if page.hasMore {
      DrainReadsTheRest(core, page.NextCursor(cursor), limit);
      Cut(log, cursor, cursor + limit);
    } else {
      Cut(log, cursor, core.cursor);
    }
  }

  /** Page k read from cores[k], other commits landing in between, until none says that more follows. */
  function DrainAcross(cores: seq<Core>, cursor: nat, limit: nat): (drained: (seq<Change>, nat))
    requires limit > 0
  {
    if cores == [] then ([], cursor)
    else
      var page := ReadPage(cores[0], cursor, limit);
      var next := page.NextCursor(cursor);
      if !page.hasMore then (page.changes, next)
      else
        var (rest, end) := DrainAcross(cores[1..], next, limit);
        (page.changes + rest, end)
  }

  /** The states of one baseline while its log grows. */
  ghost predicate Growing(cores: seq<Core>) {
    && (forall i :: 0 <= i < |cores| ==> Dense(cores[i]))
    && (forall i, j :: 0 <= i <= j < |cores| ==> Grows(cores[i], cores[j]))
  }

  ghost predicate ReachedHead(cores: seq<Core>, end: nat) {
    exists i :: 0 <= i < |cores| && end == cores[i].cursor
  }

  /**
   * While commits land between the pages of a drain, it still reads the log of the last state from the cursor
   * on without gap or repeat, up to the head of one of the states or as many full pages as there were reads.
   */
  lemma {:induction false} DrainKeepsUp(cores: seq<Core>, last: Core, cursor: nat, limit: nat)
    requires limit > 0 && Growing(cores + [last]) && cursor <= (cores + [last])[0].cursor
    ensures var (changes, end) := DrainAcross(cores, cursor, limit);
            && cursor <= end <= last.cursor
            && Dense(last) && changes == Log(last)[cursor..end]
            && (ReachedHead(cores, end) || end == cursor + limit * |cores|)
    decreases |cores|
  {
    assert (cores + [last])[|cores|] == last;
    if cores == [] {
      assert Log(last)[cursor..cursor] == [];
    } else {
      var first, rest := cores[0], cores[1..];
      assert (cores + [last])[0] == first && (cores + [last])[1..] == rest + [last];
      assert Grows(first, last) && Dense(first) && Dense(last);
      PageIsSlice(first, cursor, limit);
      var page := ReadPage(first, cursor, limit);
      var next := page.NextCursor(cursor);
      LogPrefix(first, last);
      hide Grows, Dense, Log, ReadPage;
      PageOfPrefix(Log(first), Log(last), cursor, next);
      if page.hasMore {
        GrowingRest(cores, last);
        DrainKeepsUp(rest, last, next, limit);
        JoinedCuts(Log(last), cursor, next, DrainAcross(rest, next, limit).1);
        HeadOfRest(cores, DrainAcross(rest, next, limit).1);
        Distributes(limit, |cores|);
      } else {
        assert ReachedHead(cores, next);
      }
    }
  }

  lemma Distributes(limit: nat, n: nat)
    requires n > 0
    ensures limit * n == limit + limit * (n - 1)
  {}

  lemma HeadOfRest(cores: seq<Core>, end: nat)
    requires cores != []
    ensures ReachedHead(cores[1..], end) ==> ReachedHead(cores, end)
  {
    if ReachedHead(cores[1..], end) {
      var i :| 0 <= i < |cores[1..]| && end == cores[1..][i].cursor;
      assert end == cores[i + 1].cursor;
    }
  }

  lemma GrowingRest(cores: seq<Core>, last: Core)
    requires cores != [] && Growing(cores + [last])
    ensures Growing(cores[1..] + [last])
    ensures cores[0].cursor <= (cores[1..] + [last])[0].cursor
  {
    var all, rest := cores + [last], cores[1..] + [last];
    assert forall i :: 0 <= i < |rest| ==> rest[i] == all[i + 1];
    assert Grows(all[0], all[1]);
    hide Dense;
  }

  lemma LogPrefix(a: Core, b: Core)
    requires Dense(a) && Dense(b) && Grows(a, b)
    ensures Log(a) <= Log(b) && a.cursor <= b.cursor
  {}

  lemma PageOfPrefix<T>(own: seq<T>, log: seq<T>, low: nat, high: nat)
    requires own <= log && low <= high <= |own|
    ensures own[low..high] == log[low..high]
  {}

  lemma JoinedCuts<T>(s: seq<T>, low: nat, mid: nat, high: nat)
    requires low <= mid <= high <= |s|
    ensures s[low..mid] + s[mid..high] == s[low..high]
  {}

  lemma Cut<T>(s: seq<T>, i: nat, j: nat)
    requires i <= j <= |s|
    ensures s[i..] == s[i..j] + s[j..]
  {}
}
