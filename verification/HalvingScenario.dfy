/** A batch for which halving never succeeds: it creates a record whose key does not decode and deletes it again. */
module HalvingScenario {
  import opened Prelude
  import opened Ordering
  import opened SyncTypes
  import opened Validation
  import opened Progress
  import opened ProgressLaws
  import opened Tables
  import opened Wire
  import opened SyncSpec
  import opened CoreInvariant
  import opened ArchiveInvariant
  import opened OwnerInvariant
  import opened ResolveInvariant
  import opened History
  import opened Replay
  import opened CommandOutcomes
  import opened WireBounds
  import opened Halving
  import opened Resolutions
  import opened Scenarios

  const BAD_SEGMENT := "%zz"
  const BAD_KEY := ENTITY_PREFIX + BAD_SEGMENT

  function OpId(c: char): string {
    Repeated(c, 8)
  }

  /** A mutation with a value of the given size. */
  function Op(c: char, key: string, base: nat, deleted: bool, size: nat): Mutation {
    Mutation(OpId(c), key, base, 0, Repeated(0, size), deleted, DEVICE, 0)
  }

  /** The only large value: a single mutation of the maximal size. */
  function First(): Mutation {
    Op('a', KEY, 0, true, MAX_VALUE_JSON_BYTES)
  }

  function Live(): Mutation {
    Op('b', BAD_KEY, 0, false, 0)
  }

  /** Four small mutations of KEY whose client has not seen the first one. */
  function Late(i: nat): Mutation
    requires i < 4
  {
    Op('c' + i as char, KEY, 0, true, 0)
  }

  function Lates(n: nat): (ms: seq<Mutation>)
    requires n <= 4
    ensures |ms| == n
  {
    seq(n, i requires 0 <= i < n => Late(i))
  }

  function Dead(): Mutation {
    Op('g', BAD_KEY, 2, true, 0)
  }

  function Request(ms: seq<Mutation>): DiffRequest {
    DiffRequest(DEVICE, ms, FIRST_ID, 0, 0)
  }

  /** Creates a record with a bad key, conflicts four times, and deletes the record. */
  function Doomed(): (ms: seq<Mutation>)
    ensures |ms| == 6
  {
    [Live()] + Lates(4) + [Dead()]
  }

  // ----- validity -----

  predicate IsOp(m: Mutation, c: char, key: string, base: nat, deleted: bool, size: nat) {
    && m == Op(c, key, base, deleted, size)
    && 'a' <= c <= 'g' && key in {KEY, BAD_KEY} && base <= 2 && size <= MAX_VALUE_JSON_BYTES
  }

  ghost predicate Ours(m: Mutation) {
    exists c, key, base, deleted :: IsOp(m, c, key, base, deleted, |m.valueJson|)
  }

  lemma OursIsValid(m: Mutation)
    requires Ours(m)
    ensures ValidateMutation(m, DEVICE).Pass? && SafeNumbers(m) && m.clientTimeMs == 0
  {
    GoodIds();
    var c, key, base, deleted :| IsOp(m, c, key, base, deleted, |m.valueJson|);
    assert IsDeviceId(OpId(c));
    hide IsDeviceId, Utf16Length;
    Utf16AtMostDouble(key);
  }

  lemma AllOurs(m: Mutation)
    requires m in Doomed() || m == First()
    ensures Ours(m)
  {
    hide Repeated;
    if m == First() {
      assert IsOp(m, 'a', KEY, 0, true, |m.valueJson|);
    } else if m == Live() {
      assert IsOp(m, 'b', BAD_KEY, 0, false, |m.valueJson|);
    } else if m == Dead() {
      assert IsOp(m, 'g', BAD_KEY, 2, true, |m.valueJson|);
    } else {
      assert m in Lates(4);
      var i :| 0 <= i < 4 && Lates(4)[i] == m;
      assert IsOp(m, 'c' + i as char, KEY, 0, true, |m.valueJson|);
    }
  }

  lemma RequestIsValid(ms: seq<Mutation>)
    requires |ms| <= 6 && forall i :: 0 <= i < |ms| ==> Ours(ms[i])
    ensures ValidateDiff(META.ownerKey, Request(ms)).Pass?
  {
    GoodIds();
    hide IsOwnerKey, IsDeviceId, IsBaselineId, Ours, ValidateMutation;
    forall i | 0 <= i < |ms| ensures SafeNumbers(ms[i]) { OursIsValid(ms[i]); }
  }

  // ----- the keys -----

  lemma BadKeySegments()
    ensures Split(BAD_KEY) == ["stella", "v1", BAD_SEGMENT]
  {
    assert BAD_KEY == "stella" + "/" + ("v1" + "/" + BAD_SEGMENT);
    SplitOnce("stella", "v1" + "/" + BAD_SEGMENT);
    SplitOnce("v1", BAD_SEGMENT);
    SplitNone(BAD_SEGMENT);
  }

  lemma LiveDoesNotDecode(codec: Codec, record: Change)
    requires codec.unescape(BAD_SEGMENT).None?
    requires record.entityKey == BAD_KEY && !record.deleted
    ensures RecordDate(codec, record).Err?
  {
    BadKeySegments();
    assert Split(BAD_KEY)[2..] == [BAD_SEGMENT];
    hide Split, MeaningfulDayRecord, ObjectString;
  }

  /** Each record is among the rows. */
  lemma RowOf(records: map<string, Change>, key: string) returns (i: nat)
    requires key in records
    ensures i < |RecordRows(records)| && RecordRows(records)[i] == records[key]
  {
    var keys := SortedKeys(records.Keys);
    assert key in keys;
    i :| 0 <= i < |keys| && keys[i] == key;
  }

  lemma LiveHasNoDay(codec: Codec, records: map<string, Change>)
    requires codec.unescape(BAD_SEGMENT).None?
    requires BAD_KEY in records && records[BAD_KEY].entityKey == BAD_KEY && !records[BAD_KEY].deleted
    ensures ProgressDay(codec, RecordRows(records)) == Err(BadPercentEncoding)
  {
    var i := RowOf(records, BAD_KEY);
    hide RecordRows, ProgressDay, RecordDate;
    LiveDoesNotDecode(codec, records[BAD_KEY]);
    ProgressDayMeaning(codec, RecordRows(records));
    ProgressErrors(codec, RecordRows(records));
  }

  lemma RowIsRecord(records: map<string, Change>, i: nat)
    requires i < |RecordRows(records)|
    ensures exists key :: key in records && records[key] == RecordRows(records)[i]
  {
    var keys := SortedKeys(records.Keys);
    assert keys[i] in keys;
  }

  lemma TombstonesFit(codec: Codec, records: map<string, Change>)
    requires forall key :: key in records ==> records[key].deleted
    ensures DayFits(codec, records) && ProgressDay(codec, RecordRows(records)) == Ok(CAMPAIGN_START)
  {
    var rows := RecordRows(records);
    forall i | 0 <= i < |rows| ensures rows[i].deleted { RowIsRecord(records, i); }
    hide RecordRows, ProgressDay;
    forall i | 0 <= i < |rows| ensures RecordDate(codec, rows[i]) == Ok(None) { TombstoneDate(codec, rows[i]); }
    hide RecordDate;
    ProgressDayMeaning(codec, rows);
  }

  lemma TombstoneDate(codec: Codec, record: Change)
    requires record.deleted
    ensures RecordDate(codec, record) == Ok(None)
  {}

  // ----- the batch, step by step -----

  /** The rows after the first commit: one tombstone of KEY with a full value. */
  ghost predicate Start(core: Core, x: Change) {
    && core.cursor == 1 && core.operations == map[1 := x] && core.records == map[KEY := x]
    && core.receipts.Keys == {OpId('a')}
    && x.deleted && x.cursor == 1 && x.opId == OpId('a') && |x.valueJson| == MAX_VALUE_JSON_BYTES
  }

  /** After Live and n conflicts: Live is a record, and nothing else has changed but the receipts. */
  ghost predicate Midway(core: Core, batch: Batch, x: Change, live: Change, n: nat)
    requires n <= 4
  {
    && core.cursor == 2 && core.operations == map[1 := x, 2 := live] && core.records == map[KEY := x, BAD_KEY := live]
    && x.cursor == 1 && x.deleted && x.opId == OpId('a') && |x.valueJson| == MAX_VALUE_JSON_BYTES
    && live.cursor == 2 && live.opId == OpId('b') && live.entityKey == BAD_KEY && !live.deleted && live.valueJson == []
    && (forall c :: 'c' + n as char <= c <= 'g' ==> OpId(c) !in core.receipts)
    && batch.appliedCount == 1 && FullCount(batch.canonicalChanges) == n
  }

  lemma FullOneMore(changes: seq<Change>, c: Change)
    ensures FullCount(changes + [c]) == FullCount(changes) + if |c.valueJson| == MAX_VALUE_JSON_BYTES then 1 else 0
  {
    assert (changes + [c])[..|changes|] == changes;
  }

  lemma OpIdsDiffer(c: char, d: char)
    requires c != d
    ensures OpId(c) != OpId(d)
  {
    assert OpId(c)[0] == c && OpId(d)[0] == d;
  }

  /** The rows and the batch after a mutation of ours that neither conflicts nor meets its op_id. */
  lemma AcceptedOurs(core: Core, batch: Batch, m: Mutation, now: Uint64)
    requires Dense(core) && core.cursor < MAX_UINT64 && Ours(m) && m.opId !in core.receipts
    requires !Conflicts(core, m) && !core.HasOpId(m.opId)
    ensures var change := MutationChange(m, core.cursor + 1, ClampClientTime(0, now));
            var r := ApplyMutation(core, batch, m, DEVICE, now);
            && r.Ok?
            && r.value.0.cursor == core.cursor + 1
            && r.value.0.operations == core.operations[core.cursor + 1 := change]
            && r.value.0.records == core.records[m.entityKey := change]
            && r.value.0.receipts.Keys == core.receipts.Keys + {m.opId}
            && r.value.1.appliedCount == batch.appliedCount + 1
            && r.value.1.canonicalChanges == batch.canonicalChanges + [change]
  {
    OursIsValid(m);
    hide ValidateMutation, Ours, ClampClientTime, Dense, ApplyMutation;
    FreshIsAccepted(core, batch, m, DEVICE, now);
  }

  lemma LiveIsAccepted(core: Core, x: Change, now: Uint64)
    requires Start(core, x)
    ensures var r := ApplyMutation(core, EMPTY_BATCH, Live(), DEVICE, now);
            r.Ok? && Midway(r.value.0, r.value.1, x, MutationChange(Live(), 2, ClampClientTime(0, now)), 0)
  {
    AllOurs(Live());
    StartTakesLive(core, x);
    hide ApplyMutation, Ours, Repeated, OpId, ClampClientTime, Dense, Conflicts, Start, Midway, Op;
    AcceptedOurs(core, EMPTY_BATCH, Live(), now);
    var (after, batch) := ApplyMutation(core, EMPTY_BATCH, Live(), DEVICE, now).value;
    LiveIsMidway(core, x, after, batch, MutationChange(Live(), 2, ClampClientTime(0, now)));
  }

  lemma LiveIsMidway(core: Core, x: Change, after: Core, batch: Batch, live: Change)
    requires Start(core, x) && live == MutationChange(Live(), 2, live.clientTimeMs)
    requires after.cursor == core.cursor + 1 && after.operations == core.operations[core.cursor + 1 := live]
    requires after.records == core.records[Live().entityKey := live]
    requires after.receipts.Keys == core.receipts.Keys + {Live().opId}
    requires batch.appliedCount == 1 && batch.canonicalChanges == [] + [live]
    ensures Midway(after, batch, x, live, 0)
  {
    FullOneMore([], live);
    hide Repeated, OpId;
    forall c | 'c' <= c <= 'g' ensures OpId(c) !in after.receipts {
      OpIdsDiffer(c, 'a');
      OpIdsDiffer(c, 'b');
    }
  }

  lemma StartTakesLive(core: Core, x: Change)
    requires Start(core, x)
    ensures Dense(core) && Live().opId !in core.receipts && !Conflicts(core, Live()) && !core.HasOpId(Live().opId)
  {
    hide Repeated, OpId;
    OpIdsDiffer('b', 'a');
    KeysDiffer();
  }

  lemma KeysDiffer()
    ensures KEY != BAD_KEY
  {
    assert KEY[10] == 'x' && BAD_KEY[10] == '%';
  }

  /** A late mutation is answered with the record of KEY and leaves only a receipt. */
  lemma LateConflicts(core: Core, batch: Batch, x: Change, n: nat, now: Uint64)
    requires n < 4 && KEY in core.records && core.records[KEY] == x && x.cursor == 1
    requires Late(n).opId !in core.receipts
    ensures var r := ApplyMutation(core, batch, Late(n), DEVICE, now);
            && r.Ok?
            && r.value.0 == core.(receipts := r.value.0.receipts)
            && r.value.0.receipts.Keys == core.receipts.Keys + {Late(n).opId}
            && r.value.1.appliedCount == batch.appliedCount
            && r.value.1.canonicalChanges == batch.canonicalChanges + [x]
  {
    LateIsOurs(n);
    OursIsValid(Late(n));
    hide ValidateMutation, Ours, Repeated, OpId;
  }

  lemma LateIsRejected(core: Core, batch: Batch, x: Change, live: Change, n: nat, now: Uint64)
    requires n < 4 && Midway(core, batch, x, live, n)
    ensures var r := ApplyMutation(core, batch, Late(n), DEVICE, now);
            r.Ok? && Midway(r.value.0, r.value.1, x, live, n + 1)
  {
    KeysDiffer();
    LateConflicts(core, batch, x, n, now);
    FullOneMore(batch.canonicalChanges, x);
    hide ApplyMutation, FullCount, Repeated, OpId;
    var c := 'c' + n as char;
    forall d | c < d <= 'g' ensures OpId(d) != OpId(c) { OpIdsDiffer(d, c); }
  }

  lemma LateIsOurs(n: nat)
    requires n < 4
    ensures Ours(Late(n))
  {
    hide Repeated;
    assert IsOp(Late(n), 'c' + n as char, KEY, 0, true, |Late(n).valueJson|);
  }

  /** What every proper prefix leaves: a record whose key does not decode. */
  lemma {:induction false} PrefixIsMidway(core: Core, x: Change, n: nat, now: Uint64)
    requires Start(core, x) && n <= 4
    ensures var r := ApplyMutations(core, [Live()] + Lates(n), DEVICE, now);
            r.Ok? && Midway(r.value.0, r.value.1, x, MutationChange(Live(), 2, ClampClientTime(0, now)), n)
  {
    hide ApplyMutation, Midway, Live, Late;
    var ms := [Live()] + Lates(n);
    if n == 0 {
      LiveIsAccepted(core, x, now);
      assert ms == [Live()] && ms[..0] == [];
      assert ApplyMutations(core, ms[..0], DEVICE, now) == Ok((core, EMPTY_BATCH));
    } else {
      PrefixIsMidway(core, x, n - 1, now);
      assert ms[..n] == [Live()] + Lates(n - 1) && ms[n] == Late(n - 1);
      var (mid, batch) := ApplyMutations(core, ms[..n], DEVICE, now).value;
      LateIsRejected(mid, batch, x, MutationChange(Live(), 2, ClampClientTime(0, now)), n - 1, now);
    }
  }

  /** The whole batch leaves tombstones only, and four full canonical changes. */
  ghost predicate Finished(core: Core, batch: Batch) {
    && batch.appliedCount == 2 && FullCount(batch.canonicalChanges) == 4
    && forall key :: key in core.records ==> core.records[key].deleted
  }

  lemma DeadIsAccepted(core: Core, batch: Batch, x: Change, live: Change, now: Uint64)
    requires Midway(core, batch, x, live, 4)
    ensures var r := ApplyMutation(core, batch, Dead(), DEVICE, now);
            r.Ok? && Finished(r.value.0, r.value.1)
  {
    AllOurs(Dead());
    MidwayTakesDead(core, batch, x, live);
    hide ApplyMutation, Ours, Repeated, OpId, ClampClientTime, FullCount, Dense, Conflicts, Midway, Op, Finished;
    AcceptedOurs(core, batch, Dead(), now);
    var (after, done) := ApplyMutation(core, batch, Dead(), DEVICE, now).value;
    DeadFinishes(core, batch, after, done, MutationChange(Dead(), 3, ClampClientTime(0, now)));
  }

  lemma DeadFinishes(core: Core, batch: Batch, after: Core, done: Batch, dead: Change)
    requires dead == MutationChange(Dead(), 3, dead.clientTimeMs)
    requires after.records == core.records[Dead().entityKey := dead]
    requires done.appliedCount == batch.appliedCount + 1 && done.canonicalChanges == batch.canonicalChanges + [dead]
    requires batch.appliedCount == 1 && FullCount(batch.canonicalChanges) == 4
    requires forall key :: key in core.records ==> key == BAD_KEY || core.records[key].deleted
    ensures Finished(after, done)
  {
    FullOneMore(batch.canonicalChanges, dead);
    hide FullCount, OpId;
  }

  lemma MidwayTakesDead(core: Core, batch: Batch, x: Change, live: Change)
    requires Midway(core, batch, x, live, 4)
    ensures Dense(core) && core.cursor == 2 && Dead().opId !in core.receipts
    ensures !Conflicts(core, Dead()) && !core.HasOpId(Dead().opId)
    ensures batch.appliedCount == 1 && FullCount(batch.canonicalChanges) == 4
    ensures forall key :: key in core.records ==> key == BAD_KEY || core.records[key].deleted
  {
    hide Repeated, OpId, FullCount;
    KeysDiffer();
    OpIdsDiffer('g', 'a');
    OpIdsDiffer('g', 'b');
    assert 'c' + 4 as char <= 'g';
  }

  lemma DoomedFinishes(core: Core, x: Change, now: Uint64)
    requires Start(core, x)
    ensures var r := ApplyMutations(core, Doomed(), DEVICE, now);
            r.Ok? && Finished(r.value.0, r.value.1)
  {
    PrefixIsMidway(core, x, 4, now);
    var ms := Doomed();
    assert ms[..5] == [Live()] + Lates(4) && ms[5] == Dead();
    hide ApplyMutation, Midway, Finished, Live, Dead;
    var (mid, batch) := ApplyMutations(core, ms[..5], DEVICE, now).value;
    DeadIsAccepted(mid, batch, x, MutationChange(Live(), 2, ClampClientTime(0, now)), now);
  }

  // ----- the requests -----

  predicate Receivable(request: DiffRequest) {
    DiffRequestSize(request) <= MAX_PROTOBUF_BYTES
  }

  lemma RequestFits(ms: seq<Mutation>)
    requires |ms| <= 6 && ValueBytes(ms) <= MAX_VALUE_JSON_BYTES && forall i :: 0 <= i < |ms| ==> Ours(ms[i])
    ensures Receivable(Request(ms))
  {
    hide DiffRequestSize, Ours, ValidateMutation, ValueBytes, ValidateDiff;
    RequestIsValid(ms);
    forall i | 0 <= i < |ms| ensures ValidateMutation(ms[i], DEVICE).Pass? { OursIsValid(ms[i]); }
    RequestBound(META.ownerKey, Request(ms));
  }

  lemma {:induction false} SmallValues(ms: seq<Mutation>)
    requires forall i :: 0 <= i < |ms| ==> ms[i].valueJson == []
    ensures ValueBytes(ms) == 0
  {
    if ms != [] { SmallValues(ms[..|ms| - 1]); }
  }

  lemma LatesAreOurs()
    ensures forall i :: 0 <= i < 4 ==> Ours(Lates(4)[i])
  {
    hide Ours;
    forall i | 0 <= i < 4 ensures Ours(Lates(4)[i]) { LateIsOurs(i); }
  }

  /** All three requests are small enough for the server to read them. */
  lemma RequestsFit()
    ensures Receivable(Request([First()])) && Receivable(Request(Doomed())) && Receivable(Request(Lates(4)))
  {
    hide Receivable, Ours;
    AllOurs(First());
    assert [First()][..0] == [];
    assert ValueBytes([First()]) == MAX_VALUE_JSON_BYTES;
    RequestFits([First()]);
    DoomedIsOurs();
    SmallValues(Doomed());
    RequestFits(Doomed());
    LatesAreOurs();
    SmallValues(Lates(4));
    RequestFits(Lates(4));
  }

  // ----- the history -----

  lemma FirstApplies(now: Uint64)
    ensures var r := ApplyMutations(EMPTY_CORE, [First()], DEVICE, now);
            var x := MutationChange(First(), 1, ClampClientTime(0, now));
            r.Ok? && r.value.1.appliedCount == 1 && Start(r.value.0, x)
  {
    AllOurs(First());
    hide ApplyMutation, Ours, Repeated, OpId, ClampClientTime;
    assert [First()][..0] == [];
    AcceptedOurs(EMPTY_CORE, EMPTY_BATCH, First(), now);
  }

  lemma FirstCommits(codec: Codec, env: Env)
    requires env.codec == codec
    ensures var r := Diff(env, META, NEW_OWNER.tables, Request([First()]));
            && r.Ok? && r.value.0.lineage.Some? && r.value.0.lineage.value.baselineId == FIRST_ID
            && exists x :: Start(r.value.0.core, x)
  {
    EmptyInv(codec);
    AllOurs(First());
    RequestIsValid([First()]);
    var t := Adopted(FIRST_ID).tables;
    var x := MutationChange(First(), 1, ClampClientTime(0, env.now));
    hide Inv, ValidateDiff, Mutate, ApplyMutations, Diff, Start, Ours, Repeated, DayFits, Later, ClampClientTime,
         DiffResponseSize;
    assert OnBaseline(codec, META, NEW_OWNER, Request([First()]));
    DiffIsBatch(codec, env, META, NEW_OWNER, Request([First()]));
    FirstApplies(env.now);
    StartFits(codec, ApplyMutations(EMPTY_CORE, [First()], DEVICE, env.now).value.0, x);
    MutateCommits(codec, env, META.originConnectionId, Owner(t, 0), [First()], DEVICE);
    MutateParts(env, META.originConnectionId, t, [First()], DEVICE);
    DiffNeverTooLarge(codec, env, META, NEW_OWNER, Request([First()]));
  }

  lemma StartFits(codec: Codec, core: Core, x: Change)
    requires Start(core, x)
    ensures DayFits(codec, core.records)
  {
    hide DayFits;
    TombstonesFit(codec, core.records);
  }

  lemma DayErrorFails(env: Env, origin: string, t: Tables, ms: seq<Mutation>, deviceId: string)
    requires ApplyMutations(t.core, ms, deviceId, env.now).Ok?
    requires var (core, batch) := ApplyMutations(t.core, ms, deviceId, env.now).value;
             batch.appliedCount > 0 && ProgressDay(env.codec, RecordRows(core.records)) == Err(BadPercentEncoding)
    ensures Mutate(env, origin, t, ms, deviceId) == Err(BadPercentEncoding)
  {
    hide ApplyMutations, ProgressDay, RecordRows, Publish;
  }

  /** Every proper prefix fails for its progress day. */
  lemma PrefixFails(codec: Codec, env: Env, o: Owner, x: Change, n: nat)
    requires env.codec == codec && codec.unescape(BAD_SEGMENT).None? && n <= 4
    requires Inv(codec, o) && Current(o.tables, FIRST_ID) && Start(o.tables.core, x)
    ensures Diff(env, META, o.tables, Request([Live()] + Lates(n))) == Err(BadPercentEncoding)
  {
    var ms := [Live()] + Lates(n);
    PrefixIsMidway(o.tables.core, x, n, env.now);
    PrefixIsOurs(n);
    RequestIsValid(ms);
    LiveHasNoDay(codec, ApplyMutations(o.tables.core, ms, DEVICE, env.now).value.0.records);
    DayErrorFails(env, META.originConnectionId, o.tables, ms, DEVICE);
    hide Inv, ValidateDiff, Mutate, ApplyMutations, Diff, Start, Ours, Repeated, Midway, Live, Lates, DiffResponseSize;
    DiffIsBatch(codec, env, META, o, Request(ms));
  }

  lemma PrefixIsOurs(n: nat)
    requires n <= 4
    ensures var ms := [Live()] + Lates(n); |ms| == 1 + n && forall i :: 0 <= i < |ms| ==> Ours(ms[i])
  {
    hide Ours;
    AllOurs(Live());
    forall i | 0 <= i < n ensures Ours(Lates(n)[i]) { LateIsOurs(i); }
  }

  lemma DoomedIsOurs()
    ensures forall i :: 0 <= i < |Doomed()| ==> Ours(Doomed()[i])
  {
    hide Ours, Doomed;
    forall i | 0 <= i < |Doomed()| ensures Ours(Doomed()[i]) {
      assert Doomed()[i] in Doomed();
      AllOurs(Doomed()[i]);
    }
  }

  /** The whole batch would commit, and is refused for its size only. */
  lemma DoomedIsTooLarge(codec: Codec, env: Env, o: Owner, x: Change)
    requires env.codec == codec && Inv(codec, o) && Current(o.tables, FIRST_ID) && Start(o.tables.core, x)
    ensures Mutate(env, META.originConnectionId, o.tables, Doomed(), DEVICE).Ok?
    ensures Diff(env, META, o.tables, Request(Doomed())) == Err(ResponseTooLarge)
  {
    DoomedFinishes(o.tables.core, x, env.now);
    DoomedIsOurs();
    RequestIsValid(Doomed());
    var (core, batch) := ApplyMutations(o.tables.core, Doomed(), DEVICE, env.now).value;
    TombstonesFit(codec, core.records);
    GoodIds();
    hide Inv, ValidateDiff, Mutate, ApplyMutations, Diff, Start, Ours, Repeated, Doomed, DayFits, IsDeviceId,
         DiffResponseSize;
    DiffIsBatch(codec, env, META, o, Request(Doomed()));
    MutateCommits(codec, env, META.originConnectionId, o, Doomed(), DEVICE);
    MutateParts(env, META.originConnectionId, o.tables, Doomed(), DEVICE);
    var done := Mutate(env, META.originConnectionId, o.tables, Doomed(), DEVICE).value.0;
    FourFullValuesAreTooLarge(DiffResponseOf(done, batch.acks, batch.canonicalChanges, false));
  }

  /** What a client sees from the state after the first commit, at any clock. */
  ghost predicate NeverDelivered(env: Env, t: Tables) {
    && Diff(env, META, t, Request(Doomed())) == Err(ResponseTooLarge)
    && (forall k :: 1 <= k <= 5 ==> Diff(env, META, t, Request(Doomed()[..k])) == Err(BadPercentEncoding))
    && Retry(env, META, t, Request(Doomed())) == Err(BadPercentEncoding)
  }

  lemma DoomedIsNeverDelivered(codec: Codec, env: Env, o: Owner, x: Change)
    requires env.codec == codec && codec.unescape(BAD_SEGMENT).None?
    requires Inv(codec, o) && Current(o.tables, FIRST_ID) && Start(o.tables.core, x)
    ensures NeverDelivered(env, o.tables)
  {
    DoomedIsTooLarge(codec, env, o, x);
    hide Inv, Diff, Start, Live, Late, Retry, Lates;
    forall k | 1 <= k <= 5 ensures Diff(env, META, o.tables, Request(Doomed()[..k])) == Err(BadPercentEncoding) {
      PrefixFails(codec, env, o, x, k - 1);
      PrefixOfDoomed(k);
      hide Doomed;
    }
    RetryFailsEarly(env, o.tables);
  }

  lemma PrefixOfDoomed(k: nat)
    requires 1 <= k <= 5
    ensures Doomed()[..k] == [Live()] + Lates(k - 1)
  {
    hide Live, Late;
  }

  lemma RetryFailsEarly(env: Env, t: Tables)
    requires Diff(env, META, t, Request(Doomed())) == Err(ResponseTooLarge)
    requires Diff(env, META, t, Request(Doomed()[..3])) == Err(BadPercentEncoding)
    ensures Retry(env, META, t, Request(Doomed())) == Err(BadPercentEncoding)
  {
    hide Diff, Doomed;
    assert Part(Request(Doomed()), Doomed()[..3]) == Request(Doomed()[..3]);
  }

  /**
   * Halving may deliver nothing at all. With a decoder that rejects "%zz", an owner with
   * one large tombstone refuses the batch for its size alone, while every proper prefix of it leaves a record
   * whose key does not decode, so that no first part is ever accepted.
   */
  lemma HalvingCanFail(codec: Codec, now: Uint64)
    requires codec.unescape(BAD_SEGMENT).None?
    ensures Receivable(Request([First()])) && Receivable(Request(Doomed()))
    ensures exists o :: AfterFirst(codec, now, o) && forall env: Env :: env.codec == codec ==>
              NeverDelivered(env, o.tables)
  {
    hide Inv, Diff, NeverDelivered, Start, AfterFirst, Receivable, DiffRequestSize;
    RequestsFit();
    var o, x := FirstReached(codec, now);
    forall later: Env | later.codec == codec ensures NeverDelivered(later, o.tables) {
      DoomedIsNeverDelivered(codec, later, o, x);
    }
  }

  /** The state after the diff of First, the only commit of the owner so far. */
  ghost predicate AfterFirst(codec: Codec, now: Uint64, o: Owner) {
    && Run(codec, [NEW_OWNER, o])
    && Commits(codec, ZeroEnv(codec, now), META, NEW_OWNER, DiffCommand(Request([First()])), o)
  }

  lemma FirstReached(codec: Codec, now: Uint64) returns (o: Owner, x: Change)
    ensures AfterFirst(codec, now, o) && Inv(codec, o) && Current(o.tables, FIRST_ID) && Start(o.tables.core, x)
  {
    hide Inv, Diff, Commits, FreshIds, Later, NewBaselineId, Start;
    var env := ZeroEnv(codec, now);
    EmptyInv(codec);
    FreshFor(env, NEW_OWNER.tables);
    FirstCommits(codec, env);
    o := Owner(Diff(env, META, NEW_OWNER.tables, Request([First()])).value.0, 0);
    x :| Start(o.tables.core, x);
    DiffStep(codec, env, NEW_OWNER, Request([First()]), o);
    CommitKeepsInv(codec, env, META, NEW_OWNER, DiffCommand(Request([First()])), o);
    assert Step(codec, NEW_OWNER, o);
    assert Run(codec, [NEW_OWNER, o]);
  }

  lemma DiffStep(codec: Codec, env: Env, o: Owner, request: DiffRequest, after: Owner)
    requires env.codec == codec && FreshIds(env, o.tables) && Diff(env, META, o.tables, request).Ok?
    requires after == Owner(Diff(env, META, o.tables, request).value.0, o.snapshotLen)
    ensures Commits(codec, env, META, o, DiffCommand(request), after)
  {
    hide Diff, FreshIds;
  }

  // ----- four mutations -----

  /** n late mutations change no record and are answered with n full values. */
  lemma {:induction false} LatesConflict(core: Core, x: Change, n: nat, now: Uint64)
    requires Start(core, x) && n <= 4
    ensures var r := ApplyMutations(core, Lates(n), DEVICE, now);
            && r.Ok?
            && r.value.0 == core.(receipts := r.value.0.receipts)
            && (forall c :: 'c' + n as char <= c <= 'g' ==> OpId(c) !in r.value.0.receipts)
            && r.value.1.appliedCount == 0 && FullCount(r.value.1.canonicalChanges) == n
  {
    hide ApplyMutation, FullCount, Repeated, OpId;
    if n == 0 {
      NoneIsFull();
      forall c | 'c' <= c <= 'g' ensures OpId(c) != OpId('a') { OpIdsDiffer(c, 'a'); }
    } else {
      LatesConflict(core, x, n - 1, now);
      assert Lates(n)[..n - 1] == Lates(n - 1) && Lates(n)[n - 1] == Late(n - 1);
      var (mid, batch) := ApplyMutations(core, Lates(n - 1), DEVICE, now).value;
      LateConflicts(mid, batch, x, n - 1, now);
      FullOneMore(batch.canonicalChanges, x);
      var c := 'c' + (n - 1) as char;
      forall d | c < d <= 'g' ensures OpId(d) != OpId(c) { OpIdsDiffer(d, c); }
    }
  }

  lemma NoneIsFull()
    ensures FullCount([]) == 0
  {}

  lemma LatesAreTooLarge(codec: Codec, env: Env, o: Owner, x: Change)
    requires env.codec == codec && Inv(codec, o) && Current(o.tables, FIRST_ID) && Start(o.tables.core, x)
    ensures Diff(env, META, o.tables, Request(Lates(4))) == Err(ResponseTooLarge)
  {
    LatesConflict(o.tables.core, x, 4, env.now);
    LatesAreOurs();
    RequestIsValid(Lates(4));
    GoodIds();
    hide Inv, ValidateDiff, Mutate, ApplyMutations, Diff, Start, Ours, Repeated, Lates, DayFits, IsDeviceId,
         FullCount, DiffResponseSize;
    var batch := ApplyMutations(o.tables.core, Lates(4), DEVICE, env.now).value.1;
    DiffIsBatch(codec, env, META, o, Request(Lates(4)));
    MutateCommits(codec, env, META.originConnectionId, o, Lates(4), DEVICE);
    MutateParts(env, META.originConnectionId, o.tables, Lates(4), DEVICE);
    var done := Mutate(env, META.originConnectionId, o.tables, Lates(4), DEVICE).value.0;
    FourFullValuesAreTooLarge(DiffResponseOf(done, batch.acks, batch.canonicalChanges, false));
  }

  /** Four mutations can be too many: the bound of three mutations that always fit cannot be raised. */
  lemma FourCanBeTooLarge(codec: Codec, now: Uint64)
    ensures |Lates(4)| == 4 && Receivable(Request(Lates(4)))
    ensures exists o :: AfterFirst(codec, now, o) && forall env: Env :: env.codec == codec ==>
              Diff(env, META, o.tables, Request(Lates(4))) == Err(ResponseTooLarge)
  {
    hide Inv, Diff, Start, AfterFirst, Receivable, DiffRequestSize, Lates;
    RequestsFit();
    var o, x := FirstReached(codec, now);
    forall env: Env | env.codec == codec ensures Diff(env, META, o.tables, Request(Lates(4))) == Err(ResponseTooLarge) {
      LatesAreTooLarge(codec, env, o, x);
    }
  }
}
