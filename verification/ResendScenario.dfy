/** A committed diff that is refused for its size when it is sent again, because the header has grown. */
module ResendScenario {
  import opened Prelude
  import opened Ordering
  import opened SyncTypes
  import opened Validation
  import opened Progress
  import opened ProgressLaws
  import opened Tables
  import opened Wire
  import opened SyncSpec
  import opened CoreInvariant
  import opened ArchiveInvariant
  import opened OwnerInvariant
  import opened ResolveInvariant
  import opened History
  import opened Replay
  import opened Batching
  import opened WireBounds
  import opened Halving
  import opened Resolutions
  import opened Resending
  import opened Scenarios
  import opened HalvingScenario

  const QUOTE_SEGMENT := "quote"
  const QUOTE_KEY := ENTITY_PREFIX + QUOTE_SEGMENT
  const DATE := "2026-07-14T00:00:00Z"
  const QUOTE_JSON := "{\"date\":\"2026-07-14T00:00:00Z\"}"

  function Ascii(s: string): (bytes: seq<Byte>)
    ensures |bytes| == |s|
  {
    seq(|s|, i requires 0 <= i < |s| => (s[i] as int % 256) as Byte)
  }

  /** What any url.PathUnescape and json.Unmarshal make of the quote record. */
  predicate DecodesQuote(codec: Codec) {
    && codec.unescape(QUOTE_SEGMENT) == Some(QUOTE_SEGMENT)
    && codec.parse(Ascii(QUOTE_JSON)) == Some(Object(map["date" := Text(DATE)]))
  }

  /** Clock values, in milliseconds, that encode to six bytes: from 1971 to 2109. */
  predicate InClock(now: nat) {
    34359738368 <= now < 4398046511104
  }

  /** Sizes chosen so that the response is exactly as large as it may be. */
  function ValueSize(i: nat): nat {
    if i < 3 then MAX_VALUE_JSON_BYTES else 130754
  }

  function Letter(i: nat): char
    requires i < 26
  {
    'a' + i as char
  }

  /** A deletion with a large value, of a key of its own. */
  function Big(i: nat): Mutation
    requires i < 4
  {
    Mutation(OpId(Letter(i)), ENTITY_PREFIX + [Letter(i)], 0, 1, Repeated(0, ValueSize(i)), true, DEVICE, 0)
  }

  function Bigs(n: nat): (ms: seq<Mutation>)
    requires n <= 4
    ensures |ms| == n
  {
    seq(n, i requires 0 <= i < n => Big(i))
  }

  /** A live record whose date becomes the progress day. */
  function Quote(): Mutation {
    Mutation(OpId('z'), QUOTE_KEY, 0, 1, Ascii(QUOTE_JSON), false, DEVICE, 0)
  }

  // ----- sizes -----

  lemma ThreeByteVarint(n: nat)
    requires 16384 <= n < 2097152
    ensures VarintSize(n) == 3
  {
    assert VarintSize(n / 128 / 128) == 1;
    assert VarintSize(n / 128) == 2;
  }

  lemma SixByteVarint(n: nat)
    requires InClock(n)
    ensures VarintSize(n) == 6
  {
    var a := n / 128;
    var b := a / 128;
    var c := b / 128;
    assert 16384 <= c < 2097152;
    ThreeByteVarint(c);
    assert VarintSize(b) == 4;
    assert VarintSize(a) == 5;
  }

  lemma AsciiField(s: string)
    requires 0 < |s| < 128 && forall i :: 0 <= i < |s| ==> s[i] as int < 128
    ensures StringField(s) == 2 + |s|
  {
    AsciiLength(s);
  }

  lemma BigFields(i: nat)
    requires i < 4
    ensures StringField(Big(i).opId) == 10 && StringField(Big(i).entityKey) == 13 && StringField(Big(i).deviceId) == 10
    ensures BytesField(|Big(i).valueJson|) == 4 + ValueSize(i)
  {
    AsciiField(Big(i).opId);
    AsciiField(Big(i).entityKey);
    AsciiField(DEVICE);
    ThreeByteVarint(ValueSize(i));
  }

  function BigChange(i: nat): Change
    requires i < 4
  {
    MutationChange(Big(i), i + 1, 1)
  }

  function BigChanges(n: nat): (changes: seq<Change>)
    requires n <= 4
    ensures |changes| == n
  {
    seq(n, i requires 0 <= i < n => BigChange(i))
  }

  function BigAcks(n: nat): (acks: seq<MutationAck>)
    requires n <= 4
    ensures |acks| == n
  {
    seq(n, i requires 0 <= i < n => MutationAck(OpId(Letter(i)), i + 1, false, true))
  }

  function TotalSize(n: nat): nat {
    if n == 0 then 0 else TotalSize(n - 1) + ValueSize(n - 1)
  }

  lemma BigChangeSize(i: nat)
    requires i < 4
    ensures ChangeSize(BigChange(i)) == 43 + ValueSize(i)
    ensures MessageField(ChangeSize(BigChange(i))) == 47 + ValueSize(i)
    ensures MutationSize(Big(i)) == 41 + ValueSize(i)
    ensures MessageField(MutationSize(Big(i))) == 45 + ValueSize(i)
    ensures MessageField(AckSize(BigAcks(4)[i])) == 16
  {
    BigFields(i);
    hide StringField, BytesField, Repeated;
    ThreeByteVarint(43 + ValueSize(i));
    ThreeByteVarint(41 + ValueSize(i));
  }

  lemma {:induction false} BigChangesSize(n: nat)
    requires n <= 4
    ensures ChangesSize(BigChanges(n)) == 47 * n + TotalSize(n)
  {
    if n > 0 {
      BigChangesSize(n - 1);
      BigChangeSize(n - 1);
      assert BigChanges(n)[..n - 1] == BigChanges(n - 1) && BigChanges(n)[n - 1] == BigChange(n - 1);
      hide ChangeSize, MessageField, BigChange, BigChanges, ValueSize;
    }
  }

  lemma {:induction false} BigMutationsSize(n: nat)
    requires n <= 4
    ensures MutationsSize(Bigs(n)) == 45 * n + TotalSize(n)
  {
    if n > 0 {
      BigMutationsSize(n - 1);
      BigChangeSize(n - 1);
      assert Bigs(n)[..n - 1] == Bigs(n - 1) && Bigs(n)[n - 1] == Big(n - 1);
      hide MutationSize, MessageField, Big, Bigs, ValueSize;
    }
  }

  lemma {:induction false} BigAcksSize(n: nat)
    requires n <= 4
    ensures AcksSize(BigAcks(n)) == 16 * n
  {
    if n > 0 {
      BigAcksSize(n - 1);
      BigChangeSize(n - 1);
      assert BigAcks(n)[..n - 1] == BigAcks(n - 1) && BigAcks(n)[n - 1] == BigAcks(4)[n - 1];
      hide AckSize, MessageField, BigAcks;
    }
  }

  lemma TotalIs()
    ensures TotalSize(4) == 523970
  {
    assert TotalSize(1) == 131072;
    assert TotalSize(2) == 262144;
    assert TotalSize(3) == 393216;
  }

  lemma BaselineField()
    ensures StringField(FIRST_ID) == 43
  {
    forall i | 0 <= i < |FIRST_ID| ensures FIRST_ID[i] as int < 128 {
      if i < 9 { assert FIRST_ID[i] == BASELINE_PREFIX[i]; } else { assert FIRST_ID[i] == 'a'; }
    }
    AsciiField(FIRST_ID);
  }

  /** The size of the answer, up to the progress day in its header. */
  lemma AnswerSize(l: Lineage, cursor: nat)
    requires l.baselineId == FIRST_ID && 1 <= l.version < 128 && InClock(l.updatedAtMs) && 1 <= cursor < 128
    ensures DiffResponseSize(DiffResponse(BigAcks(4), BigChanges(4), FIRST_ID, cursor, l.version, l.updatedAtMs,
                                          l.progressDay, false))
            == 524276 + StringField(l.progressDay)
  {
    BigChangesSize(4);
    BigAcksSize(4);
    TotalIs();
    BaselineField();
    SixByteVarint(l.updatedAtMs);
    hide StringField, AcksSize, ChangesSize, TotalSize, BigAcks, BigChanges;
  }

  lemma DayFields()
    ensures StringField(CAMPAIGN_START) == 12 && StringField(DATE) == 22
  {
    AsciiField(CAMPAIGN_START);
    AsciiField(DATE);
  }

  lemma BigRequestFits()
    ensures DiffRequestSize(Request(Bigs(4))) == 524203
    ensures Receivable(Request(Bigs(4)))
  {
    hide StringField, MutationsSize, TotalSize, Bigs, Repeated;
    BigMutationsSize(4);
    TotalIs();
    BaselineField();
    AsciiField(DEVICE);
  }

  // ----- the mutations -----

  lemma LetterIds(i: nat)
    requires i < 26
    ensures IsDeviceId(OpId(Letter(i)))
  {}

  lemma BigIsValid(i: nat)
    requires i < 4
    ensures ValidateMutation(Big(i), DEVICE).Pass? && SafeNumbers(Big(i))
  {
    GoodIds();
    LetterIds(i);
    hide IsDeviceId, Utf16Length;
    Utf16AtMostDouble(Big(i).entityKey);
  }

  lemma QuoteIsValid()
    ensures ValidateMutation(Quote(), DEVICE).Pass? && SafeNumbers(Quote())
  {
    GoodIds();
    LetterIds(25);
    hide IsDeviceId, Utf16Length;
    Utf16AtMostDouble(QUOTE_KEY);
  }

  lemma BigsAreValid()
    ensures ValidateDiff(META.ownerKey, Request(Bigs(4))).Pass? && AllValid(Bigs(4), DEVICE)
    ensures ValidateDiff(META.ownerKey, Request([Quote()])).Pass?
  {
    GoodIds();
    hide IsOwnerKey, IsDeviceId, IsBaselineId, ValidateMutation, SafeNumbers, Big, Quote;
    forall i | 0 <= i < 4 ensures ValidateMutation(Bigs(4)[i], DEVICE).Pass? && SafeNumbers(Bigs(4)[i]) {
      BigIsValid(i);
    }
    QuoteIsValid();
  }

  lemma OneIsKept(now: Uint64)
    requires InClock(now)
    ensures ClampClientTime(1, now) == 1
  {}

  function BigKey(i: nat): string
    requires i < 26
  {
    ENTITY_PREFIX + [Letter(i)]
  }

  lemma LettersDiffer(i: nat, j: nat)
    requires i < 26 && j < 26 && i != j
    ensures OpId(Letter(i)) != OpId(Letter(j)) && BigKey(i) != BigKey(j)
  {
    OpIdsDiffer(Letter(i), Letter(j));
    assert BigKey(i)[10] == Letter(i) && BigKey(j)[10] == Letter(j);
  }

  /** After the first n large mutations on an empty owner. */
  ghost predicate AfterBigs(core: Core, batch: Batch, n: nat)
    requires n <= 4
  {
    BigLog(core, n) && BigRows(core, n) && BigAnswers(batch, n)
  }

  ghost predicate BigLog(core: Core, n: nat)
    requires n <= 4
  {
    && Dense(core) && core.cursor == n
    && forall i :: 0 <= i < n ==> i + 1 in core.operations && core.operations[i + 1] == BigChange(i)
  }

  ghost predicate BigRows(core: Core, n: nat) {
    && (forall key :: key in core.records ==> core.records[key].deleted && |key| == 11)
    && (forall i :: n <= i < 26 ==> BigKey(i) !in core.records && OpId(Letter(i)) !in core.receipts)
    && (forall i :: 0 <= i < n <= 26 ==> OpId(Letter(i)) in core.receipts)
  }

  ghost predicate BigAnswers(batch: Batch, n: nat)
    requires n <= 4
  {
    batch.appliedCount == n && batch.acks == BigAcks(n) && batch.canonicalChanges == BigChanges(n)
  }

  lemma NextIsFree(core: Core, batch: Batch, n: nat, i: nat)
    requires n <= 4 && AfterBigs(core, batch, n) && n <= i < 26
    ensures !core.HasOpId(OpId(Letter(i))) && OpId(Letter(i)) !in core.receipts
  {
    hide Repeated, OpId, BigAcks, BigChanges, BigKey;
    forall c | c in core.operations ensures core.operations[c].opId != OpId(Letter(i)) {
      assert core.operations[c - 1 + 1] == BigChange(c - 1);
      LettersDiffer(c - 1, i);
    }
  }

  lemma BigIsAccepted(core: Core, batch: Batch, n: nat, now: Uint64)
    requires n < 4 && AfterBigs(core, batch, n) && InClock(now)
    ensures var r := ApplyMutation(core, batch, Big(n), DEVICE, now);
            r.Ok? && AfterBigs(r.value.0, r.value.1, n + 1)
  {
    NextIsFree(core, batch, n, n);
    BigIsValid(n);
    OneIsKept(now);
    assert BigKey(n) !in core.records;
    hide ApplyMutation, ValidateMutation, Repeated, OpId, ClampClientTime, AfterBigs;
    assert core.cursor == n && Dense(core) by { BigsCursor(core, batch, n); }
    FreshIsAccepted(core, batch, Big(n), DEVICE, now);
    var (after, done) := ApplyMutation(core, batch, Big(n), DEVICE, now).value;
    BigAdds(core, batch, after, done, n);
  }

  lemma BigsCursor(core: Core, batch: Batch, n: nat)
    requires n <= 4 && AfterBigs(core, batch, n)
    ensures Dense(core) && core.cursor == n
  {
    hide Dense;
  }

  lemma BigAdds(core: Core, batch: Batch, after: Core, done: Batch, n: nat)
    requires n < 4 && AfterBigs(core, batch, n)
    requires after.cursor == n + 1 && after.operations == core.operations[n + 1 := BigChange(n)]
    requires after.records == core.records[BigKey(n) := BigChange(n)]
    requires after.receipts.Keys == core.receipts.Keys + {OpId(Letter(n))}
    requires done.appliedCount == batch.appliedCount + 1
    requires done.acks == batch.acks + [MutationAck(OpId(Letter(n)), n + 1, false, true)]
    requires done.canonicalChanges == batch.canonicalChanges + [BigChange(n)]
    ensures AfterBigs(after, done, n + 1)
  {
    hide BigLog, BigRows, BigAnswers;
    BigAddsLog(core, after, n);
    BigAddsRows(core, after, n);
    BigAddsAnswers(batch, done, n);
  }

  lemma BigAddsLog(core: Core, after: Core, n: nat)
    requires n < 4 && BigLog(core, n)
    requires after.cursor == n + 1 && after.operations == core.operations[n + 1 := BigChange(n)]
    ensures BigLog(after, n + 1)
  {
    assert BigChange(n).cursor == n + 1;
    hide BigChange;
  }

  lemma BigAddsRows(core: Core, after: Core, n: nat)
    requires n < 4 && BigRows(core, n)
    requires after.records == core.records[BigKey(n) := BigChange(n)]
    requires after.receipts.Keys == core.receipts.Keys + {OpId(Letter(n))}
    ensures BigRows(after, n + 1)
  {
    forall i | n < i < 26 ensures OpId(Letter(i)) != OpId(Letter(n)) && BigKey(i) != BigKey(n) { LettersDiffer(i, n); }
    assert BigChange(n).deleted && |BigKey(n)| == 11;
    hide Repeated, OpId, BigKey, BigChange;
  }

  lemma BigAddsAnswers(batch: Batch, done: Batch, n: nat)
    requires n < 4 && BigAnswers(batch, n)
    requires done.appliedCount == batch.appliedCount + 1
    requires done.acks == batch.acks + [MutationAck(OpId(Letter(n)), n + 1, false, true)]
    requires done.canonicalChanges == batch.canonicalChanges + [BigChange(n)]
    ensures BigAnswers(done, n + 1)
  {
    hide OpId, BigChange;
    assert BigAcks(n + 1) == BigAcks(n) + [MutationAck(OpId(Letter(n)), n + 1, false, true)];
    assert BigChanges(n + 1) == BigChanges(n) + [BigChange(n)];
  }

  lemma {:induction false} BigsApply(n: nat, now: Uint64)
    requires n <= 4 && InClock(now)
    ensures var r := ApplyMutations(EMPTY_CORE, Bigs(n), DEVICE, now);
            r.Ok? && AfterBigs(r.value.0, r.value.1, n)
  {
    hide ApplyMutation, Big;
    if n == 0 {
      assert Bigs(0) == [] && BigAcks(0) == [] && BigChanges(0) == [];
    } else {
      hide AfterBigs;
      BigsApply(n - 1, now);
      assert Bigs(n)[..n - 1] == Bigs(n - 1) && Bigs(n)[n - 1] == Big(n - 1);
      var (mid, batch) := ApplyMutations(EMPTY_CORE, Bigs(n - 1), DEVICE, now).value;
      BigIsAccepted(mid, batch, n - 1, now);
    }
  }

  // ----- the history -----

  /** What the first commit leaves, and what it answered. */
  ghost predicate Committed(t: Tables, batch: Batch, now: Uint64) {
    && t.lineage == Some(Lineage(FIRST_ID, 1, now, CAMPAIGN_START))
    && AfterBigs(t.core, batch, 4) && Aligned(t.core, Bigs(4), batch)
  }

  lemma RecordsAreDeleted(core: Core, batch: Batch)
    requires AfterBigs(core, batch, 4)
    ensures forall key :: key in core.records ==> core.records[key].deleted && key != QUOTE_KEY
    ensures batch.appliedCount == 4 && core.cursor == 4
  {
    hide BigLog;
    assert BigLog(core, 4);
    BigsCursor(core, batch, 4);
    assert |QUOTE_KEY| == 15;
  }

  lemma BigsMutate(codec: Codec, env: Env, t: Tables)
    requires env.codec == codec && InClock(env.now) && Inv(codec, Owner(t, 0)) && t == Adopted(FIRST_ID).tables
    ensures var r := Mutate(env, META.originConnectionId, t, Bigs(4), DEVICE);
            r.Ok? && Committed(r.value.0, r.value.1, env.now)
  {
    BigsApply(4, env.now);
    GoodIds();
    var (core, batch) := ApplyMutations(EMPTY_CORE, Bigs(4), DEVICE, env.now).value;
    hide Inv, Mutate, ApplyMutations, AfterBigs, Aligned, DayFits, IsDeviceId, ProgressDay, RecordRows, Bigs, Grows,
         AllValid;
    RecordsAreDeleted(core, batch);
    TombstonesFit(codec, core.records);
    MutateCommits(codec, env, META.originConnectionId, Owner(t, 0), Bigs(4), DEVICE);
    MutateParts(env, META.originConnectionId, t, Bigs(4), DEVICE);
    MutateProgress(env, META.originConnectionId, t, Bigs(4), DEVICE);
    MutateAnswers(codec, env, META.originConnectionId, Owner(t, 0), Bigs(4), DEVICE);
  }

  lemma BatchAnswers(core: Core, batch: Batch)
    requires AfterBigs(core, batch, 4)
    ensures batch.acks == BigAcks(4) && batch.canonicalChanges == BigChanges(4)
  {
    hide BigLog, BigRows;
  }

  /** A batch archives no baseline but the current one. */
  lemma HeadsAfter(env: Env, origin: string, t: Tables, ms: seq<Mutation>, deviceId: string)
    requires t.lineage.Some? && Mutate(env, origin, t, ms, deviceId).Ok?
    ensures Mutate(env, origin, t, ms, deviceId).value.0.archiveHeads.Keys
            <= t.archiveHeads.Keys + {t.lineage.value.baselineId}
  {
    hide ApplyMutations, ProgressDay, RecordRows, ArchiveChanges;
  }

  /** The first commit's response is exactly as large as a response may be. */
  lemma BigsCommit(codec: Codec, env: Env)
    requires env.codec == codec && InClock(env.now)
    ensures var r := Diff(env, META, NEW_OWNER.tables, Request(Bigs(4)));
            && r.Ok? && DiffResponseSize(r.value.1.response) == MAX_PROTOBUF_BYTES
            && r.value.0.archiveHeads.Keys <= {FIRST_ID}
            && exists batch :: Committed(r.value.0, batch, env.now)
  {
    EmptyInv(codec);
    BigsAreValid();
    var t := Adopted(FIRST_ID).tables;
    hide Inv, ValidateDiff, Mutate, Diff, AfterBigs, Aligned, DiffResponseSize, Bigs, AllValid, BigAcks, BigChanges;
    assert OnBaseline(codec, META, NEW_OWNER, Request(Bigs(4)));
    DiffIsBatch(codec, env, META, NEW_OWNER, Request(Bigs(4)));
    BigsMutate(codec, env, t);
    var (done, batch) := Mutate(env, META.originConnectionId, t, Bigs(4), DEVICE).value;
    RecordsAreDeleted(done.core, batch);
    BatchAnswers(done.core, batch);
    AnswerSize(done.lineage.value, done.core.cursor);
    DayFields();
    HeadsAfter(env, META.originConnectionId, t, Bigs(4), DEVICE);
    assert Committed(done, batch, env.now);
  }

  lemma QuoteDate(codec: Codec, record: Change)
    requires DecodesQuote(codec) && record.entityKey == QUOTE_KEY && record.valueJson == Ascii(QUOTE_JSON)
              && !record.deleted
    ensures RecordDate(codec, record) == Ok(Some(DATE))
  {
    assert QUOTE_KEY == "stella" + "/" + ("v1" + "/" + QUOTE_SEGMENT);
    SplitOnce("stella", "v1" + "/" + QUOTE_SEGMENT);
    SplitOnce("v1", QUOTE_SEGMENT);
    SplitNone(QUOTE_SEGMENT);
    assert Split(QUOTE_KEY)[2..] == [QUOTE_SEGMENT];
    hide Split, MeaningfulDayRecord, Ascii;
    assert UnescapeAll(codec, [QUOTE_SEGMENT]) == Ok([QUOTE_SEGMENT]);
    assert ObjectString(Object(map["date" := Text(DATE)]), "date") == DATE;
  }

  /** With a quote among tombstones the progress day is the quote's date. */
  lemma QuoteDay(codec: Codec, records: map<string, Change>)
    requires DecodesQuote(codec) && QUOTE_KEY in records
    requires RecordDate(codec, records[QUOTE_KEY]) == Ok(Some(DATE))
    requires forall key :: key in records && key != QUOTE_KEY ==> records[key].deleted
    ensures DayFits(codec, records) && ProgressDay(codec, RecordRows(records)) == Ok(DATE)
  {
    var rows := RecordRows(records);
    var at := RowOf(records, QUOTE_KEY);
    hide ProgressDay, RecordRows, RecordDate, DecodesQuote;
    forall i | 0 <= i < |rows|
      ensures RecordDate(codec, rows[i]).Ok? && (RecordDate(codec, rows[i]).value.Some? ==>
                RecordDate(codec, rows[i]) == Ok(Some(DATE)))
    {
      RowIsRecord(records, i);
      var key :| key in records && records[key] == rows[i];
      if key != QUOTE_KEY { TombstoneDate(codec, rows[i]); }
    }
    ProgressDayMeaning(codec, rows);
    assert Dated(codec, rows, DATE);
  }

  lemma QuoteApplies(core: Core, batch: Batch, now: Uint64)
    requires AfterBigs(core, batch, 4) && InClock(now)
    ensures var r := ApplyMutations(core, [Quote()], DEVICE, now);
            && r.Ok? && r.value.1.appliedCount == 1 && r.value.0.cursor == 5
            && r.value.0.records == core.records[QUOTE_KEY := MutationChange(Quote(), 5, 1)]
  {
    hide ApplyMutation, ValidateMutation, Repeated, OpId, ClampClientTime, AfterBigs, Ascii, Dense;
    NextIsFree(core, batch, 4, 25);
    QuoteIsValid();
    OneIsKept(now);
    RecordsAreDeleted(core, batch);
    BigsCursor(core, batch, 4);
    assert [Quote()][..0] == [];
    assert QUOTE_KEY !in core.records;
    FreshIsAccepted(core, EMPTY_BATCH, Quote(), DEVICE, now);
  }

  lemma QuoteFits(codec: Codec, core: Core, batch: Batch, now: Uint64)
    requires DecodesQuote(codec) && AfterBigs(core, batch, 4) && InClock(now)
    ensures var r := ApplyMutations(core, [Quote()], DEVICE, now);
            && r.Ok? && r.value.1.appliedCount == 1 && r.value.0.cursor == 5
            && DayFits(codec, r.value.0.records) && ProgressDay(codec, RecordRows(r.value.0.records)) == Ok(DATE)
  {
    hide DecodesQuote, AfterBigs, ApplyMutations, RecordDate, DayFits, ProgressDay, RecordRows, Repeated, OpId, Ascii;
    QuoteApplies(core, batch, now);
    RecordsAreDeleted(core, batch);
    QuoteDate(codec, MutationChange(Quote(), 5, 1));
    QuoteDay(codec, ApplyMutations(core, [Quote()], DEVICE, now).value.0.records);
  }

  lemma CommittedParts(t: Tables, batch: Batch, now: Uint64)
    requires Committed(t, batch, now)
    ensures t.lineage == Some(Lineage(FIRST_ID, 1, now, CAMPAIGN_START)) && AfterBigs(t.core, batch, 4)
    ensures Current(t, FIRST_ID) && Ensured(t, FIRST_ID) == t
  {
    hide AfterBigs, Aligned;
  }

  /** The second commit: the progress day becomes the longer date. */
  lemma QuoteCommits(codec: Codec, env: Env, o: Owner, batch: Batch, now: Uint64)
    requires env.codec == codec && InClock(env.now) && DecodesQuote(codec)
    requires Inv(codec, o) && Committed(o.tables, batch, now)
    ensures var r := Diff(env, META, o.tables, Request([Quote()]));
            && r.Ok? && r.value.0.lineage == Some(Lineage(FIRST_ID, 2, env.now, DATE)) && r.value.0.core.cursor == 5
  {
    hide Inv, ValidateDiff, Mutate, ApplyMutations, Diff, AfterBigs, Committed, DiffResponseSize, DayFits,
         ProgressDay, RecordRows, DecodesQuote, IsDeviceId, Quote, AllValid, Ensured, Current;
    BigsAreValid();
    GoodIds();
    CommittedParts(o.tables, batch, now);
    QuoteFits(codec, o.tables.core, batch, env.now);
    assert OnBaseline(codec, META, o, Request([Quote()]));
    DiffIsBatch(codec, env, META, o, Request([Quote()]));
    MutateCommits(codec, env, META.originConnectionId, o, [Quote()], DEVICE);
    MutateParts(env, META.originConnectionId, o.tables, [Quote()], DEVICE);
    MutateProgress(env, META.originConnectionId, o.tables, [Quote()], DEVICE);
    DiffNeverTooLarge(codec, env, META, o, Request([Quote()]));
  }

  /** Sent again after that, at any clock, the first diff no longer fits. */
  lemma ResentIsTooLarge(codec: Codec, env: Env, o: Owner, batch: Batch, now: Uint64, later: Owner, clock: nat)
    requires env.codec == codec && Reaches(codec, o, later) && Committed(o.tables, batch, now) && InClock(clock)
    requires later.tables.lineage == Some(Lineage(FIRST_ID, 2, clock, DATE)) && later.tables.core.cursor == 5
    ensures Diff(env, META, later.tables, Request(Bigs(4))) == Err(ResponseTooLarge)
  {
    BigsAreValid();
    hide Reaches, ValidateDiff, Diff, AfterBigs, DiffResponseSize, AllValid, BigAcks, BigChanges, Bigs, KnownAcks,
         KnownChanges;
    BigsAreKnown(o.tables.core, batch);
    BatchAnswers(o.tables.core, batch);
    ResentDiff(codec, env, META, o, later, Request(Bigs(4)));
    AnswerSize(later.tables.lineage.value, later.tables.core.cursor);
    DayFields();
  }

  lemma BigsAreKnown(core: Core, batch: Batch)
    requires Aligned(core, Bigs(4), batch)
    ensures Known(core, Bigs(4))
    ensures forall i :: 0 <= i < 4 ==> Bigs(4)[i].opId in core.receipts
    ensures batch.acks == KnownAcks(core, Bigs(4)) && batch.canonicalChanges == KnownChanges(core, Bigs(4))
  {
    hide Bigs;
    KnownAnswers(core, core, Bigs(4), batch);
  }

  /** The two commits and what they answered. */
  ghost predicate Grown(codec: Codec, now: Uint64, next: Uint64, o: Owner, later: Owner) {
    && Run(codec, [NEW_OWNER, o, later])
    && Commits(codec, ZeroEnv(codec, now), META, NEW_OWNER, DiffCommand(Request(Bigs(4))), o)
    && Commits(codec, ZeroEnv(codec, next), META, o, DiffCommand(Request([Quote()])), later)
  }

  /** The first diff is answered with a response of exactly the maximal size. */
  ghost predicate FirstJustFits(codec: Codec, now: Uint64) {
    var r := Diff(ZeroEnv(codec, now), META, NEW_OWNER.tables, Request(Bigs(4)));
    r.Ok? && DiffResponseSize(r.value.1.response) == MAX_PROTOBUF_BYTES
  }

  /** Sent again, it is refused for its size at any clock. */
  ghost predicate NoLongerFits(codec: Codec, t: Tables) {
    forall env: Env :: env.codec == codec ==> Diff(env, META, t, Request(Bigs(4))) == Err(ResponseTooLarge)
  }

  /**
   * A diff that was committed can be refused later: from an owner without rows, a diff that the server can
   * read commits with a response of exactly the maximal size; one more commit gives the owner a longer
   * progress day; the first diff, sent again at any clock, is then too large.
   */
  lemma ResentCanBeTooLarge(codec: Codec, now: Uint64, next: Uint64)
    requires InClock(now) && InClock(next) && DecodesQuote(codec)
    ensures Receivable(Request(Bigs(4)))
    ensures FirstJustFits(codec, now)
    ensures exists o, later :: Grown(codec, now, next, o, later) && NoLongerFits(codec, later.tables)
  {
    hide Inv, Diff, Commits, FreshIds, Later, NewBaselineId, Committed, InClock, DecodesQuote, DiffResponseSize,
         DiffRequestSize, Bigs, Quote, Receivable;
    BigRequestFits();
    var env, env' := ZeroEnv(codec, now), ZeroEnv(codec, next);
    EmptyInv(codec);
    FreshFor(env, NEW_OWNER.tables);
    BigsCommit(codec, env);
    var o := Owner(Diff(env, META, NEW_OWNER.tables, Request(Bigs(4))).value.0, 0);
    var batch :| Committed(o.tables, batch, now);
    DiffStep(codec, env, NEW_OWNER, Request(Bigs(4)), o);
    CommitKeepsInv(codec, env, META, NEW_OWNER, DiffCommand(Request(Bigs(4))), o);
    ZeroId(codec, next);
    FreshFor(env', o.tables);
    QuoteCommits(codec, env', o, batch, now);
    var later := Owner(Diff(env', META, o.tables, Request([Quote()])).value.0, 0);
    DiffStep(codec, env', o, Request([Quote()]), later);
    assert Step(codec, NEW_OWNER, o) && Step(codec, o, later);
    assert Run(codec, [NEW_OWNER, o, later]);
    RunReaches(codec, [NEW_OWNER, o, later], 1, 2);
    forall e: Env | e.codec == codec ensures Diff(e, META, later.tables, Request(Bigs(4))) == Err(ResponseTooLarge) {
      ResentIsTooLarge(codec, e, o, batch, now, later, next);
    }
    assert Grown(codec, now, next, o, later);
  }
}
