/** From the validated field limits: a change always fits an event, and three always fit a diff response. */
module WireBounds {
  import opened Prelude
  import opened SyncTypes
  import opened Validation
  import opened Progress
  import opened Tables
  import opened Wire
  import opened SyncSpec
  import opened CoreInvariant
  import opened ArchiveInvariant
  import opened OwnerInvariant
  import opened ResolveInvariant
  import opened History
  import opened Replay
  import opened CommandOutcomes

  const MAX_CHANGE_BYTES := 132901
  const MAX_ACK_BYTES := 146
  const MAX_HEADER_BYTES := 341

  function Pow128(k: nat): nat {
    if k == 0 then 1 else 128 * Pow128(k - 1)
  }

  lemma {:induction false} VarintBound(n: nat, k: nat)
    requires k > 0 && n < Pow128(k)
    ensures VarintSize(n) <= k
  {
    if n >= 128 { VarintBound(n / 128, k - 1); }
  }

  /** The sizes the fields need: two bytes below 2^14, three below 2^21, ten for any uint64. */
  lemma VarintBounds(n: nat)
    ensures n < 16384 ==> VarintSize(n) <= 2
    ensures n < 2097152 ==> VarintSize(n) <= 3
    ensures n <= MAX_UINT64 ==> VarintSize(n) <= 10
  {
    if n < 16384 { VarintBound(n, 2); }
    if n < 2097152 { VarintBound(n, 3); }
    if n <= MAX_UINT64 {
      assert Pow128(5) == 34359738368;
      assert Pow128(10) == 128 * (128 * (128 * (128 * (128 * Pow128(5)))));
      VarintBound(n, 10);
    }
  }

  lemma {:induction false} VarintMonotone(m: nat, n: nat)
    requires m <= n
    ensures VarintSize(m) <= VarintSize(n)
  {
    if m >= 128 { VarintMonotone(m / 128, n / 128); }
  }

  /** A UTF-16 code unit is at most three UTF-8 bytes. */
  lemma {:induction false} Utf8Bound(s: string)
    ensures Utf8Length(s) <= 3 * Utf16Length(s)
    ensures Utf8Length(s) <= 4 * |s|
  {
    if s != "" { Utf8Bound(s[1..]); }
  }

  lemma {:induction false} AsciiLength(s: string)
    requires forall i :: 0 <= i < |s| ==> s[i] as int < 128
    ensures Utf8Length(s) == |s|
  {
    if s != "" { AsciiLength(s[1..]); }
  }

  lemma NumberFieldBound(n: nat)
    requires n <= MAX_UINT64
    ensures NumberField(n) <= 11
  {
    VarintBounds(n);
  }

  lemma DeviceFieldBound(s: string)
    requires IsDeviceId(s)
    ensures StringField(s) <= 131
  {
    AsciiLength(s);
    VarintBounds(|s|);
  }

  lemma BaselineFieldBound(s: string)
    requires IsBaselineId(s)
    ensures StringField(s) <= 43
  {
    forall i | 0 <= i < |s| ensures s[i] as int < 128 {
      if i < 9 { assert s[i] == BASELINE_PREFIX[i]; } else { assert s[i] == s[9..][i - 9]; }
    }
    AsciiLength(s);
    VarintBounds(41);
  }

  lemma ProgressFieldBound(s: string)
    requires |s| <= MAX_PROGRESS_DAY
    ensures StringField(s) <= 259
  {
    Utf8Bound(s);
    VarintBounds(Utf8Length(s));
  }

  lemma ChangeBound(c: Change)
    requires WithinLimits(c) && c.cursor <= MAX_UINT64
    ensures ChangeSize(c) <= MAX_CHANGE_BYTES
  {
    NumberFieldBound(c.cursor);
    NumberFieldBound(c.clientTimeMs);
    DeviceFieldBound(c.deviceId);
    DeviceFieldBound(c.opId);
    Utf8Bound(c.entityKey);
    VarintBounds(Utf8Length(c.entityKey));
    VarintBounds(|c.valueJson|);
    hide VarintSize, Utf8Length, IsDeviceId;
  }

  lemma MessageBound(size: nat, bound: nat)
    requires size <= bound < 2097152
    ensures MessageField(size) <= 4 + bound
  {
    VarintBounds(size);
  }

  lemma {:induction false} ChangesBound(changes: seq<Change>)
    requires forall i :: 0 <= i < |changes| ==> WithinLimits(changes[i]) && changes[i].cursor <= MAX_UINT64
    ensures ChangesSize(changes) <= |changes| * (4 + MAX_CHANGE_BYTES)
  {
    if changes != [] {
      var last := changes[|changes| - 1];
      ChangesBound(changes[..|changes| - 1]);
      ChangeBound(last);
      MessageBound(ChangeSize(last), MAX_CHANGE_BYTES);
      hide ChangeSize, MessageField, WithinLimits;
    }
  }

  lemma AckBound(a: MutationAck)
    requires IsDeviceId(a.opId) && a.serverCursor <= MAX_UINT64
    ensures AckSize(a) <= MAX_ACK_BYTES
  {
    DeviceFieldBound(a.opId);
    NumberFieldBound(a.serverCursor);
  }

  lemma {:induction false} AcksBound(acks: seq<MutationAck>)
    requires forall i :: 0 <= i < |acks| ==> IsDeviceId(acks[i].opId) && acks[i].serverCursor <= MAX_UINT64
    ensures AcksSize(acks) <= |acks| * (4 + MAX_ACK_BYTES)
  {
    if acks != [] {
      var last := acks[|acks| - 1];
      AcksBound(acks[..|acks| - 1]);
      AckBound(last);
      MessageBound(AckSize(last), MAX_ACK_BYTES);
      hide AckSize, MessageField, IsDeviceId;
    }
  }

  /** The lineage fields of a response fit their columns. */
  ghost predicate LineageFits(t: Tables) {
    && t.lineage.Some?
    && var l := t.lineage.value;
    && IsBaselineId(l.baselineId) && |l.progressDay| <= MAX_PROGRESS_DAY
    && l.version <= MAX_UINT64 && l.updatedAtMs <= MAX_UINT64 && t.core.cursor <= MAX_UINT64
  }

  lemma InvFits(codec: Codec, o: Owner)
    requires Inv(codec, o) && o.tables.lineage.Some?
    ensures LineageFits(o.tables)
    ensures forall c :: c in o.tables.core.operations ==>
              WithinLimits(o.tables.core.operations[c]) && o.tables.core.operations[c].cursor <= MAX_UINT64
  {
    hide UniqueOpIds, RecordsViewLog, ReceiptsMatchLog, ResolutionsCurrent, ProgressDay, RecordRows, WithinLimits;
    var b := o.tables.lineage.value.baselineId;
    if b in o.tables.archiveHeads { VersionZero(Rows(o.tables, b), o.tables.archiveHeads[b].version); }
  }

  lemma DiffBound(t: Tables, acks: seq<MutationAck>, canonical: seq<Change>, mismatch: bool)
    requires LineageFits(t)
    ensures DiffResponseSize(DiffResponseOf(t, acks, canonical, mismatch)) <= AcksSize(acks) + ChangesSize(canonical)
              + MAX_HEADER_BYTES
  {
    var l := t.lineage.value;
    BaselineFieldBound(l.baselineId);
    ProgressFieldBound(l.progressDay);
    NumberFieldBound(t.core.cursor);
    NumberFieldBound(l.version);
    NumberFieldBound(l.updatedAtMs);
    hide StringField, NumberField, AcksSize, ChangesSize;
  }

  /** The response to at most three mutations is never too large. */
  lemma ThreeFit(after: Core, t: Tables, ms: seq<Mutation>, deviceId: string, batch: Batch)
    requires LineageFits(t) && Aligned(after, ms, batch) && |ms| <= 3 && AllValid(ms, deviceId)
    requires forall c :: c in after.operations ==>
               WithinLimits(after.operations[c]) && after.operations[c].cursor <= MAX_UINT64
    requires forall c :: c in after.operations ==> c <= MAX_UINT64
    requires forall o :: o in after.receipts ==> after.receipts[o].opId == o
    ensures CheckedDiff(DiffResponseOf(t, batch.acks, batch.canonicalChanges, false)).Ok?
  {
    hide WithinLimits, IsDeviceId, DiffResponseSize, ChangesSize, AcksSize, DiffResponseOf, Utf16Length, LineageFits;
    forall i | 0 <= i < |ms| ensures IsDeviceId(batch.acks[i].opId) && batch.acks[i].serverCursor <= MAX_UINT64 {
      assert ValidateMutation(ms[i], deviceId).Pass?;
    }
    AcksBound(batch.acks);
    ChangesBound(batch.canonicalChanges);
    hide Aligned, AllValid;
    DiffBound(t, batch.acks, batch.canonicalChanges, false);
  }

  /**
   * Halving makes progress: in a reachable state a diff is refused as too large only if it carries at least
   * four mutations, so repeated halving reaches a batch that is not refused for its size.
   */
  lemma TooLargeMeansFour(codec: Codec, env: Env, meta: Metadata, o: Owner, request: DiffRequest)
    requires env.codec == codec && Inv(codec, o)
    requires Diff(env, meta, o.tables, request) == Err(ResponseTooLarge)
    ensures |request.mutations| >= 4
  {
    if |request.mutations| <= 3 {
      DiffNeverTooLarge(codec, env, meta, o, request);
    }
  }

  lemma DiffNeverTooLarge(codec: Codec, env: Env, meta: Metadata, o: Owner, request: DiffRequest)
    requires env.codec == codec && Inv(codec, o) && |request.mutations| <= 3
    ensures Diff(env, meta, o.tables, request) != Err(ResponseTooLarge)
  {
    hide ValidateDiff, Inv, Mutate, EnsureLineage, IsDeviceId, IsBaselineId, CheckedDiff, DiffResponseOf, Aligned,
         AllValid, LineageFits, WithinLimits, Grows, DiffResponseSize;
    ValidRequests(meta.ownerKey);
    if ValidateDiff(meta.ownerKey, request).Pass? {
      EnsureLineageKeepsInv(codec, env, o, request.baselineId);
      var ensured := EnsureLineage(env, o.tables, request.baselineId).value;
      var r := Mutate(env, meta.originConnectionId, ensured, request.mutations, request.deviceId);
      if ensured.lineage.value.baselineId != request.baselineId {
        InvFits(codec, o.(tables := ensured));
        MismatchFits(ensured);
      } else if r.Ok? {
        MutateAnswers(codec, env, meta.originConnectionId, o.(tables := ensured), request.mutations, request.deviceId);
        var (done, batch) := r.value;
        InvFits(codec, o.(tables := done));
        CoreFacts(codec, o.(tables := done));
        ThreeFit(done.core, done, request.mutations, request.deviceId, batch);
      } else {
        MutateErrors(codec, env, meta.originConnectionId, o.(tables := ensured), request.mutations, request.deviceId);
      }
    }
    NotTooLargeErrors(meta.ownerKey, request);
  }

  lemma CoreFacts(codec: Codec, o: Owner)
    requires Inv(codec, o) && o.tables.lineage.Some?
    ensures forall c :: c in o.tables.core.operations ==> c <= MAX_UINT64
    ensures forall q :: q in o.tables.core.receipts ==> o.tables.core.receipts[q].opId == q
  {
    hide UniqueOpIds, RecordsViewLog, LogWithinLimits, ArchiveInv, CurrentArchived, ResolutionsCurrent, LineageSound;
  }

  lemma NotTooLargeErrors(ownerKey: string, request: DiffRequest)
    ensures ValidateDiff(ownerKey, request).Fail? ==> ValidateDiff(ownerKey, request).error != ResponseTooLarge
  {}

  lemma MismatchFits(t: Tables)
    requires LineageFits(t)
    ensures CheckedDiff(DiffResponseOf(t, [], [], true)).Ok?
  {
    DiffBound(t, [], [], true);
    hide DiffResponseSize, LineageFits;
  }

  /** How many of the changes carry a value of the maximal size. */
  function FullCount(changes: seq<Change>): nat {
    if changes == [] then 0
    else
      var last := changes[|changes| - 1];
      FullCount(changes[..|changes| - 1]) + if |last.valueJson| == MAX_VALUE_JSON_BYTES then 1 else 0
  }

  /** Three is the best such bound: with four canonical values of the maximal size a response is always too large. */
  lemma FourFullValuesAreTooLarge(response: DiffResponse)
    requires FullCount(response.canonicalChanges) >= 4
    ensures CheckedDiff(response) == Err(ResponseTooLarge)
  {
    FullValues(response.canonicalChanges);
    hide ChangesSize, AcksSize, StringField, NumberField;
  }

  lemma {:induction false} FullValues(changes: seq<Change>)
    ensures ChangesSize(changes) >= FullCount(changes) * (MAX_VALUE_JSON_BYTES + 1)
  {
    if changes != [] {
      hide StringField, NumberField, VarintSize;
      FullValues(changes[..|changes| - 1]);
    }
  }

  // ----- requests -----

  const MAX_MUTATION_HEADER_BYTES := 1850

  lemma MutationBound(m: Mutation, deviceId: string)
    requires ValidateMutation(m, deviceId).Pass? && IsDeviceId(deviceId)
    ensures MutationSize(m) <= MAX_MUTATION_HEADER_BYTES + |m.valueJson|
  {
    DeviceFieldBound(m.opId);
    DeviceFieldBound(m.deviceId);
    Utf8Bound(m.entityKey);
    VarintBounds(Utf8Length(m.entityKey));
    VarintBounds(|m.valueJson|);
    NumberFieldBound(m.baseVersion);
    NumberFieldBound(m.clientTimeMs);
    NumberFieldBound(m.clientSeq);
    hide VarintSize, Utf8Length, IsDeviceId, Utf16Length;
  }

  function ValueBytes(ms: seq<Mutation>): nat {
    if ms == [] then 0 else ValueBytes(ms[..|ms| - 1]) + |ms[|ms| - 1].valueJson|
  }

  lemma {:induction false} MutationsBound(ms: seq<Mutation>, deviceId: string)
    requires AllValid(ms, deviceId) && IsDeviceId(deviceId)
    ensures MutationsSize(ms) <= |ms| * (4 + MAX_MUTATION_HEADER_BYTES) + ValueBytes(ms)
  {
    if ms != [] {
      var init, last := ms[..|ms| - 1], ms[|ms| - 1];
      assert ValidateMutation(last, deviceId).Pass?;
      assert AllValid(init, deviceId) by { assert forall i :: 0 <= i < |init| ==> init[i] == ms[i]; }
      MutationsBound(init, deviceId);
      MutationBound(last, deviceId);
      assert |last.valueJson| <= MAX_VALUE_JSON_BYTES;
      MessageBound(MutationSize(last), MAX_MUTATION_HEADER_BYTES + |last.valueJson|);
      hide MutationSize, MessageField, AllValid, ValidateMutation, IsDeviceId;
    }
  }

  /** A valid diff request is little longer than its values. */
  lemma RequestBound(ownerKey: string, request: DiffRequest)
    requires ValidateDiff(ownerKey, request).Pass? && AllValid(request.mutations, request.deviceId)
    ensures DiffRequestSize(request) <=
              |request.mutations| * (4 + MAX_MUTATION_HEADER_BYTES) + ValueBytes(request.mutations) + 200
  {
    MutationsBound(request.mutations, request.deviceId);
    DeviceFieldBound(request.deviceId);
    BaselineFieldBound(request.baselineId);
    NumberFieldBound(request.localVersion);
    NumberFieldBound(request.localUpdatedAtMs);
    hide StringField, NumberField, MutationsSize, AllValid, IsDeviceId;
  }
}
