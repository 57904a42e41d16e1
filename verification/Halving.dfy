/** The documented retry: a diff refused for its size is sent again in halves. */
module Halving {
  import opened Prelude
  import opened SyncTypes
  import opened Validation
  import opened Progress
  import opened Tables
  import opened Wire
  import opened SyncSpec
  import opened CoreInvariant
  import opened ArchiveInvariant
  import opened OwnerInvariant
  import opened ResolveInvariant
  import opened History
  import opened Replay
  import opened Batching
  import opened CommandOutcomes
  import opened WireBounds

  // ----- when a batch commits -----

  /** The progress day of the records derives and fits its column. */
  predicate DayFits(codec: Codec, records: map<string, Change>) {
    var day := ProgressDay(codec, RecordRows(records));
    day.Ok? && |day.value| <= MAX_PROGRESS_DAY
  }

  /** The batch applies, and if it changes the records their progress day fits. */
  predicate Committable(codec: Codec, core: Core, ms: seq<Mutation>, deviceId: string, now: Uint64) {
    var r := ApplyMutations(core, ms, deviceId, now);
    r.Ok? && (r.value.1.appliedCount == 0 || DayFits(codec, r.value.0.records))
  }

  predicate DayError(e: Error) {
    e == BadPercentEncoding || e == DataTooLong
  }

  lemma VersionWithinHead(codec: Codec, o: Owner)
    requires Inv(codec, o) && o.tables.lineage.Some?
    ensures o.tables.lineage.value.version <= o.tables.core.cursor
  {
    hide CoreInv, ResolutionsCurrent, LineageSound, Keyed;
    var l := o.tables.lineage.value;
    if l.baselineId in o.tables.archiveHeads { VersionZero(Rows(o.tables, l.baselineId), l.version); }
  }

  lemma FinalizeCommits(env: Env, origin: string, t: Tables, core: Core, batch: Batch)
    requires t.lineage.Some? && Dense(t.core) && Dense(core) && ArchiveInv(t) && CurrentArchived(t)
    requires Grows(t.core, core) && ArchivesAppended(t.core, core, batch) && batch.appliedCount > 0
    requires t.lineage.value.version < MAX_UINT64
    ensures FinalizeBatch(env, origin, t.(core := core), batch).Ok? <==> DayFits(env.codec, core.records)
    ensures FinalizeBatch(env, origin, t.(core := core), batch).Err? ==>
              DayError(FinalizeBatch(env, origin, t.(core := core), batch).error)
  {
    hide ProgressDay, RecordRows, Publish, Dense, Grows, ArchivesAppended, CurrentArchived, NextInLine, Rows,
         ArchiveInv;
    var day := ProgressDay(env.codec, RecordRows(core.records));
    ProgressErrors(env.codec, RecordRows(core.records));
    if DayFits(env.codec, core.records) {
      var versioned := t.(core := core).IncrementLineage(env.now, day.value).value;
      VersionedInLine(t, core, batch, versioned.lineage.value);
      PublishInLine(env, origin, versioned, batch.archiveChanges);
    }
  }

  /** In a reachable state a batch commits iff it is committable; otherwise it fails by itself or by its day. */
  lemma MutateCommits(codec: Codec, env: Env, origin: string, o: Owner, ms: seq<Mutation>, deviceId: string)
    requires env.codec == codec && IsDeviceId(deviceId) && Inv(codec, o) && o.tables.lineage.Some?
    ensures var r := Mutate(env, origin, o.tables, ms, deviceId);
            && (r.Ok? <==> Committable(codec, o.tables.core, ms, deviceId, env.now))
            && (r.Err? && ApplyMutations(o.tables.core, ms, deviceId, env.now).Ok? ==> DayError(r.error))
  {
    hide Dense, UniqueOpIds, RecordsViewLog, ReceiptsMatchLog, LogWithinLimits, ArchiveInv, CurrentArchived,
         ApplyMutations, ResolutionsCurrent, LineageSound, Grows, Aligned, ForcedAreConflicts, ArchivesAppended,
         FinalizeBatch, DayFits;
    if ApplyMutations(o.tables.core, ms, deviceId, env.now).Ok? {
      ApplyMutationsKeepsInv(o.tables.core, ms, deviceId, env.now, o.snapshotLen);
      var (core, batch) := ApplyMutations(o.tables.core, ms, deviceId, env.now).value;
      VersionWithinHead(codec, o);
      if batch.appliedCount > 0 {
        HeadRoom(o.tables.core, core, batch);
        FinalizeCommits(env, origin, o.tables, core, batch);
      } else {
        NothingToFinalize(env, origin, o.tables.(core := core), batch);
      }
    }
  }

  lemma HeadRoom(before: Core, after: Core, batch: Batch)
    requires Dense(after) && ArchivesAppended(before, after, batch) && batch.appliedCount > 0
    ensures before.cursor < MAX_UINT64
  {}

  lemma NothingToFinalize(env: Env, origin: string, t: Tables, batch: Batch)
    requires batch.appliedCount == 0
    ensures FinalizeBatch(env, origin, t, batch) == Ok(t)
  {}

  /**
   * Of a batch that commits as a whole, the first part commits iff it applies nothing or leaves a progress
   * day that derives and fits; the second part then always commits.
   */
  lemma HalvesCommit(codec: Codec, env: Env, origin: string, o: Owner, xs: seq<Mutation>, ys: seq<Mutation>,
                     deviceId: string)
    requires env.codec == codec && IsDeviceId(deviceId) && Inv(codec, o) && o.tables.lineage.Some?
    requires Mutate(env, origin, o.tables, xs + ys, deviceId).Ok?
    ensures ApplyMutations(o.tables.core, xs, deviceId, env.now).Ok?
    ensures var (core, first) := ApplyMutations(o.tables.core, xs, deviceId, env.now).value;
            var half := Mutate(env, origin, o.tables, xs, deviceId);
            && (half.Ok? <==> first.appliedCount == 0 || DayFits(codec, core.records))
            && (half.Ok? ==> Mutate(env, origin, half.value.0, ys, deviceId).Ok?)
            && (half.Err? ==> DayError(half.error))
  {
    hide Inv, Mutate, ApplyMutations, DayFits, IsDeviceId, CoreInv, Aligned, ForcedAreConflicts, Grows, Later;
    MutateCommits(codec, env, origin, o, xs + ys, deviceId);
    MutateCommits(codec, env, origin, o, xs, deviceId);
    ApplySplit(o.tables.core, xs, ys, deviceId, env.now);
    var half := Mutate(env, origin, o.tables, xs, deviceId);
    if half.Ok? {
      MutateKeepsInv(codec, env, origin, o, xs, deviceId);
      MutateParts(env, origin, o.tables, xs, deviceId);
      MutateProgress(env, origin, o.tables, xs, deviceId);
      MutateCommits(codec, env, origin, o.(tables := half.value.0), ys, deviceId);
    }
  }

  /** Two states that differ only in versioning treat a batch alike. */
  lemma VersionsDoNotMatter(codec: Codec, env: Env, origin: string, a: Owner, b: Owner, ms: seq<Mutation>,
                            deviceId: string)
    requires env.codec == codec && IsDeviceId(deviceId) && Inv(codec, a) && Inv(codec, b)
    requires SameButVersions(a.tables, b.tables)
    ensures var r, s := Mutate(env, origin, a.tables, ms, deviceId), Mutate(env, origin, b.tables, ms, deviceId);
            && (r.Ok? <==> s.Ok?)
            && (r.Ok? ==> r.value.1 == s.value.1 && SameButVersions(r.value.0, s.value.0))
  {
    hide Inv, Mutate, ApplyMutations, DayFits, IsDeviceId, ProgressDay, RecordRows;
    MutateCommits(codec, env, origin, a, ms, deviceId);
    MutateCommits(codec, env, origin, b, ms, deviceId);
    if Mutate(env, origin, a.tables, ms, deviceId).Ok? {
      MutateParts(env, origin, a.tables, ms, deviceId);
      MutateParts(env, origin, b.tables, ms, deviceId);
      MutateProgress(env, origin, a.tables, ms, deviceId);
      MutateProgress(env, origin, b.tables, ms, deviceId);
    }
  }

  lemma SameReflexive(a: Tables)
    requires a.lineage.Some?
    ensures SameButVersions(a, a)
  {}

  lemma SameTransitive(a: Tables, b: Tables, c: Tables)
    requires SameButVersions(a, b) && SameButVersions(b, c)
    ensures SameButVersions(a, c)
  {}

  // ----- a diff as a batch -----

  /** The tables a diff works on: an owner without rows first adopts the requested baseline. */
  function Ensured(t: Tables, baselineId: string): (u: Tables)
    ensures u.lineage.Some?
  {
    if t.lineage.Some? then t else EMPTY.(lineage := Some(Lineage(baselineId, 0, 0, CAMPAIGN_START)))
  }

  /** A valid diff on its own baseline is the batch, checked for the size of its response. */
  ghost predicate OnBaseline(codec: Codec, meta: Metadata, o: Owner, request: DiffRequest) {
    && Inv(codec, o) && ValidateDiff(meta.ownerKey, request).Pass?
    && Current(Ensured(o.tables, request.baselineId), request.baselineId)
  }

  lemma DiffIsBatch(codec: Codec, env: Env, meta: Metadata, o: Owner, request: DiffRequest)
    requires env.codec == codec && OnBaseline(codec, meta, o, request)
    ensures IsDeviceId(request.deviceId)
    ensures var t := Ensured(o.tables, request.baselineId);
            var r := Mutate(env, meta.originConnectionId, t, request.mutations, request.deviceId);
            var diff := Diff(env, meta, o.tables, request);
            && Inv(codec, o.(tables := t))
            && if r.Err? then diff == Err(r.error)
               else var (done, batch) := r.value;
                    var response := DiffResponseOf(done, batch.acks, batch.canonicalChanges, false);
                    if DiffResponseSize(response) > MAX_PROTOBUF_BYTES then diff == Err(ResponseTooLarge)
                    else diff == Ok((done, Reply(response, batch.appliedCount > 0)))
  {
    hide ValidateDiff, Inv, Mutate, IsDeviceId, IsBaselineId, EnsureLineage, DiffResponseSize;
    ValidRequests(meta.ownerKey);
    EnsureLineageKeepsInv(codec, env, o, request.baselineId);
  }

  lemma MutateNotTooLarge(codec: Codec, env: Env, origin: string, o: Owner, ms: seq<Mutation>, deviceId: string)
    requires env.codec == codec && IsDeviceId(deviceId) && Inv(codec, o) && o.tables.lineage.Some?
    ensures Mutate(env, origin, o.tables, ms, deviceId) != Err(ResponseTooLarge)
  {
    hide Mutate, Inv, IsDeviceId;
    MutateErrors(codec, env, origin, o, ms, deviceId);
  }

  /** Only a batch that would commit is refused for its size, and only one of at least four mutations. */
  lemma TooLargeMeansCommittable(codec: Codec, env: Env, meta: Metadata, o: Owner, request: DiffRequest)
    requires env.codec == codec && Inv(codec, o) && Diff(env, meta, o.tables, request) == Err(ResponseTooLarge)
    ensures OnBaseline(codec, meta, o, request) && |request.mutations| >= 4
    ensures var t := Ensured(o.tables, request.baselineId);
            Mutate(env, meta.originConnectionId, t, request.mutations, request.deviceId).Ok?
  {
    TooLargeMeansFour(codec, env, meta, o, request);
    hide ValidateDiff, Inv, Mutate, IsDeviceId, IsBaselineId, EnsureLineage, CheckedDiff, LineageFits;
    ValidRequests(meta.ownerKey);
    NotTooLargeErrors(meta.ownerKey, request);
    EnsureLineageKeepsInv(codec, env, o, request.baselineId);
    var t := Ensured(o.tables, request.baselineId);
    if t.lineage.value.baselineId != request.baselineId {
      InvFits(codec, o.(tables := t));
      MismatchFits(t);
    } else {
      MutateNotTooLarge(codec, env, meta.originConnectionId, o.(tables := t), request.mutations, request.deviceId);
    }
  }

  function Part(request: DiffRequest, ms: seq<Mutation>): DiffRequest {
    request.(mutations := ms)
  }

  lemma PartsAreValid(ownerKey: string, request: DiffRequest, i: nat, j: nat)
    requires i <= j <= |request.mutations| && ValidateDiff(ownerKey, request).Pass?
    ensures ValidateDiff(ownerKey, Part(request, request.mutations[i..j])).Pass?
  {
    hide IsOwnerKey, IsDeviceId, IsBaselineId;
    var ms := request.mutations;
    forall k | 0 <= k < |ms[i..j]| ensures SafeNumbers(ms[i..j][k]) {
      assert ms[i..j][k] == ms[i + k];
    }
  }

  lemma PrefixIsValid(ownerKey: string, request: DiffRequest, k: nat)
    requires k <= |request.mutations| && ValidateDiff(ownerKey, request).Pass?
    ensures ValidateDiff(ownerKey, Part(request, request.mutations[..k])).Pass?
    ensures ValidateDiff(ownerKey, Part(request, request.mutations[k..])).Pass?
  {
    PartsAreValid(ownerKey, request, 0, k);
    PartsAreValid(ownerKey, request, k, |request.mutations|);
    assert request.mutations[0..k] == request.mutations[..k];
    assert request.mutations[k..|request.mutations|] == request.mutations[k..];
  }

  lemma BaselineParts(codec: Codec, meta: Metadata, o: Owner, request: DiffRequest)
    requires OnBaseline(codec, meta, o, request)
    ensures Inv(codec, o) && ValidateDiff(meta.ownerKey, request).Pass?
  {
    hide Inv, ValidateDiff;
  }

  /** After the first part, the second is again a valid diff on its own baseline. */
  lemma StaysOnBaseline(codec: Codec, env: Env, meta: Metadata, o: Owner, mid: Owner, request: DiffRequest,
                        xs: seq<Mutation>, ys: seq<Mutation>)
    requires OnBaseline(codec, meta, o, request) && Inv(codec, mid) && IsDeviceId(request.deviceId)
    requires ValidateDiff(meta.ownerKey, Part(request, xs)).Pass?
              && ValidateDiff(meta.ownerKey, Part(request, ys)).Pass?
    requires var t := Ensured(o.tables, request.baselineId);
             var half := Mutate(env, meta.originConnectionId, t, xs, request.deviceId);
             half.Ok? && SameButVersions(half.value.0, mid.tables)
    ensures OnBaseline(codec, meta, o, Part(request, xs)) && OnBaseline(codec, meta, mid, Part(request, ys))
    ensures Ensured(mid.tables, request.baselineId) == mid.tables
  {
    hide ValidateDiff, Inv, Mutate, IsDeviceId;
    MutateParts(env, meta.originConnectionId, Ensured(o.tables, request.baselineId), xs, request.deviceId);
  }

  lemma PartOnBaseline(codec: Codec, meta: Metadata, o: Owner, request: DiffRequest, xs: seq<Mutation>)
    requires OnBaseline(codec, meta, o, request) && ValidateDiff(meta.ownerKey, Part(request, xs)).Pass?
    ensures OnBaseline(codec, meta, o, Part(request, xs))
  {
    hide ValidateDiff, Inv;
  }

  // ----- one halving -----

  /** The two parts of a batch, sent one after the other, delivered what the whole would have. */
  ghost predicate Delivers(whole: Tables, batch: Batch, done: Tables, acks: seq<MutationAck>, changes: seq<Change>) {
    SameButVersions(whole, done) && acks == batch.acks && changes == batch.canonicalChanges
  }

  /** A part is accepted, or refused for its size and cut again. */
  predicate AcceptedOrTooLarge(r: Result<(Tables, Reply<DiffResponse>)>) {
    r.Ok? || r.error == ResponseTooLarge
  }

  /**
   * A diff cut at k, for a batch that would commit but perhaps for its size, as every batch refused for its
   * size would. If the first part applies nothing, or leaves a progress day that derives and fits, it is
   * accepted or itself too large; once it is accepted, so is the second part, and the two deliver what the
   * whole batch would have. Otherwise, and only then, the first part fails for its progress day.
   */
  lemma HalvedDiffsMatchWhole(codec: Codec, env: Env, meta: Metadata, o: Owner, request: DiffRequest, k: nat)
    requires env.codec == codec && OnBaseline(codec, meta, o, request) && k <= |request.mutations|
    requires Mutate(env, meta.originConnectionId, Ensured(o.tables, request.baselineId), request.mutations,
                    request.deviceId).Ok?
    ensures ApplyMutations(Ensured(o.tables, request.baselineId).core, request.mutations[..k], request.deviceId,
                           env.now).Ok?
    ensures var t := Ensured(o.tables, request.baselineId);
            var (whole, batch) := Mutate(env, meta.originConnectionId, t, request.mutations, request.deviceId).value;
            var (core, part) := ApplyMutations(t.core, request.mutations[..k], request.deviceId, env.now).value;
            var first := Diff(env, meta, o.tables, Part(request, request.mutations[..k]));
            && (part.appliedCount == 0 || DayFits(codec, core.records) <==> AcceptedOrTooLarge(first))
            && (!AcceptedOrTooLarge(first) ==> DayError(first.error))
            && (first.Ok? ==>
                  var second := Diff(env, meta, first.value.0, Part(request, request.mutations[k..]));
                  && AcceptedOrTooLarge(second)
                  && (second.Ok? ==>
                        var (a, b) := (first.value.1.response, second.value.1.response);
                        Delivers(whole, batch, second.value.0, a.acks + b.acks,
                                 a.canonicalChanges + b.canonicalChanges)))
  {
    hide ValidateDiff, Inv, Mutate, ApplyMutations, DayFits, IsDeviceId, Diff, SameButVersions, DiffResponseSize,
         Later, OnBaseline;
    BaselineParts(codec, meta, o, request);
    DiffIsBatch(codec, env, meta, o, request);
    var xs, ys := request.mutations[..k], request.mutations[k..];
    assert xs + ys == request.mutations;
    PrefixIsValid(meta.ownerKey, request, k);
    var origin, t := meta.originConnectionId, Ensured(o.tables, request.baselineId);
    HalvesCommit(codec, env, origin, o.(tables := t), xs, ys, request.deviceId);
    PartOnBaseline(codec, meta, o, request, xs);
    DiffIsBatch(codec, env, meta, o, Part(request, xs));
    if Diff(env, meta, o.tables, Part(request, xs)).Ok? {
      var half := Mutate(env, origin, t, xs, request.deviceId).value.0;
      MutateKeepsInv(codec, env, origin, o.(tables := t), xs, request.deviceId);
      MutateParts(env, origin, t, xs, request.deviceId);
      MutateProgress(env, origin, t, xs, request.deviceId);
      SameReflexive(half);
      StaysOnBaseline(codec, env, meta, o, o.(tables := half), request, xs, ys);
      DiffIsBatch(codec, env, meta, o.(tables := half), Part(request, ys));
      HalvesMatchWhole(codec, env, origin, o.(tables := t), xs, ys, request.deviceId);
    }
  }

  // ----- the whole retry -----

  /** What the client does: send a batch, and when it is refused for its size, send its halves the same way. */
  function Retry(env: Env, meta: Metadata, t: Tables,
                 request: DiffRequest): Result<(Tables, seq<MutationAck>, seq<Change>)>
    decreases |request.mutations|
  {
    var whole := Diff(env, meta, t, request);
    if whole.Ok? then
      Ok((whole.value.0, whole.value.1.response.acks, whole.value.1.response.canonicalChanges))
    else if whole.error != ResponseTooLarge || |request.mutations| < 2 then
      Err(whole.error)
    else
      var k := |request.mutations| / 2;
      var (half, acks, changes) :- Retry(env, meta, t, Part(request, request.mutations[..k]));
      var (done, moreAcks, moreChanges) :- Retry(env, meta, half, Part(request, request.mutations[k..]));
      Ok((done, acks + moreAcks, changes + moreChanges))
  }

  /** Wherever the batch is cut, what comes before the cut is committable. */
  ghost predicate EveryPrefixCommittable(codec: Codec, core: Core, ms: seq<Mutation>, deviceId: string, now: Uint64) {
    forall k :: 0 <= k <= |ms| ==> Committable(codec, core, ms[..k], deviceId, now)
  }

  lemma PrefixesOfHalves(codec: Codec, core: Core, ms: seq<Mutation>, deviceId: string, now: Uint64, k: nat)
    requires k <= |ms| && EveryPrefixCommittable(codec, core, ms, deviceId, now)
    ensures EveryPrefixCommittable(codec, core, ms[..k], deviceId, now)
    ensures ApplyMutations(core, ms[..k], deviceId, now).Ok?
    ensures EveryPrefixCommittable(codec, ApplyMutations(core, ms[..k], deviceId, now).value.0, ms[k..], deviceId, now)
  {
    hide ApplyMutations, DayFits;
    var xs, ys := ms[..k], ms[k..];
    assert Committable(codec, core, xs, deviceId, now);
    forall j | 0 <= j <= |xs| ensures Committable(codec, core, xs[..j], deviceId, now) {
      assert xs[..j] == ms[..j];
    }
    var mid := ApplyMutations(core, xs, deviceId, now).value.0;
    forall j | 0 <= j <= |ys| ensures Committable(codec, mid, ys[..j], deviceId, now) {
      assert ms[..k + j] == xs + ys[..j];
      assert Committable(codec, core, ms[..k + j], deviceId, now);
      ApplySplit(core, xs, ys[..j], deviceId, now);
    }
  }

  /** The retry in terms of the batch on the ensured tables: it delivers the batch, or fails for a progress day. */
  ghost predicate RetryMeaning(codec: Codec, whole: Result<(Tables, Batch)>, o: Owner,
                               r: Result<(Tables, seq<MutationAck>, seq<Change>)>)
  {
    if r.Err? then DayError(r.error)
    else whole.Ok? && Delivers(whole.value.0, whole.value.1, r.value.0, r.value.1, r.value.2)
         && Inv(codec, o.(tables := r.value.0))
  }

  lemma JoinedRetry(codec: Codec, env: Env, origin: string, o: Owner, mid: Owner, xs: seq<Mutation>,
                    ys: seq<Mutation>, deviceId: string, acks: seq<MutationAck>, changes: seq<Change>)
    requires env.codec == codec && IsDeviceId(deviceId) && Inv(codec, o) && o.tables.lineage.Some? && Inv(codec, mid)
    requires Mutate(env, origin, o.tables, xs + ys, deviceId).Ok? && Mutate(env, origin, o.tables, xs, deviceId).Ok?
    requires var (half, first) := Mutate(env, origin, o.tables, xs, deviceId).value;
             Delivers(half, first, mid.tables, acks, changes)
    ensures Mutate(env, origin, mid.tables, ys, deviceId).Ok?
    ensures var (whole, batch) := Mutate(env, origin, o.tables, xs + ys, deviceId).value;
            var (after, second) := Mutate(env, origin, mid.tables, ys, deviceId).value;
            Delivers(whole, batch, after, acks + second.acks, changes + second.canonicalChanges)
  {
    hide Inv, Mutate, SameButVersions, IsDeviceId, Later, ApplyMutations, DayFits;
    HalvesCommit(codec, env, origin, o, xs, ys, deviceId);
    HalvesMatchWhole(codec, env, origin, o, xs, ys, deviceId);
    MutateKeepsInv(codec, env, origin, o, xs, deviceId);
    var half := o.(tables := Mutate(env, origin, o.tables, xs, deviceId).value.0);
    VersionsDoNotMatter(codec, env, origin, half, mid, ys, deviceId);
    SameTransitive(Mutate(env, origin, o.tables, xs + ys, deviceId).value.0,
                   Mutate(env, origin, half.tables, ys, deviceId).value.0,
                   Mutate(env, origin, mid.tables, ys, deviceId).value.0);
  }

  lemma SentWhole(codec: Codec, env: Env, meta: Metadata, o: Owner, request: DiffRequest)
    requires env.codec == codec && OnBaseline(codec, meta, o, request) && Diff(env, meta, o.tables, request).Ok?
    ensures var t := Ensured(o.tables, request.baselineId);
            RetryMeaning(codec, Mutate(env, meta.originConnectionId, t, request.mutations, request.deviceId), o,
                         Retry(env, meta, o.tables, request))
  {
    hide Inv, Mutate, OnBaseline, DiffResponseSize, Diff, Later, IsDeviceId;
    DiffIsBatch(codec, env, meta, o, request);
    var t := Ensured(o.tables, request.baselineId);
    MutateKeepsInv(codec, env, meta.originConnectionId, o.(tables := t), request.mutations, request.deviceId);
    MutateProgress(env, meta.originConnectionId, t, request.mutations, request.deviceId);
  }

  lemma PrefixMutates(codec: Codec, env: Env, origin: string, o: Owner, xs: seq<Mutation>, deviceId: string)
    requires env.codec == codec && IsDeviceId(deviceId) && Inv(codec, o) && o.tables.lineage.Some?
    requires EveryPrefixCommittable(codec, o.tables.core, xs, deviceId, env.now)
    ensures Mutate(env, origin, o.tables, xs, deviceId).Ok?
  {
    hide Mutate, Inv, IsDeviceId, Committable;
    assert Committable(codec, o.tables.core, xs[..|xs|], deviceId, env.now);
    assert xs[..|xs|] == xs;
    MutateCommits(codec, env, origin, o, xs, deviceId);
  }

  lemma SameCore(env: Env, origin: string, t: Tables, xs: seq<Mutation>, deviceId: string, half: Tables)
    requires t.lineage.Some? && Mutate(env, origin, t, xs, deviceId).Ok?
    requires SameButVersions(Mutate(env, origin, t, xs, deviceId).value.0, half)
    ensures ApplyMutations(t.core, xs, deviceId, env.now).Ok?
    ensures half.core == ApplyMutations(t.core, xs, deviceId, env.now).value.0
  {
    hide Mutate, ApplyMutations;
    MutateParts(env, origin, t, xs, deviceId);
  }

  /**
   * The retry as a whole, for a batch that would commit but for its size. It never ends refused for size. If
   * it ends well, it has delivered exactly what the batch would have, whatever cuts it took; if it fails, a
   * part it had to commit on its own left a progress day that does not derive or fit. It cannot fail when
   * every prefix of the batch is committable.
   */
  lemma {:induction false} RetryDelivers(codec: Codec, env: Env, meta: Metadata, o: Owner, request: DiffRequest)
    requires env.codec == codec && OnBaseline(codec, meta, o, request)
    requires Mutate(env, meta.originConnectionId, Ensured(o.tables, request.baselineId), request.mutations,
                    request.deviceId).Ok?
    ensures var t := Ensured(o.tables, request.baselineId);
            RetryMeaning(codec, Mutate(env, meta.originConnectionId, t, request.mutations, request.deviceId), o,
                         Retry(env, meta, o.tables, request))
    ensures EveryPrefixCommittable(codec, Ensured(o.tables, request.baselineId).core, request.mutations,
                                   request.deviceId, env.now)
            ==> Retry(env, meta, o.tables, request).Ok?
    decreases |request.mutations|
  {
    hide Inv, Mutate, OnBaseline, DiffResponseSize, Diff, Later, IsDeviceId, ValidateDiff, ApplyMutations, DayFits,
         SameButVersions, EveryPrefixCommittable;
    DiffIsBatch(codec, env, meta, o, request);
    if Diff(env, meta, o.tables, request).Ok? {
      SentWhole(codec, env, meta, o, request);
    } else {
      BaselineParts(codec, meta, o, request);
      TooLargeMeansCommittable(codec, env, meta, o, request);
      var origin, t := meta.originConnectionId, Ensured(o.tables, request.baselineId);
      var k := |request.mutations| / 2;
      var xs, ys := request.mutations[..k], request.mutations[k..];
      assert xs + ys == request.mutations;
      PrefixIsValid(meta.ownerKey, request, k);
      PartOnBaseline(codec, meta, o, request, xs);
      HalvesCommit(codec, env, origin, o.(tables := t), xs, ys, request.deviceId);
      if EveryPrefixCommittable(codec, t.core, request.mutations, request.deviceId, env.now) {
        PrefixesOfHalves(codec, t.core, request.mutations, request.deviceId, env.now, k);
        PrefixMutates(codec, env, origin, o.(tables := t), xs, request.deviceId);
      }
      if Mutate(env, origin, t, xs, request.deviceId).Err? {
        DiffIsBatch(codec, env, meta, o, Part(request, xs));
      } else {
        RetryDelivers(codec, env, meta, o, Part(request, xs));
        if Retry(env, meta, o.tables, Part(request, xs)).Ok? {
          var (half, acks, changes) := Retry(env, meta, o.tables, Part(request, xs)).value;
          var mid := o.(tables := half);
          JoinedRetry(codec, env, origin, o.(tables := t), mid, xs, ys, request.deviceId, acks, changes);
          StaysOnBaseline(codec, env, meta, o, mid, request, xs, ys);
          SameCore(env, origin, t, xs, request.deviceId, half);
          RetryDelivers(codec, env, meta, mid, Part(request, ys));
          var r := Retry(env, meta, mid.tables, Part(request, ys));
          if r.Ok? {
            var whole := Mutate(env, origin, t, request.mutations, request.deviceId).value;
            var after := Mutate(env, origin, mid.tables, ys, request.deviceId).value;
            SameTransitive(whole.0, after.0, r.value.0);
          }
        }
      }
    }
  }
}
