/** Idempotence, conflicts and batching of mutations. */
module Replay {
  import opened Prelude
  import opened SyncTypes
  import opened Validation
  import opened Progress
  import opened Tables
  import opened SyncSpec
  import opened CoreInvariant
  import opened ArchiveInvariant
  import opened OwnerInvariant
  import opened ResolveInvariant
  import opened History

  // ----- a batch and its prefixes -----

  /** A batch that commits has only valid mutations, and each of its prefixes commits too. */
  lemma {:induction false} PrefixCommits(core: Core, ms: seq<Mutation>, deviceId: string, now: Uint64, i: nat)
    requires i <= |ms| && ApplyMutations(core, ms, deviceId, now).Ok?
    ensures ApplyMutations(core, ms[..i], deviceId, now).Ok?
    ensures AllValid(ms, deviceId)
  {
    hide ApplyMutation;
    if ms != [] {
      var init, last := ms[..|ms| - 1], ms[|ms| - 1];
      PrefixCommits(core, init, deviceId, now, if i < |ms| then i else |init|);
      if i < |ms| { assert init[..i] == ms[..i]; } else { assert ms[..i] == ms; }
      var (mid, batch) := ApplyMutations(core, init, deviceId, now).value;
      OneValid(mid, batch, last, deviceId, now);
      forall j | 0 <= j < |ms| ensures ValidateMutation(ms[j], deviceId).Pass? {
        if j < |init| { assert init[j] == ms[j]; }
      }
    }
  }

  lemma OneValid(core: Core, batch: Batch, m: Mutation, deviceId: string, now: Uint64)
    requires ApplyMutation(core, batch, m, deviceId, now).Ok?
    ensures ValidateMutation(m, deviceId).Pass?
  {}

  /** One mutation adds one ack and one canonical change; the earlier ones stay. */
  lemma StepAppends(core: Core, batch: Batch, m: Mutation, deviceId: string, now: Uint64)
    requires ApplyMutation(core, batch, m, deviceId, now).Ok?
    ensures var done := ApplyMutation(core, batch, m, deviceId, now).value.1;
            && |done.acks| == |batch.acks| + 1 && done.acks[..|batch.acks|] == batch.acks
            && |done.canonicalChanges| == |batch.canonicalChanges| + 1
            && done.canonicalChanges[..|batch.canonicalChanges|] == batch.canonicalChanges
  {}

  /** part holds the first i acks and canonical changes of whole. */
  ghost predicate Prefix(part: Batch, whole: Batch, i: nat) {
    && |part.acks| == |part.canonicalChanges| == i <= |whole.acks| == |whole.canonicalChanges|
    && part.acks == whole.acks[..i] && part.canonicalChanges == whole.canonicalChanges[..i]
  }

  lemma {:induction false} PrefixAcks(core: Core, ms: seq<Mutation>, deviceId: string, now: Uint64, i: nat)
    requires i <= |ms| && ApplyMutations(core, ms, deviceId, now).Ok?
    ensures ApplyMutations(core, ms[..i], deviceId, now).Ok?
    ensures |ApplyMutations(core, ms, deviceId, now).value.1.acks| == |ms|
    ensures Prefix(ApplyMutations(core, ms[..i], deviceId, now).value.1,
                   ApplyMutations(core, ms, deviceId, now).value.1, i)
  {
    hide ApplyMutation;
    if ms != [] {
      var init, last := ms[..|ms| - 1], ms[|ms| - 1];
      var k := if i < |ms| then i else |init|;
      PrefixAcks(core, init, deviceId, now, k);
      var (mid, batch) := ApplyMutations(core, init, deviceId, now).value;
      StepAppends(mid, batch, last, deviceId, now);
      if i < |ms| { assert init[..i] == ms[..i]; } else { assert ms[..i] == ms; }
    }
  }

  // ----- no lost updates -----

  /** No operation on the key lies above the version. */
  ghost predicate UpToDate(core: Core, entityKey: string, version: nat) {
    forall c :: c in core.operations && core.operations[c].entityKey == entityKey ==> c <= version
  }

  lemma ConflictMeaning(core: Core, m: Mutation, snapshotLen: nat)
    requires CoreInv(core, snapshotLen)
    ensures Conflicts(core, m) <==> !UpToDate(core, m.entityKey, m.baseVersion)
  {
    hide UniqueOpIds, ReceiptsMatchLog, LogWithinLimits;
    if Conflicts(core, m) {
      var c := core.records[m.entityKey].cursor;
      assert c in core.operations && core.operations[c].entityKey == m.entityKey;
    }
  }

  function Distance(a: int, b: int): nat {
    if a < b then b - a else a - b
  }

  /**
   * The stored time is the point of [1, now + five minutes] nearest to the client's time; in the last five
   * minutes before 2^64 the upper end wraps around, and a later time is cut to what it wraps to.
   */
  ghost predicate IsStoredTime(time: nat, clientTime: nat, now: Uint64) {
    if now + 300000 < 0x1_0000_0000_0000_0000 then
      && 1 <= time <= now + 300000
      && forall other: nat :: 1 <= other <= now + 300000 ==> Distance(time, clientTime) <= Distance(other, clientTime)
    else
      time == if clientTime == 0 then 1 else Min(clientTime, now + 300000 - 0x1_0000_0000_0000_0000)
  }

  lemma ClampIsStoredTime(clientTime: nat, now: Uint64)
    ensures IsStoredTime(ClampClientTime(clientTime, now), clientTime, now)
  {}

  /** How a fresh mutation is answered on the state before it. */
  ghost predicate FreshAnswer(before: Core, m: Mutation, now: Uint64, ack: MutationAck, canonical: Change) {
    && ack.opId == m.opId
    && ack.conflict == !ack.applied
    && ack.serverCursor == canonical.cursor
    && if UpToDate(before, m.entityKey, m.baseVersion) then
         && ack.applied
         && canonical == Change(before.cursor + 1, m.entityKey, m.valueJson, m.deleted, m.deviceId,
                                canonical.clientTimeMs, m.opId)
         && IsStoredTime(canonical.clientTimeMs, m.clientTimeMs, now)
       else
         && !ack.applied
         && canonical.cursor in before.operations && before.operations[canonical.cursor] == canonical
         && canonical.entityKey == m.entityKey
         && UpToDate(before, m.entityKey, canonical.cursor)
  }

  lemma FreshIsAnswered(core: Core, batch: Batch, m: Mutation, deviceId: string, now: Uint64, snapshotLen: nat)
    requires CoreInv(core, snapshotLen) && m.opId !in core.receipts
    requires ApplyMutation(core, batch, m, deviceId, now).Ok?
    ensures var done := ApplyMutation(core, batch, m, deviceId, now).value.1;
            && |done.acks| == |batch.acks| + 1 && |done.canonicalChanges| == |batch.canonicalChanges| + 1
            && FreshAnswer(core, m, now, done.acks[|batch.acks|], done.canonicalChanges[|batch.canonicalChanges|])
  {
    hide UniqueOpIds, LogWithinLimits, ReceiptsMatchLog, Accept;
    ConflictMeaning(core, m, snapshotLen);
    ClampIsStoredTime(m.clientTimeMs, now);
    hide IsStoredTime, ClampClientTime;
    if !Conflicts(core, m) { AcceptEffect(core, batch, m, now); }
  }

  /**
   * There are no lost updates: a fresh mutation is applied, with its own content at the next cursor, iff no
   * operation on its key lies above the version its client had seen, counting the mutations earlier in the
   * same batch; otherwise it is answered with the latest operation on its key.
   */
  lemma NoLostUpdates(core: Core, ms: seq<Mutation>, deviceId: string, now: Uint64, snapshotLen: nat, i: nat)
    requires CoreInv(core, snapshotLen) && IsDeviceId(deviceId) && i < |ms|
    requires ApplyMutations(core, ms, deviceId, now).Ok?
    ensures ApplyMutations(core, ms[..i], deviceId, now).Ok?
    ensures var before := ApplyMutations(core, ms[..i], deviceId, now).value.0;
            var batch := ApplyMutations(core, ms, deviceId, now).value.1;
            && |batch.acks| == |batch.canonicalChanges| == |ms|
            && (ms[i].opId !in before.receipts ==>
                  FreshAnswer(before, ms[i], now, batch.acks[i], batch.canonicalChanges[i]))
  {
    hide CoreInv, ApplyMutation, FreshAnswer, Grows, Aligned, ArchivesAppended, ForcedAreConflicts, IsDeviceId;
    PrefixAcks(core, ms, deviceId, now, i);
    PrefixAcks(core, ms, deviceId, now, i + 1);
    assert ms[..i + 1][..i] == ms[..i];
    ApplyMutationsKeepsInv(core, ms[..i], deviceId, now, snapshotLen);
    var (before, batch) := ApplyMutations(core, ms[..i], deviceId, now).value;
    if ms[i].opId !in before.receipts {
      FreshIsAnswered(before, batch, ms[i], deviceId, now, snapshotLen);
    }
    var whole := ApplyMutations(core, ms, deviceId, now).value.1;
    assert whole.acks[..i + 1][i] == whole.acks[i] && whole.canonicalChanges[..i + 1][i] == whole.canonicalChanges[i];
  }

  /** The op_id key of the log stops a mutation iff its op_id was taken over from a USE_LOCAL snapshot. */
  lemma OpIdCollision(core: Core, batch: Batch, m: Mutation, deviceId: string, now: Uint64, snapshotLen: nat)
    requires CoreInv(core, snapshotLen)
    ensures ApplyMutation(core, batch, m, deviceId, now) == Err(DuplicateKey(Operations)) <==>
            && ValidateMutation(m, deviceId).Pass?
            && m.opId !in core.receipts
            && UpToDate(core, m.entityKey, m.baseVersion)
            && core.cursor < MAX_UINT64
            && exists c :: c in core.operations && c <= snapshotLen && core.operations[c].opId == m.opId
  {
    ConflictMeaning(core, m, snapshotLen);
    hide UniqueOpIds, LogWithinLimits, RecordsViewLog, UpToDate, Accept;
    if ValidateMutation(m, deviceId).Pass? && m.opId !in core.receipts && !Conflicts(core, m) {
      AcceptEffect(core, batch, m, now);
      if core.HasOpId(m.opId) {
        var c :| c in core.operations && core.operations[c].opId == m.opId;
        assert !Receipted(core, c);
      }
    } else if m.opId in core.receipts {
      ReplayFinds(core, batch, m, snapshotLen);
    }
  }

  // ----- resending -----

  /** A batch whose op_ids all have receipts is answered from them and changes nothing. */
  lemma {:induction false} KnownBatch(core: Core, ms: seq<Mutation>, deviceId: string, now: Uint64, snapshotLen: nat)
    requires CoreInv(core, snapshotLen) && AllValid(ms, deviceId)
    requires forall i :: 0 <= i < |ms| ==> ms[i].opId in core.receipts
    ensures ApplyMutations(core, ms, deviceId, now).Ok?
    ensures var (after, batch) := ApplyMutations(core, ms, deviceId, now).value;
            after == core && batch.appliedCount == 0 && Aligned(core, ms, batch)
  {
    hide UniqueOpIds, LogWithinLimits, RecordsViewLog, Dense, ValidateMutation, Accept, Reject;
    if ms != [] {
      var init, last := ms[..|ms| - 1], ms[|ms| - 1];
      assert forall i :: 0 <= i < |init| ==> init[i] == ms[i];
      KnownBatch(core, init, deviceId, now, snapshotLen);
      var batch := ApplyMutations(core, init, deviceId, now).value.1;
      assert ValidateMutation(last, deviceId).Pass?;
      assert ApplyMutation(core, batch, last, deviceId, now) == Replay(core, batch, last);
    }
  }

  lemma AlignedUnique(core: Core, ms: seq<Mutation>, a: Batch, b: Batch)
    requires Aligned(core, ms, a) && Aligned(core, ms, b)
    ensures a.acks == b.acks && a.canonicalChanges == b.canonicalChanges
  {}

  /** What a diff that matches the baseline answers, in terms of the tables it leaves. */
  lemma DiffAnswers(codec: Codec, env: Env, meta: Metadata, o: Owner, request: DiffRequest)
    requires env.codec == codec && Inv(codec, o) && Diff(env, meta, o.tables, request).Ok?
    ensures var (after, reply) := Diff(env, meta, o.tables, request).value;
            && AllValidOrMismatch(request, reply)
            && Inv(codec, o.(tables := after))
            && after.lineage.Some?
            && if reply.response.baselineMismatch
               then after.lineage.value.baselineId != request.baselineId
                    && reply == Reply(DiffResponseOf(after, [], [], true), false)
               else after.lineage.value.baselineId == request.baselineId
                    && reply.response == DiffResponseOf(after, reply.response.acks, reply.response.canonicalChanges,
                                                        false)
                    && Answered(after.core, request.mutations, reply.response)
                    && Grows(o.tables.core, after.core)
  {
    hide ValidateDiff, Inv, Mutate, CheckedDiff, IsDeviceId, IsBaselineId, EnsureLineage, Grows, AllValid, Answered;
    ValidRequests(meta.ownerKey);
    EnsureLineageKeepsInv(codec, env, o, request.baselineId);
    var ensured := EnsureLineage(env, o.tables, request.baselineId).value;
    if ensured.lineage.value.baselineId == request.baselineId {
      MutateAnswers(codec, env, meta.originConnectionId, o.(tables := ensured), request.mutations, request.deviceId);
      var (done, batch) := Mutate(env, meta.originConnectionId, ensured, request.mutations, request.deviceId).value;
      CheckedIsSame(DiffResponseOf(done, batch.acks, batch.canonicalChanges, false));
      AnsweredByBatch(done.core, request.mutations, batch,
                      DiffResponseOf(done, batch.acks, batch.canonicalChanges, false));
      assert Grows(o.tables.core, ensured.core) by { NewOwnerGrows(codec, o, ensured); }
      GrowsTransitive(o.tables.core, ensured.core, done.core);
    } else {
      CheckedIsSame(DiffResponseOf(ensured, [], [], true));
    }
  }

  ghost predicate AllValidOrMismatch(request: DiffRequest, reply: Reply<DiffResponse>) {
    reply.response.baselineMismatch || AllValid(request.mutations, request.deviceId)
  }

  /** The acks and canonical changes of a response, as the receipts and operations of the tables give them. */
  ghost predicate Answered(core: Core, ms: seq<Mutation>, response: DiffResponse) {
    Aligned(core, ms, Batch(response.acks, response.canonicalChanges, [], [], 0))
  }

  lemma AnsweredByBatch(core: Core, ms: seq<Mutation>, batch: Batch, response: DiffResponse)
    requires Aligned(core, ms, batch) && response.acks == batch.acks
              && response.canonicalChanges == batch.canonicalChanges
    ensures Answered(core, ms, response)
  {}

  lemma CheckedIsSame(response: DiffResponse)
    ensures CheckedDiff(response).Ok? ==> CheckedDiff(response) == Ok(response)
  {}

  lemma NewOwnerGrows(codec: Codec, o: Owner, ensured: Tables)
    requires Inv(codec, o)
    requires ensured == if o.tables.lineage.Some? then o.tables else EMPTY.(lineage := ensured.lineage)
    ensures Grows(o.tables.core, ensured.core)
  {}

  lemma MutateAnswers(codec: Codec, env: Env, origin: string, o: Owner, ms: seq<Mutation>, deviceId: string)
    requires env.codec == codec && IsDeviceId(deviceId) && Inv(codec, o) && o.tables.lineage.Some?
    requires Mutate(env, origin, o.tables, ms, deviceId).Ok?
    ensures var (after, batch) := Mutate(env, origin, o.tables, ms, deviceId).value;
            && Inv(codec, o.(tables := after))
            && after.lineage.value.baselineId == o.tables.lineage.value.baselineId
            && AllValid(ms, deviceId) && Aligned(after.core, ms, batch) && Grows(o.tables.core, after.core)
  {
    hide ApplyMutations, AllValid, Aligned, Grows, Later, Dense, UniqueOpIds, RecordsViewLog, ReceiptsMatchLog,
         LogWithinLimits, ArchiveInv, CurrentArchived, ResolutionsCurrent, LineageSound, Mutate;
    MutateParts(env, origin, o.tables, ms, deviceId);
    MutateKeepsInv(codec, env, origin, o, ms, deviceId);
    ApplyMutationsKeepsInv(o.tables.core, ms, deviceId, env.now, o.snapshotLen);
    PrefixCommits(o.tables.core, ms, deviceId, env.now, 0);
  }

  /** Finalizing a batch leaves the core it was given and the baseline id. */
  lemma MutateParts(env: Env, origin: string, t: Tables, ms: seq<Mutation>, deviceId: string)
    requires t.lineage.Some? && Mutate(env, origin, t, ms, deviceId).Ok?
    ensures ApplyMutations(t.core, ms, deviceId, env.now).Ok?
    ensures var (core, batch) := ApplyMutations(t.core, ms, deviceId, env.now).value;
            var (after, done) := Mutate(env, origin, t, ms, deviceId).value;
            after.core == core && done == batch && after.lineage.value.baselineId == t.lineage.value.baselineId
  {
    hide ApplyMutations, Publish, ProgressDay, RecordRows;
  }

  /**
   * Replay is stable over whole runs: once an op_id is acknowledged under a baseline, a diff that resends it
   * under that baseline id is answered, at any later time and after any resets, by a baseline mismatch or by
   * the identical ack and canonical change.
   */
  lemma AckIsStable(codec: Codec, env: Env, meta: Metadata, o: Owner, later: Owner, opId: string,
                    request: DiffRequest, i: nat)
    requires Reaches(codec, o, later) && env.codec == codec
    requires o.tables.lineage.Some? && opId in o.tables.core.receipts
    requires request.baselineId == o.tables.lineage.value.baselineId
    requires i < |request.mutations| && request.mutations[i].opId == opId
    requires Diff(env, meta, later.tables, request).Ok?
    ensures o.tables.core.receipts[opId].serverCursor in o.tables.core.operations
    ensures var response := Diff(env, meta, later.tables, request).value.1.response;
            || response.baselineMismatch
            || (&& |response.acks| == |response.canonicalChanges| == |request.mutations|
                && response.acks[i] == o.tables.core.receipts[opId].Ack()
                && response.canonicalChanges[i] == o.tables.core.operations[o.tables.core.receipts[opId].serverCursor])
  {
    DiffAnswers(codec, env, meta, later, request);
    ReceiptsMeanArchived(codec, o, opId);
    hide Diff, DiffResponseOf, AllValidOrMismatch;
    StillCurrent(codec, o, later, request.baselineId);
    var (after, reply) := Diff(env, meta, later.tables, request).value;
    if !reply.response.baselineMismatch {
      MatchMeansCurrent(codec, env, meta, later, request);
      hide Inv, Later, ArchiveInv;
      GrowsTransitive(o.tables.core, later.tables.core, after.core);
    }
  }

  lemma ReceiptsMeanArchived(codec: Codec, o: Owner, opId: string)
    requires Inv(codec, o) && o.tables.lineage.Some? && opId in o.tables.core.receipts
    ensures o.tables.lineage.value.baselineId in o.tables.archiveHeads
    ensures o.tables.core.receipts[opId].serverCursor in o.tables.core.operations
  {
    hide UniqueOpIds, RecordsViewLog, LogWithinLimits, ArchiveInv, ResolutionsCurrent, LineageSound;
  }

  /** If an archived baseline is current again, it has been current all along. */
  lemma StillCurrent(codec: Codec, o: Owner, later: Owner, b: string)
    requires Reaches(codec, o, later) && Current(o.tables, b) && b in o.tables.archiveHeads
    ensures Current(later.tables, b) ==> Grows(o.tables.core, later.tables.core)
    ensures later.tables.lineage.Some?
  {
    hide CoreInv, ArchiveInv, CurrentArchived, ResolutionsCurrent, LineageSound, Grows, ArchiveKept;
    assert Continues(o.tables, later.tables, b);
  }

  lemma MatchMeansCurrent(codec: Codec, env: Env, meta: Metadata, o: Owner, request: DiffRequest)
    requires Inv(codec, o) && o.tables.lineage.Some? && Diff(env, meta, o.tables, request).Ok?
    requires !Diff(env, meta, o.tables, request).value.1.response.baselineMismatch
    ensures Current(o.tables, request.baselineId)
  {
    hide Inv, ValidateDiff, Mutate;
  }

  /**
   * Resending a committed diff straight away, at any clock values, returns the identical response and
   * leaves the tables unchanged.
   */
  lemma ResentDiffIsIdentical(codec: Codec, env: Env, meta: Metadata, o: Owner, request: DiffRequest, env': Env,
                              meta': Metadata)
    requires env.codec == codec && env'.codec == codec && meta'.ownerKey == meta.ownerKey
    requires Inv(codec, o) && Diff(env, meta, o.tables, request).Ok?
    ensures var (after, reply) := Diff(env, meta, o.tables, request).value;
            Diff(env', meta', after, request) == Ok((after, Reply(reply.response, false)))
  {
    DiffAnswers(codec, env, meta, o, request);
    var (after, reply) := Diff(env, meta, o.tables, request).value;
    DiffWasChecked(env, meta, o.tables, request);
    DiffResent(codec, env', meta', o.(tables := after), request, reply.response);
  }

  lemma DiffWasChecked(env: Env, meta: Metadata, t: Tables, request: DiffRequest)
    requires Diff(env, meta, t, request).Ok?
    ensures ValidateDiff(meta.ownerKey, request).Pass?
    ensures CheckedDiff(Diff(env, meta, t, request).value.1.response)
              == Ok(Diff(env, meta, t, request).value.1.response)
  {
    hide ValidateDiff, EnsureLineage, Mutate;
  }

  lemma DiffResent(codec: Codec, env: Env, meta: Metadata, o: Owner, request: DiffRequest, response: DiffResponse)
    requires Inv(codec, o) && o.tables.lineage.Some? && ValidateDiff(meta.ownerKey, request).Pass?
    requires CheckedDiff(response) == Ok(response)
    requires if o.tables.lineage.value.baselineId != request.baselineId
             then response == DiffResponseOf(o.tables, [], [], true)
             else response == DiffResponseOf(o.tables, response.acks, response.canonicalChanges, false)
                  && Answered(o.tables.core, request.mutations, response)
                        && AllValid(request.mutations, request.deviceId)
    ensures Diff(env, meta, o.tables, request) == Ok((o.tables, Reply(response, false)))
  {
    assert CoreInv(o.tables.core, o.snapshotLen);
    hide Inv, CoreInv, ValidateDiff, CheckedDiff;
    if o.tables.lineage.value.baselineId == request.baselineId {
      KnownBatch(o.tables.core, request.mutations, request.deviceId, env.now, o.snapshotLen);
      var batch := ApplyMutations(o.tables.core, request.mutations, request.deviceId, env.now).value.1;
      hide AllValid, ApplyMutations;
      AlignedUnique(o.tables.core, request.mutations, batch,
                    Batch(response.acks, response.canonicalChanges, [], [], 0));
      assert o.tables.(core := o.tables.core) == o.tables;
    }
  }
}
