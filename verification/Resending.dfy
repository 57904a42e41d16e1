/** Requests whose mutations were all acknowledged before, sent again at any later time. */
module Resending {
  import opened Prelude
  import opened SyncTypes
  import opened Validation
  import opened Progress
  import opened Tables
  import opened Wire
  import opened SyncSpec
  import opened CoreInvariant
  import opened ArchiveInvariant
  import opened OwnerInvariant
  import opened ResolveInvariant
  import opened History
  import opened Replay
  import opened WireBounds
  import opened Halving

  /** Every mutation has a receipt, and the receipt's operation is in the log. */
  ghost predicate Known(core: Core, ms: seq<Mutation>) {
    forall i :: 0 <= i < |ms| ==>
      ms[i].opId in core.receipts && core.receipts[ms[i].opId].serverCursor in core.operations
  }

  /** The acks and canonical changes the receipts stand for. */
  ghost function KnownAcks(core: Core, ms: seq<Mutation>): seq<MutationAck>
    requires Known(core, ms)
  {
    seq(|ms|, i requires 0 <= i < |ms| => core.receipts[ms[i].opId].Ack())
  }

  ghost function KnownChanges(core: Core, ms: seq<Mutation>): seq<Change>
    requires Known(core, ms)
  {
    seq(|ms|, i requires 0 <= i < |ms| => core.operations[core.receipts[ms[i].opId].serverCursor])
  }

  /** All of them were acknowledged in the state, under its current baseline. */
  ghost predicate Acknowledged(t: Tables, b: string, ms: seq<Mutation>) {
    Current(t, b) && forall i :: 0 <= i < |ms| ==> ms[i].opId in t.core.receipts
  }

  lemma AcknowledgedIsKnown(codec: Codec, o: Owner, b: string, ms: seq<Mutation>)
    requires Inv(codec, o) && Acknowledged(o.tables, b, ms)
    ensures Known(o.tables.core, ms)
    ensures ms != [] ==> b in o.tables.archiveHeads
  {
    hide Inv;
    forall i | 0 <= i < |ms|
      ensures o.tables.core.receipts[ms[i].opId].serverCursor in o.tables.core.operations
      ensures b in o.tables.archiveHeads
    {
      ReceiptsMeanArchived(codec, o, ms[i].opId);
    }
    if ms != [] { ReceiptsMeanArchived(codec, o, ms[0].opId); }
  }

  /** A batch of known mutations is answered from the receipts and leaves the tables as they are. */
  lemma KnownMutate(codec: Codec, env: Env, origin: string, o: Owner, ms: seq<Mutation>, deviceId: string, known: Core)
    requires Inv(codec, o) && o.tables.lineage.Some? && AllValid(ms, deviceId)
    requires Known(known, ms) && (ms != [] ==> Grows(known, o.tables.core))
    ensures var r := Mutate(env, origin, o.tables, ms, deviceId);
            && r.Ok? && r.value.0 == o.tables && r.value.1.appliedCount == 0
            && r.value.1.acks == KnownAcks(known, ms) && r.value.1.canonicalChanges == KnownChanges(known, ms)
  {
    var core := o.tables.core;
    forall i | 0 <= i < |ms| ensures ms[i].opId in core.receipts { assert ms[i].opId in known.receipts; }
    assert CoreInv(core, o.snapshotLen);
    hide Inv, CoreInv, AllValid, ApplyMutations;
    KnownBatch(core, ms, deviceId, env.now, o.snapshotLen);
    assert o.tables.(core := core) == o.tables;
    var batch := ApplyMutations(core, ms, deviceId, env.now).value.1;
    KnownAnswers(known, core, ms, batch);
  }

  lemma KnownAnswers(known: Core, core: Core, ms: seq<Mutation>, batch: Batch)
    requires Known(known, ms) && (ms != [] ==> Grows(known, core)) && Aligned(core, ms, batch)
    ensures batch.acks == KnownAcks(known, ms) && batch.canonicalChanges == KnownChanges(known, ms)
  {
    forall i | 0 <= i < |ms|
      ensures batch.acks[i] == KnownAcks(known, ms)[i] && batch.canonicalChanges[i] == KnownChanges(known, ms)[i]
    {
      assert core.receipts[ms[i].opId] == known.receipts[ms[i].opId];
    }
  }

  /** In a later state with the same baseline current the receipts are all still there. */
  lemma StillKnown(codec: Codec, o: Owner, later: Owner, b: string, ms: seq<Mutation>)
    requires Reaches(codec, o, later) && Acknowledged(o.tables, b, ms)
    ensures Inv(codec, o) && Inv(codec, later) && Known(o.tables.core, ms)
    ensures ms != [] ==> later.tables.lineage.Some?
    ensures ms != [] && Current(later.tables, b) ==> Grows(o.tables.core, later.tables.core)
  {
    hide Inv, Later, Grows;
    AcknowledgedIsKnown(codec, o, b, ms);
    if ms != [] { StillCurrent(codec, o, later, b); }
  }

  /**
   * A valid diff whose mutations were all acknowledged under its baseline, sent again in any later state: it
   * is answered by a baseline mismatch, by the identical acks and canonical changes, or refused because the
   * response, whose header may have grown, is now too large. It fails in no other way, never for its size
   * with at most three mutations, and it changes nothing.
   */
  lemma ResentDiff(codec: Codec, env: Env, meta: Metadata, o: Owner, later: Owner, request: DiffRequest)
    requires Reaches(codec, o, later) && env.codec == codec
              && Acknowledged(o.tables, request.baselineId, request.mutations)
    requires ValidateDiff(meta.ownerKey, request).Pass? && AllValid(request.mutations, request.deviceId)
    ensures Known(o.tables.core, request.mutations)
    ensures request.mutations != [] ==> Ensured(later.tables, request.baselineId) == later.tables
    ensures var t := Ensured(later.tables, request.baselineId);
            var answer := DiffResponseOf(t, KnownAcks(o.tables.core, request.mutations),
                                         KnownChanges(o.tables.core, request.mutations), false);
            Diff(env, meta, later.tables, request) ==
            if !Current(t, request.baselineId) then Ok((t, Reply(DiffResponseOf(t, [], [], true), false)))
            else if DiffResponseSize(answer) > MAX_PROTOBUF_BYTES then Err(ResponseTooLarge)
            else Ok((t, Reply(answer, false)))
    ensures |request.mutations| <= 3 ==> Diff(env, meta, later.tables, request).Ok?
  {
    StillKnown(codec, o, later, request.baselineId, request.mutations);
    hide Inv, Reaches, ValidateDiff, Mutate, Diff, AllValid, Grows, Known, KnownAcks, KnownChanges, DiffResponseSize,
         Acknowledged, EnsureLineage;
    var t := Ensured(later.tables, request.baselineId);
    if Current(t, request.baselineId) {
      DiffIsBatch(codec, env, meta, later, request);
      KnownMutate(codec, env, meta.originConnectionId, later.(tables := t), request.mutations, request.deviceId,
                  o.tables.core);
    } else {
      MismatchedDiff(codec, env, meta, later, request);
    }
    if |request.mutations| <= 3 { DiffNeverTooLarge(codec, env, meta, later, request); }
  }

  lemma MismatchedDiff(codec: Codec, env: Env, meta: Metadata, o: Owner, request: DiffRequest)
    requires env.codec == codec && Inv(codec, o) && ValidateDiff(meta.ownerKey, request).Pass?
    requires !Current(Ensured(o.tables, request.baselineId), request.baselineId)
    ensures Diff(env, meta, o.tables, request) == Ok((o.tables, Reply(DiffResponseOf(o.tables, [], [], true), false)))
  {
    hide Inv, ValidateDiff, LineageFits, CheckedDiff;
    InvFits(codec, o);
    MismatchFits(o.tables);
    CheckedIsSame(DiffResponseOf(o.tables, [], [], true));
  }

  /**
   * An exchange whose mutations were all acknowledged never fails and writes nothing: it is answered by a
   * mismatch or by the identical acks.
   */
  lemma ResentExchange(codec: Codec, env: Env, meta: Metadata, o: Owner, later: Owner, request: SyncRequest)
    requires Reaches(codec, o, later) && env.codec == codec
              && Acknowledged(o.tables, request.baselineId, request.mutations)
    requires ValidateExchange(meta.ownerKey, request).Pass? && AllValid(request.mutations, request.deviceId)
    ensures Known(o.tables.core, request.mutations)
    ensures Exchange(env, meta, later.tables, request).Ok?
    ensures var (after, reply) := Exchange(env, meta, later.tables, request).value;
            && after == Ensured(later.tables, request.baselineId) && !reply.stateChanged
            && (reply.response.baselineMismatch <==> !Current(after, request.baselineId))
            && (!reply.response.baselineMismatch ==> reply.response.acks == KnownAcks(o.tables.core, request.mutations))
  {
    StillKnown(codec, o, later, request.baselineId, request.mutations);
    hide Inv, Reaches, ValidateExchange, Mutate, AllValid, Grows, Known, KnownAcks, KnownChanges, Acknowledged,
         EnsureLineage, IsDeviceId, IsBaselineId, ReadPage, SortByCursor, NotInPage;
    ValidRequests(meta.ownerKey);
    EnsureLineageKeepsInv(codec, env, later, request.baselineId);
    var t := Ensured(later.tables, request.baselineId);
    if Current(t, request.baselineId) {
      KnownMutate(codec, env, meta.originConnectionId, later.(tables := t), request.mutations, request.deviceId,
                  o.tables.core);
    }
  }

  /** The same for one acknowledged op_id among other mutations, in any exchange that commits. */
  lemma ExchangeAckIsStable(codec: Codec, env: Env, meta: Metadata, o: Owner, later: Owner, opId: string,
                            request: SyncRequest, i: nat)
    requires Reaches(codec, o, later) && env.codec == codec
    requires Current(o.tables, request.baselineId) && opId in o.tables.core.receipts
    requires i < |request.mutations| && request.mutations[i].opId == opId
    requires Exchange(env, meta, later.tables, request).Ok?
    ensures var (after, reply) := Exchange(env, meta, later.tables, request).value;
            || reply.response.baselineMismatch
            || (&& |reply.response.acks| == |request.mutations|
                && reply.response.acks[i] == o.tables.core.receipts[opId].Ack()
                && reply.response.acks[i].serverCursor in o.tables.core.operations
                && Grows(o.tables.core, after.core))
  {
    hide Inv, Later, Exchange, Mutate, Grows, IsDeviceId, AllValid;
    ReceiptsMeanArchived(codec, o, opId);
    StillCurrent(codec, o, later, request.baselineId);
    ExchangeParts(env, meta, later.tables, request);
    if !Exchange(env, meta, later.tables, request).value.1.response.baselineMismatch {
      MutateAnswers(codec, env, meta.originConnectionId, later, request.mutations, request.deviceId);
      var (after, batch) :=
            Mutate(env, meta.originConnectionId, later.tables, request.mutations, request.deviceId).value;
      GrowsTransitive(o.tables.core, later.tables.core, after.core);
      KeptAck(o.tables.core, after.core, request.mutations, batch, i);
    }
  }

  /** A committed exchange on its own baseline is a batch. */
  lemma ExchangeParts(env: Env, meta: Metadata, t: Tables, request: SyncRequest)
    requires t.lineage.Some? && Exchange(env, meta, t, request).Ok?
    ensures IsDeviceId(request.deviceId)
    ensures !Exchange(env, meta, t, request).value.1.response.baselineMismatch ==>
              && Current(t, request.baselineId)
              && var r := Mutate(env, meta.originConnectionId, t, request.mutations, request.deviceId);
              && r.Ok?
              && Exchange(env, meta, t, request).value.0 == r.value.0
              && Exchange(env, meta, t, request).value.1.response.acks == r.value.1.acks
  {
    hide ValidateExchange, Mutate, IsDeviceId, IsBaselineId, ReadPage, SortByCursor, NotInPage;
    ValidRequests(meta.ownerKey);
  }

  lemma KeptAck(before: Core, after: Core, ms: seq<Mutation>, batch: Batch, i: nat)
    requires Grows(before, after) && Aligned(after, ms, batch) && i < |ms| && ms[i].opId in before.receipts
    ensures |batch.acks| == |ms| && batch.acks[i] == before.receipts[ms[i].opId].Ack()
  {}
}
