/** Splitting a batch: the halves give what the whole gives. */
module Batching {
  import opened Prelude
  import opened SyncTypes
  import opened Validation
  import opened Progress
  import opened Tables
  import opened SyncSpec
  import opened CoreInvariant
  import opened ArchiveInvariant
  import opened OwnerInvariant
  import opened ResolveInvariant
  import opened History
  import opened Replay

  function Plus(a: Batch, b: Batch): Batch {
    Batch(a.acks + b.acks, a.canonicalChanges + b.canonicalChanges, a.forcedChanges + b.forcedChanges,
          a.archiveChanges + b.archiveChanges, a.appliedCount + b.appliedCount)
  }

  function AfterBatch(a: Batch, r: Result<(Core, Batch)>): Result<(Core, Batch)> {
    if r.Err? then r else Ok((r.value.0, Plus(a, r.value.1)))
  }

  /** The accumulated batch does not influence what a mutation does. */
  lemma StepAfter(core: Core, a: Batch, b: Batch, m: Mutation, deviceId: string, now: Uint64)
    ensures ApplyMutation(core, Plus(a, b), m, deviceId, now) == AfterBatch(a, ApplyMutation(core, b, m, deviceId, now))
  {
    hide ValidateMutation;
    var whole, part := ApplyMutation(core, Plus(a, b), m, deviceId, now), ApplyMutation(core, b, m, deviceId, now);
    if part.Ok? {
      var l, r := whole.value.1, Plus(a, part.value.1);
      assert l.acks == r.acks && l.canonicalChanges == r.canonicalChanges;
      assert l.forcedChanges == r.forcedChanges && l.archiveChanges == r.archiveChanges;
    }
  }

  /** Applying a concatenation is applying its parts in turn. */
  lemma {:induction false} ApplySplit(core: Core, xs: seq<Mutation>, ys: seq<Mutation>, deviceId: string, now: Uint64)
    ensures ApplyMutations(core, xs + ys, deviceId, now) ==
            var first := ApplyMutations(core, xs, deviceId, now);
            if first.Err? then first
            else AfterBatch(first.value.1, ApplyMutations(first.value.0, ys, deviceId, now))
  {
    hide ApplyMutation;
    var first := ApplyMutations(core, xs, deviceId, now);
    if ys == [] {
      assert xs + ys == xs;
      if first.Ok? { assert Plus(first.value.1, EMPTY_BATCH) == first.value.1; }
    } else {
      var init, last := ys[..|ys| - 1], ys[|ys| - 1];
      assert (xs + ys)[..|xs + ys| - 1] == xs + init;
      ApplySplit(core, xs, init, deviceId, now);
      if first.Ok? {
        var second := ApplyMutations(first.value.0, init, deviceId, now);
        if second.Ok? { StepAfter(second.value.0, first.value.1, second.value.1, last, deviceId, now); }
      }
    }
  }

  /** A batch that commits leaves the progress day of its records, or the old day if it applied nothing. */
  lemma MutateProgress(env: Env, origin: string, t: Tables, ms: seq<Mutation>, deviceId: string)
    requires t.lineage.Some? && Mutate(env, origin, t, ms, deviceId).Ok?
    ensures var (after, batch) := Mutate(env, origin, t, ms, deviceId).value;
            && after.lineage.Some? && after.resolutions == t.resolutions
            && if batch.appliedCount == 0 then after.lineage == t.lineage
               else ProgressDay(env.codec, RecordRows(after.core.records)) == Ok(after.lineage.value.progressDay)
                    && after.lineage.value.updatedAtMs == env.now
                    && after.lineage.value.version == t.lineage.value.version + 1
  {
    hide ApplyMutations, Publish, ProgressDay, RecordRows;
  }

  /** Two outcomes that agree on everything but the versioning metadata. */
  ghost predicate SameButVersions(a: Tables, b: Tables) {
    && a.core == b.core
    && a.lineage.Some? && b.lineage.Some?
    && a.lineage.value.baselineId == b.lineage.value.baselineId
    && a.lineage.value.progressDay == b.lineage.value.progressDay
    && a.resolutions == b.resolutions
  }

  /**
   * A batch and its two halves, all committed at one clock, leave the same log, records, receipts and
   * progress day, and the acks and canonical changes of the whole are those of the halves in order.
   */
  lemma HalvesMatchWhole(codec: Codec, env: Env, origin: string, o: Owner, xs: seq<Mutation>, ys: seq<Mutation>,
                         deviceId: string)
    requires env.codec == codec && Inv(codec, o) && o.tables.lineage.Some? && IsDeviceId(deviceId)
    requires Mutate(env, origin, o.tables, xs + ys, deviceId).Ok?
    requires Mutate(env, origin, o.tables, xs, deviceId).Ok?
    requires Mutate(env, origin, Mutate(env, origin, o.tables, xs, deviceId).value.0, ys, deviceId).Ok?
    ensures var (whole, batch) := Mutate(env, origin, o.tables, xs + ys, deviceId).value;
            var (half, first) := Mutate(env, origin, o.tables, xs, deviceId).value;
            var (done, second) := Mutate(env, origin, half, ys, deviceId).value;
            SameButVersions(whole, done) && batch == Plus(first, second)
  {
    var (half, first) := Mutate(env, origin, o.tables, xs, deviceId).value;
    hide Inv, CoreInv, Mutate, ApplyMutations, Aligned, ForcedAreConflicts, Grows, IsDeviceId, ProgressDay, RecordRows;
    MutateParts(env, origin, o.tables, xs + ys, deviceId);
    MutateParts(env, origin, o.tables, xs, deviceId);
    MutateParts(env, origin, half, ys, deviceId);
    ApplySplit(o.tables.core, xs, ys, deviceId, env.now);
    MutateProgress(env, origin, o.tables, xs + ys, deviceId);
    MutateProgress(env, origin, o.tables, xs, deviceId);
    MutateProgress(env, origin, half, ys, deviceId);
    MutateKeepsInv(codec, env, origin, o, xs, deviceId);
    hide Later;
    InvCore(codec, o.(tables := half));
    ApplyMutationsKeepsInv(half.core, ys, deviceId, env.now, o.snapshotLen);
  }

  lemma InvCore(codec: Codec, o: Owner)
    requires Inv(codec, o) && o.tables.lineage.Some?
    ensures CoreInv(o.tables.core, o.snapshotLen)
  {}
}
