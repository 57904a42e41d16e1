/** A whole event stream: the initial catch-up, then one more for every wake-up or reconcile tick. */
module StreamSession {
  import opened Prelude
  import opened SyncTypes
  import opened Validation
  import opened Progress
  import opened Tables
  import opened SyncSpec
  import opened CoreInvariant
  import opened ArchiveInvariant
  import opened OwnerInvariant
  import opened History
  import opened ClientView
  import opened FeedPages
  import opened FeedStream

  /** Read number i of catch-up k comes no later than read j of catch-up l. */
  predicate NoLater(k: nat, i: nat, l: nat, j: nat) {
    k < l || (k == l && i <= j)
  }

  predicate InCalls<T>(calls: seq<seq<T>>, k: int, i: int) {
    0 <= k < |calls| && 0 <= i < |calls[k]|
  }

  ghost predicate ObservedAll(codec: Codec, calls: seq<seq<Owner>>) {
    && (forall k :: 0 <= k < |calls| ==> |calls[k]| > 0)
    && (forall k, i, l, j :: InCalls(calls, k, i) && InCalls(calls, l, j) && NoLater(k, i, l, j) ==>
          Reaches(codec, calls[k][i], calls[l][j]))
  }

  /** The last state any read of the stream sees. */
  function Final(calls: seq<seq<Owner>>): Owner
    requires |calls| > 0 && forall k :: 0 <= k < |calls| ==> |calls[k]| > 0
  {
    var last := calls[|calls| - 1];
    last[|last| - 1]
  }

  lemma CallObserved(codec: Codec, calls: seq<seq<Owner>>, k: nat)
    requires ObservedAll(codec, calls) && k < |calls|
    ensures |calls[k]| > 0 && Observed(codec, calls[k])
    ensures Reaches(codec, calls[k][|calls[k]| - 1], Final(calls))
  {
    hide Reaches;
    forall i, j | 0 <= i <= j < |calls[k]| ensures Reaches(codec, calls[k][i], calls[k][j]) {
      assert NoLater(k, i, k, j);
    }
    var l, i := |calls| - 1, |calls[k]| - 1;
    assert NoLater(k, i, l, |calls[l]| - 1);
  }

  lemma NextCall(codec: Codec, calls: seq<seq<Owner>>, k: nat, i: nat)
    requires ObservedAll(codec, calls) && k + 1 < |calls| && i < |calls[k]|
    ensures Reaches(codec, calls[k][i], calls[k + 1][0])
  {
    hide Reaches;
    assert NoLater(k, i, k + 1, 0);
  }

  ghost predicate NoReset(events: seq<Event>) {
    forall i :: 0 <= i < |events| ==> !events[i].Reset?
  }

  ghost predicate NoReady(events: seq<Event>) {
    forall i :: 0 <= i < |events| ==> !events[i].Ready?
  }

  lemma CatchUpEvents(events: seq<Event>, outcome: Outcome, sendReady: bool, cursor: nat)
    requires EndsWith(events, outcome, sendReady, cursor)
    ensures !EndsInReset(events) ==> NoReset(events)
    ensures StopsAtOnce(events, outcome) ==> outcome != Done
    ensures !sendReady ==> NoReady(events)
  {
    hide Fits, Sound;
  }

  /** A catch-up that starts on the baseline, or whose baseline was replaced, extends the account of what was sent. */
  lemma CatchUpSent(events: seq<Event>, log: seq<Change>, start: nat, cursor: nat, more: seq<Event>, own: seq<Change>,
                    next: nat, outcome: Outcome)
    requires SentSoFar(events, log, start, cursor) && own <= log && EndsWith(more, outcome, false, next)
    requires SentSoFar(more, own, cursor, next) || (next == cursor && StopsAtOnce(more, outcome))
    ensures SentSoFar(events + more, log, start, next)
  {
    if SentSoFar(more, own, cursor, next) {
      hide Fits, Sound, SentRange;
      SendMore(events, log, start, cursor, more, own, next);
    } else if more == [] {
      assert events + more == events;
    } else {
      hide Fits, Sound, SentRange, SentSoFar;
      SendControl(events, log, start, cursor, more[0]);
      assert [more[0]] == more;
    }
  }

  // ----- catch-ups -----

  /** What one catch-up of a stream sent, the position and outcome it ended with, and how many reads it made. */
  datatype CatchUp = CatchUp(events: seq<Event>, cursor: nat, outcome: Outcome, used: nat)

  /** How a catch-up over the states seen ends, in terms of the last state it read. */
  ghost predicate CatchUpEnds(seen: seq<Owner>, b: string, sendReady: bool, start: nat, c: CatchUp) {
    && 0 < c.used <= |seen|
    && EndsWith(c.events, c.outcome, sendReady, c.cursor) && FromReads(c.events, seen, c.used, b)
    && (sendReady || NoReady(c.events))
    && var t := seen[c.used - 1].tables;
    && (c.outcome == Done ==> Follows(t, b, c.cursor) && c.cursor == t.core.cursor)
    && (EndsInMismatch(c.events) ==> t.lineage.Some? && !Current(t, b))
    && (c.outcome.Failed? ==> c.cursor > MAX_SAFE_INTEGER)
    && (c.outcome == Interrupted ==> c.used == |seen| && c.cursor >= start + c.used && Follows(t, b, c.cursor))
  }

  /** All events of a session in order. */
  function Events(cs: seq<CatchUp>): seq<Event> {
    if cs == [] then [] else Events(cs[..|cs| - 1]) + cs[|cs| - 1].events
  }

  lemma EventsOneMore(cs: seq<CatchUp>, c: CatchUp)
    ensures Events(cs + [c]) == Events(cs) + c.events
  {
    assert (cs + [c])[..|cs|] == cs;
  }

  /** The position catch-up k starts from. */
  function StartOf(cs: seq<CatchUp>, start: nat, k: nat): nat
    requires k <= |cs|
  {
    if k == 0 then start else cs[k - 1].cursor
  }

  /** Every catch-up ends as it should, and only a finished one is followed by another. */
  ghost predicate SessionEnds(calls: seq<seq<Owner>>, b: string, start: nat, cs: seq<CatchUp>) {
    && 0 < |cs| <= |calls|
    && (forall k :: 0 <= k < |cs| ==> CatchUpEnds(calls[k], b, k == 0, StartOf(cs, start, k), cs[k]))
    && (forall k :: 0 <= k < |cs| - 1 ==> cs[k].outcome == Done)
    && (cs[|cs| - 1].outcome == Done ==> |cs| == |calls|)
  }

  /** The catch-ups made so far; the last may be followed by another. */
  ghost predicate SessionSoFar(calls: seq<seq<Owner>>, b: string, start: nat, cs: seq<CatchUp>) {
    && 0 < |cs| <= |calls|
    && (forall k :: 0 <= k < |cs| ==> CatchUpEnds(calls[k], b, k == 0, StartOf(cs, start, k), cs[k]))
    && (forall k :: 0 <= k < |cs| - 1 ==> cs[k].outcome == Done)
  }

  lemma SessionStarts(calls: seq<seq<Owner>>, b: string, start: nat, c: CatchUp)
    requires |calls| > 0 && CatchUpEnds(calls[0], b, true, start, c)
    ensures SessionSoFar(calls, b, start, [c])
    ensures Events([c]) == c.events
  {
    hide CatchUpEnds;
    EventsOneMore([], c);
    assert [] + [c] == [c];
  }

  lemma SessionGrows(calls: seq<seq<Owner>>, b: string, start: nat, cs: seq<CatchUp>, c: CatchUp)
    requires SessionSoFar(calls, b, start, cs) && |cs| < |calls| && cs[|cs| - 1].outcome == Done
    requires CatchUpEnds(calls[|cs|], b, false, cs[|cs| - 1].cursor, c)
    ensures SessionSoFar(calls, b, start, cs + [c])
  {
    hide CatchUpEnds;
    var more := cs + [c];
    forall k | 0 <= k < |more| ensures CatchUpEnds(calls[k], b, k == 0, StartOf(more, start, k), more[k]) {
      assert StartOf(more, start, k) == StartOf(cs, start, k);
    }
  }

  lemma LastDone(calls: seq<seq<Owner>>, b: string, start: nat, cs: seq<CatchUp>)
    requires SessionSoFar(calls, b, start, cs) && cs[|cs| - 1].outcome == Done
    ensures var n := |cs| - 1;
            && 0 < cs[n].used <= |calls[n]|
            && Follows(calls[n][cs[n].used - 1].tables, b, cs[n].cursor)
            && cs[n].cursor == calls[n][cs[n].used - 1].tables.core.cursor
  {
    hide EndsWith, FromReads, Follows, NoReady;
    assert CatchUpEnds(calls[|cs| - 1], b, |cs| - 1 == 0, StartOf(cs, start, |cs| - 1), cs[|cs| - 1]);
  }

  /** What one catch-up sends: its part of the log if it starts on the baseline, else one control event at most. */
  ghost predicate CatchUpSends(first: Tables, log: seq<Change>, b: string, start: nat, c: CatchUp) {
    && (Follows(first, b, start) ==> SentSoFar(c.events, log, start, c.cursor) && NoReset(c.events))
    && (!Follows(first, b, start) ==> c.cursor == start && c.outcome != Done && StopsAtOnce(c.events, c.outcome))
    && (EndsInReset(c.events) <==> !FollowsOrReplaced(first, b, start) && start <= MAX_SAFE_INTEGER)
    && (!EndsInReset(c.events) ==> NoReset(c.events))
  }

  /** What a session sends over all its catch-ups. */
  ghost predicate SessionSends(first: Tables, log: seq<Change>, b: string, start: nat, cs: seq<CatchUp>)
    requires cs != []
  {
    && (Follows(first, b, start) ==> SentSoFar(Events(cs), log, start, cs[|cs| - 1].cursor) && NoReset(Events(cs)))
    && (!Follows(first, b, start) ==>
          && |cs| == 1 && cs[0].cursor == start && cs[0].outcome != Done && StopsAtOnce(cs[0].events, cs[0].outcome)
          && (EndsInReset(cs[0].events) <==> !FollowsOrReplaced(first, b, start) && start <= MAX_SAFE_INTEGER))
  }

  /** One catch-up, with its account of the log up to a later state. */
  method RunCatchUp(seen: seq<Owner>, ghost codec: Codec, ownerKey: string, b: string, start: nat, sendReady: bool,
                    ghost final: Owner)
    returns (c: CatchUp)
    requires |seen| > 0 && Observed(codec, seen) && IsOwnerKey(ownerKey) && IsBaselineId(b)
    requires Reaches(codec, seen[|seen| - 1], final)
    ensures CatchUpEnds(seen, b, sendReady, start, c) && Keyed(final.tables)
    ensures CatchUpSends(seen[0].tables, BaselineLog(final.tables, b), b, start, c)
  {
    hide Observed, Reaches, Keyed, BaselineLog, Follows, FollowsOrReplaced, Current, SentSoFar, EndsWith, FromReads,
         IsOwnerKey, IsBaselineId, NoReset, NoReady, EndsInReset, EndsInMismatch, StopsAtOnce, Fold, Delivered;
    var events, cursor, outcome, used := SendFeed(seen, codec, ownerKey, b, start, sendReady);
    CatchUpEvents(events, outcome, sendReady, cursor);
    CurrentFollows(seen[0].tables, b, start);
    LogsUpTo(codec, seen[|seen| - 1], final, b);
    if Follows(seen[0].tables, b, start) {
      SentUpTo(events, BaselineLog(seen[|seen| - 1].tables, b), BaselineLog(final.tables, b), start, cursor);
    }
    c := CatchUp(events, cursor, outcome, used);
  }

  lemma FirstSends(first: Tables, log: seq<Change>, b: string, start: nat, c: CatchUp)
    requires CatchUpSends(first, log, b, start, c)
    ensures SessionSends(first, log, b, start, [c])
  {
    hide SentSoFar, NoReset, StopsAtOnce, Follows, FollowsOrReplaced, EndsInReset;
    EventsOneMore([], c);
    assert [] + [c] == [c] && Events([]) + c.events == c.events;
  }

  /** A later catch-up, which the baseline or its replacement awaits, extends the account of what was sent. */
  lemma MoreSent(first: Tables, log: seq<Change>, b: string, start: nat, cs: seq<CatchUp>, seen: seq<Owner>, c: CatchUp)
    requires cs != [] && cs[|cs| - 1].outcome == Done && SessionSends(first, log, b, start, cs) && seen != []
    requires CatchUpEnds(seen, b, false, cs[|cs| - 1].cursor, c)
    requires CatchUpSends(seen[0].tables, log, b, cs[|cs| - 1].cursor, c)
    requires FollowsOrReplaced(seen[0].tables, b, cs[|cs| - 1].cursor)
    ensures SessionSends(first, log, b, start, cs + [c])
  {
    hide SentSoFar, EndsWith, FromReads, StopsAtOnce, Follows, FollowsOrReplaced, Current, NoReady, NoReset,
         EndsInReset, EndsInMismatch, Events;
    EventsOneMore(cs, c);
    CatchUpSent(Events(cs), log, start, cs[|cs| - 1].cursor, c.events, log, c.cursor, c.outcome);
    NoResetJoined(Events(cs), c.events);
  }

  lemma NoResetJoined(events: seq<Event>, more: seq<Event>)
    requires NoReset(events) && NoReset(more)
    ensures NoReset(events + more)
  {}

  /**
   * A whole session. Each catch-up ends as SendFeed says: a finished one at the head of the last state it
   * read, a mismatch only when the baseline is no longer current; ready ends the first, if it finishes, and
   * is sent by no other. A session that starts on the baseline sends, over all its catch-ups, exactly the
   * baseline's log over (start, final], without gap, repeat or change of another baseline, and never
   * reset_required; one that does not stops at once. A client that has followed a session from cursor 0
   * through finished catch-ups holds exactly the records of the last state read. Every event carries the
   * lineage of the state its read saw, a mismatch event that of the server's baseline.
   */
  method EventStream(calls: seq<seq<Owner>>, ghost codec: Codec, ownerKey: string, b: string, start: nat)
    returns (cs: seq<CatchUp>)
    requires |calls| > 0 && ObservedAll(codec, calls) && IsOwnerKey(ownerKey) && IsBaselineId(b)
    ensures Keyed(Final(calls).tables)
    ensures SessionEnds(calls, b, start, cs)
    ensures SessionSends(calls[0][0].tables, BaselineLog(Final(calls).tables, b), b, start, cs)
    ensures cs[|cs| - 1].outcome == Done && start == 0 ==>
              && 0 < cs[|cs| - 1].used <= |calls[|cs| - 1]|
              && Fold(map[], Delivered(Events(cs))) == calls[|cs| - 1][cs[|cs| - 1].used - 1].tables.core.records
  {
    hide ObservedAll, Observed, Reaches, Keyed, BaselineLog, Follows, FollowsOrReplaced, Current, SentSoFar, EndsWith,
         FromReads, IsOwnerKey, IsBaselineId, CatchUpEnds, Events, SessionSoFar, SessionEnds, SessionSends,
         CatchUpSends, Fold, Delivered;
    NonEmptyCalls(codec, calls);
    CallObserved(codec, calls, 0);
    var c := RunCatchUp(calls[0], codec, ownerKey, b, start, true, Final(calls));
    ghost var log := BaselineLog(Final(calls).tables, b);
    ghost var first := calls[0][0].tables;
    SessionStarts(calls, b, start, c);
    FirstSends(first, log, b, start, c);
    cs := [c];
    while |cs| < |calls| && c.outcome == Done
      invariant 0 < |cs| <= |calls| && c == cs[|cs| - 1]
      invariant SessionSoFar(calls, b, start, cs) && SessionSends(first, log, b, start, cs)
      decreases |calls| - |cs|
    {
      var k := |cs|;
      LastDone(calls, b, start, cs);
      CallObserved(codec, calls, k);
      NextCall(codec, calls, k - 1, c.used - 1);
      StillFollows(codec, calls[k - 1][c.used - 1], calls[k][0], b, c.cursor);
      c := RunCatchUp(calls[k], codec, ownerKey, b, c.cursor, false, Final(calls));
      MoreSent(first, log, b, start, cs, calls[k], c);
      SessionGrows(calls, b, start, cs, c);
      cs := cs + [c];
    }
    SessionOver(calls, b, start, cs);
    if c.outcome == Done && start == 0 {
      LastDone(calls, b, start, cs);
      ReachesFinal(codec, calls, |cs| - 1, c.used - 1);
      SentWhenDone(first, log, b, start, cs);
      CaughtUpClient(codec, calls[|cs| - 1][c.used - 1], Final(calls), b, Events(cs), c.cursor);
    }
  }

  lemma SentWhenDone(first: Tables, log: seq<Change>, b: string, start: nat, cs: seq<CatchUp>)
    requires cs != [] && cs[|cs| - 1].outcome == Done && SessionSends(first, log, b, start, cs)
    ensures SentSoFar(Events(cs), log, start, cs[|cs| - 1].cursor)
  {
    hide SentSoFar, NoReset, StopsAtOnce, Follows, FollowsOrReplaced, EndsInReset;
  }

  lemma SessionOver(calls: seq<seq<Owner>>, b: string, start: nat, cs: seq<CatchUp>)
    requires SessionSoFar(calls, b, start, cs) && (|cs| == |calls| || cs[|cs| - 1].outcome != Done)
    ensures SessionEnds(calls, b, start, cs)
  {
    hide CatchUpEnds;
  }

  lemma ReachesFinal(codec: Codec, calls: seq<seq<Owner>>, k: nat, i: nat)
    requires ObservedAll(codec, calls) && k < |calls| && i < |calls[k]|
    ensures Reaches(codec, calls[k][i], Final(calls))
  {
    hide Reaches;
    var l := |calls| - 1;
    assert NoLater(k, i, l, |calls[l]| - 1);
  }

  lemma NonEmptyCalls(codec: Codec, calls: seq<seq<Owner>>)
    requires ObservedAll(codec, calls)
    ensures forall k :: 0 <= k < |calls| ==> |calls[k]| > 0
  {
    hide Reaches;
  }

  lemma SentUpTo(events: seq<Event>, own: seq<Change>, log: seq<Change>, start: nat, cursor: nat)
    requires SentSoFar(events, own, start, cursor) && own <= log
    ensures SentSoFar(events, log, start, cursor)
  {
    hide Fits, Sound, Delivered;
    assert own[start..cursor] == log[start..cursor];
  }

  /** The states of a run, read at any non-decreasing positions. */
  function ReadAt(states: seq<Owner>, at: seq<nat>): seq<Owner>
    requires forall i :: 0 <= i < |at| ==> at[i] < |states|
  {
    seq(|at|, i requires 0 <= i < |at| => states[at[i]])
  }

  /** What a stream reads from a store on which any run takes place is such a sequence of states. */
  lemma RunIsObserved(codec: Codec, states: seq<Owner>, at: seq<nat>)
    requires Run(codec, states)
    requires forall i :: 0 <= i < |at| ==> at[i] < |states|
    requires forall i, j :: 0 <= i <= j < |at| ==> at[i] <= at[j]
    ensures Observed(codec, ReadAt(states, at))
  {
    hide Run, Reaches;
    forall i, j | 0 <= i <= j < |at| ensures Reaches(codec, ReadAt(states, at)[i], ReadAt(states, at)[j]) {
      RunReaches(codec, states, at[i], at[j]);
    }
  }

  /** The states of a run as the catch-ups of a stream read them. */
  function ReadAll(states: seq<Owner>, at: seq<seq<nat>>): seq<seq<Owner>>
    requires forall k, i :: 0 <= k < |at| && 0 <= i < |at[k]| ==> at[k][i] < |states|
  {
    seq(|at|, k requires 0 <= k < |at| => ReadAt(states, at[k]))
  }

  /** A stream whose reads, over all its catch-ups, go forward through any run sees what EventStream asks for. */
  lemma RunIsObservedAll(codec: Codec, states: seq<Owner>, at: seq<seq<nat>>)
    requires Run(codec, states)
    requires forall k :: 0 <= k < |at| ==> at[k] != []
    requires forall k, i :: 0 <= k < |at| && 0 <= i < |at[k]| ==> at[k][i] < |states|
    requires forall k, i, l, j :: InCalls(at, k, i) && InCalls(at, l, j) && NoLater(k, i, l, j) ==> at[k][i] <= at[l][j]
    ensures ObservedAll(codec, ReadAll(states, at))
  {
    hide Run, Reaches;
    var calls := ReadAll(states, at);
    forall k, i, l, j | InCalls(calls, k, i) && InCalls(calls, l, j) && NoLater(k, i, l, j)
      ensures Reaches(codec, calls[k][i], calls[l][j])
    {
      RunReaches(codec, states, at[k][i], at[l][j]);
    }
  }
}
