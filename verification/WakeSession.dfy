/** A stream that follows its wake-ups: what it has delivered whenever it waits without a token. */
module WakeSession {
  import opened Prelude
  import opened SyncTypes
  import opened Validation
  import opened Progress
  import opened Tables
  import opened SyncSpec
  import opened CoreInvariant
  import opened ArchiveInvariant
  import opened OwnerInvariant
  import opened History
  import opened FeedPages
  import opened FeedStream
  import opened StreamSession
  import Wake = WakeHub

  /**
   * The hub's participants with one stream under observation: how many of its owner's commits each page read
   * of its finished catch-ups saw, and each page read of the running one.
   */
  datatype Watched<S> = Watched(net: Wake.Net<S>, done: seq<seq<nat>>, now: seq<nat>)

  /** A page read is a transaction of its own within the stream's Reading phase. */
  datatype Move<S> = Do(act: Wake.Act<S>) | ReadPage

  ghost predicate WatchedNext<S(!new)>(w: Watched<S>, s: S, owner: string, move: Move<S>, after: Watched<S>) {
    match move
    case ReadPage =>
      && Wake.InPhase(w.net, s) && w.net.streams[s].Reading?
      && after == w.(now := w.now + [Wake.Count(w.net.committed, owner)])
    case Do(act) =>
      && Wake.Next(w.net, act, after.net)
      && (act.Open? && act.stream == s ==> act.owner == owner)
      && if act == Wake.StartRead(s) then after.done == w.done && after.now == []
         else if act == Wake.EndRead(s) then w.now != [] && after.done == w.done + [w.now] && after.now == []
         else after.done == w.done && after.now == w.now
  }

  ghost predicate WatchedRun<S(!new)>(ws: seq<Watched<S>>, moves: seq<Move<S>>, s: S, owner: string) {
    && |ws| == |moves| + 1
    && ws[0] == Watched(Wake.NewNet(), [], [])
    && forall i :: 0 <= i < |moves| ==> WatchedNext(ws[i], s, owner, moves[i], ws[i + 1])
  }

  /** Later page reads see no fewer commits. */
  ghost predicate Forward(at: seq<seq<nat>>) {
    forall k, i, l, j :: InCalls(at, k, i) && InCalls(at, l, j) && NoLater(k, i, l, j) ==> at[k][i] <= at[l][j]
  }

  ghost predicate UpTo(at: seq<seq<nat>>, n: nat) {
    forall k, i :: InCalls(at, k, i) ==> at[k][i] <= n
  }

  ghost predicate AllFrom(positions: seq<nat>, since: nat) {
    forall i :: 0 <= i < |positions| ==> positions[i] >= since
  }

  /** A waiting stream has finished a catch-up all of whose reads came after its since. */
  ghost predicate PhaseSound<S(!new)>(w: Watched<S>, s: S, owner: string) {
    s in w.net.streams ==>
      && s in w.net.hub.channels && w.net.hub.channels[s].owner == owner
      && match w.net.streams[s]
         case Reading(since) => since <= Wake.Count(w.net.committed, owner) && AllFrom(w.now, since)
         case Waiting(since) => w.done != [] && AllFrom(w.done[|w.done| - 1], since)
         case _ => true
  }

  ghost predicate WatchedInv<S(!new)>(w: Watched<S>, s: S, owner: string) {
    && Wake.NoLostWakeUp(w.net)
    && PhaseSound(w, s, owner)
    && (forall k :: 0 <= k < |w.done| ==> w.done[k] != [])
    && Forward(w.done + [w.now])
    && UpTo(w.done + [w.now], Wake.Count(w.net.committed, owner))
  }

  lemma PageKeepsInv<S(!new)>(w: Watched<S>, s: S, owner: string, after: Watched<S>)
    requires WatchedInv(w, s, owner) && WatchedNext(w, s, owner, ReadPage, after)
    ensures WatchedInv(after, s, owner)
  {
    var n := Wake.Count(w.net.committed, owner);
    hide Wake.NoLostWakeUp;
    OneMorePosition(w.done, w.now, n);
  }

  lemma OneMorePosition(done: seq<seq<nat>>, now: seq<nat>, n: nat)
    requires Forward(done + [now]) && UpTo(done + [now], n)
    ensures Forward(done + [now + [n]]) && UpTo(done + [now + [n]], n)
  {
    var all, more := done + [now], done + [now + [n]];
    forall k, i | InCalls(more, k, i) ensures more[k][i] <= n && (InCalls(all, k, i) ==> more[k][i] == all[k][i])
      ensures !InCalls(all, k, i) ==> more[k][i] == n && k == |done| && i == |now|
    {
      assert InCalls(all, k, i) ==> all[k][i] <= n;
    }
  }

  lemma NewCatchUp(done: seq<seq<nat>>, now: seq<nat>, n: nat)
    requires Forward(done + [now]) && UpTo(done + [now], n)
    ensures Forward(done + [[]]) && UpTo(done + [[]], n)
    ensures Forward(done + [now] + [[]]) && UpTo(done + [now] + [[]], n)
  {
    var all := done + [now];
    assert forall k, i :: InCalls(done + [[]], k, i) ==> InCalls(all, k, i) && (done + [[]])[k][i] == all[k][i];
    assert forall k, i :: InCalls(all + [[]], k, i) ==> InCalls(all, k, i) && (all + [[]])[k][i] == all[k][i];
  }

  lemma CountGrows<S(!new)>(n: Wake.Net<S>, act: Wake.Act<S>, after: Wake.Net<S>, owner: string)
    requires Wake.Next(n, act, after)
    ensures Wake.Count(n.committed, owner) <= Wake.Count(after.committed, owner)
  {}

  lemma PhaseKept<S(!new)>(w: Watched<S>, s: S, owner: string, act: Wake.Act<S>, after: Watched<S>)
    requires WatchedInv(w, s, owner) && WatchedNext(w, s, owner, Do(act), after)
    ensures PhaseSound(after, s, owner)
  {
    hide Forward, UpTo, Wake.NoLostWakeUp;
  }

  lemma ActKeepsInv<S(!new)>(w: Watched<S>, s: S, owner: string, act: Wake.Act<S>, after: Watched<S>)
    requires WatchedInv(w, s, owner) && WatchedNext(w, s, owner, Do(act), after)
    ensures WatchedInv(after, s, owner)
  {
    PhaseKept(w, s, owner, act, after);
    hide Wake.NoLostWakeUp, Wake.Next, PhaseSound, Forward;
    Wake.StepKeepsWakeUps(w.net, act, after.net);
    CountGrows(w.net, act, after.net, owner);
    NewCatchUp(w.done, w.now, Wake.Count(w.net.committed, owner));
  }

  lemma {:induction false} WatchedRunKeepsInv<S(!new)>(ws: seq<Watched<S>>, moves: seq<Move<S>>, s: S, owner: string,
                                                       i: nat)
    requires WatchedRun(ws, moves, s, owner) && i < |ws|
    ensures WatchedInv(ws[i], s, owner)
  {
    if i > 0 {
      WatchedRunKeepsInv(ws, moves, s, owner, i - 1);
      assert WatchedNext(ws[i - 1], s, owner, moves[i - 1], ws[i - 1 + 1]);
      hide WatchedInv, WatchedNext;
      match moves[i - 1]
      case ReadPage => PageKeepsInv(ws[i - 1], s, owner, ws[i]);
      case Do(act) => ActKeepsInv(ws[i - 1], s, owner, act, ws[i]);
    }
  }

  // ----- what a waiting stream has delivered -----

  /** Live, between two catch-ups, and with no token to take. */
  predicate Idle<S(!new)>(n: Wake.Net<S>, s: S) {
    && s in n.streams && n.streams[s].Waiting?
    && s in n.hub.channels && n.hub.channels[s].isOpen && !n.hub.channels[s].pending
  }

  /** The events hold every change of the baseline's log in the state, from start on. */
  ghost predicate Covers(events: seq<Event>, t: Tables, b: string, start: nat) {
    && Keyed(t)
    && forall k :: start <= k < |BaselineLog(t, b)| ==>
         k - start < |Delivered(events)| && Delivered(events)[k - start] == BaselineLog(t, b)[k]
  }

  lemma DeliveredCovers(codec: Codec, earlier: Owner, read: Owner, final: Owner, b: string, start: nat, cursor: nat,
                        events: seq<Event>)
    requires Reaches(codec, earlier, read) && Reaches(codec, read, final) && Keyed(final.tables)
    requires Follows(read.tables, b, cursor) && cursor == read.tables.core.cursor
    requires SentSoFar(events, BaselineLog(final.tables, b), start, cursor)
    ensures Covers(events, earlier.tables, b, start)
  {
    hide Reaches, Inv, Later, Keyed, BaselineLog, Delivered, Sound, Follows;
    ReachesParts(codec, earlier, read);
    LogsUpTo(codec, earlier, read, b);
    LogsUpTo(codec, read, final, b);
    FollowsBounds(codec, read, b, cursor);
  }

  /** The last read of an idle stream saw every commit published for its owner. */
  lemma IdleHasRead<S(!new)>(w: Watched<S>, s: S, owner: string)
    requires WatchedInv(w, s, owner) && Idle(w.net, s)
    ensures w.done != [] && AllFrom(w.done[|w.done| - 1], Wake.Count(w.net.published, owner))
  {
    hide Forward, UpTo;
  }

  /** Reads that go forward through a run, catch-up after catch-up. */
  ghost predicate ReadsOf(states: seq<Owner>, at: seq<seq<nat>>) {
    && at != []
    && (forall k :: 0 <= k < |at| ==> at[k] != [])
    && (forall k, i :: 0 <= k < |at| && 0 <= i < |at[k]| ==> at[k][i] < |states|)
    && Forward(at)
  }

  lemma ReadsAreObserved(codec: Codec, states: seq<Owner>, at: seq<seq<nat>>)
    requires Run(codec, states) && ReadsOf(states, at)
    ensures ObservedAll(codec, ReadAll(states, at))
    ensures |ReadAll(states, at)| == |at| > 0
    ensures forall k :: 0 <= k < |at| ==> |ReadAll(states, at)[k]| == |at[k]| > 0
  {
    hide Run, ObservedAll;
    RunIsObservedAll(codec, states, at);
  }

  lemma FinishedSession(calls: seq<seq<Owner>>, b: string, start: nat, cs: seq<CatchUp>)
    requires SessionEnds(calls, b, start, cs) && cs[|cs| - 1].outcome == Done
    ensures var n := |cs| - 1;
            && |cs| == |calls| && 0 < cs[n].used <= |calls[n]|
            && Follows(calls[n][cs[n].used - 1].tables, b, cs[n].cursor)
            && cs[n].cursor == calls[n][cs[n].used - 1].tables.core.cursor
  {
    hide CatchUpEnds, Follows;
    assert SessionSoFar(calls, b, start, cs);
    LastDone(calls, b, start, cs);
  }

  /** A finished session whose last catch-up read no state before states[p] has delivered all of it. */
  lemma CoversPublished(codec: Codec, states: seq<Owner>, at: seq<seq<nat>>, p: nat, b: string, start: nat,
                        cs: seq<CatchUp>)
    requires Run(codec, states) && ReadsOf(states, at) && p < |states| && AllFrom(at[|at| - 1], p)
    requires Keyed(Final(ReadAll(states, at)).tables)
    requires var calls := ReadAll(states, at);
             && SessionEnds(calls, b, start, cs) && cs[|cs| - 1].outcome == Done
             && SessionSends(calls[0][0].tables, BaselineLog(Final(calls).tables, b), b, start, cs)
    ensures |cs| == |at| && Covers(Events(cs), states[p].tables, b, start)
  {
    hide Run, Reaches, SessionEnds, SessionSends, Covers, Keyed, BaselineLog, Follows, SentSoFar, Events, ObservedAll,
         ReadsOf, AllFrom, ReadAll;
    ReadsInRange(states, at);
    ReadsAreObserved(codec, states, at);
    var calls := ReadAll(states, at);
    var n := |at| - 1;
    FinishedSession(calls, b, start, cs);
    var i := cs[n].used - 1;
    LastRead(states, at, p, i);
    RunReaches(codec, states, p, at[n][i]);
    ReachesFinal(codec, calls, n, i);
    SentWhenDone(calls[0][0].tables, BaselineLog(Final(calls).tables, b), b, start, cs);
    DeliveredCovers(codec, states[p], calls[n][i], Final(calls), b, start, cs[n].cursor, Events(cs));
  }

  lemma ReadsInRange(states: seq<Owner>, at: seq<seq<nat>>)
    requires ReadsOf(states, at)
    ensures at != [] && forall k, i :: 0 <= k < |at| && 0 <= i < |at[k]| ==> at[k][i] < |states|
  {}

  lemma LastRead(states: seq<Owner>, at: seq<seq<nat>>, p: nat, i: nat)
    requires ReadsOf(states, at) && AllFrom(at[|at| - 1], p) && i < |at[|at| - 1]|
    ensures var n := |at| - 1;
            && p <= at[n][i] < |states| && i < |ReadAll(states, at)[n]|
            && ReadAll(states, at)[n][i] == states[at[n][i]]
  {
    hide Forward;
  }

  lemma SessionIsNotEmpty(calls: seq<seq<Owner>>, b: string, start: nat, cs: seq<CatchUp>)
    requires SessionEnds(calls, b, start, cs)
    ensures 0 < |cs| <= |calls|
  {}

  lemma DoneInRange<S(!new)>(w: Watched<S>, s: S, owner: string, states: seq<Owner>)
    requires WatchedInv(w, s, owner) && Wake.Count(w.net.committed, owner) < |states| && w.done != []
    ensures ReadsOf(states, w.done) && Wake.Count(w.net.published, owner) < |states|
  {
    var all := w.done + [w.now];
    assert forall k, i :: InCalls(w.done, k, i) ==> InCalls(all, k, i) && all[k][i] == w.done[k][i];
    forall k, i | 0 <= k < |w.done| && 0 <= i < |w.done[k]| ensures w.done[k][i] < |states| {
      assert InCalls(all, k, i);
    }
  }

  /**
   * The wake-up protocol and the stream together. The owner's states are numbered by its commits; the stream
   * reads the states its page reads saw, in any interleaving with commits, hints and other streams. Whenever
   * it waits with an open channel and no token after a finished catch-up, it has delivered, from its start
   * on, every change of its baseline's log that any commit published for its owner had made.
   */
  method FollowWakeUps<S(!new)>(states: seq<Owner>, at: seq<seq<nat>>, ghost codec: Codec, ownerKey: string, b: string,
                                start: nat, ghost ws: seq<Watched<S>>, ghost moves: seq<Move<S>>, ghost i: nat,
                                ghost s: S)
    returns (cs: seq<CatchUp>)
    requires WatchedRun(ws, moves, s, ownerKey) && i < |ws| && Idle(ws[i].net, s) && at == ws[i].done
    requires Run(codec, states) && Wake.Count(ws[i].net.committed, ownerKey) < |states|
    requires IsOwnerKey(ownerKey) && IsBaselineId(b)
    ensures Wake.Count(ws[i].net.published, ownerKey) < |states|
    ensures cs != [] && |cs| <= |at|
    ensures cs[|cs| - 1].outcome == Done ==>
              |cs| == |at| && Covers(Events(cs), states[Wake.Count(ws[i].net.published, ownerKey)].tables, b, start)
  {
    hide WatchedRun, WatchedInv, Run, ObservedAll, Forward, SessionEnds, SessionSends, Covers, Idle, Wake.Count,
         Keyed, BaselineLog, IsOwnerKey, IsBaselineId, Events, Delivered, AllFrom, ReadsOf;
    WatchedRunKeepsInv(ws, moves, s, ownerKey, i);
    IdleHasRead(ws[i], s, ownerKey);
    DoneInRange(ws[i], s, ownerKey, states);
    ReadsAreObserved(codec, states, at);
    var calls := ReadAll(states, at);
    cs := EventStream(calls, codec, ownerKey, b, start);
    SessionIsNotEmpty(calls, b, start, cs);
    if cs[|cs| - 1].outcome == Done {
      CoversPublished(codec, states, at, Wake.Count(ws[i].net.published, ownerKey), b, start, cs);
    }
  }
}
