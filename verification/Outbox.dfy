/** The realtime outbox: publishers claim rows, send hints and mark them, and may crash at any point. */
module Outbox {
  import opened Prelude

  /** A committed event. Ids grow with every insert; an owner's inserts are serialised by the owner lock. */
  datatype Row = Row(owner: string, published: bool, attempts: nat)

  /** Publishers hold a row from SELECT … FOR UPDATE SKIP LOCKED to the end of their transaction. */
  datatype Stage = Claimed | Sent | Refused

  datatype Claim = Claim(id: nat, stage: Stage)

  /** rows by id, the row each running publisher holds, and the ids whose hints went out, in order. */
  datatype State<P> = State(rows: map<nat, Row>, claims: map<P, Claim>, delivered: seq<nat>)

  const NO_ROWS: map<nat, Row> := map[]

  predicate Pending<P(!new)>(s: State<P>, id: nat) {
    id in s.rows && !s.rows[id].published
  }

  ghost predicate Locked<P(!new)>(s: State<P>, id: nat) {
    exists p :: p in s.claims && s.claims[p].id == id
  }

  /** The first unpublished row that no other publisher holds. */
  ghost predicate FirstFree<P(!new)>(s: State<P>, id: nat) {
    && Pending(s, id) && !Locked(s, id)
    && forall j :: Pending(s, j) && !Locked(s, j) ==> id <= j
  }

  ghost predicate HasFree<P(!new)>(s: State<P>) {
    exists id :: Pending(s, id) && !Locked(s, id)
  }

  datatype Act<P> =
    | Insert(id: nat, owner: string)   // the commit of a sync command
    | Select(publisher: P)             // lock the first free row
    | Send(publisher: P)               // PublishHint succeeds
    | Refuse(publisher: P, arrived: bool)  // PublishHint fails, though the hint may have gone out
    | Finish(publisher: P)             // update the row and commit
    | Crash(publisher: P)              // the transaction rolls back

  ghost predicate Next<P(!new)>(s: State<P>, act: Act<P>, after: State<P>) {
    match act
    case Insert(id, owner) =>
      && (forall j :: j in s.rows && s.rows[j].owner == owner ==> j < id) && id !in s.rows
      && after == s.(rows := s.rows[id := Row(owner, false, 0)])
    case Select(p) =>
      && p !in s.claims
      && exists id :: FirstFree(s, id) && after == s.(claims := s.claims[p := Claim(id, Claimed)])
    case Send(p) =>
      && p in s.claims && s.claims[p].stage == Claimed
      && after == s.(claims := s.claims[p := Claim(s.claims[p].id, Sent)], delivered := s.delivered + [s.claims[p].id])
    case Refuse(p, arrived) =>
      && p in s.claims && s.claims[p].stage == Claimed
      && after == s.(claims := s.claims[p := Claim(s.claims[p].id, Refused)],
                     delivered := if arrived then s.delivered + [s.claims[p].id] else s.delivered)
    case Finish(p) =>
      && p in s.claims && s.claims[p].stage != Claimed
      && s.claims[p].id in s.rows
      && var id := s.claims[p].id;
      && var row := s.rows[id];
      && after == s.(claims := s.claims - {p},
                     rows := s.rows[id := row.(published := row.published || s.claims[p].stage == Sent,
                                               attempts := row.attempts + 1)])
    case Crash(p) =>
      p in s.claims && after == s.(claims := s.claims - {p})
  }

  /** Rows are locked once, and marked only after a send that succeeded. */
  ghost predicate Safe<P(!new)>(s: State<P>) {
    && (forall p, q :: p in s.claims && q in s.claims && s.claims[p].id == s.claims[q].id ==> p == q)
    && (forall p :: p in s.claims ==> Pending(s, s.claims[p].id))
    && (forall p :: p in s.claims && s.claims[p].stage == Sent ==> s.claims[p].id in s.delivered)
    && (forall id :: id in s.rows && s.rows[id].published ==> id in s.delivered)
    && (forall id :: id in s.delivered ==> id in s.rows)
  }

  lemma SelectKeepsSafe<P(!new)>(s: State<P>, p: P, after: State<P>)
    requires Safe(s) && Next(s, Select(p), after)
    ensures Safe(after)
  {
    var id :| FirstFree(s, id) && after == s.(claims := s.claims[p := Claim(id, Claimed)]);
    forall q | q in s.claims ensures s.claims[q].id != id { assert !Locked(s, id); }
  }

  lemma HintKeepsSafe<P(!new)>(s: State<P>, act: Act<P>, after: State<P>)
    requires Safe(s) && Next(s, act, after) && (act.Send? || act.Refuse?)
    ensures Safe(after)
  {
    var id := s.claims[act.publisher].id;
    assert after.delivered == s.delivered || after.delivered == s.delivered + [id];
    assert forall j :: j in s.delivered ==> j in after.delivered;
    assert forall j :: j in after.delivered ==> j in s.delivered || j == id;
    assert act.Send? ==> after.delivered[|s.delivered|] == id;
  }

  lemma StepKeepsSafe<P(!new)>(s: State<P>, act: Act<P>, after: State<P>)
    requires Safe(s) && Next(s, act, after)
    ensures Safe(after)
  {
    if act.Select? {
      SelectKeepsSafe(s, act.publisher, after);
    } else if act.Send? || act.Refuse? {
      HintKeepsSafe(s, act, after);
    }
  }

  ghost predicate OutboxRun<P(!new)>(states: seq<State<P>>, acts: seq<Act<P>>) {
    && |states| == |acts| + 1
    && states[0] == State(NO_ROWS, map[], [])
    && forall i :: 0 <= i < |acts| ==> Next(states[i], acts[i], states[i + 1])
  }

  /** For any number of publishers, with crashes anywhere: no two hold one row, and a row marked published was sent. */
  lemma {:induction false} MarkedOnlyAfterSend<P(!new)>(states: seq<State<P>>, acts: seq<Act<P>>, i: nat)
    requires OutboxRun(states, acts) && i < |states|
    ensures Safe(states[i])
  {
    if i > 0 {
      MarkedOnlyAfterSend(states, acts, i - 1);
      hide Safe;
      assert Next(states[i - 1], acts[i - 1], states[i - 1 + 1]);
      hide Next;
      StepKeepsSafe(states[i - 1], acts[i - 1], states[i]);
    }
  }

  // ----- the marks of a row -----

  /** Act i ends a publisher's transaction on the row. */
  ghost predicate Finishes<P(!new)>(s: State<P>, act: Act<P>, id: nat) {
    act.Finish? && act.publisher in s.claims && s.claims[act.publisher].id == id
  }

  /** How many transactions on the row were committed by the first n acts. */
  ghost function Tries<P(!new)>(states: seq<State<P>>, acts: seq<Act<P>>, id: nat, n: nat): nat
    requires n <= |acts| < |states|
  {
    if n == 0 then 0
    else Tries(states, acts, id, n - 1) + if Finishes(states[n - 1], acts[n - 1], id) then 1 else 0
  }

  /** One of them after a send that succeeded. */
  ghost predicate SentAndFinished<P(!new)>(states: seq<State<P>>, acts: seq<Act<P>>, id: nat, n: nat)
    requires n <= |acts| < |states|
  {
    exists i :: 0 <= i < n && Finishes(states[i], acts[i], id) && states[i].claims[acts[i].publisher].stage == Sent
  }

  lemma StepMarks<P(!new)>(s: State<P>, act: Act<P>, after: State<P>, id: nat)
    requires Safe(s) && Next(s, act, after) && id in after.rows
    ensures id in s.rows ==>
              && after.rows[id].attempts == s.rows[id].attempts + (if Finishes(s, act, id) then 1 else 0)
              && (after.rows[id].published <==>
                    s.rows[id].published || (Finishes(s, act, id) && s.claims[act.publisher].stage == Sent))
    ensures id !in s.rows ==> !after.rows[id].published && after.rows[id].attempts == 0 && !Finishes(s, act, id)
  {}

  lemma {:induction false} NotYetTried<P(!new)>(states: seq<State<P>>, acts: seq<Act<P>>, id: nat, n: nat)
    requires OutboxRun(states, acts) && n <= |acts| && id !in states[n].rows
    ensures Tries(states, acts, id, n) == 0 && !SentAndFinished(states, acts, id, n)
  {
    if n > 0 {
      assert Next(states[n - 1], acts[n - 1], states[n - 1 + 1]);
      MarkedOnlyAfterSend(states, acts, n - 1);
      NotYetTried(states, acts, id, n - 1);
    }
  }

  /** A row counts the transactions committed on it, and is marked published iff one of them had sent its hint. */
  lemma {:induction false} MarksMeanTries<P(!new)>(states: seq<State<P>>, acts: seq<Act<P>>, id: nat, n: nat)
    requires OutboxRun(states, acts) && n <= |acts| && id in states[n].rows
    ensures states[n].rows[id].attempts == Tries(states, acts, id, n)
    ensures states[n].rows[id].published <==> SentAndFinished(states, acts, id, n)
  {
    if n > 0 {
      assert Next(states[n - 1], acts[n - 1], states[n - 1 + 1]);
      MarkedOnlyAfterSend(states, acts, n - 1);
      hide Next, Safe, OutboxRun;
      StepMarks(states[n - 1], acts[n - 1], states[n], id);
      if id in states[n - 1].rows {
        MarksMeanTries(states, acts, id, n - 1);
      } else {
        NotYetTried(states, acts, id, n - 1);
      }
    }
  }

  // ----- one publisher -----

  /** The publisher an act belongs to. */
  function Actor<P>(act: Act<P>): Option<P> {
    match act
    case Insert(_, _) => None
    case Select(p) => Some(p)
    case Send(p) => Some(p)
    case Refuse(p, _) => Some(p)
    case Finish(p) => Some(p)
    case Crash(p) => Some(p)
  }

  predicate SameOwner(rows: map<nat, Row>, i: nat, j: nat) {
    i in rows && j in rows && rows[i].owner == rows[j].owner
  }

  predicate EarlierPublished(rows: map<nat, Row>, id: nat) {
    forall j :: j in rows && j < id && SameOwner(rows, j, id) ==> rows[j].published
  }

  /** Of one owner's rows, a row is held or sent only after every earlier one was published. */
  ghost predicate InOrder<P(!new)>(s: State<P>) {
    && (forall id :: id in s.delivered ==> EarlierPublished(s.rows, id))
    && (forall p :: p in s.claims ==> EarlierPublished(s.rows, s.claims[p].id))
  }

  predicate FirstTime(delivered: seq<nat>, i: nat) {
    i < |delivered| && delivered[i] !in delivered[..i]
  }

  /** One owner's first deliveries are in id order. */
  ghost predicate FirstsInOrder(rows: map<nat, Row>, delivered: seq<nat>) {
    forall i, j :: 0 <= j < i < |delivered| && FirstTime(delivered, i) && SameOwner(rows, delivered[j], delivered[i])
                   ==> delivered[j] < delivered[i]
  }

  ghost predicate OnlyClaims<P(!new)>(s: State<P>, publisher: P) {
    forall p :: p in s.claims ==> p == publisher
  }

  lemma StepInOrder<P(!new)>(s: State<P>, act: Act<P>, after: State<P>, publisher: P)
    requires Safe(s) && InOrder(s) && OnlyClaims(s, publisher) && Next(s, act, after)
    requires Actor(act) == None || Actor(act) == Some(publisher)
    ensures InOrder(after) && OnlyClaims(after, publisher)
  {
    match act
    case Insert(id, owner) =>
    case Select(p) =>
      var id :| FirstFree(s, id) && after == s.(claims := s.claims[p := Claim(id, Claimed)]);
      forall j | j in s.rows && j < id && SameOwner(s.rows, j, id) ensures s.rows[j].published {
        assert !Locked(s, j);
      }
    case Send(p) =>
      assert forall j :: j in after.delivered ==> j in s.delivered || j == s.claims[p].id;
    case Refuse(p, arrived) =>
      assert forall j :: j in after.delivered ==> j in s.delivered || j == s.claims[p].id;
    case Finish(p) =>
    case Crash(p) =>
  }

  lemma FirstsKept(rows: map<nat, Row>, delivered: seq<nat>, after: map<nat, Row>)
    requires FirstsInOrder(rows, delivered)
    requires forall id :: id in delivered ==> id in rows && id in after && after[id].owner == rows[id].owner
    ensures FirstsInOrder(after, delivered)
  {}

  lemma FirstsAppended(rows: map<nat, Row>, delivered: seq<nat>, id: nat)
    requires FirstsInOrder(rows, delivered)
    requires id in delivered || forall j :: j in delivered && SameOwner(rows, j, id) ==> j < id
    ensures FirstsInOrder(rows, delivered + [id])
  {
    var more := delivered + [id];
    forall i, j | 0 <= j < i < |more| && FirstTime(more, i) && SameOwner(rows, more[j], more[i])
      ensures more[j] < more[i]
    {
      assert more[..i] == delivered[..i];
      assert more[j] == delivered[j] && delivered[j] in delivered;
      if i < |delivered| { assert FirstTime(delivered, i); }
    }
  }

  lemma StepFirsts<P(!new)>(s: State<P>, act: Act<P>, after: State<P>)
    requires Safe(s) && InOrder(s) && FirstsInOrder(s.rows, s.delivered) && Next(s, act, after)
    ensures FirstsInOrder(after.rows, after.delivered)
  {
    hide FirstsInOrder;
    if act.Send? || (act.Refuse? && act.arrived) {
      var id := s.claims[act.publisher].id;
      forall j | j in s.delivered && SameOwner(s.rows, j, id) && id !in s.delivered ensures j < id {
        assert EarlierPublished(s.rows, j);
        assert id < j ==> SameOwner(s.rows, id, j);
      }
      FirstsAppended(s.rows, s.delivered, id);
    } else {
      FirstsKept(s.rows, s.delivered, after.rows);
    }
  }

  /** With a single publisher, whatever fails or crashes, each owner's hints first go out in commit order. */
  lemma {:induction false} SinglePublisherKeepsOrder<P(!new)>(states: seq<State<P>>, acts: seq<Act<P>>, publisher: P,
                                                              i: nat)
    requires OutboxRun(states, acts) && i < |states|
    requires forall k :: 0 <= k < |acts| ==> Actor(acts[k]) == None || Actor(acts[k]) == Some(publisher)
    ensures InOrder(states[i]) && OnlyClaims(states[i], publisher)
    ensures FirstsInOrder(states[i].rows, states[i].delivered)
  {
    if i > 0 {
      SinglePublisherKeepsOrder(states, acts, publisher, i - 1);
      hide Safe, InOrder, OnlyClaims, FirstsInOrder;
      MarkedOnlyAfterSend(states, acts, i - 1);
      assert Next(states[i - 1], acts[i - 1], states[i - 1 + 1]);
      hide Next;
      StepInOrder(states[i - 1], acts[i - 1], states[i], publisher);
      StepFirsts(states[i - 1], acts[i - 1], states[i]);
    }
  }

  // ----- publishOne -----

  lemma {:induction false} LeastPendingExists(ids: set<nat>) returns (id: nat)
    requires ids != {}
    ensures id in ids && forall j :: j in ids ==> id <= j
    decreases ids
  {
    id :| id in ids;
    var rest := ids - {id};
    assert forall j :: j in ids ==> j == id || j in rest;
    if rest != {} {
      var other := LeastPendingExists(rest);
      if other < id { id := other; }
    }
  }

  /** How PublishHint ends; a timeout may come after the hint has gone out. */
  datatype Hint = Accepted | Failed(arrived: bool)

  /** The table and the hint channel as one publisher drives them, with the rows that others hold at that time. */
  class OutboxTable<P(!new, ==)> {
    var rows: map<nat, Row>
    var sent: seq<nat>
    var others: map<P, Claim>

    ghost function View(): State<P>
      reads this
    {
      State(rows, others, sent)
    }

    constructor ()
      ensures View() == State(NO_ROWS, map[], [])
    {
      rows, sent, others := NO_ROWS, [], map[];
    }

    /** SELECT … WHERE published_at_ms IS NULL ORDER BY id ASC LIMIT 1 FOR UPDATE SKIP LOCKED */
    method SelectFirst() returns (id: Option<nat>)
      ensures id.None? ==> !HasFree(View())
      ensures id.Some? ==> FirstFree(View(), id.value)
    {
      var held := set p | p in others :: others[p].id;
      var free := set id | id in rows && !rows[id].published && id !in held;
      assert forall j :: Locked(View(), j) <==> j in held;
      assert forall j :: Pending(View(), j) && !Locked(View(), j) <==> j in free;
      if free == {} { return None; }
      assert exists id :: id in free && forall j :: j in free ==> id <= j by {
        var id := LeastPendingExists(free);
      }
      var first :| first in free && forall j :: j in free ==> first <= j;
      return Some(first);
    }

    /**
     * One call of publishOne by publisher p. Without a free row nothing happens. Otherwise it is a Select, a
     * Send or a Refuse as PublishHint ends, and a Finish, or a Crash when the update or the commit fails; the
     * call reports true only for a row it marked.
     */
    method PublishOne(p: P, hint: Hint, commits: bool)
      returns (published: bool, ghost claimed: State<P>, ghost hinted: State<P>)
      requires p !in others
      modifies this
      ensures !HasFree(old(View())) ==> !published && View() == old(View())
      ensures HasFree(old(View())) ==>
                && published == (hint.Accepted? && commits)
                && Next(old(View()), Select(p), claimed)
                && Next(claimed, if hint.Accepted? then Send(p) else Refuse(p, hint.arrived), hinted)
                && Next(hinted, if commits then Finish(p) else Crash(p), View())
    {
      hide Next, FirstFree, Pending, Locked, HasFree;
      claimed, hinted := View(), View();
      var first := SelectFirst();
      if first.None? { return false, claimed, hinted; }
      var id := first.value;
      claimed := View().(claims := others[p := Claim(id, Claimed)]);
      SelectStep(View(), p, id);
      if hint.Accepted? || hint.arrived { sent := sent + [id]; }
      hinted := claimed.(claims := others[p := Claim(id, HintStage(hint))], delivered := sent);
      HintStep(claimed, others, p, id, hint);
      if commits {
        rows := rows[id := rows[id].(published := hint.Accepted?, attempts := rows[id].attempts + 1)];
      }
      EndStep(hinted, others, p, id, hint, commits);
      published := hint.Accepted? && commits;
    }
  }

  function HintStage(hint: Hint): Stage {
    if hint.Accepted? then Sent else Refused
  }

  lemma SelectStep<P(!new)>(s: State<P>, p: P, id: nat)
    requires p !in s.claims && FirstFree(s, id)
    ensures Next(s, Select(p), s.(claims := s.claims[p := Claim(id, Claimed)]))
    ensures Pending(s, id) && id in s.rows && HasFree(s)
  {}

  lemma HintStep<P(!new)>(s: State<P>, others: map<P, Claim>, p: P, id: nat, hint: Hint)
    requires s.claims == others[p := Claim(id, Claimed)]
    ensures Next(s, if hint.Accepted? then Send(p) else Refuse(p, hint.arrived),
                 s.(claims := others[p := Claim(id, HintStage(hint))],
                    delivered := if hint.Accepted? || hint.arrived then s.delivered + [id] else s.delivered))
  {
    assert s.claims[p := Claim(id, HintStage(hint))] == others[p := Claim(id, HintStage(hint))];
  }

  lemma EndStep<P(!new)>(s: State<P>, others: map<P, Claim>, p: P, id: nat, hint: Hint, commits: bool)
    requires p !in others && s.claims == others[p := Claim(id, HintStage(hint))] && Pending(s, id)
    ensures Next(s, if commits then Finish(p) else Crash(p),
                 s.(claims := others,
                    rows := if commits
                            then s.rows[id := s.rows[id].(published := hint.Accepted?,
                                                          attempts := s.rows[id].attempts + 1)]
                            else s.rows))
  {
    assert s.claims - {p} == others;
  }

  // ----- two publishers -----

  const TWO_ROWS := map[1 := Row("o", false, 0), 2 := Row("o", false, 0)]

  /** Both claim a row of one owner, and the second sends first. */
  function Reordered<P>(p: P, q: P): (states: seq<State<P>>)
    ensures |states| == 7
  {
    [State(NO_ROWS, map[], []),
     State(map[1 := Row("o", false, 0)], map[], []),
     State(TWO_ROWS, map[], []),
     State(TWO_ROWS, map[p := Claim(1, Claimed)], []),
     State(TWO_ROWS, map[p := Claim(1, Claimed), q := Claim(2, Claimed)], []),
     State(TWO_ROWS, map[p := Claim(1, Claimed), q := Claim(2, Sent)], [2]),
     State(TWO_ROWS, map[p := Claim(1, Sent), q := Claim(2, Sent)], [2, 1])]
  }

  function Reordering<P>(p: P, q: P): (acts: seq<Act<P>>)
    ensures |acts| == 6
  {
    [Insert(1, "o"), Insert(2, "o"), Select(p), Select(q), Send(q), Send(p)]
  }

  lemma ReorderingSelects<P(!new)>(p: P, q: P)
    requires p != q
    ensures Next(Reordered(p, q)[2], Select(p), Reordered(p, q)[3])
    ensures Next(Reordered(p, q)[3], Select(q), Reordered(p, q)[4])
  {
    var s2, s3, s4 := Reordered(p, q)[2], Reordered(p, q)[3], Reordered(p, q)[4];
    assert FirstFree(s2, 1);
    assert s3 == s2.(claims := s2.claims[p := Claim(1, Claimed)]);
    assert s3.claims[p].id == 1 && Locked(s3, 1);
    assert FirstFree(s3, 2);
    assert s4 == s3.(claims := s3.claims[q := Claim(2, Claimed)]);
  }

  lemma ReorderingSends<P(!new)>(p: P, q: P)
    requires p != q
    ensures Next(Reordered(p, q)[4], Send(q), Reordered(p, q)[5])
    ensures Next(Reordered(p, q)[5], Send(p), Reordered(p, q)[6])
  {
    var s4, s5, s6 := Reordered(p, q)[4], Reordered(p, q)[5], Reordered(p, q)[6];
    assert s5.claims == s4.claims[q := Claim(2, Sent)] && s5.delivered == s4.delivered + [2];
    assert s6.claims == s5.claims[p := Claim(1, Sent)] && s6.delivered == s5.delivered + [1];
  }

  lemma ReorderingInserts<P(!new)>(p: P, q: P)
    ensures Next(Reordered(p, q)[0], Insert(1, "o"), Reordered(p, q)[1])
    ensures Next(Reordered(p, q)[1], Insert(2, "o"), Reordered(p, q)[2])
  {
    assert TWO_ROWS == Reordered(p, q)[1].rows[2 := Row("o", false, 0)];
  }

  /**
   * Any two publishers can reverse an owner's hints, even when nothing fails: the second skips the row the
   * first still holds.
   */
  lemma TwoPublishersCanReorder<P(!new)>(p: P, q: P)
    requires p != q
    ensures OutboxRun(Reordered(p, q), Reordering(p, q))
    ensures !FirstsInOrder(Reordered(p, q)[6].rows, Reordered(p, q)[6].delivered)
  {
    ReorderingInserts(p, q);
    ReorderingSelects(p, q);
    ReorderingSends(p, q);
    var last := Reordered(p, q)[6];
    assert FirstTime(last.delivered, 1) && SameOwner(last.rows, last.delivered[0], last.delivered[1]);
    hide Next;
    var states, acts := Reordered(p, q), Reordering(p, q);
    forall i | 0 <= i < |acts| ensures Next(states[i], acts[i], states[i + 1]) {
      if i == 0 {} else if i == 1 {} else if i == 2 {} else if i == 3 {} else if i == 4 {} else { assert i == 5; }
    }
  }
}
