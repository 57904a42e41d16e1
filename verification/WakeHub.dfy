/** Owner-scoped wake-ups over channels of capacity one. */
module WakeHub {

  // ----- the hub as a value -----

  /** One subscription's channel: whether a token is buffered, and whether the channel is still open. */
  datatype Channel = Channel(owner: string, pending: bool, isOpen: bool)

  /** Every channel ever handed out; the registered ones are those still open. */
  datatype Hub<S> = Hub(closed: bool, channels: map<S, Channel>)

  function Registered<S>(h: Hub<S>, s: S, owner: string): Hub<S> {
    h.(channels := h.channels[s := Channel(owner, false, !h.closed)])
  }

  function Published<S>(h: Hub<S>, owner: string): Hub<S> {
    h.(channels := map s | s in h.channels ::
         var c := h.channels[s]; if c.isOpen && c.owner == owner then c.(pending := true) else c)
  }

  function Unregistered<S>(h: Hub<S>, s: S): Hub<S> {
    if s in h.channels then h.(channels := h.channels[s := h.channels[s].(isOpen := false)]) else h
  }

  function Closed<S>(h: Hub<S>): Hub<S> {
    Hub(true, map s | s in h.channels :: h.channels[s].(isOpen := false))
  }

  // ----- the hub as it is built -----

  class Subscription {
    const ownerKey: string
    var pending: bool
    var isOpen: bool

    constructor (ownerKey: string)
      ensures this.ownerKey == ownerKey && !pending && isOpen
    {
      this.ownerKey, this.pending, this.isOpen := ownerKey, false, true;
    }

    /** A send that never blocks; on a closed channel it would panic. */
    method TrySend()
      requires isOpen
      modifies this`pending
      ensures pending
    {
      pending := true;
    }

    /** Closing a closed channel would panic. */
    method CloseChannel()
      requires isOpen
      modifies this`isOpen
      ensures !isOpen
    {
      isOpen := false;
    }
  }

  class WakeHub {
    var byOwner: map<string, set<Subscription>>
    var closed: bool
    /** Every subscription this hub ever returned. */
    ghost var handedOut: set<Subscription>

    /** byOwner holds exactly the subscriptions whose channel is open, without empty entries. */
    ghost predicate Valid()
      reads this, handedOut
    {
      && (forall o :: o in byOwner ==> byOwner[o] != {})
      && (forall o, s :: o in byOwner && s in byOwner[o] ==> s in handedOut && s.ownerKey == o && s.isOpen)
      && (forall s :: s in handedOut && s.isOpen ==> s.ownerKey in byOwner && s in byOwner[s.ownerKey])
      && (closed ==> byOwner == map[])
    }

    ghost function View(): Hub<Subscription>
      reads this, handedOut
    {
      Hub(closed, map s | s in handedOut :: Channel(s.ownerKey, s.pending, s.isOpen))
    }

    constructor ()
      ensures Valid() && View() == Hub(false, map[]) && handedOut == {}
    {
      byOwner, closed, handedOut := map[], false, {};
    }

    method Register(ownerKey: string) returns (s: Subscription)
      requires Valid()
      modifies this
      ensures Valid() && fresh(s) && handedOut == old(handedOut) + {s}
      ensures View() == Registered(old(View()), s, ownerKey)
    {
      s := new Subscription(ownerKey);
      handedOut := handedOut + {s};
      if closed {
        s.CloseChannel();
        return;
      }
      var subscriptions := if ownerKey in byOwner then byOwner[ownerKey] else {};
      byOwner := byOwner[ownerKey := subscriptions + {s}];
    }

    /** Every send goes to an open channel. */
    method Publish(ownerKey: string)
      requires Valid()
      modifies handedOut
      ensures Valid() && handedOut == old(handedOut)
      ensures View() == Published(old(View()), ownerKey)
    {
      if closed || ownerKey !in byOwner { return; }
      var rest := byOwner[ownerKey];
      while rest != {}
        invariant rest <= byOwner[ownerKey]
        invariant forall s :: s in handedOut ==>
                    s.isOpen == old(s.isOpen)
                    && s.pending == (old(s.pending) || (s in byOwner[ownerKey] && s !in rest))
        decreases rest
      {
        var s :| s in rest;
        s.TrySend();
        rest := rest - {s};
      }
    }

    /** Closes the channel exactly once, however often it is called. */
    method Unregister(s: Subscription)
      requires Valid() && s in handedOut
      modifies this, s
      ensures Valid() && handedOut == old(handedOut)
      ensures View() == Unregistered(old(View()), s)
    {
      if s.ownerKey !in byOwner || s !in byOwner[s.ownerKey] { return; }
      var rest := byOwner[s.ownerKey] - {s};
      byOwner := if rest == {} then byOwner - {s.ownerKey} else byOwner[s.ownerKey := rest];
      s.CloseChannel();
      forall other | other in handedOut && other.isOpen
        ensures other.ownerKey in byOwner && other in byOwner[other.ownerKey]
      {
        assert other in old(byOwner)[other.ownerKey];
        assert other.ownerKey == s.ownerKey ==> other in rest;
      }
    }

    method Close()
      requires Valid()
      modifies this, handedOut
      ensures Valid() && handedOut == old(handedOut)
      ensures View() == Closed(old(View()))
    {
      if closed { return; }
      closed := true;
      var owners := byOwner.Keys;
      while owners != {}
        invariant closed && byOwner == old(byOwner) && handedOut == old(handedOut) && owners <= byOwner.Keys
        invariant forall s :: s in handedOut ==> s.pending == old(s.pending)
        invariant forall s :: s in handedOut ==> s.isOpen == (old(s.isOpen) && s.ownerKey in owners)
        decreases owners
      {
        var o :| o in owners;
        var rest := byOwner[o];
        while rest != {}
          invariant closed && byOwner == old(byOwner) && handedOut == old(handedOut) && rest <= byOwner[o]
          invariant forall s :: s in handedOut ==> s.pending == old(s.pending)
          invariant forall s :: s in handedOut ==>
                      s.isOpen == (old(s.isOpen) && s.ownerKey in owners && (s.ownerKey == o ==> s in rest))
          decreases rest
        {
          var s :| s in rest;
          s.CloseChannel();
          rest := rest - {s};
        }
        owners := owners - {o};
      }
      byOwner := map[];
    }
  }

  // ----- streams over the hub -----

  /** Where a stream is in its loop; since is the number of commits its last read started after. */
  datatype Phase =
    | Starting               // registered, the initial read has not started
    | Reading(since: nat)
    | Waiting(since: nat)
    | Woken                  // took a token, or a reconcile tick fired

  /**
   * Commits and publications by owner, the hub, and the streams. A publication covers the commits made
   * before it; published[o] is how many of o's commits the publications so far cover.
   */
  datatype Net<S> = Net(committed: map<string, nat>, published: map<string, nat>, hub: Hub<S>, streams: map<S, Phase>)

  function Count(m: map<string, nat>, o: string): nat {
    if o in m then m[o] else 0
  }

  datatype Act<S> =
    | Commit(owner: string)
    | Hint(owner: string)
    | Open(stream: S, owner: string)
    | StartRead(stream: S)
    | EndRead(stream: S)
    | TakeToken(stream: S)
    | Tick(stream: S)
    | Leave(stream: S)
    | Shutdown

  predicate InPhase<S(!new)>(n: Net<S>, s: S) {
    s in n.streams && s in n.hub.channels
  }

  /** One atomic step of any participant; the hub's lock makes its operations atomic. */
  ghost predicate Next<S(!new)>(n: Net<S>, act: Act<S>, after: Net<S>) {
    match act
    case Commit(o) => after == n.(committed := n.committed[o := Count(n.committed, o) + 1])
    case Hint(o) =>
      after == n.(published := n.published[o := Count(n.committed, o)], hub := Published(n.hub, o))
    case Open(s, o) =>
      s !in n.hub.channels && s !in n.streams
      && after == n.(hub := Registered(n.hub, s, o), streams := n.streams[s := Starting])
    case StartRead(s) =>
      InPhase(n, s) && (n.streams[s].Starting? || n.streams[s].Woken?)
      && after == n.(streams := n.streams[s := Reading(Count(n.committed, n.hub.channels[s].owner))])
    case EndRead(s) =>
      InPhase(n, s) && n.streams[s].Reading?
      && after == n.(streams := n.streams[s := Waiting(n.streams[s].since)])
    case TakeToken(s) =>
      InPhase(n, s) && n.streams[s].Waiting? && n.hub.channels[s].pending
      && after == n.(hub := n.hub.(channels := n.hub.channels[s := n.hub.channels[s].(pending := false)]),
                     streams := n.streams[s := Woken])
    case Tick(s) =>
      InPhase(n, s) && n.streams[s].Waiting? && after == n.(streams := n.streams[s := Woken])
    case Leave(s) =>
      InPhase(n, s) && after == n.(hub := Unregistered(n.hub, s), streams := n.streams - {s})
    case Shutdown => after == n.(hub := Closed(n.hub))
  }

  /** A live stream that is reading or waiting without a token has read after every published commit. */
  ghost predicate NoLostWakeUp<S(!new)>(n: Net<S>) {
    && (forall o :: Count(n.published, o) <= Count(n.committed, o))
    && (forall s :: s in n.streams ==> s in n.hub.channels)
    && (forall s :: s in n.streams && n.hub.channels[s].isOpen && !n.hub.channels[s].pending
                    && (n.streams[s].Reading? || n.streams[s].Waiting?) ==>
          n.streams[s].since >= Count(n.published, n.hub.channels[s].owner))
  }

  function NewNet<S>(): Net<S> {
    Net(map[], map[], Hub(false, map[]), map[])
  }

  lemma StepKeepsWakeUps<S(!new)>(n: Net<S>, act: Act<S>, after: Net<S>)
    requires NoLostWakeUp(n) && Next(n, act, after)
    ensures NoLostWakeUp(after)
  {
    match act
    case Commit(o) =>
    case Hint(o) =>
    case Open(s, o) =>
    case StartRead(s) =>
    case EndRead(s) =>
    case TakeToken(s) =>
    case Tick(s) =>
    case Leave(s) =>
    case Shutdown =>
  }

  ghost predicate NetRun<S(!new)>(nets: seq<Net<S>>, acts: seq<Act<S>>) {
    && |nets| == |acts| + 1
    && nets[0] == NewNet()
    && forall i :: 0 <= i < |acts| ==> Next(nets[i], acts[i], nets[i + 1])
  }

  /**
   * No wake-up is lost to coalescing: in every interleaving, whenever a live stream waits with no pending
   * token, its last feed read started after every commit already published through the hub for its owner.
   */
  lemma {:induction false} NoWakeUpIsLost<S(!new)>(nets: seq<Net<S>>, acts: seq<Act<S>>, i: nat)
    requires NetRun(nets, acts) && i < |nets|
    ensures NoLostWakeUp(nets[i])
  {
    if i > 0 {
      NoWakeUpIsLost(nets, acts, i - 1);
      hide NoLostWakeUp;
      assert Next(nets[i - 1], acts[i - 1], nets[i - 1 + 1]);
      hide Next;
      StepKeepsWakeUps(nets[i - 1], acts[i - 1], nets[i]);
    }
  }

  // ----- tokens and channels -----

  predicate ShutBefore<S>(acts: seq<Act<S>>, i: nat)
    requires i <= |acts|
  {
    exists j :: 0 <= j < i && acts[j].Shutdown?
  }

  /**
   * A token is only ever there after a hint for its owner, and a channel is open exactly while its stream is
   * there and the hub has not been shut down.
   */
  ghost predicate Accounted<S(!new)>(n: Net<S>, shut: bool) {
    && n.hub.closed == shut
    && (forall s :: s in n.streams ==> s in n.hub.channels)
    && (forall s :: s in n.hub.channels && n.hub.channels[s].pending ==> n.hub.channels[s].owner in n.published)
    && (forall s :: s in n.hub.channels ==> (n.hub.channels[s].isOpen <==> s in n.streams && !shut))
  }

  lemma StepKeepsAccount<S(!new)>(n: Net<S>, act: Act<S>, after: Net<S>, shut: bool)
    requires Accounted(n, shut) && Next(n, act, after)
    ensures Accounted(after, shut || act.Shutdown?)
  {}

  /** In every interleaving. */
  lemma {:induction false} TokensAndChannels<S(!new)>(nets: seq<Net<S>>, acts: seq<Act<S>>, i: nat)
    requires NetRun(nets, acts) && i < |nets|
    ensures Accounted(nets[i], ShutBefore(acts, i))
  {
    if i > 0 {
      TokensAndChannels(nets, acts, i - 1);
      assert Next(nets[i - 1], acts[i - 1], nets[i - 1 + 1]);
      assert ShutBefore(acts, i) <==> ShutBefore(acts, i - 1) || acts[i - 1].Shutdown?;
      hide Accounted, Next, ShutBefore;
      StepKeepsAccount(nets[i - 1], acts[i - 1], nets[i], ShutBefore(acts, i - 1));
    }
  }
}
