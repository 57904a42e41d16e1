/** A stream that re-reads the store for every page, while commits and resets happen in between. */
module FeedStream {
  import opened Prelude
  import opened SyncTypes
  import opened Validation
  import opened Progress
  import opened Tables
  import opened Wire
  import opened WireBounds
  import opened SyncSpec
  import opened CoreInvariant
  import opened ArchiveInvariant
  import opened OwnerInvariant
  import opened History
  import opened ClientView
  import opened ExchangePages
  import opened FeedPages

  const FEED_PAGE_LIMIT := 128

  datatype Event =
    | Changes(response: SyncResponse)
    | Ready(response: SyncResponse)
    | Mismatch(response: SyncResponse)
    | Reset(response: SyncResponse)

  /** An event fits, and the position after a changes event is the cursor of its last change. */
  predicate Sound(e: Event) {
    && Fits(e.response)
    && (e.Changes? ==> NextIsLast(e.response))
  }

  /** A client that stops here resumes after the last change it was sent. */
  predicate NextIsLast(response: SyncResponse) {
    response.changes != [] && response.nextCursor == response.changes[|response.changes| - 1].cursor
  }

  /** The server's lineage as the state holds it; without one, the requested baseline at version 0. */
  ghost predicate Header(r: SyncResponse, t: Tables, b: string) {
    if t.lineage.None? then
      r.baselineId == b && r.serverVersion == 0 && r.serverUpdatedAtMs == 0 && r.serverProgressDay == "2026-07-13"
    else
      && r.baselineId == t.lineage.value.baselineId && r.serverVersion == t.lineage.value.version
      && r.serverUpdatedAtMs == t.lineage.value.updatedAtMs && r.serverProgressDay == t.lineage.value.progressDay
  }

  /** Everything but the changes and the position of an event, in terms of the state its read saw. */
  ghost predicate FromState(e: Event, t: Tables, b: string) {
    && Header(e.response, t, b)
    && e.response.acks == []
    && (e.response.baselineMismatch <==> e.Mismatch?)
    && (e.response.resetRequired <==> e.Reset?)
    && (e.Changes? ==> (e.response.hasMore <==> e.response.nextCursor < t.core.cursor))
    && (!e.Changes? ==> e.response.changes == [] && !e.response.hasMore)
    && (e.Reset? ==> e.response.nextCursor == 0)
  }

  ghost predicate AllFromState(events: seq<Event>, t: Tables, b: string) {
    forall i :: 0 <= i < |events| ==> FromState(events[i], t, b)
  }

  /** Event i comes from read i, but ready shares the last read with the changes before it. */
  ghost predicate FromReads(events: seq<Event>, seen: seq<Owner>, used: nat, b: string)
    requires 0 < used <= |seen|
  {
    forall i :: 0 <= i < |events| ==> FromState(events[i], seen[Min(i, used - 1)].tables, b)
  }

  ghost predicate PageHeader(page: FeedPage, t: Tables, b: string) {
    Header(FeedResponse(page, 0), t, b)
  }

  /** The three control events, made from a page. */
  lemma ControlFromState(page: FeedPage, t: Tables, b: string, next: nat)
    requires PageHeader(page, t, b)
    ensures FromState(Ready(FeedResponse(page, next).(hasMore := false)), t, b)
    ensures FromState(Mismatch(FeedResponse(page, next).(baselineMismatch := true)), t, b)
    ensures FromState(Reset(FeedResponse(page, 0).(resetRequired := true)), t, b)
  {}

  lemma ControlIsSound(e: Event)
    requires Fits(e.response) && !e.Changes?
    ensures Sound(e)
  {}

  lemma ChangesAreSound(response: SyncResponse)
    requires Fits(response) && NextIsLast(response)
    ensures Sound(Changes(response))
  {}

  /** How one catch-up ends; Interrupted is a client that leaves between two reads. */
  datatype Outcome = Done | Terminal | Failed(error: Error) | Interrupted

  /** The changes of the events, concatenated. */
  function Delivered(events: seq<Event>): seq<Change> {
    if events == [] then []
    else
      var last := events[|events| - 1];
      Delivered(events[..|events| - 1]) + if last.Changes? then last.response.changes else []
  }

  lemma DeliveredOne(events: seq<Event>, e: Event)
    ensures Delivered(events + [e]) == Delivered(events) + if e.Changes? then e.response.changes else []
  {
    assert (events + [e])[..|events|] == events;
  }

  lemma {:induction false} DeliveredConcat(xs: seq<Event>, ys: seq<Event>)
    ensures Delivered(xs + ys) == Delivered(xs) + Delivered(ys)
  {
    if ys == [] {
      assert xs + ys == xs;
    } else {
      assert (xs + ys)[..|xs + ys| - 1] == xs + ys[..|ys| - 1];
      DeliveredConcat(xs, ys[..|ys| - 1]);
    }
  }

  /** The states a stream seen: reachable, each no earlier than the one before. */
  ghost predicate Observed(codec: Codec, seen: seq<Owner>) {
    forall i, j :: 0 <= i <= j < |seen| ==> Reaches(codec, seen[i], seen[j])
  }

  /** A position a stream may continue from: on the baseline and not beyond its head, or at the very start. */
  predicate Follows(t: Tables, b: string, cursor: nat) {
    if t.lineage.None? then cursor == 0 else Current(t, b) && cursor <= t.core.cursor
  }

  /** A position that is fine unless the baseline was replaced. */
  predicate FollowsOrReplaced(t: Tables, b: string, cursor: nat) {
    (t.lineage.Some? && t.lineage.value.baselineId != b) || Follows(t, b, cursor)
  }

  /** Commits and resets between two reads never strand a stream: it can continue, or its baseline is gone. */
  lemma StillFollows(codec: Codec, o: Owner, later: Owner, b: string, cursor: nat)
    requires Reaches(codec, o, later) && Follows(o.tables, b, cursor)
    ensures FollowsOrReplaced(later.tables, b, cursor)
  {
    hide CoreInv, ArchiveInv, ResolutionsCurrent, LineageSound, ArchiveKept;
    assert Retired(o.tables, later.tables, b) && Continues(o.tables, later.tables, b);
    if b in o.tables.archiveHeads { assert b in later.tables.archiveHeads; }
  }

  /** What a page read at a position the stream may continue from contains. */
  lemma PageMeaning(codec: Codec, o: Owner, ownerKey: string, b: string, cursor: nat)
    requires Inv(codec, o) && Follows(o.tables, b, cursor)
    requires IsOwnerKey(ownerKey) && IsBaselineId(b) && cursor <= MAX_SAFE_INTEGER
    ensures Keyed(o.tables) && ReadFeedPage(o.tables, ownerKey, b, cursor, FEED_PAGE_LIMIT).Ok?
    ensures var page := ReadFeedPage(o.tables, ownerKey, b, cursor, FEED_PAGE_LIMIT).value;
            var head := o.tables.core.cursor;
            && !page.baselineMismatch && !page.resetRequired
            && cursor <= head == |BaselineLog(o.tables, b)|
            && page.changes == BaselineLog(o.tables, b)[cursor..Min(cursor + FEED_PAGE_LIMIT, head)]
            && (page.hasMore <==> cursor + FEED_PAGE_LIMIT < head)
            && page.nextCursor == Min(cursor + FEED_PAGE_LIMIT, head)
            && (forall i :: 0 <= i < |page.changes| ==> page.changes[i].cursor == cursor + i + 1)
            && page.baselineId == b
  {
    hide Inv, Climbs, Keyed, Dense, Log, BaselineLog, Rows, ReadPage, IsOwnerKey, IsBaselineId;
    InvKeyed(codec, o);
    if o.tables.lineage.None? {
      NoLineage(codec, o);
      NoRowsYet(b);
    } else {
      PageIsSlice(o.tables.core, cursor, FEED_PAGE_LIMIT);
      LogAtCursor(o.tables.core, cursor, Min(cursor + FEED_PAGE_LIMIT, o.tables.core.cursor));
    }
  }

  lemma NoLineage(codec: Codec, o: Owner)
    requires Inv(codec, o) && o.tables.lineage.None?
    ensures o.tables == EMPTY
  {}

  lemma NoRowsYet(b: string)
    ensures Keyed(EMPTY) && BaselineLog(EMPTY, b) == []
  {}

  // ----- sizes -----

  /** The lineage fields of a page fit their columns. */
  ghost predicate PageFits(page: FeedPage) {
    && IsBaselineId(page.baselineId) && |page.serverProgressDay| <= MAX_PROGRESS_DAY
    && page.serverVersion <= MAX_UINT64 && page.serverUpdatedAtMs <= MAX_UINT64
  }

  lemma ReadFits(codec: Codec, o: Owner, ownerKey: string, b: string, cursor: nat)
    requires Inv(codec, o) && ReadFeedPage(o.tables, ownerKey, b, cursor, FEED_PAGE_LIMIT).Ok?
    ensures PageFits(ReadFeedPage(o.tables, ownerKey, b, cursor, FEED_PAGE_LIMIT).value)
    ensures IsBaselineId(b) && cursor <= MAX_SAFE_INTEGER
  {
    hide Inv, ReadPage, IsBaselineId, IsOwnerKey;
    if o.tables.lineage.Some? { InvFits(codec, o); }
  }

  /** A response without changes, and one with a single change, always fit. */
  lemma SmallFits(page: FeedPage, r: SyncResponse)
    requires PageFits(page) && r.nextCursor <= MAX_UINT64 && r.acks == [] && |r.changes| <= 1
    requires r.baselineId == page.baselineId && r.serverVersion == page.serverVersion
    requires r.serverUpdatedAtMs == page.serverUpdatedAtMs && r.serverProgressDay == page.serverProgressDay
    requires forall i :: 0 <= i < |r.changes| ==> WithinLimits(r.changes[i]) && r.changes[i].cursor <= MAX_UINT64
    ensures Fits(r)
  {
    ChangesBound(r.changes);
    BaselineFieldBound(r.baselineId);
    ProgressFieldBound(r.serverProgressDay);
    NumberFieldBound(r.nextCursor);
    NumberFieldBound(r.serverVersion);
    NumberFieldBound(r.serverUpdatedAtMs);
    hide StringField, NumberField, ChangesSize, WithinLimits;
  }

  lemma FirstChangeFits(codec: Codec, o: Owner, page: FeedPage)
    requires page.changes != [] && PageFits(page) && Inv(codec, o) && o.tables.lineage.Some?
    requires page.changes[0].cursor in o.tables.core.operations
    requires o.tables.core.operations[page.changes[0].cursor] == page.changes[0]
    ensures Fits(PrefixResponse(page, 1))
  {
    hide Inv, WithinLimits, PageFits, SyncResponseSize, LineageFits;
    InvFits(codec, o);
    SmallFits(page, PrefixResponse(page, 1));
  }

  /** The first change of a page is the operation at its cursor. */
  lemma FirstIsOperation(codec: Codec, o: Owner, b: string, cursor: nat, high: nat)
    requires Inv(codec, o) && Current(o.tables, b) && Keyed(o.tables) && cursor < high <= |BaselineLog(o.tables, b)|
    ensures cursor + 1 in o.tables.core.operations
    ensures BaselineLog(o.tables, b)[cursor..high][0] == o.tables.core.operations[cursor + 1]
    ensures o.tables.core.operations[cursor + 1].cursor == cursor + 1
  {
    hide Inv, Climbs, Keyed, BaselineLog, Rows;
    InvKeyed(codec, o);
  }

  // ----- one page -----

  /** How a response cut from a page moves the stream. */
  lemma CutMeaning(codec: Codec, o: Owner, page: FeedPage, b: string, cursor: nat, response: SyncResponse,
                   consumed: nat)
    requires Inv(codec, o) && o.tables.lineage.Some? && Current(o.tables, b) && PageFits(page) && Keyed(o.tables)
    requires var head := o.tables.core.cursor;
             && cursor < head == |BaselineLog(o.tables, b)|
             && page.changes == BaselineLog(o.tables, b)[cursor..Min(cursor + FEED_PAGE_LIMIT, head)]
             && page.nextCursor == Min(cursor + FEED_PAGE_LIMIT, head)
             && (page.hasMore <==> cursor + FEED_PAGE_LIMIT < head)
             && (forall i :: 0 <= i < |page.changes| ==> page.changes[i].cursor == cursor + i + 1)
    requires PageHeader(page, o.tables, b)
    requires if Fits(FullResponse(page)) then response == FullResponse(page) && consumed == |page.changes|
             else LongestPrefix(page, consumed) && (consumed > 0 ==> response == PrefixResponse(page, consumed))
    ensures 0 < consumed <= |page.changes| && Fits(response)
    ensures response.nextCursor == cursor + consumed <= o.tables.core.cursor
    ensures response.changes == BaselineLog(o.tables, b)[cursor..cursor + consumed]
    ensures NextIsLast(response) && FromState(Changes(response), o.tables, b)
  {
    hide Inv, SyncResponseSize, BaselineLog, Keyed, PageFits;
    FirstIsOperation(codec, o, b, cursor, Min(cursor + FEED_PAGE_LIMIT, o.tables.core.cursor));
    FirstChangeFits(codec, o, page);
    if !Fits(FullResponse(page)) {
      LongestIsPositive(page, consumed);
      LongestIsProper(page, consumed);
      PrefixOfSlice(BaselineLog(o.tables, b), cursor, Min(cursor + FEED_PAGE_LIMIT, o.tables.core.cursor), consumed);
    }
  }

  lemma PrefixOfSlice<T>(s: seq<T>, low: nat, high: nat, k: nat)
    requires low <= high <= |s| && k <= high - low
    ensures s[low..high][..k] == s[low..low + k]
  {}

  /** When a read fails, and which of the three kinds of page it returns. */
  lemma ReadMeaning(codec: Codec, o: Owner, ownerKey: string, b: string, cursor: nat)
    requires Inv(codec, o) && IsOwnerKey(ownerKey) && IsBaselineId(b)
    ensures ReadFeedPage(o.tables, ownerKey, b, cursor, FEED_PAGE_LIMIT).Err? <==> cursor > MAX_SAFE_INTEGER
    ensures cursor <= MAX_SAFE_INTEGER ==>
              var page := ReadFeedPage(o.tables, ownerKey, b, cursor, FEED_PAGE_LIMIT).value;
              && PageFits(page) && PageHeader(page, o.tables, b)
              && (page.baselineMismatch <==> o.tables.lineage.Some? && !Current(o.tables, b))
              && (page.resetRequired && !page.baselineMismatch <==> !FollowsOrReplaced(o.tables, b, cursor))
              && (!page.resetRequired && !page.baselineMismatch <==> Follows(o.tables, b, cursor))
  {
    hide ReadPage, IsOwnerKey, PageFits, CoreInv, ArchiveInv, CurrentArchived, ResolutionsCurrent, LineageSound;
    if cursor <= MAX_SAFE_INTEGER { ReadFits(codec, o, ownerKey, b, cursor); }
  }

  /** The whole of one step that sends changes. */
  lemma CutPage(codec: Codec, o: Owner, ownerKey: string, b: string, cursor: nat, response: SyncResponse,
                consumed: nat, log: seq<Change>)
    requires Inv(codec, o) && Follows(o.tables, b, cursor) && Keyed(o.tables) && BaselineLog(o.tables, b) <= log
    requires IsOwnerKey(ownerKey) && IsBaselineId(b) && cursor <= MAX_SAFE_INTEGER
    requires var page := ReadFeedPage(o.tables, ownerKey, b, cursor, FEED_PAGE_LIMIT).value;
             && page.changes != []
             && if Fits(FullResponse(page)) then response == FullResponse(page) && consumed == |page.changes|
                else LongestPrefix(page, consumed) && (consumed > 0 ==> response == PrefixResponse(page, consumed))
    ensures var page := ReadFeedPage(o.tables, ownerKey, b, cursor, FEED_PAGE_LIMIT).value;
            && 0 < consumed <= |page.changes| && Fits(response)
            && response.nextCursor == cursor + consumed <= |log|
            && response.changes == log[cursor..cursor + consumed]
            && NextIsLast(response) && FromState(Changes(response), o.tables, b)
            && Follows(o.tables, b, cursor + consumed)
            && (consumed == |page.changes| && !page.hasMore ==> cursor + consumed == o.tables.core.cursor)
  {
    hide Inv, BaselineLog, Keyed, PageFits, SyncResponseSize, FullResponse, PrefixResponse, LongestPrefix,
         ReadFeedPage, IsOwnerKey, IsBaselineId;
    PageMeaning(codec, o, ownerKey, b, cursor);
    ReadMeaning(codec, o, ownerKey, b, cursor);
    var page := ReadFeedPage(o.tables, ownerKey, b, cursor, FEED_PAGE_LIMIT).value;
    assert page.changes != [] ==> cursor < o.tables.core.cursor;
    if o.tables.lineage.None? { NoLineage(codec, o); }
    CutMeaning(codec, o, page, b, cursor, response, consumed);
    assert BaselineLog(o.tables, b)[cursor..cursor + consumed] == log[cursor..cursor + consumed];
  }

  lemma PageOrdered(codec: Codec, o: Owner, ownerKey: string, b: string, cursor: nat)
    requires Inv(codec, o) && Follows(o.tables, b, cursor)
    requires IsOwnerKey(ownerKey) && IsBaselineId(b) && cursor <= MAX_SAFE_INTEGER
    ensures ByCursor(ReadFeedPage(o.tables, ownerKey, b, cursor, FEED_PAGE_LIMIT).value.changes)
  {
    hide BaselineLog, Inv, Keyed, ReadFeedPage;
    PageMeaning(codec, o, ownerKey, b, cursor);
  }

  /** Nothing to send means the stream is at the head. */
  lemma CaughtUp(codec: Codec, o: Owner, ownerKey: string, b: string, cursor: nat)
    requires Inv(codec, o) && Follows(o.tables, b, cursor)
    requires IsOwnerKey(ownerKey) && IsBaselineId(b) && cursor <= MAX_SAFE_INTEGER
    requires ReadFeedPage(o.tables, ownerKey, b, cursor, FEED_PAGE_LIMIT).value.changes == []
    ensures cursor == o.tables.core.cursor
  {
    hide BaselineLog, Inv, Keyed, ReadFeedPage;
    PageMeaning(codec, o, ownerKey, b, cursor);
  }

  /** A round on the baseline: the log from cursor to next, then ready if the head is reached and it is asked for. */
  ghost predicate Advanced(t: Tables, b: string, cursor: nat, sendReady: bool, sent: seq<Event>, next: nat,
                           outcome: Option<Outcome>)
    requires Keyed(t)
  {
    && cursor <= next && Follows(t, b, next)
    && SentRange(sent, BaselineLog(t, b), cursor, next)
    && (outcome.None? ==> next > cursor && |sent| == 1 && sent[0].Changes?)
    && (outcome.Some? ==>
          && outcome.value == Done && next == t.core.cursor
          && (forall i :: 0 <= i < |sent| ==> if i < |sent| - 1 || !sendReady then sent[i].Changes? else sent[i].Ready?)
          && (sendReady ==> sent != [] && sent[|sent| - 1].response.nextCursor == next))
  }

  /** What one round of the loop sends and where it leaves the stream; None means another round. */
  ghost predicate PageSent(t: Tables, b: string, cursor: nat, sendReady: bool, sent: seq<Event>, next: nat,
                           outcome: Option<Outcome>)
    requires Keyed(t)
  {
    && (forall i :: 0 <= i < |sent| ==> Sound(sent[i])) && AllFromState(sent, t, b)
    && if cursor > MAX_SAFE_INTEGER then
         outcome.Some? && outcome.value.Failed? && sent == [] && next == cursor
       else if !Follows(t, b, cursor) then
         && outcome == Some(Terminal) && |sent| == 1 && next == cursor
         && if FollowsOrReplaced(t, b, cursor)
            then sent[0].Mismatch? && t.lineage.Some? && !Current(t, b) && sent[0].response.nextCursor == cursor
            else sent[0].Reset?
       else
         Advanced(t, b, cursor, sendReady, sent, next, outcome)
  }

  ghost predicate SentRange(sent: seq<Event>, log: seq<Change>, low: nat, high: nat) {
    low <= high <= |log| && Delivered(sent) == log[low..high]
  }

  lemma FollowsBounds(codec: Codec, o: Owner, b: string, cursor: nat)
    requires Inv(codec, o) && Follows(o.tables, b, cursor)
    ensures Keyed(o.tables) && cursor <= o.tables.core.cursor == |BaselineLog(o.tables, b)|
    ensures cursor <= MAX_UINT64
  {
    hide Inv, Climbs, Keyed, BaselineLog, Log, Rows;
    InvKeyed(codec, o);
    if o.tables.lineage.None? {
      NoLineage(codec, o);
      NoRowsYet(b);
    }
  }

  lemma KeyedInv(codec: Codec, o: Owner)
    requires Inv(codec, o)
    ensures Keyed(o.tables)
  {
    hide Inv, Keyed, Climbs;
    InvKeyed(codec, o);
  }

  /** The changes of a page that fit one event, and whether more must be read. */
  method SendCut(o: Owner, ghost codec: Codec, ownerKey: string, b: string, cursor: nat, page: FeedPage)
    returns (e: Event, next: nat, more: bool)
    requires Inv(codec, o) && IsOwnerKey(ownerKey) && IsBaselineId(b) && cursor <= MAX_SAFE_INTEGER
    requires Keyed(o.tables) && Follows(o.tables, b, cursor) && page.changes != []
    requires ReadFeedPage(o.tables, ownerKey, b, cursor, FEED_PAGE_LIMIT) == Ok(page)
    ensures e.Changes? && Sound(e) && FromState(e, o.tables, b) && cursor < next && Follows(o.tables, b, next)
    ensures SentRange([e], BaselineLog(o.tables, b), cursor, next)
    ensures !more ==> next == o.tables.core.cursor
  {
    hide Inv, Keyed, BaselineLog, Follows, ReadFeedPage, Fits, Sound, FromState, LongestPrefix, FullResponse,
         PrefixResponse, SentRange, ByCursor, IsOwnerKey, IsBaselineId;
    PageOrdered(codec, o, ownerKey, b, cursor);
    var cut, consumed := BoundedFeedResponse(page);
    ghost var response := if cut.Ok? then cut.value else FullResponse(page);
    CutPage(codec, o, ownerKey, b, cursor, response, consumed, BaselineLog(o.tables, b));
    e, next, more := Changes(cut.value), cut.value.nextCursor, consumed < |page.changes| || page.hasMore;
    ChangesAreSound(cut.value);
    OneSent(e, BaselineLog(o.tables, b), cursor, next);
  }

  lemma OneSent(e: Event, log: seq<Change>, low: nat, high: nat)
    requires e.Changes? && low <= high <= |log| && e.response.changes == log[low..high]
    ensures SentRange([e], log, low, high)
  {
    DeliveredOne([], e);
    assert [] + [e] == [e];
  }

  lemma ReadySent(sent: seq<Event>, log: seq<Change>, low: nat, high: nat, e: Event)
    requires SentRange(sent, log, low, high) && !e.Changes?
    ensures SentRange(sent + [e], log, low, high)
  {
    DeliveredOne(sent, e);
  }

  /** The part of a round on the baseline: the changes that fit one event, then ready at the head. */
  method SendChanges(o: Owner, ghost codec: Codec, ownerKey: string, b: string, cursor: nat, sendReady: bool,
                     page: FeedPage)
    returns (sent: seq<Event>, next: nat, outcome: Option<Outcome>)
    requires Inv(codec, o) && IsOwnerKey(ownerKey) && IsBaselineId(b) && cursor <= MAX_SAFE_INTEGER
    requires Keyed(o.tables) && Follows(o.tables, b, cursor) && PageFits(page) && PageHeader(page, o.tables, b)
    requires ReadFeedPage(o.tables, ownerKey, b, cursor, FEED_PAGE_LIMIT) == Ok(page)
    ensures Advanced(o.tables, b, cursor, sendReady, sent, next, outcome)
    ensures (forall i :: 0 <= i < |sent| ==> Sound(sent[i])) && AllFromState(sent, o.tables, b)
  {
    hide Inv, Keyed, BaselineLog, Follows, ReadFeedPage, Fits, Sound, FromState, PageHeader, SentRange, PageFits,
         IsOwnerKey, IsBaselineId;
    FollowsBounds(codec, o, b, cursor);
    sent, next := [], cursor;
    NothingSent(BaselineLog(o.tables, b), cursor);
    if |page.changes| > 0 {
      var e, after, more := SendCut(o, codec, ownerKey, b, cursor, page);
      sent, next := [e], after;
      if more { return sent, next, None; }
      FollowsBounds(codec, o, b, next);
    } else {
      CaughtUp(codec, o, ownerKey, b, cursor);
    }
    if sendReady {
      var ready := FeedResponse(page, next).(hasMore := false);
      SmallFits(page, ready);
      ControlIsSound(Ready(ready));
      ControlFromState(page, o.tables, b, next);
      ReadySent(sent, BaselineLog(o.tables, b), cursor, next, Ready(ready));
      sent := sent + [Ready(ready)];
    }
    outcome := Some(Done);
  }

  lemma NothingSent(log: seq<Change>, cursor: nat)
    requires cursor <= |log|
    ensures SentRange([], log, cursor, cursor)
  {}

  /** One round: read a page, then send a mismatch, a reset, or what follows on the baseline. */
  method SendPage(o: Owner, ghost codec: Codec, ownerKey: string, b: string, cursor: nat, sendReady: bool)
    returns (sent: seq<Event>, next: nat, outcome: Option<Outcome>)
    requires Inv(codec, o) && IsOwnerKey(ownerKey) && IsBaselineId(b)
    ensures Keyed(o.tables) && PageSent(o.tables, b, cursor, sendReady, sent, next, outcome)
  {
    hide Inv, Keyed, Follows, FollowsOrReplaced, Current, ReadFeedPage, Fits, Sound, FromState, PageHeader, PageFits,
         IsOwnerKey, IsBaselineId, Advanced;
    KeyedInv(codec, o);
    ReadMeaning(codec, o, ownerKey, b, cursor);
    CurrentFollows(o.tables, b, cursor);
    var read := ReadFeedPage(o.tables, ownerKey, b, cursor, FEED_PAGE_LIMIT);
    if read.Err? { return [], cursor, Some(Failed(read.error)); }
    var page := read.value;
    ControlFromState(page, o.tables, b, cursor);
    if page.baselineMismatch {
      var response := FeedResponse(page, cursor).(baselineMismatch := true);
      SmallFits(page, response);
      ControlIsSound(Mismatch(response));
      return [Mismatch(response)], cursor, Some(Terminal);
    }
    if page.resetRequired {
      var response := FeedResponse(page, 0).(resetRequired := true);
      SmallFits(page, response);
      ControlIsSound(Reset(response));
      return [Reset(response)], cursor, Some(Terminal);
    }
    sent, next, outcome := SendChanges(o, codec, ownerKey, b, cursor, sendReady, page);
  }

  // ----- one catch-up -----

  lemma ObservedPair(codec: Codec, seen: seq<Owner>, i: nat, j: nat)
    requires Observed(codec, seen) && i <= j < |seen|
    ensures Reaches(codec, seen[i], seen[j]) && Keyed(seen[i].tables) && Keyed(seen[j].tables)
    ensures forall b :: BaselineLog(seen[i].tables, b) <= BaselineLog(seen[j].tables, b)
  {
    assert Reaches(codec, seen[i], seen[j]);
    hide Observed, BaselineLog, Keyed, Later, Inv, Climbs;
    InvKeyed(codec, seen[i]);
    InvKeyed(codec, seen[j]);
    forall b ensures BaselineLog(seen[i].tables, b) <= BaselineLog(seen[j].tables, b) {
      BaselineLogGrows(seen[i].tables, seen[j].tables, b);
    }
  }

  lemma ReachesParts(codec: Codec, o: Owner, later: Owner)
    requires Reaches(codec, o, later)
    ensures Inv(codec, o) && Inv(codec, later)
  {}

  lemma CurrentFollows(t: Tables, b: string, cursor: nat)
    ensures Follows(t, b, cursor) ==> FollowsOrReplaced(t, b, cursor)
    ensures Follows(t, b, cursor) && t.lineage.Some? ==> cursor <= t.core.cursor
    ensures Follows(t, b, cursor) ==> t.lineage.None? || Current(t, b)
  {}

  /** Everything sent so far fits, and delivers exactly the baseline's log from start to cursor. */
  ghost predicate SentSoFar(events: seq<Event>, log: seq<Change>, start: nat, cursor: nat) {
    SentRange(events, log, start, cursor) && forall i :: 0 <= i < |events| ==> Sound(events[i])
  }

  lemma SendMore(events: seq<Event>, log: seq<Change>, start: nat, cursor: nat, sent: seq<Event>, own: seq<Change>,
                 next: nat)
    requires SentSoFar(events, log, start, cursor) && own <= log
    requires SentRange(sent, own, cursor, next) && forall i :: 0 <= i < |sent| ==> Sound(sent[i])
    ensures SentSoFar(events + sent, log, start, next)
  {
    hide Delivered, Fits, Sound;
    DeliveredConcat(events, sent);
    PrefixCuts(own, log, start, cursor, next);
  }

  lemma PrefixCuts<T>(own: seq<T>, log: seq<T>, low: nat, mid: nat, high: nat)
    requires own <= log && low <= mid <= high <= |own|
    ensures own[mid..high] == log[mid..high] && log[low..mid] + log[mid..high] == log[low..high]
  {}

  /** A round that ends the catch-up: how the whole of it ends. */
  lemma RoundEnds(t: Tables, b: string, cursor: nat, sendReady: bool, events: seq<Event>, sent: seq<Event>, next: nat,
                  outcome: Outcome)
    requires Keyed(t) && PageSent(t, b, cursor, sendReady, sent, next, Some(outcome)) && AllChanges(events)
    ensures EndsWith(events + sent, outcome, sendReady, next)
    ensures outcome == Done ==> Follows(t, b, next) && next == t.core.cursor
    ensures outcome.Failed? <==> cursor > MAX_SAFE_INTEGER
    ensures !Follows(t, b, cursor) || cursor > MAX_SAFE_INTEGER ==> next == cursor
    ensures EndsInReset(events + sent) <==> !FollowsOrReplaced(t, b, cursor) && cursor <= MAX_SAFE_INTEGER
    ensures EndsInMismatch(events + sent) ==> t.lineage.Some? && !Current(t, b)
    ensures outcome != Interrupted
    ensures !Follows(t, b, cursor) && events == [] ==> StopsAtOnce(events + sent, outcome)
    ensures AllFromState(sent, t, b)
  {
    hide Fits, Sound, FromState, SentRange, Current, Keyed;
    CurrentFollows(t, b, cursor);
    var all := events + sent;
    assert sent != [] ==> all[|all| - 1] == sent[|sent| - 1];
    assert sent == [] ==> all == events;
    forall i | 0 <= i < |all| ensures Sound(all[i]) && (i < |all| - 1 ==> all[i].Changes?) {
      if i >= |events| { assert all[i] == sent[i - |events|]; }
    }
  }

  /** What one round adds keeps the account of what was sent. */
  lemma RoundSent(t: Tables, b: string, cursor: nat, sendReady: bool, sent: seq<Event>, next: nat,
                  outcome: Option<Outcome>, events: seq<Event>, log: seq<Change>, start: nat)
    requires Keyed(t) && PageSent(t, b, cursor, sendReady, sent, next, outcome)
    requires SentSoFar(events, log, start, cursor) && BaselineLog(t, b) <= log
    ensures SentSoFar(events + sent, log, start, next)
  {
    hide BaselineLog, Keyed, Current, Follows, FollowsOrReplaced, SentSoFar;
    if Follows(t, b, cursor) && cursor <= MAX_SAFE_INTEGER {
      SendMore(events, log, start, cursor, sent, BaselineLog(t, b), next);
    } else if sent == [] {
      assert events + sent == events;
    } else {
      SendControl(events, log, start, cursor, sent[0]);
      assert [sent[0]] == sent;
    }
  }

  lemma RoundContinues(t: Tables, b: string, cursor: nat, sendReady: bool, events: seq<Event>, sent: seq<Event>,
                       next: nat)
    requires Keyed(t) && PageSent(t, b, cursor, sendReady, sent, next, None) && AllChanges(events)
    ensures AllChanges(events + sent) && next > cursor && Follows(t, b, cursor) && Follows(t, b, next)
    ensures |sent| == 1 && AllFromState(sent, t, b)
  {
    hide Fits, Sound, FromState, SentRange, Current, Keyed, Follows;
  }

  lemma SendControl(events: seq<Event>, log: seq<Change>, start: nat, cursor: nat, e: Event)
    requires SentSoFar(events, log, start, cursor) && !e.Changes? && Sound(e)
    ensures SentSoFar(events + [e], log, start, cursor)
  {
    DeliveredOne(events, e);
  }

  lemma StartSent(codec: Codec, o: Owner, b: string, start: nat, log: seq<Change>)
    requires Inv(codec, o) && Follows(o.tables, b, start) && Keyed(o.tables) && BaselineLog(o.tables, b) <= log
    ensures SentSoFar([], log, start, start)
  {
    hide Inv, BaselineLog, Keyed;
    FollowsBounds(codec, o, b, start);
    assert log[start..start] == [];
  }

  lemma LogsUpTo(codec: Codec, o: Owner, later: Owner, b: string)
    requires Reaches(codec, o, later)
    ensures Keyed(o.tables) && Keyed(later.tables)
    ensures BaselineLog(o.tables, b) <= BaselineLog(later.tables, b)
  {
    hide Inv, Later, Keyed, BaselineLog;
    KeyedInv(codec, o);
    KeyedInv(codec, later);
    BaselineLogGrows(o.tables, later.tables, b);
  }

  /** A client that folds what a stream sent from cursor 0 up to the head holds exactly the records of that state. */
  lemma CaughtUpClient(codec: Codec, o: Owner, later: Owner, b: string, events: seq<Event>, cursor: nat)
    requires Reaches(codec, o, later) && Follows(o.tables, b, cursor) && cursor == o.tables.core.cursor
    requires Keyed(later.tables) && SentSoFar(events, BaselineLog(later.tables, b), 0, cursor)
    ensures Fold(map[], Delivered(events)) == o.tables.core.records
  {
    hide Reaches, Inv, Later, CoreInv, Fits, Sound, Delivered, Fold, BaselineLog, Keyed, ArchiveInv, Log, Dense;
    ReachesParts(codec, o, later);
    FollowsBounds(codec, o, b, cursor);
    LogsUpTo(codec, o, later, b);
    InvKeyed(codec, o);
    if o.tables.lineage.None? {
      NoLineage(codec, o);
      FoldNothing();
      assert BaselineLog(later.tables, b)[0..0] == [];
    } else {
      AnyCoreInv(codec, o);
      RecordsAreFoldedLog(o.tables.core, o.snapshotLen);
      assert BaselineLog(later.tables, b)[0..cursor] == BaselineLog(o.tables, b);
    }
  }

  lemma FoldNothing()
    ensures Fold(map[], []) == map[]
  {}

  function Last(events: seq<Event>): Option<Event> {
    if events == [] then None else Some(events[|events| - 1])
  }

  ghost predicate EndsInReset(events: seq<Event>) {
    Last(events).Some? && Last(events).value.Reset?
  }

  ghost predicate EndsInMismatch(events: seq<Event>) {
    Last(events).Some? && Last(events).value.Mismatch?
  }

  /** All events but the last are changes; the last says how the catch-up ended. */
  ghost predicate EndsWith(events: seq<Event>, outcome: Outcome, sendReady: bool, cursor: nat) {
    && (forall i :: 0 <= i < |events| - 1 ==> events[i].Changes?)
    && (forall i :: 0 <= i < |events| ==> Sound(events[i]))
    && (outcome == Terminal <==> Last(events).Some? && (Last(events).value.Mismatch? || Last(events).value.Reset?))
    && (outcome == Done && sendReady <==> Last(events).Some? && Last(events).value.Ready?)
    && ((outcome == Done && sendReady) || EndsInMismatch(events) ==> Last(events).value.response.nextCursor == cursor)
  }

  /** One control event, or nothing when the position itself is refused. */
  ghost predicate StopsAtOnce(events: seq<Event>, outcome: Outcome) {
    (outcome == Terminal && |events| == 1) || (outcome.Failed? && events == [])
  }

  /** Every round but the last sends one changes event that fits. */
  ghost predicate AllChanges(events: seq<Event>) {
    forall i :: 0 <= i < |events| ==> events[i].Changes? && Sound(events[i])
  }

  /**
   * One catch-up, page by page, the i-th read seeing seen[i]. If the first read finds the position on the
   * baseline, then whatever commits and resets happen between the reads: the changes sent are exactly the
   * baseline's log over (start, final], reset_required is never sent, ready comes last and carries the head
   * of the last state read, a mismatch means the baseline is no longer current, and no read or write fails
   * while the cursor is a JavaScript safe integer. Every read but the last advances, so that on a store that
   * does not change the catch-up ends within head - start + 1 reads. A client that folds a finished catch-up
   * from cursor 0 holds exactly the records of the last state read. Each event carries the lineage of the
   * state its read saw.
   */
  method SendFeed(seen: seq<Owner>, ghost codec: Codec, ownerKey: string, b: string, start: nat, sendReady: bool)
    returns (events: seq<Event>, cursor: nat, outcome: Outcome, used: nat)
    requires |seen| > 0 && Observed(codec, seen) && IsOwnerKey(ownerKey) && IsBaselineId(b)
    ensures 0 < used <= |seen| && Keyed(seen[|seen| - 1].tables)
    ensures EndsWith(events, outcome, sendReady, cursor) && FromReads(events, seen, used, b)
    ensures Follows(seen[0].tables, b, start) ==>
              SentSoFar(events, BaselineLog(seen[|seen| - 1].tables, b), start, cursor)
    ensures !Follows(seen[0].tables, b, start) ==> cursor == start && StopsAtOnce(events, outcome)
    ensures EndsInReset(events) <==>
              !FollowsOrReplaced(seen[0].tables, b, start) && start <= MAX_SAFE_INTEGER
    ensures outcome == Done ==> Follows(seen[used - 1].tables, b, cursor) && cursor == seen[used - 1].tables.core.cursor
    ensures EndsInMismatch(events) ==>
              seen[used - 1].tables.lineage.Some? && !Current(seen[used - 1].tables, b)
    ensures outcome.Failed? ==> cursor > MAX_SAFE_INTEGER
    ensures outcome == Interrupted ==>
              used == |seen| && cursor >= start + used && Follows(seen[used - 1].tables, b, cursor)
    ensures outcome == Done && start == 0 ==> Fold(map[], Delivered(events)) == seen[used - 1].tables.core.records
    ensures (forall i :: 0 <= i < |seen| ==> seen[i] == seen[0]) && |seen| > seen[0].tables.core.cursor - start ==>
              outcome != Interrupted
  {
    hide Observed, Reaches, Inv, Keyed, BaselineLog, Follows, FollowsOrReplaced, Current, SentSoFar, PageSent,
         EndsWith, AllChanges, IsOwnerKey, IsBaselineId, EndsInReset, EndsInMismatch, StopsAtOnce, Last, Fold,
         Delivered, FromReads, FromReadsSoFar, AllFromState;
    events, cursor, used, outcome := [], start, 0, Interrupted;
    ObservedPair(codec, seen, 0, |seen| - 1);
    ReachesParts(codec, seen[0], seen[|seen| - 1]);
    ghost var log := BaselineLog(seen[|seen| - 1].tables, b);
    if Follows(seen[0].tables, b, start) { StartSent(codec, seen[0], b, start, log); }
    CurrentFollows(seen[0].tables, b, start);
    NoEvents(seen, b);
    while used < |seen|
      invariant used <= |seen|
      invariant 0 < used < |seen| ==> FollowsOrReplaced(seen[used].tables, b, cursor)
      invariant used > 0 ==> Follows(seen[0].tables, b, start) && Follows(seen[used - 1].tables, b, cursor)
      invariant used == 0 ==> cursor == start && events == []
      invariant Follows(seen[0].tables, b, start) ==> SentSoFar(events, log, start, cursor)
      invariant AllChanges(events) && |events| == used && FromReadsSoFar(events, seen, b)
      invariant cursor >= start + used
      decreases |seen| - used
    {
      ghost var o := seen[used];
      ObservedPair(codec, seen, used, |seen| - 1);
      ReachesParts(codec, o, seen[|seen| - 1]);
      CurrentFollows(o.tables, b, cursor);
      var sent, next, ended := SendPage(seen[used], codec, ownerKey, b, cursor, sendReady);
      used := used + 1;
      if Follows(seen[0].tables, b, start) {
        RoundSent(o.tables, b, cursor, sendReady, sent, next, ended, events, log, start);
      }
      if ended.Some? {
        RoundEnds(o.tables, b, cursor, sendReady, events, sent, next, ended.value);
        LastRound(events, sent, seen, used, b);
        if ended.value == Done && start == 0 {
          CaughtUpClient(codec, o, seen[|seen| - 1], b, events + sent, next);
        }
        return events + sent, next, ended.value, used;
      }
      RoundContinues(o.tables, b, cursor, sendReady, events, sent, next);
      MoreReads(events, sent, seen, b);
      events, cursor := events + sent, next;
      if used < |seen| {
        ObservedPair(codec, seen, used - 1, used);
        StillFollows(codec, o, seen[used], b, cursor);
      }
    }
    FollowsBounds(codec, seen[used - 1], b, cursor);
    AllRead(events, seen, b);
    RoundsEnd(events, sendReady, cursor);
  }

  ghost predicate FromReadsSoFar(events: seq<Event>, seen: seq<Owner>, b: string) {
    forall i :: 0 <= i < |events| <= |seen| ==> FromState(events[i], seen[i].tables, b)
  }

  lemma MoreReads(events: seq<Event>, sent: seq<Event>, seen: seq<Owner>, b: string)
    requires |events| < |seen| && |sent| == 1 && FromReadsSoFar(events, seen, b)
    requires AllFromState(sent, seen[|events|].tables, b)
    ensures FromReadsSoFar(events + sent, seen, b)
  {
    hide FromState;
  }

  lemma LastRound(events: seq<Event>, sent: seq<Event>, seen: seq<Owner>, used: nat, b: string)
    requires used == |events| + 1 <= |seen| && FromReadsSoFar(events, seen, b)
    requires AllFromState(sent, seen[used - 1].tables, b)
    ensures FromReads(events + sent, seen, used, b)
  {
    hide FromState;
  }

  lemma AllRead(events: seq<Event>, seen: seq<Owner>, b: string)
    requires 0 < |events| == |seen| && FromReadsSoFar(events, seen, b)
    ensures FromReads(events, seen, |seen|, b)
  {
    hide FromState;
  }

  lemma NoEvents(seen: seq<Owner>, b: string)
    ensures AllChanges([]) && FromReadsSoFar([], seen, b)
  {}

  lemma RoundsEnd(events: seq<Event>, sendReady: bool, cursor: nat)
    requires AllChanges(events)
    ensures EndsWith(events, Interrupted, sendReady, cursor)
    ensures !EndsInReset(events) && !EndsInMismatch(events)
  {}
}
