/** The events of a feed and the cut of a page to the byte limit of one event. */
module FeedPages {
  import opened Prelude
  import opened SyncTypes
  import opened Wire
  import opened WireBounds
  import opened SyncSpec
  import opened CoreInvariant

  function FeedResponse(page: FeedPage, nextCursor: nat): SyncResponse {
    SyncResponse(nextCursor, [], [], false, false, page.baselineId, page.serverVersion, page.serverUpdatedAtMs,
                 page.serverProgressDay, false)
  }

  function FullResponse(page: FeedPage): SyncResponse {
    FeedResponse(page, page.nextCursor).(changes := page.changes, hasMore := page.hasMore)
  }

  /** The response that carries the first k changes and announces more. */
  function PrefixResponse(page: FeedPage, k: nat): SyncResponse
    requires 1 <= k <= |page.changes|
  {
    FeedResponse(page, page.changes[k - 1].cursor).(changes := page.changes[..k], hasMore := true)
  }

  predicate Fits(r: SyncResponse) {
    SyncResponseSize(r) <= MAX_PROTOBUF_BYTES
  }

  /** The longest prefix that fits, when the whole page does not. */
  ghost predicate LongestPrefix(page: FeedPage, k: nat) {
    && k <= |page.changes|
    && (k >= 1 ==> Fits(PrefixResponse(page, k)))
    && (forall j :: k < j <= |page.changes| ==> !Fits(PrefixResponse(page, j)))
  }

  lemma {:induction false} ChangesSizeMonotone(changes: seq<Change>, j: nat, k: nat)
    requires j <= k <= |changes|
    ensures ChangesSize(changes[..j]) <= ChangesSize(changes[..k])
    decreases k
  {
    if j < k {
      assert changes[..k][..k - 1] == changes[..k - 1];
      ChangesSizeMonotone(changes, j, k - 1);
    }
  }

  /** A longer prefix, ending at a higher cursor, never encodes smaller. */
  lemma PrefixSizeMonotone(page: FeedPage, j: nat, k: nat)
    requires ByCursor(page.changes) && 1 <= j <= k <= |page.changes|
    ensures SyncResponseSize(PrefixResponse(page, j)) <= SyncResponseSize(PrefixResponse(page, k))
  {
    ChangesSizeMonotone(page.changes, j, k);
    VarintMonotone(page.changes[j - 1].cursor, page.changes[k - 1].cursor);
    hide ChangesSize, AcksSize, VarintSize, StringField;
  }

  /**
   * The whole page if it fits; otherwise, by binary search, the longest prefix that fits, with the cursor of
   * its last change; an error only when not even one change fits.
   */
  method BoundedFeedResponse(page: FeedPage) returns (r: Result<SyncResponse>, consumed: nat)
    requires ByCursor(page.changes)
    ensures Fits(FullResponse(page)) ==> r == Ok(FullResponse(page)) && consumed == |page.changes|
    ensures !Fits(FullResponse(page)) ==> LongestPrefix(page, consumed)
    ensures !Fits(FullResponse(page)) ==>
              r == if consumed == 0 then Err(ResponseTooLarge) else Ok(PrefixResponse(page, consumed))
  {
    hide SyncResponseSize;
    var response := FullResponse(page);
    if SyncResponseSize(response) <= MAX_PROTOBUF_BYTES { return Ok(response), |page.changes|; }
    var low, high := 1, |page.changes|;
    var best: nat := 0;
    while low <= high
      invariant 1 <= low && high <= |page.changes| && low <= high + 1 && best == low - 1
      invariant best >= 1 ==> Fits(PrefixResponse(page, best))
      invariant forall j :: high < j <= |page.changes| ==> !Fits(PrefixResponse(page, j))
      decreases high - low + 1
    {
      var middle := low + (high - low) / 2;
      if SyncResponseSize(PrefixResponse(page, middle)) <= MAX_PROTOBUF_BYTES {
        best := middle;
        low := middle + 1;
      } else {
        forall j | middle <= j <= |page.changes| ensures !Fits(PrefixResponse(page, j)) {
          PrefixSizeMonotone(page, middle, j);
        }
        high := middle - 1;
      }
    }
    if best == 0 { return Err(ResponseTooLarge), 0; }
    return Ok(PrefixResponse(page, best)), best;
  }

  /** When one change fits, a page with changes always yields at least one of them. */
  lemma LongestIsPositive(page: FeedPage, k: nat)
    requires LongestPrefix(page, k) && page.changes != [] && Fits(PrefixResponse(page, 1))
    ensures k >= 1
  {}

  /** A page that does not fit is cut before its end. */
  lemma LongestIsProper(page: FeedPage, k: nat)
    requires LongestPrefix(page, k) && page.changes != [] && !Fits(FullResponse(page))
    requires page.nextCursor == page.changes[|page.changes| - 1].cursor
    ensures k < |page.changes|
  {
    var n := |page.changes|;
    assert page.changes[..n] == page.changes;
    hide ChangesSize, AcksSize, VarintSize, StringField;
    assert SyncResponseSize(FullResponse(page)) <= SyncResponseSize(PrefixResponse(page, n));
  }
}
