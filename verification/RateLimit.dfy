/** The fixed-window limiter: one expiring counter per operation and owner. */
module RateLimit {
  import opened Prelude

  /** A Redis counter with its expiry time in milliseconds; it is still visible at that very millisecond. */
  datatype Counter = Absent | Counter(count: nat, expiresAt: nat)

  /** What GET and PTTL see of a stored counter at a time. */
  function Visible(c: Counter, now: nat): Counter {
    if c.Counter? && now <= c.expiresAt then c else Absent
  }

  /** The delay a call gets, zero when it is accepted, and the counter it leaves. */
  function Call(c: Counter, now: nat, limit: int, window: nat): (nat, Counter) {
    var current := Visible(c, now);
    if current.Absent? then (0, Counter(1, now + window))
    else if current.count >= limit then
      var ttl := current.expiresAt - now;
      (if ttl < 1 then 1000 else ttl, current)
    else (0, Counter(current.count + 1, current.expiresAt))
  }

  class Limiter {
    var stored: Counter

    constructor ()
      ensures stored == Absent
    {
      stored := Absent;
    }

    /** The script, statement by statement; the result is the delay in milliseconds. */
    method CheckFixedWindow(now: nat, limit: int, window: nat) returns (delay: nat)
      modifies this
      ensures (delay, stored) == Call(old(stored), now, limit, window)
    {
      stored := Visible(stored, now);
      if stored.Absent? {
        stored := Counter(1, now + window);
        return 0;
      }
      if stored.count >= limit {
        var ttl := stored.expiresAt - now;
        if ttl < 1 { ttl := 1000; }
        return ttl;
      }
      stored := stored.(count := stored.count + 1);
      return 0;
    }
  }

  // ----- runs -----

  predicate Ordered(times: seq<nat>) {
    forall i, j :: 0 <= i <= j < |times| ==> times[i] <= times[j]
  }

  /** The counter after the calls. */
  function After(times: seq<nat>, limit: int, window: nat): Counter {
    if times == [] then Absent
    else Call(After(times[..|times| - 1], limit, window), times[|times| - 1], limit, window).1
  }

  predicate Accepts(times: seq<nat>, i: nat, limit: int, window: nat)
    requires i < |times|
  {
    Call(After(times[..i], limit, window), times[i], limit, window).0 == 0
  }

  predicate In(t: nat, low: nat, high: nat) {
    low <= t < high
  }

  /** How many of the calls at times in [low, high) are accepted. */
  function Accepted(times: seq<nat>, low: nat, high: nat, limit: int, window: nat): nat {
    if times == [] then 0
    else
      var n := |times| - 1;
      Accepted(times[..n], low, high, limit, window)
      + if In(times[n], low, high) && Accepts(times, n, limit, window) then 1 else 0
  }

  // ----- what the counter counts -----

  lemma {:induction false} NoneBefore(times: seq<nat>, low: nat, high: nat, limit: int, window: nat)
    requires forall i :: 0 <= i < |times| ==> times[i] < low
    ensures Accepted(times, low, high, limit, window) == 0
  {
    if times != [] { NoneBefore(times[..|times| - 1], low, high, limit, window); }
  }

  /** The range of the window a counter stands for; it is still open at its last millisecond. */
  predicate Covers(c: Counter, window: nat, t: nat) {
    c.Counter? && c.expiresAt - window <= t <= c.expiresAt
  }

  /**
   * The counter holds the number of calls accepted since its window opened, with one of the calls, never more
   * than the limit.
   */
  lemma {:induction false} CountsItsWindow(times: seq<nat>, limit: int, window: nat)
    requires Ordered(times)
    ensures var c := After(times, limit, window);
            if times == [] then c == Absent
            else && Covers(c, window, times[|times| - 1]) && window <= c.expiresAt
                 && Accepted(times, c.expiresAt - window, c.expiresAt + 1, limit, window) == c.count
                 && 1 <= c.count <= Max(limit, 1)
                 && (exists j :: 0 <= j < |times| && times[j] == c.expiresAt - window)
  {
    if times != [] {
      var n := |times| - 1;
      var init, now := times[..n], times[n];
      assert Ordered(init);
      CountsItsWindow(init, limit, window);
      var before := After(init, limit, window);
      assert times[n] == now;
      if before.Counter? {
        var j :| 0 <= j < |init| && init[j] == before.expiresAt - window;
        assert times[j] == init[j];
      }
      if Visible(before, now).Absent? {
        forall i | 0 <= i < |init| ensures init[i] < now {
          assert init[i] == times[i] <= times[n - 1];
        }
        NoneBefore(init, now, now + window + 1, limit, window);
      }
    }
  }

  /**
   * A call is rejected iff at least limit calls were accepted in the window that is open at its time, and
   * then it is told to wait for the time that remains of it, or a second in its last millisecond.
   */
  lemma RejectedWhenFull(times: seq<nat>, i: nat, limit: int, window: nat)
    requires Ordered(times) && i < |times|
    ensures var c := After(times[..i], limit, window);
            var delay := Call(c, times[i], limit, window).0;
            && (Accepts(times, i, limit, window) <==> delay == 0)
            && (delay > 0 <==> Covers(c, window, times[i]) && window <= c.expiresAt
                               && Accepted(times[..i], c.expiresAt - window, c.expiresAt + 1, limit, window) >= limit)
            && (delay > 0 ==> delay == if times[i] == c.expiresAt then 1000 else c.expiresAt - times[i])
            && delay <= Max(window, 1000)
  {
    assert Ordered(times[..i]);
    CountsItsWindow(times[..i], limit, window);
  }

  // ----- any interval of one window length -----

  /**
   * n calls accepted in [low, low + window) against the current window, which opened at expiresAt - window:
   * a window that opened before low holds them all besides the call that opened it, and one that opened in
   * the range follows at most one such window.
   */
  ghost predicate Accounted(c: Counter, last: nat, n: nat, low: nat, limit: int, window: nat) {
    && n <= 2 * limit - 1
    && (last < low ==> n == 0)
    && match c
       case Absent => n == 0
       case Counter(count, expiresAt) =>
         && 1 <= count <= limit
         && window <= expiresAt <= last + window
         && (expiresAt - window < low ==> n <= count - 1)
         && (expiresAt - window < low + window ==> n <= limit - 1 + count)
  }

  lemma CallAccounted(c: Counter, last: nat, n: nat, low: nat, limit: int, window: nat, now: nat)
    requires limit >= 1 && last <= now && Accounted(c, last, n, low, limit, window)
    ensures var (delay, after) := Call(c, now, limit, window);
            Accounted(after, now, n + if In(now, low, low + window) && delay == 0 then 1 else 0, low, limit, window)
  {}

  /** In any half-open interval of one window length fewer than 2 * limit calls are accepted. */
  lemma {:induction false} FewerThanTwiceTheLimit(times: seq<nat>, low: nat, limit: int, window: nat)
    requires Ordered(times) && limit >= 1
    ensures Accepted(times, low, low + window, limit, window) <= 2 * limit - 1
    ensures After(times, limit, window).Counter? ==> 1 <= After(times, limit, window).count <= limit
    ensures Accounted(After(times, limit, window), if times == [] then 0 else times[|times| - 1],
                      Accepted(times, low, low + window, limit, window), low, limit, window)
  {
    if times != [] {
      var n := |times| - 1;
      var init := times[..n];
      assert Ordered(init);
      FewerThanTwiceTheLimit(init, low, limit, window);
      CallAccounted(After(init, limit, window), if init == [] then 0 else init[n - 1],
                    Accepted(init, low, low + window, limit, window), low, limit, window, times[n]);
    }
  }

  // ----- the bound is reached -----

  function Repeated(t: nat, n: nat): (times: seq<nat>)
    ensures |times| == n && forall i :: 0 <= i < n ==> times[i] == t
  {
    seq(n, _ => t)
  }

  /** One call at 0, then before more in the last millisecond of its window, then after more in the next. */
  function Burst(window: nat, before: nat, after: nat): (times: seq<nat>)
    ensures Ordered(times) && |times| == 1 + before + after
  {
    [0] + Repeated(window, before) + Repeated(window + 1, after)
  }

  lemma OneMoreCall(times: seq<nat>, t: nat, low: nat, high: nat, limit: int, window: nat)
    ensures var (delay, after) := Call(After(times, limit, window), t, limit, window);
            && After(times + [t], limit, window) == after
            && Accepted(times + [t], low, high, limit, window)
               == Accepted(times, low, high, limit, window) + if In(t, low, high) && delay == 0 then 1 else 0
  {
    assert (times + [t])[..|times|] == times;
  }

  lemma {:induction false} BurstBefore(limit: int, window: nat, before: nat)
    requires limit >= 1 && window >= 2 && before <= limit - 1
    ensures After(Burst(window, before, 0), limit, window) == Counter(1 + before, window)
    ensures Accepted(Burst(window, before, 0), window, 2 * window, limit, window) == before
  {
    var times := Burst(window, before, 0);
    if before == 0 {
      assert times == [] + [0];
      OneMoreCall([], 0, window, 2 * window, limit, window);
    } else {
      BurstBefore(limit, window, before - 1);
      assert times == Burst(window, before - 1, 0) + [window];
      OneMoreCall(Burst(window, before - 1, 0), window, window, 2 * window, limit, window);
      hide After, Accepted, Burst;
    }
  }

  lemma {:induction false} BurstAfter(limit: int, window: nat, after: nat)
    requires limit >= 1 && window >= 2 && after <= limit
    ensures After(Burst(window, limit - 1, after), limit, window)
            == if after > 0 then Counter(after, 2 * window + 1) else Counter(limit, window)
    ensures Accepted(Burst(window, limit - 1, after), window, 2 * window, limit, window) == limit - 1 + after
  {
    hide After, Accepted;
    if after == 0 {
      BurstBefore(limit, window, limit - 1);
    } else {
      BurstAfter(limit, window, after - 1);
      assert Burst(window, limit - 1, after) == Burst(window, limit - 1, after - 1) + [window + 1];
      hide Burst;
      OneMoreCall(Burst(window, limit - 1, after - 1), window + 1, window, 2 * window, limit, window);
    }
  }

  /** For every limit and every window of at least two milliseconds, some ordered calls reach the bound. */
  lemma BoundIsReached(limit: int, window: nat)
    requires limit >= 1 && window >= 2
    ensures var times := Burst(window, limit - 1, limit);
            Ordered(times) && Accepted(times, window, window + window, limit, window) == 2 * limit - 1
  {
    BurstAfter(limit, window, limit);
  }

  /** A window of one millisecond never reaches it: each millisecond's calls share one window. */
  lemma {:induction false} OneMillisecond(times: seq<nat>, low: nat, limit: int)
    requires Ordered(times) && limit >= 1
    ensures Accepted(times, low, low + 1, limit, 1) <= limit
    ensures times != [] && times[|times| - 1] <= low ==>
              After(times, limit, 1).Counter?
                    && Accepted(times, low, low + 1, limit, 1) <= After(times, limit, 1).count <= limit
    ensures times != [] && times[|times| - 1] < low ==> Accepted(times, low, low + 1, limit, 1) == 0
  {
    if times != [] {
      var n := |times| - 1;
      var init := times[..n];
      assert Ordered(init);
      CountsItsWindow(init, limit, 1);
      OneMillisecond(init, low, limit);
    }
  }
}
