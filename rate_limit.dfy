/**
 * The client-side sliding-window rate limiter behind the contact form
 * (`useRateLimit`). The browser clock is the `now` argument of each call; the
 * one-second timer is the `Tick` method. All instants are integer milliseconds.
 */
module RateLimit {

  /** `Math.ceil(r / d)` on integers, for a positive divisor. */
  function CeilDiv(r: int, d: int): (q: int)
    requires d > 0
    ensures (q - 1) * d < r <= q * d
  {
    -((-r) / d)
  }

  /** For a positive amount, the ceiling is the familiar `(r + 999) / 1000`. */
  lemma CeilDivThousand(r: int)
    requires r > 0
    ensures CeilDiv(r, 1000) == (r + 999) / 1000
  {
    var q := CeilDiv(r, 1000);
    assert (q - 1) * 1000 < r <= q * 1000;
    assert q * 1000 <= r + 999 < (q + 1) * 1000;
  }

  lemma CeilDivMonotone(r: int, r': int, d: int)
    requires d > 0 && r <= r'
    ensures CeilDiv(r, d) <= CeilDiv(r', d)
  {
    var q, q' := CeilDiv(r, d), CeilDiv(r', d);
    if q > q' {
      assert (q - 1) * d >= q' * d by {
        assert q - 1 >= q';
        MulMonotone(q', q - 1, d);
      }
    }
  }

  /** The ceiling of a positive amount is at least 1. */
  lemma CeilDivPositive(r: int, d: int)
    requires d > 0 && r > 0
    ensures CeilDiv(r, d) >= 1
  {
    var q := CeilDiv(r, d);
    if q <= 0 {
      MulMonotone(q, 0, d);
    }
  }

  lemma MulMonotone(a: int, b: int, d: int)
    requires a <= b && d > 0
    ensures a * d <= b * d
  {
    assert b * d - a * d == (b - a) * d;
  }

  function Max(a: int, b: int): int { if a >= b then a else b }

  /** `ts.filter((t) => now - t < windowMs)`: the entries still inside the window. */
  function Retained(ts: seq<int>, now: int, windowMs: int): (r: seq<int>)
    ensures |r| <= |ts|
    ensures forall t :: t in r <==> t in ts && now - t < windowMs
  {
    if ts == [] then []
    else if now - ts[0] < windowMs then [ts[0]] + Retained(ts[1..], now, windowMs)
    else Retained(ts[1..], now, windowMs)
  }

  /** A log whose entries are all inside the window is kept whole. */
  lemma {:induction false} RetainedKeepsRecent(ts: seq<int>, now: int, windowMs: int)
    requires forall i :: 0 <= i < |ts| ==> now - ts[i] < windowMs
    ensures Retained(ts, now, windowMs) == ts
  {
    if ts != [] {
      assert forall i :: 0 <= i < |ts[1..]| ==> ts[1..][i] == ts[i + 1];
      RetainedKeepsRecent(ts[1..], now, windowMs);
      assert ts == [ts[0]] + ts[1..];
    }
  }

  predicate Sorted(ts: seq<int>) {
    forall i, j :: 0 <= i < j < |ts| ==> ts[i] <= ts[j]
  }

  /** Filtering keeps the log in chronological order. */
  lemma {:induction false} RetainedSorted(ts: seq<int>, now: int, windowMs: int)
    requires Sorted(ts)
    ensures Sorted(Retained(ts, now, windowMs))
  {
    if ts != [] {
      assert Sorted(ts[1..]);
      RetainedSorted(ts[1..], now, windowMs);
      var rest := Retained(ts[1..], now, windowMs);
      if now - ts[0] < windowMs {
        forall t | t in rest ensures ts[0] <= t {
          var k :| 0 <= k < |ts[1..]| && ts[1..][k] == t;
          assert ts[k + 1] == t;
        }
        var r := [ts[0]] + rest;
        forall i, j | 0 <= i < j < |r| ensures r[i] <= r[j] {
          if i == 0 { assert r[j] == rest[j - 1] && r[j] in rest; }
          else { assert r[i] == rest[i - 1] && r[j] == rest[j - 1]; }
        }
      }
    }
  }

  /** Purging at an earlier instant and again later is the same as purging once later. */
  lemma {:induction false} RetainedLater(ts: seq<int>, earlier: int, now: int, windowMs: int)
    requires earlier <= now
    ensures Retained(Retained(ts, earlier, windowMs), now, windowMs) == Retained(ts, now, windowMs)
  {
    if ts != [] {
      RetainedLater(ts[1..], earlier, now, windowMs);
    }
  }

  /** An instant appended at `now` is itself retained at `now`. */
  lemma {:induction false} RetainedAppend(ts: seq<int>, now: int, windowMs: int)
    requires windowMs > 0
    ensures Retained(ts + [now], now, windowMs) == Retained(ts, now, windowMs) + [now]
  {
    if ts == [] {
      assert [] + [now] == [now];
    } else {
      assert (ts + [now])[1..] == ts[1..] + [now];
      RetainedAppend(ts[1..], now, windowMs);
    }
  }

  /** How many instants of `h` fall in the half-open interval (lo, hi]. */
  function CountIn(h: seq<int>, lo: int, hi: int): nat {
    if h == [] then 0
    else (if lo < h[|h| - 1] <= hi then 1 else 0) + CountIn(h[..|h| - 1], lo, hi)
  }

  /** The number of instants of `h` in the window of length `windowMs` ending at `t`. */
  function WindowCount(h: seq<int>, t: int, windowMs: int): nat {
    CountIn(h, t - windowMs, t)
  }

  lemma {:induction false} CountInNarrower(h: seq<int>, lo: int, hi: int, lo': int, hi': int)
    requires lo <= lo' && hi' <= hi
    ensures CountIn(h, lo', hi') <= CountIn(h, lo, hi)
  {
    if h != [] { CountInNarrower(h[..|h| - 1], lo, hi, lo', hi'); }
  }

  /** Raising the upper end past every instant of `h` adds nothing. */
  lemma {:induction false} CountInBeyondLast(h: seq<int>, lo: int, hi: int, hi': int)
    requires hi <= hi' && forall x :: x in h ==> x <= hi
    ensures CountIn(h, lo, hi') == CountIn(h, lo, hi)
  {
    if h != [] {
      var init := h[..|h| - 1];
      assert h == init + [h[|h| - 1]];
      assert forall x :: x in init ==> x in h;
      assert h[|h| - 1] in h;
      CountInBeyondLast(init, lo, hi, hi');
    }
  }

  /** With every instant at or before `now`, the retained entries are the window's. */
  lemma {:induction false} RetainedIsWindow(h: seq<int>, now: int, windowMs: int)
    requires forall x :: x in h ==> x <= now
    ensures |Retained(h, now, windowMs)| == WindowCount(h, now, windowMs)
    decreases |h|
  {
    if h != [] {
      var last := h[|h| - 1];
      var init := h[..|h| - 1];
      assert h == init + [last];
      assert last in h;
      assert forall x :: x in init ==> x in h;
      RetainedIsWindow(init, now, windowMs);
      RetainedSplit(init, last, now, windowMs);
    }
  }

  lemma {:induction false} RetainedSplit(init: seq<int>, last: int, now: int, windowMs: int)
    ensures |Retained(init + [last], now, windowMs)| ==
            |Retained(init, now, windowMs)| + (if now - last < windowMs then 1 else 0)
  {
    if init == [] {
      assert [] + [last] == [last];
    } else {
      assert (init + [last])[1..] == init[1..] + [last];
      RetainedSplit(init[1..], last, now, windowMs);
    }
  }

  class RateLimiter {
    /** The configuration: at most `maxRequests` actions per `windowMs` milliseconds. */
    const maxRequests: nat
    const windowMs: int

    /** `timestamps.current`: the instants of the allowed actions not yet purged. */
    var timestamps: seq<int>
    /** The `retryCountdown` state, in seconds. */
    var retryCountdown: int

    /** The clock reading of the latest check; the clock never goes backwards. */
    ghost var clock: int
    /** Every instant at which an action was allowed, oldest first. */
    ghost var history: seq<int>

    ghost predicate Valid()
      reads this
    {
      && windowMs > 0
      && LogInvariant(timestamps, history, clock, windowMs, maxRequests)
      && retryCountdown >= 0
    }

    /** The hook at mount time: an empty log and no countdown. */
    constructor (maxRequests: nat, windowMs: int, ghost mountedAt: int)
      requires windowMs > 0
      ensures Valid()
      ensures this.maxRequests == maxRequests && this.windowMs == windowMs
      ensures timestamps == [] && retryCountdown == 0 && history == [] && clock == mountedAt
    {
      this.maxRequests := maxRequests;
      this.windowMs := windowMs;
      timestamps := [];
      retryCountdown := 0;
      clock := mountedAt;
      history := [];
    }

    /** The decision `checkRateLimit` would take at `now`. */
    predicate Allows(now: int)
      reads this
    {
      |Retained(timestamps, now, windowMs)| < maxRequests
    }

    /** The countdown a rejection at `now` starts: the whole seconds until the
        oldest retained call leaves the window, at least 1 and at most the
        window's length in seconds. */
    predicate CountdownStarted(now: int)
      reads this
    {
      && timestamps != []
      && retryCountdown == Max(1, CeilDiv(windowMs - (now - timestamps[0]), 1000))
      && 1 <= retryCountdown <= CeilDiv(windowMs, 1000)
    }

    /** `checkRateLimit`: purge, then reject (starting the countdown) or record `now`. */
    method CheckRateLimit(now: int) returns (allowed: bool)
      requires Valid() && now >= clock
      modifies this
      ensures Valid() && clock == now
      ensures allowed == old(Allows(now))
      ensures forall t :: t in timestamps ==> now - t < windowMs
      ensures allowed ==> timestamps == Retained(old(timestamps), now, windowMs) + [now]
      ensures !allowed ==> timestamps == Retained(old(timestamps), now, windowMs)
      ensures history == if allowed then old(history) + [now] else old(history)
      ensures !allowed && timestamps != [] ==>
                retryCountdown == Max(1, CeilDiv(windowMs - (now - timestamps[0]), 1000)) &&
                1 <= retryCountdown <= CeilDiv(windowMs, 1000)
      ensures allowed || timestamps == [] ==> retryCountdown == old(retryCountdown)
      ensures WindowCount(history, now, windowMs) <= maxRequests
    {
      PurgeStep(timestamps, history, clock, now, windowMs, maxRequests);
      timestamps := Retained(timestamps, now, windowMs);
      clock := now;
      if |timestamps| >= maxRequests {
        if |timestamps| > 0 {
          var oldest := timestamps[0];
          var remaining := windowMs - (now - oldest);
          assert oldest in timestamps;
          CeilDivPositive(remaining, 1000);
          CeilDivMonotone(remaining, windowMs, 1000);
          retryCountdown := Max(1, CeilDiv(remaining, 1000));
        }
        return false;
      }
      RecordStep(timestamps, history, now, windowMs, maxRequests);
      timestamps := timestamps + [now];
      history := history + [now];
      return true;
    }

    /** `getRetryAfterSeconds`: a read-only query of the whole seconds left. */
    function GetRetryAfterSeconds(now: int): (s: int)
      reads this
      ensures s >= 0
      ensures s > 0 ==> !Allows(now)
      ensures maxRequests >= 1 ==> (s > 0 <==> !Allows(now))
    {
      var valid := Retained(timestamps, now, windowMs);
      if |valid| < maxRequests then 0
      else if |valid| == 0 then 0
      else
        var remaining := windowMs - (now - valid[0]);
        assert valid[0] in valid;
        CeilDivPositive(remaining, 1000);
        Max(0, CeilDiv(remaining, 1000))
    }

    /** The wait never exceeds the whole window, rounded up to seconds. */
    lemma RetryAfterAtMostWindow(now: int)
      requires Valid() && now >= clock
      ensures GetRetryAfterSeconds(now) <= CeilDiv(windowMs, 1000)
    {
      var valid := Retained(timestamps, now, windowMs);
      if |valid| >= maxRequests && |valid| > 0 {
        assert valid[0] in timestamps && valid[0] in history;
        CeilDivMonotone(windowMs - (now - valid[0]), windowMs, 1000);
      }
    }

    /** One step of the countdown timer effect. */
    method Tick()
      requires Valid()
      modifies this`retryCountdown
      ensures Valid()
      ensures old(retryCountdown) > 0 ==> retryCountdown == old(retryCountdown) - 1
      ensures old(retryCountdown) <= 0 ==> retryCountdown == old(retryCountdown)
    {
      if retryCountdown > 0 {
        retryCountdown := retryCountdown - 1;
      }
    }

    /** No action is allowed more than `maxRequests` times in any window, including
        every window that ends after the latest check. */
    lemma WindowBound(t: int)
      requires Valid()
      ensures WindowCount(history, t, windowMs) <= maxRequests
    {
    }
  }

  /** A query followed by a check at the same instant agree: a positive wait is
      reported exactly when the check rejects. */
  method QueryThenCheck(limiter: RateLimiter, now: int) returns (wait: int, allowed: bool)
    requires limiter.Valid() && now >= limiter.clock && limiter.maxRequests >= 1
    modifies limiter
    ensures limiter.Valid()
    ensures wait > 0 <==> !allowed
  {
    wait := limiter.GetRetryAfterSeconds(now);
    allowed := limiter.CheckRateLimit(now);
  }

  /** One request per ten seconds: allowed, rejected at the same instant, and
      allowed again once ten seconds have passed. */
  method ScenarioWindowSlides(t0: int) returns (first: bool, second: bool, third: bool)
    ensures first && !second && third
  {
    var limiter := new RateLimiter(1, 10_000, t0);
    first := limiter.CheckRateLimit(t0);
    second := limiter.CheckRateLimit(t0);
    third := limiter.CheckRateLimit(t0 + 10_000);
  }

  /** Two requests per minute: the third at the same instant is rejected, and
      both the countdown and the reported wait are the full 60 seconds. */
  method ScenarioTwoPerMinute(t0: int)
    returns (first: bool, second: bool, third: bool, wait: int, countdown: int)
    ensures first && second && !third && wait == 60 && countdown == 60
  {
    var limiter;
    limiter, first, second := TwoAtOnce(t0);
    third := limiter.CheckRateLimit(t0);
    assert limiter.timestamps[0] == t0;
    countdown := limiter.retryCountdown;
    wait := limiter.GetRetryAfterSeconds(t0);
  }

  /** A new two-per-minute limiter that allows two calls at `t0`. */
  method TwoAtOnce(t0: int) returns (limiter: RateLimiter, first: bool, second: bool)
    ensures fresh(limiter) && limiter.Valid() && limiter.clock == t0
    ensures limiter.maxRequests == 2 && limiter.windowMs == 60_000
    ensures limiter.timestamps == [t0, t0]
    ensures first && second
  {
    limiter := new RateLimiter(2, 60_000, t0);
    first := limiter.CheckRateLimit(t0);
    second := limiter.CheckRateLimit(t0);
  }

  /** What the limiter keeps true of its log between calls: the log is the
      chronological list of allowed instants still inside the window at the latest
      check, it never holds more than `maxRequests` entries, and no window of
      `windowMs` milliseconds has ever seen more than `maxRequests` allowed actions. */
  ghost predicate LogInvariant(ts: seq<int>, history: seq<int>, clock: int, windowMs: int, maxRequests: nat) {
    && |ts| <= maxRequests
    && Sorted(ts)
    && (forall t :: t in history ==> t <= clock)
    && ts == Retained(history, clock, windowMs)
    && (forall t :: WindowCount(history, t, windowMs) <= maxRequests)
  }

  /** The purge at a later instant keeps the invariant, and the purged log is
      then the recent part of the whole history. */
  lemma PurgeStep(ts: seq<int>, history: seq<int>, clock: int, now: int, windowMs: int, maxRequests: nat)
    requires LogInvariant(ts, history, clock, windowMs, maxRequests) && clock <= now
    ensures LogInvariant(Retained(ts, now, windowMs), history, now, windowMs, maxRequests)
    ensures Retained(ts, now, windowMs) == Retained(history, now, windowMs)
  {
    RetainedLater(history, clock, now, windowMs);
    RetainedSorted(ts, now, windowMs);
  }

  /** Recording `now` below the limit keeps the invariant. */
  lemma RecordStep(ts: seq<int>, history: seq<int>, now: int, windowMs: int, maxRequests: nat)
    requires LogInvariant(ts, history, now, windowMs, maxRequests)
    requires windowMs > 0 && |ts| < maxRequests
    ensures LogInvariant(ts + [now], history + [now], now, windowMs, maxRequests)
  {
    RecordPreservesWindow(history, now, windowMs, maxRequests);
    RetainedAppend(history, now, windowMs);
    var r := ts + [now];
    forall i, j | 0 <= i < j < |r| ensures r[i] <= r[j] {
      if j == |ts| { assert r[i] == ts[i] && ts[i] in history; }
      else { assert r[i] == ts[i] && r[j] == ts[j]; }
    }
  }

  /** Recording `now` when fewer than `maxRequests` entries are in the window ending
      at `now` keeps every window within the limit. */
  lemma RecordPreservesWindow(h: seq<int>, now: int, windowMs: int, maxRequests: nat)
    requires forall x :: x in h ==> x <= now
    requires forall t :: WindowCount(h, t, windowMs) <= maxRequests
    requires |Retained(h, now, windowMs)| < maxRequests
    ensures forall t :: WindowCount(h + [now], t, windowMs) <= maxRequests
  {
    RetainedIsWindow(h, now, windowMs);
    var h' := h + [now];
    assert h'[..|h'| - 1] == h && h'[|h'| - 1] == now;
    forall t ensures WindowCount(h', t, windowMs) <= maxRequests {
      assert WindowCount(h', t, windowMs) ==
             (if t - windowMs < now <= t then 1 else 0) + CountIn(h, t - windowMs, t);
      assert WindowCount(h, t, windowMs) <= maxRequests;
      if t - windowMs < now <= t {
        CountInBeyondLast(h, t - windowMs, now, t);
        CountInNarrower(h, now - windowMs, now, t - windowMs, now);
      }
    }
  }
}
