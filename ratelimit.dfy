/**
 * The in-memory, fixed-window rate limiter that gates the like, skip and
 * report actions. One counter per (user, action) pair; a counter is created
 * lazily and restarted once its window has elapsed.
 */
module RateLimit {
  import opened Common

  /** One counter: calls allowed so far in the window, and when the window ends (milliseconds). */
  datatype Entry = Entry(count: int, resetAt: int)

  /** The pair (user id, action name); the source joins the two into the string "user:action". */
  type Key = (int, string)

  /** The verdict of one check: go ahead, or wait this many whole minutes. */
  datatype Decision = Allowed | Limited(minutesLeft: int)

  const MinuteMs: int := 60000

  /** The window every action of the bot uses: one hour. */
  const HourMs: int := 60 * 60 * 1000

  /** `Math.ceil(a / b)` for a positive divisor: the least multiple count that covers `a`. */
  function CeilDiv(a: int, b: int): (q: int)
    requires b > 0
    ensures (q - 1) * b < a <= q * b
  {
    var d := (-a) / b;
    assert (-a) == d * b + (-a) % b;
    -d
  }

  /**
   * One call of the limiter at time `now`: the table afterwards and the verdict.
   * A missing or expired entry opens a fresh window; inside a window the call is
   * allowed while the count is below `limit`; otherwise it is refused with the
   * remaining time rounded up to whole minutes.
   */
  function Step(rate: map<Key, Entry>, key: Key, limit: int, windowMs: int, now: int): (r: (map<Key, Entry>, Decision))
    ensures key in r.0
    ensures r.1.Allowed? <==> key !in rate || now >= rate[key].resetAt || rate[key].count < limit
    ensures (key !in rate || now >= rate[key].resetAt) ==> r.0[key] == Entry(1, now + windowMs)
    ensures key in rate && now < rate[key].resetAt && r.1.Allowed? ==>
              r.0[key] == Entry(rate[key].count + 1, rate[key].resetAt) && r.0[key].count <= limit
    ensures r.1.Limited? ==>
              r.0 == rate && r.1.minutesLeft >= 1 &&
              (r.1.minutesLeft - 1) * MinuteMs < rate[key].resetAt - now <= r.1.minutesLeft * MinuteMs
    ensures r.0 - {key} == rate - {key}
  {
    if key !in rate || now >= rate[key].resetAt then
      (rate[key := Entry(1, now + windowMs)], Allowed)
    else if rate[key].count < limit then
      (rate[key := rate[key].(count := rate[key].count + 1)], Allowed)
    else
      (rate, Limited(CeilDiv(rate[key].resetAt - now, MinuteMs)))
  }

  /** A sequence of calls for one key, at the given times: the final table and how many were allowed. */
  function Run(rate: map<Key, Entry>, key: Key, limit: int, windowMs: int, times: seq<int>): (map<Key, Entry>, nat)
    decreases |times|
  {
    if times == [] then (rate, 0)
    else
      var (next, d) := Step(rate, key, limit, windowMs, times[0]);
      var (final, n) := Run(next, key, limit, windowMs, times[1..]);
      (final, n + if d.Allowed? then 1 else 0)
  }

  /** Calls made before an open window ends are allowed only until its count reaches `limit`. */
  lemma {:induction false} RunInsideWindow(rate: map<Key, Entry>, key: Key, limit: int, windowMs: int, times: seq<int>)
    requires key in rate
    requires forall i :: 0 <= i < |times| ==> times[i] < rate[key].resetAt
    ensures Run(rate, key, limit, windowMs, times).1 == Min(|times|, Max(0, limit - rate[key].count))
    decreases |times|
  {
    if times != [] {
      var (next, d) := Step(rate, key, limit, windowMs, times[0]);
      assert next[key].resetAt == rate[key].resetAt;
      RunInsideWindow(next, key, limit, windowMs, times[1..]);
    }
  }

  /**
   * Within one window at most `limit` calls succeed (the first call of a window
   * always does): of `n` calls that start a fresh window and all fall before it
   * ends, exactly min(n, max(1, limit)) are allowed.
   */
  lemma {:induction false} WindowAdmitsAtMostLimit(rate: map<Key, Entry>, key: Key, limit: int, windowMs: int, times: seq<int>)
    requires |times| > 0
    requires key !in rate || times[0] >= rate[key].resetAt
    requires forall i :: 0 < i < |times| ==> times[i] < times[0] + windowMs
    ensures Run(rate, key, limit, windowMs, times).1 == Min(|times|, Max(1, limit))
  {
    var (next, d) := Step(rate, key, limit, windowMs, times[0]);
    assert next[key] == Entry(1, times[0] + windowMs);
    RunInsideWindow(next, key, limit, windowMs, times[1..]);
  }

  /** Calls for one key never read or write the counters of other users or other actions. */
  lemma {:induction false} RunKeepsOtherKeys(rate: map<Key, Entry>, key: Key, limit: int, windowMs: int, times: seq<int>)
    ensures Run(rate, key, limit, windowMs, times).0 - {key} == rate - {key}
    decreases |times|
  {
    if times != [] {
      var (next, d) := Step(rate, key, limit, windowMs, times[0]);
      RunKeepsOtherKeys(next, key, limit, windowMs, times[1..]);
    }
  }

  /** The process-wide limiter: one table of counters, updated in place by every check. */
  class RateLimiter {
    var rate: map<Key, Entry>

    constructor ()
      ensures rate == map[]
    {
      rate := map[];
    }

    /** The limiter check for `userId` doing `action`, at time `now`. */
    method CheckRate(userId: int, action: string, limit: int, windowMs: int, now: int) returns (d: Decision)
      modifies this
      ensures (rate, d) == Step(old(rate), (userId, action), limit, windowMs, now)
    {
      var key := (userId, action);
      if key !in rate || now >= rate[key].resetAt {
        rate := rate[key := Entry(1, now + windowMs)];
        return Allowed;
      }
      var entry := rate[key];
      if entry.count < limit {
        rate := rate[key := entry.(count := entry.count + 1)];
        return Allowed;
      }
      var msLeft := entry.resetAt - now;
      d := Limited(CeilDiv(msLeft, MinuteMs));
    }
  }
}
