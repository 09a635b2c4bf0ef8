/** The in-memory fixed-window rate limiter: a table from user id to that
    user's request count and window end, which every check reads and
    updates in place. The clock is the `now` parameter (milliseconds). */
module MemoryRateLimit {

  /** One user's window: requests counted so far and the instant it ends. */
  datatype Window = Window(count: int, resetAt: int)

  datatype Config = Config(max: int, windowMs: int)

  /** 10 requests per hour. */
  const DefaultConfig := Config(10, 60 * 60 * 1000)

  /** What checkRateLimit returns. */
  datatype Decision = Decision(allowed: bool, remaining: int, resetAt: int)

  /** What getRateLimitInfo returns. */
  datatype Usage = Usage(count: int, remaining: int, resetAt: int)

  type Store = map<string, Window>

  /** No window applies: none was opened, or it ended strictly before now. */
  predicate Expired(store: Store, userId: string, now: int) {
    userId !in store || now > store[userId].resetAt
  }

  // ---------------------------------------------------------------------
  // The specification of one check

  /** The answer of checkRateLimit for the table as it stands. */
  function Decide(store: Store, userId: string, config: Config, now: int): (d: Decision)
    ensures d.allowed <==> Expired(store, userId, now) || store[userId].count < config.max
    ensures !Expired(store, userId, now) ==> d.resetAt == store[userId].resetAt
  {
    if Expired(store, userId, now) then Decision(true, config.max - 1, now + config.windowMs)
    else if store[userId].count >= config.max then Decision(false, 0, store[userId].resetAt)
    else Decision(true, config.max - (store[userId].count + 1), store[userId].resetAt)
  }

  /** The table after checkRateLimit. */
  function After(store: Store, userId: string, config: Config, now: int): (r: Store)
    ensures r.Keys == store.Keys + {userId}
    ensures forall other :: other in store && other != userId ==> r[other] == store[other]
  {
    if Expired(store, userId, now) then store[userId := Window(1, now + config.windowMs)]
    else if store[userId].count >= config.max then store
    else store[userId := store[userId].(count := store[userId].count + 1)]
  }

  /** The answer of getRateLimitInfo. */
  function UsageOf(store: Store, userId: string, config: Config, now: int): (u: Usage)
    ensures u.count + u.remaining == config.max
  {
    if Expired(store, userId, now) then Usage(0, config.max, now + config.windowMs)
    else Usage(store[userId].count, config.max - store[userId].count, store[userId].resetAt)
  }

  // ---------------------------------------------------------------------
  // The table, updated in place

  class RateLimiter {
    var store: Store

    /** The table starts empty. */
    constructor()
      ensures store == map[]
    {
      store := map[];
    }

    /** checkRateLimit */
    method CheckRateLimit(userId: string, config: Config, now: int) returns (d: Decision)
      modifies this
      ensures d == Decide(old(store), userId, config, now)
      ensures store == After(old(store), userId, config, now)
    {
      if userId !in store || now > store[userId].resetAt {
        store := store[userId := Window(1, now + config.windowMs)];
        return Decision(true, config.max - 1, now + config.windowMs);
      }
      var window := store[userId];
      if window.count >= config.max {
        return Decision(false, 0, window.resetAt);
      }
      store := store[userId := window.(count := window.count + 1)];
      d := Decision(true, config.max - store[userId].count, window.resetAt);
    }

    /** resetRateLimit */
    method ResetRateLimit(userId: string)
      modifies this
      ensures store == old(store) - {userId}
    {
      store := store - {userId};
    }

    /** getRateLimitInfo: reads the table and changes nothing. */
    method GetRateLimitInfo(userId: string, config: Config, now: int) returns (u: Usage)
      ensures u == UsageOf(store, userId, config, now)
    {
      if userId !in store || now > store[userId].resetAt {
        return Usage(0, config.max, now + config.windowMs);
      }
      var window := store[userId];
      u := Usage(window.count, config.max - window.count, window.resetAt);
    }
  }

  // ---------------------------------------------------------------------
  // Properties of a check

  /** Without a current window the request is allowed and opens a window
      of one request that ends windowMs from now. */
  lemma NewWindowAllows(store: Store, userId: string, config: Config, now: int)
    requires Expired(store, userId, now)
    ensures Decide(store, userId, config, now) == Decision(true, config.max - 1, now + config.windowMs)
    ensures userId in After(store, userId, config, now)
    ensures After(store, userId, config, now)[userId] == Window(1, now + config.windowMs)
  {
  }

  /** The window includes its end: a check at exactly resetAt still counts
      against the open window and keeps its end. */
  lemma WindowEndIsInclusive(store: Store, userId: string, config: Config)
    requires userId in store
    ensures !Expired(store, userId, store[userId].resetAt)
    ensures var d := Decide(store, userId, config, store[userId].resetAt);
      d.resetAt == store[userId].resetAt && (d.allowed <==> store[userId].count < config.max)
  {
  }

  /** A full window denies, reports nothing remaining and leaves the table
      as it was. */
  lemma FullWindowDenies(store: Store, userId: string, config: Config, now: int)
    requires !Expired(store, userId, now) && store[userId].count >= config.max
    ensures Decide(store, userId, config, now) == Decision(false, 0, store[userId].resetAt)
    ensures After(store, userId, config, now) == store
  {
  }

  /** A window with room counts the request: one more in the table, and
      what remains is max minus the new count. */
  lemma OpenWindowCounts(store: Store, userId: string, config: Config, now: int)
    requires !Expired(store, userId, now) && store[userId].count < config.max
    ensures var next := After(store, userId, config, now);
      && userId in next
      && next[userId] == Window(store[userId].count + 1, store[userId].resetAt)
      && Decide(store, userId, config, now) == Decision(true, config.max - next[userId].count, store[userId].resetAt)
  {
  }

  /** A request is allowed exactly when no window applies or the current
      one has room. */
  lemma AllowedIff(store: Store, userId: string, config: Config, now: int)
    ensures Decide(store, userId, config, now).allowed <==>
      Expired(store, userId, now) || store[userId].count < config.max
  {
  }

  /** A check touches its own user's entry only. */
  lemma OtherUsersUntouched(store: Store, userId: string, config: Config, now: int, other: string)
    requires other != userId
    ensures other in After(store, userId, config, now) <==> other in store
    ensures other in store ==> After(store, userId, config, now)[other] == store[other]
  {
  }

  /** Every stored window holds between 1 and max requests. */
  predicate CountsWithin(store: Store, max: int) {
    forall u :: u in store ==> 1 <= store[u].count <= max
  }

  /** With max at least 1, checks against the same max keep every count
      between 1 and max. */
  lemma CheckKeepsCountsWithin(store: Store, userId: string, config: Config, now: int)
    requires config.max >= 1 && CountsWithin(store, config.max)
    ensures CountsWithin(After(store, userId, config, now), config.max)
  {
    var next := After(store, userId, config, now);
    forall u | u in next
      ensures 1 <= next[u].count <= config.max
    {
      if u != userId {
        OtherUsersUntouched(store, userId, config, now, u);
      }
    }
  }

  /** After resetRateLimit the user's next check is allowed, with a fresh
      window. */
  lemma ResetThenAllowed(store: Store, userId: string, config: Config, now: int)
    ensures Expired(store - {userId}, userId, now)
    ensures Decide(store - {userId}, userId, config, now) == Decision(true, config.max - 1, now + config.windowMs)
  {
  }

  /** getRateLimitInfo agrees with the check it does not make: with no
      current window it reports no requests and all of max remaining, and
      a check with room then leaves one fewer than it reports. */
  lemma UsageForecastsCheck(store: Store, userId: string, config: Config, now: int)
    ensures Expired(store, userId, now) ==> UsageOf(store, userId, config, now) == Usage(0, config.max, now + config.windowMs)
    ensures Decide(store, userId, config, now).allowed ==>
      Decide(store, userId, config, now).remaining == UsageOf(store, userId, config, now).remaining - 1
    ensures !Expired(store, userId, now) ==> UsageOf(store, userId, config, now).count == store[userId].count
  {
  }

  // ---------------------------------------------------------------------
  // A sequence of checks

  /** The number of requests allowed when the user checks at each of the
      given instants in turn. */
  function AllowedCount(store: Store, userId: string, config: Config, times: seq<int>): nat
    decreases |times|
  {
    if times == [] then 0
    else
      var d := Decide(store, userId, config, times[0]);
      (if d.allowed then 1 else 0) + AllowedCount(After(store, userId, config, times[0]), userId, config, times[1..])
  }

  /** Inside an open window that already holds `count` requests, at most
      max - count more are allowed. */
  lemma {:induction false} OpenWindowAllowsAtMostRest(store: Store, userId: string, config: Config, times: seq<int>)
    requires userId in store && store[userId].count >= 1
    requires forall i :: 0 <= i < |times| ==> times[i] <= store[userId].resetAt
    ensures AllowedCount(store, userId, config, times) <= if config.max > store[userId].count then config.max - store[userId].count else 0
    decreases |times|
  {
    if times != [] {
      var next := After(store, userId, config, times[0]);
      assert userId in next && next[userId].resetAt == store[userId].resetAt;
      assert forall i :: 0 <= i < |times[1..]| ==> times[1..][i] <= next[userId].resetAt by {
        forall i | 0 <= i < |times[1..]| ensures times[1..][i] <= next[userId].resetAt {
          assert times[1..][i] == times[i + 1];
        }
      }
      OpenWindowAllowsAtMostRest(next, userId, config, times[1..]);
    }
  }

  /** At most max requests are allowed in one window: the check that opens
      it at t0 and every later check up to its end at t0 + windowMs. */
  lemma AtMostMaxPerWindow(store: Store, userId: string, config: Config, t0: int, times: seq<int>)
    requires config.max >= 1 && Expired(store, userId, t0)
    requires forall i :: 0 <= i < |times| ==> times[i] <= t0 + config.windowMs
    ensures AllowedCount(store, userId, config, [t0] + times) <= config.max
  {
    var next := After(store, userId, config, t0);
    assert ([t0] + times)[1..] == times;
    OpenWindowAllowsAtMostRest(next, userId, config, times);
  }
}
