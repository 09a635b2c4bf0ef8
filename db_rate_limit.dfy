/** The decision of the database-backed rate limiter: how the number of
    the user's generations in the window becomes allowed / remaining /
    resetAt, and the fail-open answer when the count cannot be had. The
    query is the parameter `outcome`; the clock is `now` (milliseconds). */
module DbRateLimit {
  import opened Wrappers

  datatype Config = Config(maxRequests: int, windowMinutes: int)

  /** 10 requests per 60 minutes. */
  const DefaultConfig := Config(10, 60)

  /** A generation row as the query sees it. */
  datatype Row = Row(userId: string, createdAt: int)

  /** How the count query ended: an error object in the response, a count
      (null when the service sends none), or an exception, which is an
      Error with a message or some other thrown value. */
  datatype QueryOutcome =
    | QueryError
    | Counted(count: Option<int>)
    | Threw(message: Option<string>)

  datatype RateLimitResult = RateLimitResult(allowed: bool, remaining: int, resetAt: int, error: Option<string>)

  const QueryFailedMessage := "Rate limit check failed"
  const UnknownErrorMessage := "Unknown error"

  /** The start of the window: windowMinutes before now. */
  function WindowStart(config: Config, now: int): int {
    now - config.windowMinutes * 60 * 1000
  }

  /** The end of the current window, the same in every branch. */
  function ResetAt(config: Config, now: int): int {
    now + config.windowMinutes * 60 * 1000
  }

  /** The rows the count query counts: the user's, created at or after the
      start of the window. */
  function CountInWindow(rows: seq<Row>, userId: string, windowStart: int): (n: nat)
    ensures n <= |rows|
  {
    if rows == [] then 0
    else
      var last := rows[|rows| - 1];
      CountInWindow(rows[..|rows| - 1], userId, windowStart)
        + (if last.userId == userId && last.createdAt >= windowStart then 1 else 0)
  }

  /** `Math.max(0, n)` */
  function AtLeastZero(n: int): int {
    if n < 0 then 0 else n
  }

  /** checkRateLimit, given how its query ended. */
  function CheckRateLimit(outcome: QueryOutcome, config: Config, now: int): (r: RateLimitResult)
    ensures r.resetAt == ResetAt(config, now)
    ensures r.error.Some? <==> !outcome.Counted?
    ensures !outcome.Counted? ==> r.allowed && r.remaining == config.maxRequests
  {
    match outcome
    case QueryError =>
      RateLimitResult(true, config.maxRequests, ResetAt(config, now), Some(QueryFailedMessage))
    case Threw(message) =>
      RateLimitResult(true, config.maxRequests, ResetAt(config, now), Some(message.GetOr(UnknownErrorMessage)))
    case Counted(count) =>
      var requestCount := if count.Some? && count.value != 0 then count.value else 0;
      RateLimitResult(requestCount < config.maxRequests, AtLeastZero(config.maxRequests - requestCount),
        ResetAt(config, now), None)
  }

  /** getRateLimitStatus: the same check again. */
  function GetRateLimitStatus(outcome: QueryOutcome, config: Config, now: int): (r: RateLimitResult)
    ensures r == CheckRateLimit(outcome, config, now)
  {
    CheckRateLimit(outcome, config, now)
  }

  /** The check on the rows themselves. */
  function CheckRows(rows: seq<Row>, userId: string, config: Config, now: int): (r: RateLimitResult)
    ensures r.error == None
    ensures r.allowed <==> CountInWindow(rows, userId, WindowStart(config, now)) < config.maxRequests
  {
    CheckRateLimit(Counted(Some(CountInWindow(rows, userId, WindowStart(config, now)))), config, now)
  }

  // ---------------------------------------------------------------------
  // Properties

  /** On a successful query the request is allowed exactly when the count
      (a missing one read as 0) is below the maximum, and what remains is
      the maximum minus the count, never below 0. */
  lemma CountedDecision(count: Option<int>, config: Config, now: int)
    ensures var n := count.GetOr(0);
      var r := CheckRateLimit(Counted(count), config, now);
      && (r.allowed <==> n < config.maxRequests)
      && r.remaining == (if config.maxRequests - n > 0 then config.maxRequests - n else 0)
      && r.error == None
  {
  }

  /** For a count and a maximum that are not negative, what remains lies
      between 0 and the maximum, and is positive exactly when the request
      is allowed. */
  lemma RemainingBounds(count: nat, config: Config, now: int)
    requires config.maxRequests >= 0
    ensures var r := CheckRateLimit(Counted(Some(count)), config, now);
      && 0 <= r.remaining <= config.maxRequests
      && (r.allowed <==> r.remaining > 0)
  {
  }

  /** A missing count behaves as a count of 0. */
  lemma MissingCountIsZero(config: Config, now: int)
    ensures CheckRateLimit(Counted(None), config, now) == CheckRateLimit(Counted(Some(0)), config, now)
  {
  }

  /** When the count cannot be had the check fails open: allowed, all of
      the maximum remaining, and an error message. */
  lemma FailsOpen(outcome: QueryOutcome, config: Config, now: int)
    requires !outcome.Counted?
    ensures var r := CheckRateLimit(outcome, config, now);
      && r.allowed && r.remaining == config.maxRequests && r.error.Some?
      && (outcome.QueryError? ==> r.error == Some(QueryFailedMessage))
      && (outcome.Threw? && outcome.message.None? ==> r.error == Some(UnknownErrorMessage))
      && (outcome.Threw? && outcome.message.Some? ==> r.error == outcome.message)
  {
  }

  /** Every branch puts the end of the window windowMinutes after now, and
      only the fail-open branches report an error. */
  lemma ResetAtInEveryBranch(outcome: QueryOutcome, config: Config, now: int)
    ensures CheckRateLimit(outcome, config, now).resetAt == now + config.windowMinutes * 60000
    ensures CheckRateLimit(outcome, config, now).error.Some? <==> !outcome.Counted?
  {
  }

  /** Rows of other users and rows older than the window do not count. */
  lemma {:induction false} OnlyRecentOwnRowsCount(rows: seq<Row>, userId: string, windowStart: int, extra: Row)
    requires extra.userId != userId || extra.createdAt < windowStart
    ensures CountInWindow(rows + [extra], userId, windowStart) == CountInWindow(rows, userId, windowStart)
    ensures CountInWindow([extra] + rows, userId, windowStart) == CountInWindow(rows, userId, windowStart)
    decreases |rows|
  {
    assert (rows + [extra])[..|rows|] == rows;
    if rows != [] {
      var init := rows[..|rows| - 1];
      assert ([extra] + rows)[..|rows|] == [extra] + init;
      OnlyRecentOwnRowsCount(init, userId, windowStart, extra);
    }
  }

  /** A recent own row counts once. */
  lemma RecentOwnRowCounts(rows: seq<Row>, userId: string, windowStart: int, extra: Row)
    requires extra.userId == userId && extra.createdAt >= windowStart
    ensures CountInWindow(rows + [extra], userId, windowStart) == CountInWindow(rows, userId, windowStart) + 1
  {
    assert (rows + [extra])[..|rows|] == rows;
  }

  /** Each recent generation of the user uses up one of the remaining
      requests until none is left. */
  lemma OneMoreGenerationUsesOne(rows: seq<Row>, userId: string, config: Config, now: int)
    requires config.maxRequests >= 0 && config.windowMinutes >= 0
    ensures var before := CheckRows(rows, userId, config, now);
      var after := CheckRows(rows + [Row(userId, now)], userId, config, now);
      after.remaining == (if before.remaining > 0 then before.remaining - 1 else 0)
  {
    RecentOwnRowCounts(rows, userId, WindowStart(config, now), Row(userId, now));
  }
}
