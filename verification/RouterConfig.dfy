/** How the router turns `Requests` per `Duration` into a limiter, and what that limiter
    then guarantees over whole runs. Durations are positive, in nanoseconds. */
module RouterConfig {
  import opened Options
  import opened TokenBucket
  import opened RateLimit
  import Middleware
  import opened TriggeredEviction
  import opened Windows

  const IDLE: nat := 600 * NANO

  /** Whole requests per second, never less than one. */
  function RatePerSecond(requests: nat, duration: nat): (rps: nat)
    requires duration > 0
    ensures rps > 0
  {
    var r := requests * NANO / duration;
    if r < 1 then 1 else r
  }

  /** None when the middleware is switched off. */
  function Settings(requests: int, duration: nat): (settings: Option<Config>)
    requires duration > 0
    ensures settings.Some? <==> requests > 0
    ensures settings.Some? ==> settings.value.burst == requests && settings.value.idle == 600_000_000_000
    ensures settings.Some? ==> settings.value.rps == RatePerSecond(requests, duration)
  {
    if requests <= 0 then None
    else Some(Middleware.WithDefaults(RatePerSecond(requests, duration), requests, IDLE))
  }

  /** The rate pays for no more than `requests` per duration unless it was raised to one. */
  lemma RateTimesDuration(requests: nat, duration: nat)
    requires duration > 0
    ensures var rps := RatePerSecond(requests, duration);
      if requests * NANO >= duration then rps * duration <= requests * NANO < (rps + 1) * duration else rps == 1
  {
    var x := requests * NANO;
    assert x == (x / duration) * duration + x % duration;
    if x >= duration {
      QuotientPositive(x, duration);
      assert (x / duration + 1) * duration == (x / duration) * duration + duration;
    } else {
      assert x / duration == 0;
    }
  }

  lemma QuotientPositive(x: nat, d: nat)
    requires 0 < d <= x
    ensures x / d >= 1
  {
    assert x == (x / d) * d + x % d;
  }

  /** A burst is worth at most the idle timeout at the whole-number rate. */
  predicate Affordable(requests: nat, duration: nat)
    requires duration > 0
  {
    requests * NANO <= RatePerSecond(requests, duration) * (IDLE + 1)
  }

  /** The router's middleware, started at any time, hides its evictions exactly when the
      settings are affordable, and so would one whose sweeps ran at any other moments. */
  lemma RouterInvisibleIff(requests: int, duration: nat, start: int)
    requires requests > 0 && duration > 0
    ensures MiddlewareInvisible(Settings(requests, duration).value, start) <==> Affordable(requests, duration)
    ensures EvictionInvisible(Settings(requests, duration).value) <==> Affordable(requests, duration)
  {
    var c := Settings(requests, duration).value;
    hide EvictionInvisible, MiddlewareInvisible;
    EvictionInvisibleIff(c);
    MiddlewareInvisibleIff(c, start);
  }

  /** Short periods or small budgets always hide evictions. */
  lemma CommonSettingsInvisible(requests: int, duration: nat, start: int)
    requires requests > 0 && duration > 0
    requires duration <= 300 * NANO || requests <= 600
    ensures MiddlewareInvisible(Settings(requests, duration).value, start)
    ensures EvictionInvisible(Settings(requests, duration).value)
  {
    hide EvictionInvisible, MiddlewareInvisible;
    var rps := RatePerSecond(requests, duration);
    RateTimesDuration(requests, duration);
    RouterInvisibleIff(requests, duration, start);
    if requests <= 600 {
      MulMono(IDLE + 1, 1, rps);
    } else {
      // two periods fit in the idle timeout, and rounding loses less than half the rate
      assert requests * NANO >= duration;
      assert (rps + 1) * duration <= (2 * rps) * duration by { MulMono(duration, rps + 1, 2 * rps); }
      assert (2 * rps) * duration == rps * (2 * duration);
      MulMono(rps, 2 * duration, IDLE + 1);
    }
  }

  /** A slow large budget does not: 1000 requests per 1001 seconds. */
  lemma SlowLargeBudgetVisible(start: int)
    ensures !MiddlewareInvisible(Settings(1000, 1001 * NANO).value, start)
    ensures !EvictionInvisible(Settings(1000, 1001 * NANO).value)
  {
    hide EvictionInvisible, MiddlewareInvisible;
    RateTimesDuration(1000, 1001 * NANO);
    RouterInvisibleIff(1000, 1001 * NANO, start);
  }

  /** Where the budget is at least one a second, every window one duration long, of every
      run and of every run of the middleware, grants a client at most twice its budget, if
      and only if a nanosecond past the idle timeout the rate no longer pays for another
      request within the duration. */
  lemma TwiceTheBudgetIff(requests: int, duration: nat, start: int)
    requires requests > 0 && duration > 0 && requests * NANO >= duration
    ensures var c := Settings(requests, duration).value;
      && (WindowsWithin(c, duration, 2 * requests) <==> Patient(requests, duration))
      && (CallWindowsWithin(c, start, duration, 2 * requests) <==> Patient(requests, duration))
  {
    hide WindowsWithin, CallWindowsWithin;
    var c := Settings(requests, duration).value;
    RateTimesDuration(requests, duration);
    TwoBurstsIff(c, duration);
    CallTwoBurstsIff(c, start, duration);
  }

  predicate Patient(requests: nat, duration: nat)
    requires duration > 0
  {
    RatePerSecond(requests, duration) * (duration - (IDLE + 1)) < NANO
  }

  /** 1199 requests per 1000 seconds can be granted more than twice over; 1000 per 600
      seconds cannot, although its evictions show. */
  lemma TwiceTheBudgetAtTheEdge(start: int)
    ensures !WindowsWithin(Settings(1199, 1000 * NANO).value, 1000 * NANO, 2 * 1199)
    ensures !CallWindowsWithin(Settings(1199, 1000 * NANO).value, start, 1000 * NANO, 2 * 1199)
    ensures WindowsWithin(Settings(1000, 600 * NANO).value, 600 * NANO, 2 * 1000)
    ensures CallWindowsWithin(Settings(1000, 600 * NANO).value, start, 600 * NANO, 2 * 1000)
    ensures !EvictionInvisible(Settings(1000, 600 * NANO).value)
  {
    hide WindowsWithin, CallWindowsWithin, EvictionInvisible, MiddlewareInvisible;
    TwiceTheBudgetIff(1199, 1000 * NANO, start);
    TwiceTheBudgetIff(1000, 600 * NANO, start);
    RouterInvisibleIff(1000, 600 * NANO, start);
  }

  /** Where evictions do not show, that is where the settings are affordable, a rate raised
      to one a second grants at most the budget and a request a second. */
  lemma WindowOfDuration(requests: int, duration: nat, pre: seq<Event>, win: seq<Event>, ip: string, start: int,
      from: int)
    requires requests > 0 && duration > 0 && requests * NANO < duration && Affordable(requests, duration)
    requires Window(Settings(requests, duration).value, pre, win, start, from, duration)
    ensures var c := Settings(requests, duration).value;
      Grants(Answers(c, Run(c, map[], pre), win, ip)) <= requests + duration / NANO
  {
    hide Window, Answers, Run;
    RateTimesDuration(requests, duration);
    WindowBound(Settings(requests, duration).value, pre, win, ip, start, from, duration);
  }
}
