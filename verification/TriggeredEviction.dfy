/** Eviction as the middleware's own counter and timer trigger it: when it shows. */
module TriggeredEviction {
  import opened Options
  import opened TokenBucket
  import opened RateLimit
  import opened Middleware

  /** From its first request at `start` or later, the middleware answers every client as
      one bucket of its own that is never thrown away. */
  ghost predicate MiddlewareInvisible(c: Config, start: int)
  {
    forall calls, ip | NonDecreasing(calls, start) ::
      HandleAnswers(c, INITIAL, calls, ip) == BucketAnswers(c, None, CallTimes(calls, ip))
  }

  // -------- concatenation --------

  lemma {:induction false} HandleConcat(c: Config, s: State, xs: seq<Call>, ys: seq<Call>, ip: string)
    ensures HandleAll(c, s, xs + ys) == HandleAll(c, HandleAll(c, s, xs), ys)
    ensures HandleAnswers(c, s, xs + ys, ip)
         == HandleAnswers(c, s, xs, ip) + HandleAnswers(c, HandleAll(c, s, xs), ys, ip)
    decreases |xs|
  {
    hide HandleSpec;
    if xs == [] {
      assert xs + ys == ys;
      assert HandleAnswers(c, s, xs, ip) == [];
    } else {
      var (s', ok) := HandleSpec(c, s, xs[0].ip, xs[0].now);
      assert (xs + ys)[0] == xs[0] && (xs + ys)[1..] == xs[1..] + ys;
      HandleConcat(c, s', xs[1..], ys, ip);
      var head, mid := if xs[0].ip == ip then [ok] else [], HandleAnswers(c, s', xs[1..], ip);
      var tail := HandleAnswers(c, HandleAll(c, s, xs), ys, ip);
      assert HandleAnswers(c, s, xs + ys, ip) == head + (mid + tail);
      assert head + (mid + tail) == (head + mid) + tail;
    }
  }

  lemma {:induction false} TimesOf(calls: seq<Call>, ip: string, from: int, to: int)
    requires NonDecreasing(calls, from) && forall k :: 0 <= k < |calls| ==> calls[k].now <= to
    ensures Sorted(CallTimes(calls, ip), from)
    ensures forall k :: 0 <= k < |CallTimes(calls, ip)| ==> CallTimes(calls, ip)[k] <= to
    decreases |calls|
  {
    if calls != [] {
      TimesOf(calls[1..], ip, calls[0].now, to);
      SortedEarlier(CallTimes(calls[1..], ip), calls[0].now, from);
      if calls[0].ip == ip {
        assert CallTimes(calls, ip)[1..] == CallTimes(calls[1..], ip);
      } else {
        assert CallTimes(calls, ip) == CallTimes(calls[1..], ip);
      }
    }
  }

  // -------- the run that shows it --------

  /** `n` requests of one client at one moment. */
  function Volley(ip: string, at: int, n: nat): (calls: seq<Call>)
    ensures |calls| == n && forall k :: 0 <= k < n ==> calls[k] == Call(ip, at)
  {
    seq(n, _ => Call(ip, at))
  }

  lemma VolleyStep(ip: string, at: int, n: nat)
    requires n > 0
    ensures Volley(ip, at, n)[0] == Call(ip, at) && Volley(ip, at, n)[1..] == Volley(ip, at, n - 1)
  {
  }

  /** The client's bucket can pay for `n` more requests now, and is in no danger of being swept. */
  ghost predicate CanPay(c: Config, s: State, ip: string, at: int, n: nat)
  {
    if ip in s.buckets then
      s.buckets[ip].bucket.last <= at && Level(c, s.buckets[ip].bucket, at) >= n * NANO
          && s.buckets[ip].lastSeen >= at - c.idle
    else n <= c.burst
  }

  lemma OnePaid(c: Config, s: State, ip: string, at: int, n: nat)
    requires n > 0 && CanPay(c, s, ip, at, n) && s.opsSince < SWEEP_EVERY
    ensures var (s', ok) := HandleSpec(c, s, ip, at);
      && ok && CanPay(c, s', ip, at, n - 1) && s'.opsSince < SWEEP_EVERY
      && ip in s'.buckets && s'.buckets[ip].lastSeen == at
  {
    assert c.rps * 0 == 0;
    assert n * NANO == (n - 1) * NANO + NANO;
  }

  /** Sweeps triggered in the middle of a volley do not reach the client who fires it. */
  lemma {:induction false} VolleyGranted(c: Config, s: State, ip: string, at: int, n: nat)
    requires CanPay(c, s, ip, at, n) && s.opsSince < SWEEP_EVERY
    ensures var s' := HandleAll(c, s, Volley(ip, at, n));
      && Grants(HandleAnswers(c, s, Volley(ip, at, n), ip)) == n
      && s'.opsSince < SWEEP_EVERY
      && (n > 0 ==> ip in s'.buckets && s'.buckets[ip].lastSeen == at)
    decreases n
  {
    hide HandleSpec, CanPay;
    if n > 0 {
      VolleyStep(ip, at, n);
      OnePaid(c, s, ip, at, n);
      VolleyGranted(c, HandleSpec(c, s, ip, at).0, ip, at, n - 1);
      var rest := HandleAnswers(c, HandleSpec(c, s, ip, at).0, Volley(ip, at, n - 1), ip);
      assert ([true] + rest)[1..] == rest;
    }
  }

  lemma OneOther(c: Config, s: State, ip: string, other: string, at: int)
    requires ip != other && s.opsSince < SWEEP_EVERY
    requires ip in s.buckets ==> s.buckets[ip].lastSeen < at - c.idle
    ensures var s' := HandleSpec(c, s, other, at).0;
      && s'.opsSince < SWEEP_EVERY
      && (ip in s'.buckets ==> ip in s.buckets && s'.buckets[ip] == s.buckets[ip] && s'.opsSince == s.opsSince + 1)
  {
  }

  /** A whole counter's worth of somebody else's requests triggers a sweep. */
  lemma {:induction false} SweptByOthers(c: Config, s: State, ip: string, other: string, at: int, n: nat)
    requires ip != other && s.opsSince < SWEEP_EVERY
    requires ip in s.buckets ==> s.buckets[ip].lastSeen < at - c.idle && s.opsSince + n >= SWEEP_EVERY
    ensures var s' := HandleAll(c, s, Volley(other, at, n));
      && ip !in s'.buckets && s'.opsSince < SWEEP_EVERY
      && HandleAnswers(c, s, Volley(other, at, n), ip) == []
    decreases n
  {
    hide HandleSpec;
    if n > 0 {
      VolleyStep(other, at, n);
      OneOther(c, s, ip, other, at);
      SweptByOthers(c, HandleSpec(c, s, other, at).0, ip, other, at, n - 1);
    }
  }

  /** "a" spends a burst, keeps silent for the idle timeout and a nanosecond while "b" comes
      back often enough to trigger a sweep, and spends a burst again. */
  function SpendTwice(c: Config, start: int): seq<Call>
  {
    var later := start + c.idle + 1;
    Volley("a", start, c.burst) + (Volley("b", later, SWEEP_EVERY) + Volley("a", later, c.burst))
  }

  lemma {:induction false} SameMoment(calls: seq<Call>, at: int, from: int)
    requires from <= at && forall k :: 0 <= k < |calls| ==> calls[k].now == at
    ensures NonDecreasing(calls, from)
    decreases |calls|
  {
    if calls != [] { SameMoment(calls[1..], at, at); }
  }

  lemma {:induction false} MomentThen(calls: seq<Call>, rest: seq<Call>, at: int, from: int)
    requires from <= at && (forall k :: 0 <= k < |calls| ==> calls[k].now == at) && NonDecreasing(rest, at)
    ensures NonDecreasing(calls + rest, from)
    decreases |calls|
  {
    if calls == [] {
      assert calls + rest == rest;
      Earlier(rest, at, from);
    } else {
      assert (calls + rest)[1..] == calls[1..] + rest;
      MomentThen(calls[1..], rest, at, at);
    }
  }

  lemma Earlier(calls: seq<Call>, at: int, from: int)
    requires from <= at && NonDecreasing(calls, at)
    ensures NonDecreasing(calls, from)
  {
  }

  lemma SpendTwiceInTime(c: Config, start: int)
    ensures NonDecreasing(SpendTwice(c, start), start)
    ensures forall k :: 0 <= k < |SpendTwice(c, start)| ==> SpendTwice(c, start)[k].now <= start + c.idle + 1
  {
    var later := start + c.idle + 1;
    var rest := Volley("b", later, SWEEP_EVERY) + Volley("a", later, c.burst);
    SameMoment(rest, later, start);
    SameMoment(rest, later, later);
    MomentThen(Volley("a", start, c.burst), rest, start, start);
  }

  lemma SpendTwiceGrants(c: Config, start: int)
    requires c.Valid()
    ensures Grants(HandleAnswers(c, INITIAL, SpendTwice(c, start), "a")) == 2 * c.burst
  {
    hide HandleSpec, Volley, HandleAll, HandleAnswers;
    var later := start + c.idle + 1;
    var first, second := Volley("a", start, c.burst), Volley("a", later, c.burst);
    var others := Volley("b", later, SWEEP_EVERY);
    VolleyGranted(c, INITIAL, "a", start, c.burst);
    var s1 := HandleAll(c, INITIAL, first);
    SweptByOthers(c, s1, "a", "b", later, SWEEP_EVERY);
    var s2 := HandleAll(c, s1, others);
    VolleyGranted(c, s2, "a", later, c.burst);
    HandleConcat(c, INITIAL, first, others + second, "a");
    HandleConcat(c, s1, others, second, "a");
    var one, two := HandleAnswers(c, INITIAL, first, "a"), HandleAnswers(c, s2, second, "a");
    assert [] + two == two;
    GrantsConcat(one, two);
  }

  /** Started at any time, the middleware with its own triggers hides eviction if and only
      if the shortest silence after which it may evict refills a whole burst. */
  lemma MiddlewareInvisibleIff(c: Config, start: int)
    requires c.Valid()
    ensures MiddlewareInvisible(c, start) <==> c.Cap() <= c.rps * (c.idle + 1)
  {
    hide HandleSpec, Allow, Agrees, SpendTwice;
    if c.Cap() <= c.rps * (c.idle + 1) {
      forall calls, ip | NonDecreasing(calls, start)
        ensures HandleAnswers(c, INITIAL, calls, ip) == BucketAnswers(c, None, CallTimes(calls, ip))
      {
        NothingYet(c, ip, start);
        MiddlewareAnswers(c, INITIAL, None, calls, ip, start);
      }
    } else {
      var calls := SpendTwice(c, start);
      SpendTwiceInTime(c, start);
      SpendTwiceGrants(c, start);
      TimesOf(calls, "a", start, start + c.idle + 1);
      FromFresh(c, CallTimes(calls, "a"), start, start + c.idle + 1);
      assert HandleAnswers(c, INITIAL, calls, "a") != BucketAnswers(c, None, CallTimes(calls, "a"));
    }
  }

  lemma NothingYet(c: Config, ip: string, start: int)
    ensures Agrees(c, INITIAL.buckets, ip, None, start)
  {
  }
}
