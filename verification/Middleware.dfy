/** The middleware object: the bucket map with the two counters that trigger sweeps.
    Here a triggered sweep finishes before its request goes on. */
module Middleware {
  import opened Options
  import opened TokenBucket
  import opened RateLimit

  const SWEEP_EVERY: nat := 4096
  const MINUTE: nat := 60 * NANO

  /** The defaults for non-positive settings. */
  function WithDefaults(rps: int, burst: int, idle: int): (c: Config)
    ensures c.Valid()
    ensures if rps > 0 then c.rps == rps else c.rps == 1
    ensures if burst > 0 then c.burst == burst else c.burst == c.rps
    ensures if idle > 0 then c.idle == idle else c.idle == 10 * MINUTE
  {
    var r := if rps <= 0 then 1 else rps;
    Config(r, if burst <= 0 then r else burst, if idle <= 0 then 600 * NANO else idle)
  }

  // -------- the middleware as a function of its state --------

  /** `survivors` is a history value: how many keys the last sweep left. */
  datatype State = State(buckets: Buckets, opsSince: nat, lastSweep: int, survivors: nat)

  const INITIAL := State(map[], 0, 0, 0)

  function SweepAll(m: Buckets, cutoff: int): Buckets
  {
    map k | k in m && m[k].lastSeen >= cutoff :: m[k]
  }

  function Due(s: State, now: int): bool
  {
    s.opsSince + 1 >= SWEEP_EVERY || now - s.lastSweep > MINUTE
  }

  function Swept(c: Config, s: State, now: int): State
  {
    var m := SweepAll(s.buckets, now - c.idle);
    State(m, 0, now, |m|)
  }

  function HandleSpec(c: Config, s: State, ip: string, now: int): (State, bool)
  {
    var s1 := if Due(s, now) then Swept(c, s, now) else s.(opsSince := s.opsSince + 1);
    var (m, ok) := Serve(c, s1.buckets, ip, now);
    (s1.(buckets := m), ok)
  }

  datatype Call = Call(ip: string, now: int)

  function HandleAll(c: Config, s: State, calls: seq<Call>): State
    decreases |calls|
  {
    if calls == [] then s else HandleAll(c, HandleSpec(c, s, calls[0].ip, calls[0].now).0, calls[1..])
  }

  ghost predicate NonDecreasing(calls: seq<Call>, from: int)
  {
    calls == [] || (from <= calls[0].now && NonDecreasing(calls[1..], calls[0].now))
  }

  // -------- what a client is answered --------

  /** The allow/deny answers `ip` gets from the middleware. */
  function HandleAnswers(c: Config, s: State, calls: seq<Call>, ip: string): seq<bool>
    decreases |calls|
  {
    if calls == [] then [] else
      var (s', ok) := HandleSpec(c, s, calls[0].ip, calls[0].now);
      (if calls[0].ip == ip then [ok] else []) + HandleAnswers(c, s', calls[1..], ip)
  }

  function CallTimes(calls: seq<Call>, ip: string): seq<int>
  {
    if calls == [] then [] else (if calls[0].ip == ip then [calls[0].now] else []) + CallTimes(calls[1..], ip)
  }

  lemma SweepAgrees(c: Config, m: Buckets, ip: string, b: Option<Bucket>, from: int, now: int)
    requires c.Cap() <= c.rps * (c.idle + 1) && from <= now && Agrees(c, m, ip, b, from)
    ensures Agrees(c, SweepAll(m, now - c.idle), ip, b, now)
  {
    StepAgrees(c, m, b, Evict(ip, now - c.idle, now), ip, from);
  }

  lemma HandleAgrees(c: Config, s: State, ip: string, b: Option<Bucket>, from: int, call: Call)
    requires c.Cap() <= c.rps * (c.idle + 1) && from <= call.now && Agrees(c, s.buckets, ip, b, from)
    ensures var (s', ok) := HandleSpec(c, s, call.ip, call.now);
      var (b', granted) := Allow(c, Current(c, b, call.now), call.now);
      if call.ip == ip then ok == granted && Agrees(c, s'.buckets, ip, Some(b'), call.now)
      else Agrees(c, s'.buckets, ip, b, call.now)
  {
    var now := call.now;
    SweepAgrees(c, s.buckets, ip, b, from, now);
    var m := if Due(s, now) then SweepAll(s.buckets, now - c.idle) else s.buckets;
    StepAgrees(c, m, b, Request(call.ip, now), ip, if Due(s, now) then now else from);
  }

  /** With the sweeps its own counter and timer trigger, the middleware answers every
      client as one token bucket of its own that is never thrown away. */
  lemma {:induction false} MiddlewareAnswers(c: Config, s: State, b: Option<Bucket>, calls: seq<Call>, ip: string,
      from: int)
    requires c.Cap() <= c.rps * (c.idle + 1)
    requires NonDecreasing(calls, from) && Agrees(c, s.buckets, ip, b, from)
    ensures HandleAnswers(c, s, calls, ip) == BucketAnswers(c, b, CallTimes(calls, ip))
    decreases |calls|
  {
    hide Agrees, HandleSpec, Allow;
    if calls != [] {
      var call := calls[0];
      HandleAgrees(c, s, ip, b, from, call);
      var s' := HandleSpec(c, s, call.ip, call.now).0;
      if call.ip == ip {
        var b' := Allow(c, Current(c, b, call.now), call.now).0;
        MiddlewareAnswers(c, s', Some(b'), calls[1..], ip, call.now);
        assert CallTimes(calls, ip)[1..] == CallTimes(calls[1..], ip);
      } else {
        MiddlewareAnswers(c, s', b, calls[1..], ip, call.now);
        assert CallTimes(calls, ip) == CallTimes(calls[1..], ip);
      }
    }
  }

  // -------- how long an entry stays and how large the map grows --------

  ghost predicate Bounded(c: Config, s: State, t: int)
  {
    && s.opsSince < SWEEP_EVERY
    && |s.buckets| <= s.survivors + s.opsSince + 1
    && s.lastSweep <= t
    && forall k :: k in s.buckets ==> s.buckets[k].lastSeen >= s.lastSweep - c.idle
  }

  lemma HandleBounded(c: Config, s: State, ip: string, now: int, from: int)
    requires Bounded(c, s, from) && from <= now
    ensures var s' := HandleSpec(c, s, ip, now).0;
      && Bounded(c, s', now)
      && (forall k :: k in s'.buckets ==> s'.buckets[k].lastSeen >= now - c.idle - MINUTE)
      && |s'.buckets| <= s'.survivors + SWEEP_EVERY
  {
    var s1 := if Due(s, now) then Swept(c, s, now) else s.(opsSince := s.opsSince + 1);
    var m := Serve(c, s1.buckets, ip, now).0;
    AddOne(s1.buckets, ip, m[ip]);
  }

  lemma AddOne(m: Buckets, ip: string, e: Entry)
    ensures |m[ip := e]| <= |m| + 1
  {
    if ip in m {
      assert m[ip := e].Keys == m.Keys;
    } else {
      assert m[ip := e].Keys == m.Keys + {ip};
    }
  }

  /** After every request of every run, no entry is older than the idle timeout plus a
      minute, and the map has at most 4096 keys more than survived the last sweep. */
  lemma {:induction false} Residency(c: Config, s: State, calls: seq<Call>, last: Call, from: int)
    requires 0 <= from && NonDecreasing(calls + [last], from)
    requires s == INITIAL || Bounded(c, s, from)
    ensures var s' := HandleAll(c, s, calls + [last]);
      && (forall k :: k in s'.buckets ==> s'.buckets[k].lastSeen >= last.now - c.idle - 60_000_000_000)
      && |s'.buckets| <= s'.survivors + 4096
    decreases |calls|
  {
    var all := calls + [last];
    var s1 := HandleSpec(c, s, all[0].ip, all[0].now).0;
    HandleBounded(c, s, all[0].ip, all[0].now, from);
    if calls == [] {
      assert all[1..] == [];
      assert HandleAll(c, s, all) == HandleAll(c, s1, []);
    } else {
      assert all[1..] == calls[1..] + [last];
      Residency(c, s1, calls[1..], last, calls[0].now);
    }
  }

  /** And no sweep comes early: while fewer than 4096 requests and no more than a minute have
      passed since the last one, every entry stays. */
  lemma {:induction false} NoEarlySweep(c: Config, s: State, calls: seq<Call>, k: string)
    requires s.opsSince + |calls| < 4096 && k in s.buckets
    requires forall i :: 0 <= i < |calls| ==> calls[i].now - s.lastSweep <= 60_000_000_000
    ensures var s' := HandleAll(c, s, calls);
      k in s'.buckets && s'.lastSweep == s.lastSweep && s'.opsSince == s.opsSince + |calls|
    decreases |calls|
  {
    hide Allow;
    if calls != [] {
      NoEarlySweep(c, HandleSpec(c, s, calls[0].ip, calls[0].now).0, calls[1..], k);
    }
  }

  /** A sweep, whatever triggered it, is followed by at least as long a pause. */
  lemma PauseAfterSweep(c: Config, s: State, first: Call, calls: seq<Call>, k: string)
    requires Due(s, first.now) && |calls| < 4096
    requires k in HandleSpec(c, s, first.ip, first.now).0.buckets
    requires forall i :: 0 <= i < |calls| ==> calls[i].now - first.now <= 60_000_000_000
    ensures k in HandleAll(c, HandleSpec(c, s, first.ip, first.now).0, calls).buckets
  {
    hide Allow;
    NoEarlySweep(c, HandleSpec(c, s, first.ip, first.now).0, calls, k);
  }

  // -------- the object --------

  ghost predicate OnlyEvictions(es: seq<Event>)
  {
    forall k :: 0 <= k < |es| ==> es[k].Evict?
  }

  /** `trace` takes `m0` to `m` at time `now`. */
  ghost predicate Traced(c: Config, m0: Buckets, trace: seq<Event>, m: Buckets, now: int)
  {
    m == Run(c, m0, trace) && Ordered(c, trace, now) && End(trace, now) == now
  }

  lemma TracedNil(c: Config, m: Buckets, now: int)
    ensures Traced(c, m, [], m, now)
  {
  }

  lemma TraceStep(c: Config, m0: Buckets, trace: seq<Event>, m: Buckets, now: int, e: Event)
    requires Traced(c, m0, trace, m, now) && e.at == now && (e.Evict? ==> e.cutoff <= now - c.idle)
    ensures Traced(c, m0, trace + [e], Step(c, m, e), now)
    ensures forall ip :: Answers(c, m0, trace + [e], ip) == Answers(c, m0, trace, ip) + AnswerTo(c, m, e, ip)
  {
    RunConcat(c, m0, trace, [e]);
    OrderedConcat(c, trace, [e], now);
    EndConcat(trace, [e], now);
    assert [e][1..] == [];
    assert Run(c, m, [e]) == Run(c, Step(c, m, e), []);
    assert Ordered(c, [e][1..], now);
    forall ip
      ensures Answers(c, m0, trace + [e], ip) == Answers(c, m0, trace, ip) + AnswerTo(c, m, e, ip)
    {
      AnswersConcat(c, m0, trace, [e], ip);
      assert Answers(c, Step(c, m, e), [e][1..], ip) == [];
    }
  }

  class RateLimiter {
    const cfg: Config
    var buckets: Buckets
    var opsSince: nat
    var lastSweep: int
    ghost var survivors: nat

    ghost function Value(): State
      reads this
    {
      State(buckets, opsSince, lastSweep, survivors)
    }

    constructor (rps: int, burst: int, idle: int)
      ensures cfg == WithDefaults(rps, burst, idle)
      ensures Value() == INITIAL
    {
      cfg := WithDefaults(rps, burst, idle);
      buckets := map[];
      opsSince := 0;
      lastSweep := 0;
      survivors := 0;
    }

    /** The loop over the map, in any order. `trace` is what it did, key by key. */
    method Sweep(now: int) returns (ghost trace: seq<Event>)
      modifies this
      ensures Value() == Swept(cfg, old(Value()), now)
      ensures opsSince == 0 && lastSweep == now
      ensures forall k :: k in buckets <==> k in old(buckets) && old(buckets)[k].lastSeen >= now - cfg.idle
      ensures forall k :: k in buckets ==> buckets[k] == old(buckets)[k]
      ensures Traced(cfg, old(buckets), trace, buckets, now) && OnlyEvictions(trace)
    {
      var cutoff := now - cfg.idle;
      trace := SweepLoop(now, cutoff);
      lastSweep := now;
      opsSince := 0;
      survivors := |buckets|;
    }

    method SweepLoop(now: int, cutoff: int) returns (ghost trace: seq<Event>)
      requires cutoff == now - cfg.idle
      modifies `buckets
      ensures buckets == SweepAll(old(buckets), cutoff)
      ensures Traced(cfg, old(buckets), trace, buckets, now) && OnlyEvictions(trace)
    {
      var todo := buckets.Keys;
      trace := [];
      while todo != {}
        invariant todo <= buckets.Keys <= old(buckets).Keys
        invariant forall k :: k in buckets ==> buckets[k] == old(buckets)[k]
        invariant forall k :: k in buckets ==> k in todo || buckets[k].lastSeen >= cutoff
        invariant forall k :: k in old(buckets) && old(buckets)[k].lastSeen >= cutoff ==> k in buckets
        invariant Traced(cfg, old(buckets), trace, buckets, now) && OnlyEvictions(trace)
        decreases todo
      {
        var k :| k in todo;
        ghost var e := Evict(k, cutoff, now);
        TraceStep(cfg, old(buckets), trace, buckets, now, e);
        if buckets[k].lastSeen < cutoff {
          buckets := buckets - {k};
        }
        todo := todo - {k};
        trace := trace + [e];
      }
    }

    /** One request: maybe sweep, load or store the entry, stamp it, ask its limiter. */
    method Handle(ip: string, now: int) returns (granted: bool, ghost trace: seq<Event>)
      modifies this
      ensures (Value(), granted) == HandleSpec(cfg, old(Value()), ip, now)
      ensures Traced(cfg, old(buckets), trace, buckets, now) && Answers(cfg, old(buckets), trace, ip) == [granted]
      ensures trace != [] && OnlyEvictions(trace[..|trace| - 1]) && trace[|trace| - 1] == Request(ip, now)
    {
      hide Ordered, End, Level, Traced, Answers, SweepAll, Run;
      trace := [];
      TracedNil(cfg, buckets, now);
      opsSince := opsSince + 1;
      if opsSince >= SWEEP_EVERY || now - lastSweep > MINUTE {
        trace := Sweep(now);
      }
      ghost var m := buckets;
      var e := if ip in buckets then buckets[ip] else MkEntry(cfg, now);
      e := e.(lastSeen := now);
      var (b, ok) := Allow(cfg, e.bucket, now);
      buckets := buckets[ip := e.(bucket := b)];
      granted := ok;
      ghost var r := Request(ip, now);
      TraceStep(cfg, old(buckets), trace, m, now, r);
      SilentAnswers(cfg, old(buckets), trace, ip);
      assert (trace + [r])[..|trace|] == trace;
      trace := trace + [r];
    }
  }

  lemma {:induction false} SilentAnswers(c: Config, m: Buckets, es: seq<Event>, ip: string)
    requires Silent(es, ip)
    ensures Answers(c, m, es, ip) == []
    decreases |es|
  {
    if es != [] {
      SilentAnswers(c, Step(c, m, es[0]), es[1..], ip);
    }
  }
}
