/** The per-IP rate limiter with idle eviction. One event is one request, or one
    key's test-and-delete inside a sweep; sweeps may run at any moments. */
module RateLimit {
  import opened Options
  import opened TokenBucket

  /** What the map keeps per client: its limiter and the time it was last seen. */
  datatype Entry = Entry(bucket: Bucket, lastSeen: int)

  type Buckets = map<string, Entry>

  /** `Evict` is a sweep that began with `cutoff` reaching key `ip` at time `at`. */
  datatype Event =
    | Request(ip: string, at: int)
    | Evict(ip: string, cutoff: int, at: int)

  function MkEntry(c: Config, now: int): Entry { Entry(Fresh(c, now), now) }

  function Serve(c: Config, m: Buckets, ip: string, now: int): (Buckets, bool)
  {
    var e := if ip in m then m[ip] else MkEntry(c, now);
    var (b, ok) := Allow(c, e.bucket, now);
    (m[ip := Entry(b, now)], ok)
  }

  function SweepKey(m: Buckets, ip: string, cutoff: int): Buckets
  {
    if ip in m && m[ip].lastSeen < cutoff then m - {ip} else m
  }

  function Step(c: Config, m: Buckets, e: Event): Buckets
  {
    match e
    case Request(ip, at) => Serve(c, m, ip, at).0
    case Evict(ip, cutoff, _) => SweepKey(m, ip, cutoff)
  }

  function Run(c: Config, m: Buckets, es: seq<Event>): Buckets
    decreases |es|
  {
    if es == [] then m else Run(c, Step(c, m, es[0]), es[1..])
  }

  function AnswerTo(c: Config, m: Buckets, e: Event, ip: string): seq<bool>
  {
    if e.Request? && e.ip == ip then [Serve(c, m, ip, e.at).1] else []
  }

  /** The allow/deny answers `ip` gets along a run. */
  function Answers(c: Config, m: Buckets, es: seq<Event>, ip: string): seq<bool>
    decreases |es|
  {
    if es == [] then [] else
      AnswerTo(c, m, es[0], ip) + Answers(c, Step(c, m, es[0]), es[1..], ip)
  }

  function Times(es: seq<Event>, ip: string): seq<int>
  {
    if es == [] then [] else
      (if es[0].Request? && es[0].ip == ip then [es[0].at] else []) + Times(es[1..], ip)
  }

  /** Time does not run backwards, and a sweep's cutoff was computed no later than now. */
  ghost predicate Ordered(c: Config, es: seq<Event>, from: int)
  {
    es == [] || (
      && from <= es[0].at
      && (es[0].Evict? ==> es[0].cutoff <= es[0].at - c.idle)
      && Ordered(c, es[1..], es[0].at))
  }

  function End(es: seq<Event>, from: int): int
  {
    if es == [] then from else End(es[1..], es[0].at)
  }

  // -------- the eviction theorem --------

  /** Same bucket as the never-evicted one, or evicted while that one is full. */
  ghost predicate Agrees(c: Config, m: Buckets, ip: string, b: Option<Bucket>, t: int)
  {
    && (b.Some? ==> b.value.last <= t)
    && (if ip in m then b == Some(m[ip].bucket) && m[ip].lastSeen == b.value.last
        else b.Some? ==> Level(c, b.value, t) == c.Cap())
  }

  function BucketAfter(c: Config, b: Option<Bucket>, ts: seq<int>): Option<Bucket>
    decreases |ts|
  {
    if ts == [] then b else BucketAfter(c, Some(Allow(c, Current(c, b, ts[0]), ts[0]).0), ts[1..])
  }

  lemma StepAgrees(c: Config, m: Buckets, b: Option<Bucket>, e: Event, ip: string, from: int)
    requires c.Cap() <= c.rps * (c.idle + 1)
    requires from <= e.at && (e.Evict? ==> e.cutoff <= e.at - c.idle)
    requires Agrees(c, m, ip, b, from)
    ensures e.Request? && e.ip == ip ==>
      var (b', ok) := Allow(c, Current(c, b, e.at), e.at);
      Agrees(c, Step(c, m, e), ip, Some(b'), e.at) && Serve(c, m, ip, e.at).1 == ok
    ensures !(e.Request? && e.ip == ip) ==> Agrees(c, Step(c, m, e), ip, b, e.at)
  {
    if b.Some? {
      if Level(c, b.value, from) == c.Cap() { FullStaysFull(c, b.value, from, e.at); }
      if e.at - b.value.last >= c.idle + 1 { RefillAfterIdle(c, b.value, e.at); }
    }
    assert c.rps * 0 == 0;
  }

  lemma {:induction false} Simulation(c: Config, m: Buckets, b: Option<Bucket>, es: seq<Event>, ip: string, from: int)
    requires c.Cap() <= c.rps * (c.idle + 1)
    requires Ordered(c, es, from) && Agrees(c, m, ip, b, from)
    ensures Answers(c, m, es, ip) == BucketAnswers(c, b, Times(es, ip))
    ensures Agrees(c, Run(c, m, es), ip, BucketAfter(c, b, Times(es, ip)), End(es, from))
    decreases |es|
  {
    if es != [] {
      var e := es[0];
      StepAgrees(c, m, b, e, ip, from);
      if e.Request? && e.ip == ip {
        var (b', ok) := Allow(c, Current(c, b, e.at), e.at);
        Simulation(c, Step(c, m, e), Some(b'), es[1..], ip, e.at);
        assert Times(es, ip)[1..] == Times(es[1..], ip);
      } else {
        Simulation(c, Step(c, m, e), b, es[1..], ip, e.at);
        assert Times(es, ip) == Times(es[1..], ip);
      }
    }
  }

  /** Evictions change no answer: every client, in every run, is answered as by one
      bucket of its own that is never thrown away. */
  ghost predicate EvictionInvisible(c: Config)
  {
    forall es, ip, from :: Ordered(c, es, from) ==>
      Answers(c, map[], es, ip) == BucketAnswers(c, None, Times(es, ip))
  }

  // -------- concatenation --------

  lemma {:induction false} RunConcat(c: Config, m: Buckets, es: seq<Event>, fs: seq<Event>)
    ensures Run(c, m, es + fs) == Run(c, Run(c, m, es), fs)
    decreases |es|
  {
    if es == [] {
      assert es + fs == fs;
    } else {
      assert (es + fs)[0] == es[0] && (es + fs)[1..] == es[1..] + fs;
      RunConcat(c, Step(c, m, es[0]), es[1..], fs);
    }
  }

  lemma {:induction false} AnswersConcat(c: Config, m: Buckets, es: seq<Event>, fs: seq<Event>, ip: string)
    ensures Answers(c, m, es + fs, ip) == Answers(c, m, es, ip) + Answers(c, Run(c, m, es), fs, ip)
    decreases |es|
  {
    hide Step, Serve;
    if es == [] {
      assert es + fs == fs;
      assert Answers(c, m, es, ip) == [];
    } else {
      var m' := Step(c, m, es[0]);
      assert (es + fs)[0] == es[0] && (es + fs)[1..] == es[1..] + fs;
      AnswersConcat(c, m', es[1..], fs, ip);
      var head := AnswerTo(c, m, es[0], ip);
      var mid, tail := Answers(c, m', es[1..], ip), Answers(c, Run(c, m, es), fs, ip);
      assert Answers(c, m, es + fs, ip) == head + (mid + tail);
      assert head + (mid + tail) == (head + mid) + tail;
    }
  }

  lemma {:induction false} GrantsConcat(a: seq<bool>, b: seq<bool>)
    ensures Grants(a + b) == Grants(a) + Grants(b)
  {
    if a == [] {
      assert a + b == b;
    } else {
      assert (a + b)[1..] == a[1..] + b;
      GrantsConcat(a[1..], b);
    }
  }

  lemma {:induction false} OrderedConcat(c: Config, es: seq<Event>, fs: seq<Event>, from: int)
    ensures Ordered(c, es + fs, from) <==> Ordered(c, es, from) && Ordered(c, fs, End(es, from))
    decreases |es|
  {
    if es == [] {
      assert es + fs == fs;
    } else {
      assert (es + fs)[1..] == es[1..] + fs;
      OrderedConcat(c, es[1..], fs, es[0].at);
    }
  }

  lemma {:induction false} TimesInside(c: Config, es: seq<Event>, ip: string, from: int, to: int)
    requires Ordered(c, es, from) && End(es, from) <= to
    ensures Sorted(Times(es, ip), from)
    ensures forall k :: 0 <= k < |Times(es, ip)| ==> Times(es, ip)[k] <= to
    ensures from <= End(es, from)
    decreases |es|
  {
    if es != [] {
      TimesInside(c, es[1..], ip, es[0].at, to);
      SortedEarlier(Times(es[1..], ip), es[0].at, from);
      if es[0].Request? && es[0].ip == ip {
        assert Times(es, ip)[1..] == Times(es[1..], ip);
      } else {
        assert Times(es, ip) == Times(es[1..], ip);
      }
    }
  }

  lemma SortedEarlier(ts: seq<int>, from: int, earlier: int)
    requires earlier <= from && Sorted(ts, from)
    ensures Sorted(ts, earlier)
  {
  }

  // -------- the condition is exact --------

  function Burst(ip: string, at: int, n: nat): seq<Event>
  {
    if n == 0 then [] else [Request(ip, at)] + Burst(ip, at, n - 1)
  }

  /** A bucket holding `n` tokens grants `n` requests at one instant. */
  lemma {:induction false} BurstGranted(c: Config, m: Buckets, ip: string, at: int, n: nat)
    requires if ip in m then m[ip].bucket.last <= at && Level(c, m[ip].bucket, at) >= n * NANO else n <= c.burst
    ensures Grants(Answers(c, m, Burst(ip, at, n), ip)) == n
    ensures n > 0 ==> ip in Run(c, m, Burst(ip, at, n)) && Run(c, m, Burst(ip, at, n))[ip].lastSeen == at
    decreases n
  {
    if n > 0 {
      var m' := Step(c, m, Request(ip, at));
      assert c.rps * 0 == 0;
      BurstGranted(c, m', ip, at, n - 1);
      assert Burst(ip, at, n)[1..] == Burst(ip, at, n - 1);
      assert Answers(c, m, Burst(ip, at, n), ip) == [true] + Answers(c, m', Burst(ip, at, n - 1), ip);
    }
  }

  lemma {:induction false} BurstOrdered(c: Config, ip: string, at: int, n: nat, from: int)
    requires from <= at
    ensures Ordered(c, Burst(ip, at, n), from)
    ensures End(Burst(ip, at, n), from) == if n == 0 then from else at
    decreases n
  {
    if n > 0 {
      assert Burst(ip, at, n)[1..] == Burst(ip, at, n - 1);
      BurstOrdered(c, ip, at, n - 1, at);
    }
  }

  /** Drain the bucket, be swept one nanosecond after the idle timeout, drain again. */
  ghost function DrainSweepDrain(c: Config): seq<Event>
  {
    Burst("a", 0, c.burst) + [Evict("a", 1, c.idle + 1)] + Burst("a", c.idle + 1, c.burst)
  }

  lemma DrainSweepDrainGrants(c: Config)
    requires c.Valid()
    ensures Ordered(c, DrainSweepDrain(c), 0) && End(DrainSweepDrain(c), 0) == c.idle + 1
    ensures Grants(Answers(c, map[], DrainSweepDrain(c), "a")) == 2 * c.burst
  {
    var first, sweep, second := Burst("a", 0, c.burst), [Evict("a", 1, c.idle + 1)], Burst("a", c.idle + 1, c.burst);
    BurstOrdered(c, "a", 0, c.burst, 0);
    BurstOrdered(c, "a", c.idle + 1, c.burst, c.idle + 1);
    OrderedConcat(c, first, sweep, 0);
    OrderedConcat(c, first + sweep, second, 0);
    EndConcat(first, sweep, 0);
    EndConcat(first + sweep, second, 0);
    BurstGranted(c, map[], "a", 0, c.burst);
    var m1 := Run(c, map[], first);
    RunConcat(c, map[], first, sweep);
    AnswersConcat(c, map[], first, sweep, "a");
    assert Run(c, m1, sweep) == m1 - {"a"} by {
      assert sweep[1..] == [];
      assert Run(c, m1, sweep) == Run(c, Step(c, m1, sweep[0]), sweep[1..]);
    }
    assert Answers(c, m1, sweep, "a") == [];
    RunConcat(c, map[], first + sweep, second);
    AnswersConcat(c, map[], first + sweep, second, "a");
    BurstGranted(c, m1 - {"a"}, "a", c.idle + 1, c.burst);
    var one, two := Answers(c, map[], first, "a"), Answers(c, m1 - {"a"}, second, "a");
    GrantsConcat(one, two);
    assert Answers(c, map[], first + sweep, "a") == one;
    assert Answers(c, map[], DrainSweepDrain(c), "a") == one + two;
  }

  lemma {:induction false} EndConcat(es: seq<Event>, fs: seq<Event>, from: int)
    ensures End(es + fs, from) == End(fs, End(es, from))
    decreases |es|
  {
    if es == [] {
      assert es + fs == fs;
    } else {
      assert (es + fs)[1..] == es[1..] + fs;
      EndConcat(es[1..], fs, es[0].at);
    }
  }

  /** Grants of a never-evicted bucket over `to - from` nanoseconds from empty history. */
  lemma FromFresh(c: Config, ts: seq<int>, from: int, to: int)
    requires from <= to && Sorted(ts, from) && forall k :: 0 <= k < |ts| ==> ts[k] <= to
    ensures Grants(BucketAnswers(c, None, ts)) * NANO <= c.Cap() + c.rps * (to - from)
  {
    Gain(c.rps, to - from);
    if ts != [] {
      var f := Fresh(c, ts[0]);
      assert BucketAnswers(c, None, ts) == BucketAnswers(c, Some(f), ts);
      Conservation(c, f, ts, ts[0], to);
      MulMono(c.rps, to - ts[0], to - from);
    }
  }

  /** The exact condition: eviction is invisible if and only if the shortest silence
      after which an entry can be evicted refills a whole burst. */
  lemma EvictionInvisibleIff(c: Config)
    requires c.Valid()
    ensures EvictionInvisible(c) <==> c.Cap() <= c.rps * (c.idle + 1)
  {
    if c.Cap() <= c.rps * (c.idle + 1) {
      forall es, ip, from | Ordered(c, es, from)
        ensures Answers(c, map[], es, ip) == BucketAnswers(c, None, Times(es, ip))
      {
        Simulation(c, map[], None, es, ip, from);
      }
    } else {
      var es := DrainSweepDrain(c);
      DrainSweepDrainGrants(c);
      TimesInside(c, es, "a", 0, c.idle + 1);
      FromFresh(c, Times(es, "a"), 0, c.idle + 1);
      assert Answers(c, map[], es, "a") != BucketAnswers(c, None, Times(es, "a"));
    }
  }

  // -------- Retry-After --------

  /** `ip`'s requests are far enough apart for the rate to pay for each one. */
  ghost predicate Paced(c: Config, es: seq<Event>, ip: string, last: Option<int>)
  {
    if es == [] then true
    else if es[0].Request? && es[0].ip == ip then
      && (last.Some? ==> last.value <= es[0].at && c.rps * (es[0].at - last.value) >= NANO)
      && Paced(c, es[1..], ip, Some(es[0].at))
    else
      Paced(c, es[1..], ip, last)
  }

  /** A client whose requests come at least `1/rps` seconds apart is never refused, in any
      run, with any evictions, from any map that has not seen it more recently. */
  lemma {:induction false} PacedNeverDenied(c: Config, m: Buckets, es: seq<Event>, ip: string, last: Option<int>)
    requires c.Valid() && Paced(c, es, ip, last)
    requires ip in m ==> last.Some? && m[ip].bucket.last <= last.value
    ensures forall k :: 0 <= k < |Answers(c, m, es, ip)| ==> Answers(c, m, es, ip)[k]
    decreases |es|
  {
    if es != [] {
      var e := es[0];
      var mine := e.Request? && e.ip == ip;
      if mine {
        if ip in m {
          MulMono(c.rps, e.at - last.value, e.at - m[ip].bucket.last);
        }
        assert c.rps * 0 == 0;
        assert Serve(c, m, ip, e.at).1;
      }
      PacedNeverDenied(c, Step(c, m, e), es[1..], ip, if mine then Some(e.at) else last);
    }
  }

  ghost predicate Silent(es: seq<Event>, ip: string)
  {
    forall k :: 0 <= k < |es| ==> !(es[k].Request? && es[k].ip == ip)
  }

  lemma {:induction false} SilentPaced(c: Config, mid: seq<Event>, ip: string, t: int, u: int)
    requires Silent(mid, ip) && t <= u && c.rps * (u - t) >= NANO
    ensures Paced(c, mid + [Request(ip, u)], ip, Some(t))
    ensures forall m :: Answers(c, m, mid + [Request(ip, u)], ip) == [Serve(c, Run(c, m, mid), ip, u).1]
    decreases |mid|
  {
    var es := mid + [Request(ip, u)];
    if mid == [] {
      assert es[1..] == [];
    } else {
      assert es[1..] == mid[1..] + [Request(ip, u)];
      SilentPaced(c, mid[1..], ip, t, u);
    }
  }

  /** `Retry-After: 1` is honest: after any request, and so after a refused one, a client
      that stays silent for a second is granted, with or without an eviction meanwhile. */
  lemma RetryAfterHonest(c: Config, m: Buckets, ip: string, t: int, mid: seq<Event>, u: int)
    requires c.Valid() && Silent(mid, ip) && u - t >= NANO
    ensures Serve(c, Run(c, Step(c, m, Request(ip, t)), mid), ip, u).1
  {
    MulMono(c.rps, NANO, u - t);
    SilentPaced(c, mid, ip, t, u);
    var m1 := Step(c, m, Request(ip, t));
    PacedNeverDenied(c, m1, mid + [Request(ip, u)], ip, Some(t));
    assert Answers(c, m1, mid + [Request(ip, u)], ip)[0];
  }
}
