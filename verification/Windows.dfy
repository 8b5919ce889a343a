/** What any window of a run can grant, whether or not its evictions show. */
module Windows {
  import opened Options
  import opened TokenBucket
  import opened RateLimit
  import opened Middleware
  import opened TriggeredEviction

  /** How many evictions of one client fit into `d` nanoseconds. */
  function Sweeps(c: Config, d: nat): nat
  {
    d / (c.idle + 1)
  }

  /** What a client gains at an eviction, beyond what the silence before it earned anyway. */
  function Extra(c: Config): nat
  {
    var earned := c.rps * (c.idle + 1);
    if c.Cap() <= earned then 0 else c.Cap() - earned
  }

  /** What `d` nanoseconds add to a client's entry, in nano-tokens, evictions included. */
  function Accrued(c: Config, d: nat): nat
  {
    c.rps * d + Sweeps(c, d) * Extra(c)
  }

  /** Everything a fresh bucket can come to within `d`, in nano-tokens. */
  function Budget(c: Config, d: nat): nat
  {
    c.Cap() + Accrued(c, d)
  }

  /** What one client's entry, None when it has none, can still come to by `to`. A kept entry
      has its level and what accrues to it; it is never worth more than a fresh one. */
  ghost predicate Covers(c: Config, e: Option<Entry>, now: int, to: int, amount: int)
    requires now <= to
  {
    && amount <= Budget(c, to - now)
    && (e.Some? ==> amount <= e.value.bucket.level + Accrued(c, SinceSeen(e.value, to)))
  }

  function SinceSeen(e: Entry, to: int): nat
  {
    if to < e.lastSeen then 0 else to - e.lastSeen
  }

  lemma SweepsStep(c: Config, d: nat, longer: nat)
    ensures d <= longer ==> Sweeps(c, d) <= Sweeps(c, longer)
    ensures d + c.idle + 1 <= longer ==> Sweeps(c, d) + 1 <= Sweeps(c, longer)
  {
    var p := c.idle + 1;
    Quotient(d, p);
    Quotient(longer, p);
    if d <= longer { QuotientMono(d / p, longer / p, p, longer); }
    if d + p <= longer {
      assert (d / p + 1) * p == (d / p) * p + p;
      QuotientMono(d / p + 1, longer / p, p, longer);
    }
  }

  lemma Quotient(x: nat, p: nat)
    requires p > 0
    ensures (x / p) * p <= x < (x / p + 1) * p
  {
    assert x == (x / p) * p + x % p;
    assert (x / p + 1) * p == (x / p) * p + p;
  }

  lemma QuotientMono(k: nat, q: nat, p: nat, x: nat)
    requires p > 0 && k * p <= x < (q + 1) * p
    ensures k <= q
  {
    if k > q { MulMono(p, q + 1, k); }
  }

  /** First a silence, then the rest. */
  lemma SilenceThen(c: Config, silence: nat, rest: nat)
    ensures c.rps * silence >= 0
    ensures c.rps * silence + Accrued(c, rest) <= Accrued(c, silence + rest)
  {
    var all := silence + rest;
    Gain(c.rps, silence);
    assert c.rps * all == c.rps * silence + c.rps * rest;
    SweepsStep(c, rest, all);
    MulMono(Extra(c), Sweeps(c, rest), Sweeps(c, all));
  }

  lemma ExtraMakesUp(c: Config)
    ensures c.Cap() <= c.rps * (c.idle + 1) + Extra(c)
  {
  }

  /** A silence that may end in an eviction accrues a whole burst. */
  lemma SweepThen(c: Config, silence: nat, rest: nat)
    requires silence >= c.idle + 1
    ensures c.Cap() + Accrued(c, rest) <= Accrued(c, silence + rest)
  {
    hide Extra, Sweeps;
    var all, x := silence + rest, Extra(c);
    ExtraMakesUp(c);
    assert c.rps * all == c.rps * silence + c.rps * rest;
    MulMono(c.rps, c.idle + 1, silence);
    SweepsStep(c, rest, all);
    MulMono(x, Sweeps(c, rest) + 1, Sweeps(c, all));
    assert (Sweeps(c, rest) + 1) * x == Sweeps(c, rest) * x + x;
  }

  // -------- one client's entry, step by step --------

  function EntryOf(m: Buckets, ip: string): Option<Entry>
  {
    if ip in m then Some(m[ip]) else None
  }

  lemma TimePasses(c: Config, e: Option<Entry>, now: int, at: int, to: int, amount: int)
    requires now <= at <= to && Covers(c, e, at, to, amount)
    ensures Covers(c, e, now, to, amount)
  {
    hide Accrued;
    SilenceThen(c, at - now, to - at);
  }

  /** The silence before an eviction pays for all but `Extra` of the fresh bucket after it. */
  lemma EvictCovers(c: Config, e: Entry, now: int, at: int, to: int, amount: int)
    requires now <= at <= to && e.lastSeen + c.idle + 1 <= at && Covers(c, None, at, to, amount)
    ensures Covers(c, Some(e), now, to, amount)
  {
    hide Accrued;
    TimePasses(c, None, now, at, to, amount);
    SweepThen(c, at - e.lastSeen, to - at);
  }

  lemma ServeCovers(c: Config, e: Option<Entry>, now: int, at: int, to: int, amount: int)
    requires now <= at <= to && (e.Some? ==> e.value.bucket.last == e.value.lastSeen <= at)
    requires var b := if e.Some? then e.value.bucket else Fresh(c, at);
      Covers(c, Some(Entry(Allow(c, b, at).0, at)), at, to, amount)
    ensures var b := if e.Some? then e.value.bucket else Fresh(c, at);
      Covers(c, e, now, to, amount + if Allow(c, b, at).1 then NANO else 0)
  {
    hide Accrued, Allow;
    AllowPays(c, if e.Some? then e.value.bucket else Fresh(c, at), at);
    SilenceThen(c, at - now, to - at);
    if e.Some? { SilenceThen(c, at - e.value.lastSeen, to - at); }
  }

  /** An entry was last served when it was last seen. */
  ghost predicate Stamped(m: Buckets, now: int)
  {
    forall ip :: ip in m ==> m[ip].bucket.last == m[ip].lastSeen <= now
  }

  lemma NothingCovered(c: Config, e: Option<Entry>, now: int, to: int)
    requires now <= to
    ensures Covers(c, e, now, to, 0)
  {
  }

  // -------- sweeps at any moments --------

  lemma StepCovers(c: Config, m: Buckets, e: Event, ip: string, now: int, to: int, amount: int)
    requires Stamped(m, now) && now <= e.at <= to && (e.Evict? ==> e.cutoff <= e.at - c.idle)
    requires Covers(c, EntryOf(Step(c, m, e), ip), e.at, to, amount)
    ensures Stamped(Step(c, m, e), e.at)
    ensures Covers(c, EntryOf(m, ip), now, to, amount + Grants(AnswerTo(c, m, e, ip)) * NANO)
  {
    hide Covers, Allow;
    ServedAt(c, m, e.ip, e.at);
    if e.Request? && e.ip == ip {
      ServeCovers(c, EntryOf(m, ip), now, e.at, to, amount);
      OneGrant(Serve(c, m, ip, e.at).1);
    } else if ip in m && ip !in Step(c, m, e) {
      EvictCovers(c, m[ip], now, e.at, to, amount);
    } else {
      TimePasses(c, EntryOf(m, ip), now, e.at, to, amount);
    }
  }

  lemma OneGrant(ok: bool)
    ensures Grants([ok]) == if ok then 1 else 0
  {
    assert [ok][1..] == [];
  }

  lemma ServedAt(c: Config, m: Buckets, ip: string, at: int)
    ensures var m' := Serve(c, m, ip, at).0; ip in m' && m'[ip].bucket.last == m'[ip].lastSeen == at
  {
  }

  lemma {:induction false} RunCovers(c: Config, m: Buckets, es: seq<Event>, ip: string, now: int, to: int)
    requires Stamped(m, now) && Ordered(c, es, now) && End(es, now) <= to && now <= to
    ensures Covers(c, EntryOf(m, ip), now, to, Grants(Answers(c, m, es, ip)) * NANO)
    ensures Stamped(Run(c, m, es), End(es, now)) && now <= End(es, now)
    decreases |es|
  {
    hide Covers, Step, AnswerTo, Stamped, EntryOf;
    if es == [] {
      NothingCovered(c, EntryOf(m, ip), now, to);
    } else {
      var e, m' := es[0], Step(c, m, es[0]);
      EndLater(c, es[1..], e.at);
      StepStamped(c, m, e, now);
      RunCovers(c, m', es[1..], ip, e.at, to);
      var first, rest := AnswerTo(c, m, e, ip), Answers(c, m', es[1..], ip);
      StepCovers(c, m, e, ip, now, to, Grants(rest) * NANO);
      GrantsConcat(first, rest);
      assert Grants(first + rest) * NANO == Grants(rest) * NANO + Grants(first) * NANO;
    }
  }

  lemma StepStamped(c: Config, m: Buckets, e: Event, now: int)
    requires Stamped(m, now) && now <= e.at
    ensures Stamped(Step(c, m, e), e.at)
  {
    ServedAt(c, m, e.ip, e.at);
  }

  lemma {:induction false} EndLater(c: Config, es: seq<Event>, from: int)
    requires Ordered(c, es, from)
    ensures from <= End(es, from)
    decreases |es|
  {
    if es != [] { EndLater(c, es[1..], es[0].at); }
  }

  /** `win` is all that happens for `d` nanoseconds from `from` on, some time into a run. */
  ghost predicate Window(c: Config, pre: seq<Event>, win: seq<Event>, start: int, from: int, d: nat)
  {
    && Ordered(c, pre + win, start) && End(pre, start) <= from
    && (win != [] ==> from <= win[0].at && End(win, from) <= from + d)
  }

  /** Whatever the settings, and however many evictions fall in it, a window grants a client
      at most a burst, what the rate pays for its length, and for each idle timeout that
      fits into it what an eviction gives away. */
  lemma AnyWindow(c: Config, pre: seq<Event>, win: seq<Event>, ip: string, start: int, from: int, d: nat)
    requires Window(c, pre, win, start, from, d)
    ensures Grants(Answers(c, Run(c, map[], pre), win, ip)) * NANO <= Budget(c, d)
  {
    hide Covers, Run, Answers, Stamped, EntryOf, Budget;
    OrderedConcat(c, pre, win, start);
    EndLater(c, pre, start);
    StampedStill(map[], start, start);
    RunCovers(c, map[], pre, ip, start, End(pre, start));
    var m := Run(c, map[], pre);
    StampedStill(m, End(pre, start), from);
    assert Ordered(c, win, from);
    RunCovers(c, m, win, ip, from, from + d);
    CoveredByBudget(c, EntryOf(m, ip), from, from + d, Grants(Answers(c, m, win, ip)) * NANO);
  }

  lemma StampedStill(m: Buckets, now: int, later: int)
    requires now <= later && (m == map[] || Stamped(m, now))
    ensures Stamped(m, later)
  {
  }

  lemma CoveredByBudget(c: Config, e: Option<Entry>, now: int, to: int, amount: int)
    requires now <= to && Covers(c, e, now, to, amount)
    ensures amount <= Budget(c, to - now)
  {
  }

  /** Where evictions do not show, a window grants a client at most a burst and what the rate
      pays for, however many fall in it. */
  lemma WindowBound(c: Config, pre: seq<Event>, win: seq<Event>, ip: string, start: int, from: int, d: nat)
    requires c.Cap() <= c.rps * (c.idle + 1) && Window(c, pre, win, start, from, d)
    ensures Grants(Answers(c, Run(c, map[], pre), win, ip)) <= c.burst + c.rps * d / NANO
  {
    hide Window, Answers, Run;
    AnyWindow(c, pre, win, ip, start, from, d);
    assert Sweeps(c, d) * 0 == 0;
    Gain(c.rps, d);
    DivBound(Grants(Answers(c, Run(c, map[], pre), win, ip)), c.burst, c.rps * d);
  }

  lemma DivBound(g: nat, b: nat, x: nat)
    requires g * NANO <= b * NANO + x
    ensures g <= b + x / NANO
  {
  }

  // -------- the middleware's own sweeps --------

  lemma SweepCovers(c: Config, m: Buckets, ip: string, now: int, at: int, to: int, amount: int)
    requires Stamped(m, now) && now <= at <= to
    requires Covers(c, EntryOf(SweepAll(m, at - c.idle), ip), at, to, amount)
    ensures Stamped(SweepAll(m, at - c.idle), at)
    ensures Covers(c, EntryOf(m, ip), now, to, amount)
  {
    hide Covers;
    StepCovers(c, m, Evict(ip, at - c.idle, at), ip, now, to, amount);
  }

  lemma HandleCovers(c: Config, s: State, call: Call, ip: string, now: int, to: int, amount: int)
    requires Stamped(s.buckets, now) && now <= call.now <= to
    requires Covers(c, EntryOf(HandleSpec(c, s, call.ip, call.now).0.buckets, ip), call.now, to, amount)
    ensures var (s', ok) := HandleSpec(c, s, call.ip, call.now);
      && Stamped(s'.buckets, call.now)
      && Covers(c, EntryOf(s.buckets, ip), now, to, amount + if call.ip == ip && ok then NANO else 0)
  {
    hide Covers, EntryOf, Stamped, Allow, SweepAll;
    var at, m := call.now, s.buckets;
    var m1 := if Due(s, at) then SweepAll(m, at - c.idle) else m;
    var ok := Serve(c, m1, call.ip, at).1;
    var amount' := amount + if call.ip == ip && ok then NANO else 0;
    StampedStill(m, now, at);
    SweptStamped(m, at - c.idle, at);
    StepCovers(c, m1, Request(call.ip, at), ip, at, to, amount);
    OneGrant(ok);
    assert Covers(c, EntryOf(m1, ip), at, to, amount');
    if Due(s, at) {
      SweepCovers(c, m, ip, now, at, to, amount');
    } else {
      TimePasses(c, EntryOf(m, ip), now, at, to, amount');
    }
  }

  lemma SweptStamped(m: Buckets, cutoff: int, now: int)
    requires Stamped(m, now)
    ensures Stamped(SweepAll(m, cutoff), now)
  {
  }

  lemma {:induction false} HandleAllCovers(c: Config, s: State, calls: seq<Call>, ip: string, now: int, to: int)
    requires Stamped(s.buckets, now) && NonDecreasing(calls, now) && now <= to
    requires forall k :: 0 <= k < |calls| ==> calls[k].now <= to
    ensures Covers(c, EntryOf(s.buckets, ip), now, to, Grants(HandleAnswers(c, s, calls, ip)) * NANO)
    ensures Stamped(HandleAll(c, s, calls).buckets, to)
    decreases |calls|
  {
    hide Covers, HandleSpec, Stamped, EntryOf;
    if calls == [] {
      NothingCovered(c, EntryOf(s.buckets, ip), now, to);
      StampedStill(s.buckets, now, to);
    } else {
      var call := calls[0];
      var (s', ok) := HandleSpec(c, s, call.ip, call.now);
      HandleStamped(c, s, call, now);
      HandleAllCovers(c, s', calls[1..], ip, call.now, to);
      var first, rest := if call.ip == ip then [ok] else [], HandleAnswers(c, s', calls[1..], ip);
      HandleCovers(c, s, call, ip, now, to, Grants(rest) * NANO);
      GrantsConcat(first, rest);
      OneGrant(ok);
      assert HandleAnswers(c, s, calls, ip) == first + rest;
      assert Grants(first + rest) * NANO == Grants(rest) * NANO + Grants(first) * NANO;
    }
  }

  lemma HandleStamped(c: Config, s: State, call: Call, now: int)
    requires Stamped(s.buckets, now) && now <= call.now
    ensures Stamped(HandleSpec(c, s, call.ip, call.now).0.buckets, call.now)
  {
    hide Allow;
    SweptStamped(s.buckets, call.now - c.idle, now);
    var m := if Due(s, call.now) then SweepAll(s.buckets, call.now - c.idle) else s.buckets;
    StepStamped(c, m, Request(call.ip, call.now), now);
  }

  /** `win` is all the calls of `d` nanoseconds from `from` on, after `pre`. */
  ghost predicate CallWindow(pre: seq<Call>, win: seq<Call>, start: int, from: int, d: nat)
  {
    && start <= from && NonDecreasing(pre, start) && NonDecreasing(win, from)
    && (forall k :: 0 <= k < |pre| ==> pre[k].now <= from)
    && (forall k :: 0 <= k < |win| ==> win[k].now <= from + d)
  }

  /** The same bound with the counter and the timer as the only triggers. */
  lemma AnyCallWindow(c: Config, pre: seq<Call>, win: seq<Call>, ip: string, start: int, from: int, d: nat)
    requires CallWindow(pre, win, start, from, d)
    ensures Grants(HandleAnswers(c, HandleAll(c, INITIAL, pre), win, ip)) * NANO <= Budget(c, d)
  {
    hide Covers, HandleAll, HandleAnswers, Stamped, EntryOf, Budget;
    StampedStill(map[], start, start);
    HandleAllCovers(c, INITIAL, pre, ip, start, from);
    var s := HandleAll(c, INITIAL, pre);
    HandleAllCovers(c, s, win, ip, from, from + d);
    CoveredByBudget(c, EntryOf(s.buckets, ip), from, from + d, Grants(HandleAnswers(c, s, win, ip)) * NANO);
  }

  /** Every window of length `d` of every run of the middleware from `start` on grants every
      client at most `n` requests. */
  ghost predicate CallWindowsWithin(c: Config, start: int, d: nat, n: nat)
  {
    forall pre, win, ip, from | CallWindow(pre, win, start, from, d) ::
      Grants(HandleAnswers(c, HandleAll(c, INITIAL, pre), win, ip)) <= n
  }

  // -------- two bursts a window --------

  /** Every window of length `d`, of every run, grants every client at most `n` requests. */
  ghost predicate WindowsWithin(c: Config, d: nat, n: nat)
  {
    forall pre, win, ip, start, from | Window(c, pre, win, start, from, d) ::
      Grants(Answers(c, Run(c, map[], pre), win, ip)) <= n
  }

  /** From `idle + 1` on the rate does not yet pay for one more request within `d`. */
  predicate NoThird(c: Config, d: nat)
  {
    c.rps * (d - (c.idle + 1)) < NANO
  }

  /** Where the rate pays for no more than a burst in `d`, the budget of `d` is less than two
      bursts and a request. */
  lemma TwoBursts(c: Config, d: nat)
    requires c.Valid() && c.idle + 1 >= NANO && c.rps * d <= c.Cap() && NoThird(c, d)
    ensures Budget(c, d) < (2 * c.burst + 1) * NANO
  {
    var p := c.idle + 1;
    assert c.rps * (d - p) == c.rps * d - c.rps * p;
    AtMostOneSweep(c, d);
    if Sweeps(c, d) == 1 {
      assert Sweeps(c, d) * Extra(c) == Extra(c);
    } else {
      assert Sweeps(c, d) * Extra(c) == 0;
    }
  }

  lemma AtMostOneSweep(c: Config, d: nat)
    requires c.Valid() && c.idle + 1 >= NANO && NoThird(c, d)
    ensures Sweeps(c, d) <= 1
  {
    SlowlyPaid(c.rps, d - (c.idle + 1));
    LessThanTwo(d, c.idle + 1);
  }

  lemma SlowlyPaid(rps: nat, d: int)
    requires rps > 0 && rps * d < NANO
    ensures d < NANO
  {
    if d >= NANO { MulMono(d, 1, rps); }
  }

  lemma LessThanTwo(x: nat, p: nat)
    requires p > 0 && x < 2 * p
    ensures x / p <= 1
  {
    Quotient(x, p);
    QuotientMono(x / p, 1, p, x);
  }

  lemma FewGrants(g: nat, amount: int, n: nat)
    requires g * NANO <= amount < (n + 1) * NANO
    ensures g <= n
  {
  }

  /** A client last served by `t` is granted as soon as the rate has paid for a request. */
  lemma LateGranted(c: Config, m: Buckets, ip: string, t: int, u: int)
    requires c.Valid() && Stamped(m, t) && t <= u && c.rps * (u - t) >= NANO
    ensures Serve(c, m, ip, u).1
  {
    if ip in m {
      MulMono(c.rps, u - t, u - m[ip].bucket.last);
    } else {
      assert c.rps * 0 == 0;
    }
  }

  /** Two bursts with an eviction between them, and one more request as the window closes. */
  ghost function AndOneMore(c: Config, d: nat): seq<Event>
  {
    DrainSweepDrain(c) + [Request("a", d)]
  }

  lemma AndOneMoreGrants(c: Config, d: nat)
    requires c.Valid() && !NoThird(c, d)
    ensures Window(c, [], AndOneMore(c, d), 0, 0, d)
    ensures Grants(Answers(c, Run(c, map[], []), AndOneMore(c, d), "a")) == 2 * c.burst + 1
  {
    hide DrainSweepDrain, Serve;
    var most, last, p := DrainSweepDrain(c), Request("a", d), c.idle + 1;
    assert d > p by { if d <= p { MulMono(c.rps, d - p, 0); } }
    DrainSweepDrainGrants(c);
    OrderedConcat(c, most, [last], 0);
    EndConcat(most, [last], 0);
    assert [last][1..] == [] && [] + AndOneMore(c, d) == AndOneMore(c, d);
    RunCovers(c, map[], most, "a", 0, p);
    var m := Run(c, map[], most);
    LateGranted(c, m, "a", p, d);
    AnswersConcat(c, map[], most, [last], "a");
    assert Answers(c, m, [last], "a") == [true];
    GrantsConcat(Answers(c, map[], most, "a"), [true]);
    OneGrant(true);
  }

  /** Where the rate pays for no more than a burst in `d`, every window of length `d` stays
      within two bursts if and only if a client who has spent two, with an eviction between
      them, cannot be granted another request before it closes. */
  lemma TwoBurstsIff(c: Config, d: nat)
    requires c.Valid() && c.idle + 1 >= NANO && c.rps * d <= c.Cap()
    ensures WindowsWithin(c, d, 2 * c.burst) <==> NoThird(c, d)
  {
    hide Answers, Run, Window, Budget;
    if NoThird(c, d) {
      forall pre, win, ip, start, from | Window(c, pre, win, start, from, d)
        ensures Grants(Answers(c, Run(c, map[], pre), win, ip)) <= 2 * c.burst
      {
        AnyWindow(c, pre, win, ip, start, from, d);
        TwoBursts(c, d);
        FewGrants(Grants(Answers(c, Run(c, map[], pre), win, ip)), Budget(c, d), 2 * c.burst);
      }
    } else {
      AndOneMoreGrants(c, d);
    }
  }

  /** The same with somebody else's calls to trigger the eviction. */
  ghost function CallOnceMore(c: Config, start: int, d: nat): seq<Call>
  {
    SpendTwice(c, start) + [Call("a", start + d)]
  }

  lemma GrantedLate(c: Config, s: State, ip: string, t: int, u: int)
    requires c.Valid() && Stamped(s.buckets, t) && t <= u && c.rps * (u - t) >= NANO
    ensures HandleSpec(c, s, ip, u).1
  {
    hide SweepAll, Serve;
    SweptStamped(s.buckets, u - c.idle, t);
    LateGranted(c, if Due(s, u) then SweepAll(s.buckets, u - c.idle) else s.buckets, ip, t, u);
  }

  lemma CallOnceMoreGrants(c: Config, start: int, d: nat)
    requires c.Valid() && !NoThird(c, d)
    ensures CallWindow([], CallOnceMore(c, start, d), start, start, d)
    ensures Grants(HandleAnswers(c, HandleAll(c, INITIAL, []), CallOnceMore(c, start, d), "a")) == 2 * c.burst + 1
  {
    hide SpendTwice, HandleSpec, Stamped;
    var most, last, p := SpendTwice(c, start), [Call("a", start + d)], c.idle + 1;
    assert d > p by { if d <= p { MulMono(c.rps, d - p, 0); } }
    SpendTwiceInTime(c, start);
    SpendTwiceGrants(c, start);
    InOrder(most, last[0], start);
    StampedStill(map[], start, start);
    HandleAllCovers(c, INITIAL, most, "a", start, start + p);
    var s := HandleAll(c, INITIAL, most);
    GrantedLate(c, s, "a", start + p, start + d);
    HandleConcat(c, INITIAL, most, last, "a");
    assert last[1..] == [];
    assert HandleAnswers(c, s, last, "a") == [true];
    GrantsConcat(HandleAnswers(c, INITIAL, most, "a"), [true]);
    OneGrant(true);
  }

  lemma {:induction false} InOrder(calls: seq<Call>, last: Call, from: int)
    requires NonDecreasing(calls, from) && from <= last.now && forall k :: 0 <= k < |calls| ==> calls[k].now <= last.now
    ensures NonDecreasing(calls + [last], from)
    decreases |calls|
  {
    if calls == [] {
      assert (calls + [last])[1..] == [];
    } else {
      assert (calls + [last])[1..] == calls[1..] + [last];
      InOrder(calls[1..], last, calls[0].now);
    }
  }

  /** And so it is for the middleware, whenever it is started. */
  lemma CallTwoBurstsIff(c: Config, start: int, d: nat)
    requires c.Valid() && c.idle + 1 >= NANO && c.rps * d <= c.Cap()
    ensures CallWindowsWithin(c, start, d, 2 * c.burst) <==> NoThird(c, d)
  {
    hide HandleAll, HandleAnswers, CallWindow, Budget;
    if NoThird(c, d) {
      forall pre, win, ip, from | CallWindow(pre, win, start, from, d)
        ensures Grants(HandleAnswers(c, HandleAll(c, INITIAL, pre), win, ip)) <= 2 * c.burst
      {
        AnyCallWindow(c, pre, win, ip, start, from, d);
        TwoBursts(c, d);
        FewGrants(Grants(HandleAnswers(c, HandleAll(c, INITIAL, pre), win, ip)), Budget(c, d), 2 * c.burst);
      }
    } else {
      CallOnceMoreGrants(c, start, d);
    }
  }
}
