/** The limiter as it really interleaves. A request loads-or-stores its entry, stamps it,
    then asks its limiter; a sweep reads an entry's stamp, then deletes the key. Each of
    these is one atomic step, any number of requests and sweeps are in flight, and a
    request may still hold an entry that a sweep has removed from the map. */
module RateLimitSplit {
  import opened Options
  import opened TokenBucket

  /** An entry on the heap, with the key it was stored under. */
  datatype Cell = Cell(ip: string, bucket: Bucket, lastSeen: int)

  datatype Held = Loaded(cell: nat) | Stamped(cell: nat)

  /** The map holds heap addresses; `deletes` are sweeps that decided to delete a key. */
  datatype State = State(
    heap: seq<Cell>,
    buckets: map<string, nat>,
    requests: map<nat, Held>,
    deletes: map<nat, string>)

  const EMPTY := State([], map[], map[], map[])

  /** `Load` offers an entry built at `made`. `Peek` reads the stamp of the entry the
      iteration handed out for a key, which may have been replaced under that key since. */
  datatype Event =
    | Load(r: nat, ip: string, made: int, at: int)
    | Stamp(r: nat, at: int)
    | Check(r: nat, at: int)
    | Peek(w: nat, cell: nat, cutoff: int, at: int)
    | Delete(w: nat, at: int)

  ghost predicate Enabled(c: Config, s: State, e: Event)
  {
    match e
    case Load(r, _, made, at) => r !in s.requests && made <= at
    case Stamp(r, _) => r in s.requests && s.requests[r].Loaded? && s.requests[r].cell < |s.heap|
    case Check(r, _) => r in s.requests && s.requests[r].Stamped? && s.requests[r].cell < |s.heap|
    case Peek(w, cell, cutoff, at) => w !in s.deletes && cell < |s.heap| && cutoff <= at - c.idle
    case Delete(w, _) => w in s.deletes
  }

  /** The step, and the answer when it is one: whose request, and granted or not. */
  ghost function Step(c: Config, s: State, e: Event): (State, Option<(string, bool)>)
    requires Enabled(c, s, e)
  {
    match e
    case Load(r, ip, made, at) =>
      if ip in s.buckets then
        (s.(requests := s.requests[r := Loaded(s.buckets[ip])]), None)
      else
        (s.(heap := s.heap + [Cell(ip, Fresh(c, at), made)],
            buckets := s.buckets[ip := |s.heap|],
            requests := s.requests[r := Loaded(|s.heap|)]), None)
    case Stamp(r, at) =>
      var a := s.requests[r].cell;
      (s.(heap := s.heap[a := s.heap[a].(lastSeen := at)], requests := s.requests[r := Stamped(a)]), None)
    case Check(r, at) =>
      var a := s.requests[r].cell;
      var (b, ok) := Allow(c, s.heap[a].bucket, at);
      (s.(heap := s.heap[a := s.heap[a].(bucket := b)], requests := s.requests - {r}), Some((s.heap[a].ip, ok)))
    case Peek(w, cell, cutoff, _) =>
      (if s.heap[cell].lastSeen < cutoff then s.(deletes := s.deletes[w := s.heap[cell].ip]) else s, None)
    case Delete(w, _) =>
      (s.(buckets := s.buckets - {s.deletes[w]}, deletes := s.deletes - {w}), None)
  }

  ghost predicate ValidRun(c: Config, s: State, es: seq<Event>, from: int)
    decreases |es|
  {
    es == [] ||
    (Enabled(c, s, es[0]) && from <= es[0].at && ValidRun(c, Step(c, s, es[0]).0, es[1..], es[0].at))
  }

  ghost function Run(c: Config, s: State, es: seq<Event>, from: int): State
    requires ValidRun(c, s, es, from)
    decreases |es|
  {
    if es == [] then s else Run(c, Step(c, s, es[0]).0, es[1..], es[0].at)
  }

  ghost function Answers(c: Config, s: State, es: seq<Event>, from: int, ip: string): seq<bool>
    requires ValidRun(c, s, es, from)
    decreases |es|
  {
    if es == [] then [] else
      var (s', a) := Step(c, s, es[0]);
      (if a.Some? && a.value.0 == ip then [a.value.1] else []) + Answers(c, s', es[1..], es[0].at, ip)
  }

  ghost function Times(c: Config, s: State, es: seq<Event>, from: int, ip: string): seq<int>
    requires ValidRun(c, s, es, from)
    decreases |es|
  {
    if es == [] then [] else
      var (s', a) := Step(c, s, es[0]);
      (if a.Some? && a.value.0 == ip then [es[0].at] else []) + Times(c, s', es[1..], es[0].at, ip)
  }

  /** How often `ip`'s key was really taken out of the map. */
  ghost function Deletions(c: Config, s: State, es: seq<Event>, from: int, ip: string): nat
    requires ValidRun(c, s, es, from)
    decreases |es|
  {
    if es == [] then 0 else
      var s' := Step(c, s, es[0]).0;
      (if ip in s.buckets && ip !in s'.buckets then 1 else 0) + Deletions(c, s', es[1..], es[0].at, ip)
  }

  // -------- the bound --------

  /** Where a stretch of a run begins: when, which cells nobody can reach any more, how many
      of the client's cells somebody can, and whether one of them is in the map. */
  datatype Start = Start(at: int, dead: set<nat>, cells: nat, stored: bool)

  ghost function StartOf(s: State, ip: string, at: int): Start
  {
    Start(at, Dead(s), Reachable(s, ip), ip in s.buckets)
  }

  /** Neither in the map nor held by a request. */
  ghost function Dead(s: State): set<nat>
  {
    set a | 0 <= a < |s.heap| && a !in s.buckets.Values && forall r :: r in s.requests ==> s.requests[r].cell != a
  }

  /** How many of `ip`'s cells are in the map or held by a request. */
  ghost function Reachable(s: State, ip: string): nat
  {
    Count(s.heap, ip, Dead(s))
  }

  /** The client's cells that somebody can reach, and one more if it has yet to be made. */
  ghost function Cells(s: State, ip: string): nat
  {
    Reachable(s, ip) + if ip in s.buckets then 0 else 1
  }

  /** What a cell may still grant, less what accrued to it since the start, summed over
      `ip`'s cells that were not dead then. */
  ghost function Credit(c: Config, h: seq<Cell>, ip: string, w: Start): int
  {
    if h == [] then 0 else
      var n := |h| - 1;
      Credit(c, h[..n], ip, w) + (if h[n].ip == ip && n !in w.dead then CellCredit(c, h[n], w.at) else 0)
  }

  ghost function CellCredit(c: Config, x: Cell, t0: int): int
  {
    if x.bucket.last <= t0 then Level(c, x.bucket, t0) else x.bucket.level - c.rps * (x.bucket.last - t0)
  }

  ghost function Count(h: seq<Cell>, ip: string, dead: set<nat>): nat
  {
    if h == [] then 0 else
      var n := |h| - 1;
      Count(h[..n], ip, dead) + (if h[n].ip == ip && n !in dead then 1 else 0)
  }

  lemma {:induction false} UpdateCell(c: Config, h: seq<Cell>, ip: string, w: Start, a: nat, x: Cell)
    requires a < |h| && a !in w.dead && x.ip == h[a].ip
    ensures Count(h[a := x], ip, w.dead) == Count(h, ip, w.dead)
    ensures Credit(c, h[a := x], ip, w) - Credit(c, h, ip, w)
         == if x.ip == ip then CellCredit(c, x, w.at) - CellCredit(c, h[a], w.at) else 0
    decreases |h|
  {
    hide CellCredit;
    var n := |h| - 1;
    if a == n {
      assert h[a := x][..n] == h[..n];
    } else {
      assert h[a := x][..n] == h[..n][a := x];
      UpdateCell(c, h[..n], ip, w, a, x);
    }
  }

  lemma CellFloor(c: Config, x: Cell, t0: int, to: int)
    requires x.bucket.last <= to && t0 <= to
    ensures CellCredit(c, x, t0) >= -(c.rps * (to - t0))
  {
    Gain(c.rps, to - t0);
    MulMono(c.rps, x.bucket.last - t0, to - t0);
  }

  lemma {:induction false} CreditFloor(c: Config, h: seq<Cell>, ip: string, w: Start, to: int)
    requires w.at <= to && forall a :: 0 <= a < |h| ==> h[a].bucket.last <= to
    ensures Credit(c, h, ip, w) >= -(Count(h, ip, w.dead) * (c.rps * (to - w.at)))
    decreases |h|
  {
    hide CellCredit;
    if h != [] {
      var n := |h| - 1;
      CreditFloor(c, h[..n], ip, w, to);
      CellFloor(c, h[n], w.at, to);
      var k, d := Count(h[..n], ip, w.dead), c.rps * (to - w.at);
      assert (k + 1) * d == k * d + d;
    }
  }

  /** At the start itself no cell has more than a burst. */
  lemma {:induction false} CreditCeiling(c: Config, h: seq<Cell>, ip: string, w: Start)
    requires forall a :: 0 <= a < |h| ==> h[a].bucket.last <= w.at
    ensures Credit(c, h, ip, w) <= Count(h, ip, w.dead) * c.Cap()
    decreases |h|
  {
    hide Level;
    if h != [] {
      var n := |h| - 1;
      CreditCeiling(c, h[..n], ip, w);
      OneMoreCell(0, Credit(c, h[..n], ip, w), Level(c, h[n].bucket, w.at), Count(h[..n], ip, w.dead), c.Cap());
    }
  }

  /** A check moves what it grants out of its cell's credit. */
  lemma CheckCredit(c: Config, x: Cell, t: int, t0: int)
    requires x.bucket.last <= t && t0 <= t
    ensures var (b, ok) := Allow(c, x.bucket, t);
      CellCredit(c, x.(bucket := b), t0) + (if ok then NANO else 0) <= CellCredit(c, x, t0)
  {
    assert c.rps * 0 == 0;
    if x.bucket.last <= t0 {
      LevelGrowth(c, x.bucket, t0, t);
    } else {
      assert c.rps * (t - t0) == c.rps * (t - x.bucket.last) + c.rps * (x.bucket.last - t0);
    }
  }

  ghost predicate WellFormed(s: State)
  {
    && (forall ip :: ip in s.buckets ==> s.buckets[ip] < |s.heap| && s.heap[s.buckets[ip]].ip == ip)
    && (forall r :: r in s.requests ==> s.requests[r].cell < |s.heap|)
  }

  /** What was dead at the start stays so. */
  ghost predicate Buried(s: State, dead: set<nat>)
  {
    && (forall ip :: ip in s.buckets ==> s.buckets[ip] !in dead)
    && (forall r :: r in s.requests ==> s.requests[r].cell !in dead)
    && forall a :: a in dead ==> a < |s.heap|
  }

  ghost predicate CheckedBy(s: State, now: int)
  {
    forall a :: 0 <= a < |s.heap| ==> s.heap[a].bucket.last <= now
  }

  /** After `g` grants and `k` deletions since the start. */
  ghost predicate Balance(c: Config, s: State, ip: string, w: Start, now: int, g: nat, k: nat)
  {
    && WellFormed(s) && Buried(s, w.dead) && CheckedBy(s, now)
    && g * NANO + Credit(c, s.heap, ip, w) <= Count(s.heap, ip, w.dead) * c.Cap()
    && Count(s.heap, ip, w.dead) + (if w.stored then 1 else 0) <= w.cells + k + (if ip in s.buckets then 1 else 0)
  }

  /** A fresh entry stored under a free key; it may not be the client's own. */
  lemma NewCellBalance(c: Config, s: State, s': State, x: Cell, ip: string, w: Start, now: int, at: int, g: nat, k: nat)
    requires Balance(c, s, ip, w, now, g, k) && w.at <= now <= at
    requires x.ip !in s.buckets && x.bucket == Fresh(c, at)
    requires s'.heap == s.heap + [x] && s'.buckets == s.buckets[x.ip := |s.heap|]
    requires forall r :: r in s'.requests ==> s'.requests[r].cell < |s'.heap| && s'.requests[r].cell !in w.dead
    ensures Balance(c, s', ip, w, at, g, k)
  {
    assert s'.heap[..|s.heap|] == s.heap;
    FreshCredit(c, x, w.at, at);
    hide CellCredit;
    OneMoreCell(g, Credit(c, s.heap, ip, w), CellCredit(c, x, w.at), Count(s.heap, ip, w.dead), c.Cap());
  }

  lemma FreshCredit(c: Config, x: Cell, t0: int, at: int)
    requires x.bucket == Fresh(c, at) && t0 <= at
    ensures CellCredit(c, x, t0) <= c.Cap()
  {
    Gain(c.rps, at - t0);
  }

  lemma LoadBalance(c: Config, s: State, e: Event, ip: string, w: Start, now: int, g: nat, k: nat)
    requires e.Load? && Enabled(c, s, e) && w.at <= now <= e.at && Balance(c, s, ip, w, now, g, k)
    ensures Balance(c, Step(c, s, e).0, ip, w, e.at, g, k)
  {
    hide Credit, CellCredit, Count, Allow;
    if e.ip !in s.buckets {
      NewCellBalance(c, s, Step(c, s, e).0, Cell(e.ip, Fresh(c, e.at), e.made), ip, w, now, e.at, g, k);
    }
  }

  lemma OneMoreCell(g: nat, credit: int, x: int, n: nat, cap: nat)
    requires g * NANO + credit <= n * cap && x <= cap
    ensures g * NANO + credit + x <= (n + 1) * cap
  {
    assert (n + 1) * cap == n * cap + cap;
  }

  /** Replacing one cell by one of the same key whose credit and grant add up to no more. */
  lemma CellBalance(c: Config, s: State, s': State, a: nat, x: Cell, ip: string, w: Start, now: int, at: int, g: nat,
      paid: nat, k: nat)
    requires Balance(c, s, ip, w, now, g, k) && now <= at
    requires a < |s.heap| && a !in w.dead && x.ip == s.heap[a].ip && x.bucket.last <= at
    requires s'.heap == s.heap[a := x] && s'.buckets == s.buckets
    requires forall r :: r in s'.requests ==> r in s.requests && s'.requests[r].cell == s.requests[r].cell
    requires CellCredit(c, x, w.at) + paid * NANO <= CellCredit(c, s.heap[a], w.at)
    ensures Balance(c, s', ip, w, at, g + (if x.ip == ip then paid else 0), k)
  {
    hide CellCredit, Credit, Count;
    UpdateCell(c, s.heap, ip, w, a, x);
  }

  lemma StepBalance(c: Config, s: State, e: Event, ip: string, w: Start, now: int, g: nat, k: nat)
    requires Enabled(c, s, e) && w.at <= now <= e.at && Balance(c, s, ip, w, now, g, k)
    ensures var (s', a) := Step(c, s, e);
      Balance(c, s', ip, w, e.at, g + (if a == Some((ip, true)) then 1 else 0),
              k + (if ip in s.buckets && ip !in s'.buckets then 1 else 0))
  {
    hide Credit, CellCredit, Count, Allow;
    var s' := Step(c, s, e).0;
    match e
    case Load(_, _, _, _) =>
      LoadBalance(c, s, e, ip, w, now, g, k);
    case Stamp(r, at) =>
      var a := s.requests[r].cell;
      StampCredit(c, s.heap[a], at, w.at);
      CellBalance(c, s, s', a, s.heap[a].(lastSeen := at), ip, w, now, at, g, 0, k);
    case Check(r, at) =>
      var a := s.requests[r].cell;
      var (b, ok) := Allow(c, s.heap[a].bucket, at);
      AllowedAt(c, s.heap[a].bucket, at);
      CheckCredit(c, s.heap[a], at, w.at);
      CellBalance(c, s, s', a, s.heap[a].(bucket := b), ip, w, now, at, g, if ok then 1 else 0, k);
    case Peek(_, _, _, _) =>
    case Delete(_, _) =>
  }

  lemma StampCredit(c: Config, x: Cell, seen: int, t0: int)
    ensures CellCredit(c, x.(lastSeen := seen), t0) == CellCredit(c, x, t0)
  {
  }

  lemma AllowedAt(c: Config, b: Bucket, t: int)
    ensures Allow(c, b, t).0.last == t
  {
  }

  lemma {:induction false} RunBalance(c: Config, s: State, es: seq<Event>, ip: string, w: Start, now: int, to: int,
      g: nat, k: nat)
    requires w.at <= now <= to && ValidRun(c, s, es, now) && Balance(c, s, ip, w, now, g, k)
    requires forall j :: 0 <= j < |es| ==> es[j].at <= to
    ensures Balance(c, Run(c, s, es, now), ip, w, to,
                    g + Grants(Answers(c, s, es, now, ip)), k + Deletions(c, s, es, now, ip))
    decreases |es|
  {
    hide Balance, Step, Enabled;
    if es == [] {
      LaterBalance(c, s, ip, w, now, to, g, k);
    } else {
      var e := es[0];
      var (s', a) := Step(c, s, e);
      StepBalance(c, s, e, ip, w, now, g, k);
      var g' := g + (if a == Some((ip, true)) then 1 else 0);
      var k' := k + (if ip in s.buckets && ip !in s'.buckets then 1 else 0);
      RunBalance(c, s', es[1..], ip, w, e.at, to, g', k');
      var rest := Answers(c, s', es[1..], e.at, ip);
      if a.Some? && a.value.0 == ip {
        assert Answers(c, s, es, now, ip)[1..] == rest;
      } else {
        assert Answers(c, s, es, now, ip) == rest;
      }
    }
  }

  lemma LaterBalance(c: Config, s: State, ip: string, w: Start, now: int, to: int, g: nat, k: nat)
    requires Balance(c, s, ip, w, now, g, k) && now <= to
    ensures Balance(c, s, ip, w, to, g, k)
  {
    hide Credit, Count;
  }

  lemma StartBalance(c: Config, s: State, ip: string, at: int)
    requires WellFormed(s) && CheckedBy(s, at)
    ensures Balance(c, s, ip, StartOf(s, ip, at), at, 0, 0)
  {
    hide Credit, Count;
    CreditCeiling(c, s.heap, ip, StartOf(s, ip, at));
  }

  /** Every stretch of a run, from any sound state: a client is granted at most what one
      bucket allows for each of its cells somebody can still reach at the start, for one
      more if none is in the map, and for each time its key is deleted on the way. */
  lemma StretchBound(c: Config, s: State, es: seq<Event>, ip: string, from: int, to: int)
    requires WellFormed(s) && CheckedBy(s, from)
    requires from <= to && ValidRun(c, s, es, from) && forall j :: 0 <= j < |es| ==> es[j].at <= to
    ensures Grants(Answers(c, s, es, from, ip)) * NANO
         <= (Cells(s, ip) + Deletions(c, s, es, from, ip)) * (c.Cap() + c.rps * (to - from))
  {
    hide Credit, Count, Step, Enabled;
    var w, t := StartOf(s, ip, from), Run(c, s, es, from);
    StartBalance(c, s, ip, from);
    RunBalance(c, s, es, ip, w, from, to, 0, 0);
    CreditFloor(c, t.heap, ip, w, to);
    Gain(c.rps, to - from);
    AtMost(Grants(Answers(c, s, es, from, ip)), Credit(c, t.heap, ip, w), Count(t.heap, ip, w.dead),
           Cells(s, ip) + Deletions(c, s, es, from, ip), c.Cap(), c.rps * (to - from));
  }

  /** The states that runs reach are sound. */
  lemma ReachedIsSound(c: Config, es: seq<Event>, from: int, to: int)
    requires from <= to && ValidRun(c, EMPTY, es, from) && forall j :: 0 <= j < |es| ==> es[j].at <= to
    ensures WellFormed(Run(c, EMPTY, es, from)) && CheckedBy(Run(c, EMPTY, es, from), to)
  {
    hide Credit, Count, Run;
    StartBalance(c, EMPTY, "", from);
    RunBalance(c, EMPTY, es, "", StartOf(EMPTY, "", from), from, to, 0, 0);
  }

  /** In every interleaving, a client whose key is deleted `k` times within a run of
      `to - from` nanoseconds is granted at most `1 + k` times what one bucket allows. */
  lemma SplitBound(c: Config, es: seq<Event>, ip: string, from: int, to: int)
    requires from <= to && ValidRun(c, EMPTY, es, from)
    requires forall j :: 0 <= j < |es| ==> es[j].at <= to
    ensures Grants(Answers(c, EMPTY, es, from, ip)) * NANO
         <= (1 + Deletions(c, EMPTY, es, from, ip)) * (c.Cap() + c.rps * (to - from))
  {
    hide Step, Enabled;
    StretchBound(c, EMPTY, es, ip, from, to);
    assert Reachable(EMPTY, ip) == 0;
  }

  // -------- who is swept --------

  /** Later steps stamp an entry no earlier. */
  lemma {:induction false} StampsGrow(c: Config, s: State, es: seq<Event>, from: int, a: nat, t: int)
    requires ValidRun(c, s, es, from) && t <= from && a < |s.heap| && s.heap[a].lastSeen >= t
    ensures var s' := Run(c, s, es, from); a < |s'.heap| && s'.heap[a].lastSeen >= t
    decreases |es|
  {
    hide Allow;
    if es != [] {
      var e := es[0];
      StampsGrow(c, Step(c, s, e).0, es[1..], e.at, a, t);
    }
  }

  /** Whatever happens in between, a sweep that looks at an entry within the idle timeout of
      a request stamping it lets it be. */
  lemma SweepSparesRecent(c: Config, s: State, r: nat, t: int, es: seq<Event>, p: Event)
    requires Enabled(c, s, Stamp(r, t)) && ValidRun(c, Step(c, s, Stamp(r, t)).0, es, t)
    requires var s' := Run(c, Step(c, s, Stamp(r, t)).0, es, t);
      p.Peek? && p.cell == s.requests[r].cell && Enabled(c, s', p) && p.at <= t + c.idle
    ensures var s' := Run(c, Step(c, s, Stamp(r, t)).0, es, t); Step(c, s', p).0 == s'
  {
    var a := s.requests[r].cell;
    StampsGrow(c, Step(c, s, Stamp(r, t)).0, es, t, a, t);
  }

  // -------- clients who keep to the rate --------

  /** Each check comes when the rate has paid for it since the one before. */
  ghost predicate SpacedOut(c: Config, ts: seq<int>, last: Option<int>)
  {
    ts == [] || (
      && InTime(c, last, ts[0])
      && SpacedOut(c, ts[1..], Some(ts[0])))
  }

  /** The rate has paid for a request since `last`. */
  predicate InTime(c: Config, last: Option<int>, t: int)
  {
    last.Some? ==> last.value <= t && c.rps * (t - last.value) >= NANO
  }

  /** Each of `ip`'s cells is fresh or was last asked by `last`. */
  ghost predicate Rested(c: Config, s: State, ip: string, last: Option<int>)
  {
    forall a :: 0 <= a < |s.heap| && s.heap[a].ip == ip ==>
      s.heap[a].bucket.level == c.Cap() || (last.Some? && s.heap[a].bucket.last <= last.value)
  }

  lemma RestedGrants(c: Config, b: Bucket, last: Option<int>, t: int)
    requires c.Valid() && (b.level == c.Cap() || (last.Some? && b.last <= last.value && InTime(c, last, t)))
    ensures Allow(c, b, t).1
  {
    if last.Some? && b.last <= last.value && InTime(c, last, t) { MulMono(c.rps, t - last.value, t - b.last); }
  }

  lemma StepRested(c: Config, s: State, e: Event, ip: string, last: Option<int>)
    requires c.Valid() && Enabled(c, s, e) && Rested(c, s, ip, last)
    ensures var (s', a) := Step(c, s, e);
      if a.Some? && a.value.0 == ip then
        InTime(c, last, e.at) ==> a.value.1 && Rested(c, s', ip, Some(e.at))
      else Rested(c, s', ip, last)
  {
    hide Allow;
    if e.Check? {
      var b := s.heap[s.requests[e.r].cell].bucket;
      AllowedAt(c, b, e.at);
      if s.heap[s.requests[e.r].cell].ip == ip && InTime(c, last, e.at) {
        RestedGrants(c, b, last, e.at);
      }
    }
  }

  /** Whatever sweeps stall and delete meanwhile, a client whose requests reach the limiter
      at least `1/rps` seconds apart is never refused. */
  lemma {:induction false} SplitPacedNeverDenied(c: Config, s: State, es: seq<Event>, from: int, ip: string,
      last: Option<int>)
    requires c.Valid() && ValidRun(c, s, es, from) && Rested(c, s, ip, last)
        && SpacedOut(c, Times(c, s, es, from, ip), last)
    ensures forall k :: 0 <= k < |Answers(c, s, es, from, ip)| ==> Answers(c, s, es, from, ip)[k]
    decreases |es|
  {
    hide Enabled, Step, Rested;
    if es != [] {
      var e := es[0];
      var (s', a) := Step(c, s, e);
      StepRested(c, s, e, ip, last);
      var ts := Times(c, s', es[1..], e.at, ip);
      if a.Some? && a.value.0 == ip {
        assert Times(c, s, es, from, ip)[1..] == ts;
        SplitPacedNeverDenied(c, s', es[1..], e.at, ip, Some(e.at));
      } else {
        assert Times(c, s, es, from, ip) == ts;
        SplitPacedNeverDenied(c, s', es[1..], e.at, ip, last);
      }
    }
  }

  /** `Retry-After: 1` is honest here too: if a client has not reached the limiter for a
      second, its next request to do so is granted, whatever was in flight and deleted. */
  lemma SplitRetryAfterHonest(c: Config, s: State, es: seq<Event>, from: int, ip: string, u: int)
    requires c.Valid() && CheckedBy(s, from) && ValidRun(c, s, es, from)
    requires Times(c, s, es, from, ip) == [u] && u - from >= NANO
    ensures Answers(c, s, es, from, ip) == [true]
  {
    hide Enabled, Step;
    MulMono(c.rps, NANO, u - from);
    MulOne(c.rps, NANO);
    SameLength(c, s, es, from, ip);
    SplitPacedNeverDenied(c, s, es, from, ip, Some(from));
  }

  lemma {:induction false} SameLength(c: Config, s: State, es: seq<Event>, from: int, ip: string)
    requires ValidRun(c, s, es, from)
    ensures |Answers(c, s, es, from, ip)| == |Times(c, s, es, from, ip)|
    decreases |es|
  {
    hide Enabled, Step;
    if es != [] { SameLength(c, Step(c, s, es[0]).0, es[1..], es[0].at, ip); }
  }

  lemma AtMost(g: nat, credit: int, n: nat, m: nat, cap: nat, accrued: nat)
    requires n <= m && g * NANO + credit <= n * cap && credit >= -(n * accrued)
    ensures g * NANO <= m * (cap + accrued)
  {
    assert n * (cap + accrued) == n * cap + n * accrued;
    TimesMono(n, m, cap + accrued);
  }

  lemma TimesMono(n: nat, m: nat, x: nat)
    requires n <= m
    ensures n * x <= m * x
  {
  }

  // -------- no setting makes the split eviction invisible --------

  ghost function One(ip: string, at: int): seq<Event>
  {
    [Load(0, ip, at, at), Stamp(0, at), Check(0, at)]
  }

  ghost function Many(ip: string, at: int, n: nat): seq<Event>
  {
    if n == 0 then [] else One(ip, at) + Many(ip, at, n - 1)
  }

  /** One undisturbed request. */
  ghost function AfterOne(c: Config, s: State, ip: string, at: int): State
    requires WellFormed(s) && 0 !in s.requests
  {
    var a := if ip in s.buckets then s.buckets[ip] else |s.heap|;
    var h := if ip in s.buckets then s.heap else s.heap + [Cell(ip, Fresh(c, at), at)];
    State(h[a := Cell(ip, Allow(c, h[a].bucket, at).0, at)], s.buckets[ip := a], s.requests, s.deletes)
  }

  /** The three steps of one request, taken one after another. */
  lemma OneSteps(c: Config, s: State, ip: string, at: int)
    requires WellFormed(s) && 0 !in s.requests
    ensures WellFormed(AfterOne(c, s, ip, at)) && 0 !in AfterOne(c, s, ip, at).requests
    ensures var es := One(ip, at);
      var b := if ip in s.buckets then s.heap[s.buckets[ip]].bucket else Fresh(c, at);
      && Enabled(c, s, es[0])
      && Step(c, s, es[0]).1 == None
      && var s1 := Step(c, s, es[0]).0;
      && Enabled(c, s1, es[1])
      && Step(c, s1, es[1]).1 == None
      && var s2 := Step(c, s1, es[1]).0;
      && Enabled(c, s2, es[2])
      && Step(c, s2, es[2]) == (AfterOne(c, s, ip, at), Some((ip, Allow(c, b, at).1)))
  {
    hide Level;
    var es := One(ip, at);
    var s1 := Step(c, s, es[0]).0;
    var s2 := Step(c, s1, es[1]).0;
    var s3 := Step(c, s2, es[2]).0;
    assert s3.requests == s.requests;
    assert s3.heap == AfterOne(c, s, ip, at).heap;
    assert s3.buckets == AfterOne(c, s, ip, at).buckets;
  }

  lemma OneRun(c: Config, s: State, ip: string, at: int, from: int, rest: seq<Event>)
    requires WellFormed(s) && 0 !in s.requests && from <= at
    requires ValidRun(c, AfterOne(c, s, ip, at), rest, at)
    ensures ValidRun(c, s, One(ip, at) + rest, from)
    ensures var s' := AfterOne(c, s, ip, at);
      var b := if ip in s.buckets then s.heap[s.buckets[ip]].bucket else Fresh(c, at);
      && WellFormed(s')
      && Answers(c, s, One(ip, at) + rest, from, ip) == [Allow(c, b, at).1] + Answers(c, s', rest, at, ip)
      && Times(c, s, One(ip, at) + rest, from, ip) == [at] + Times(c, s', rest, at, ip)
  {
    var es := One(ip, at) + rest;
    OneSteps(c, s, ip, at);
    var s1 := Step(c, s, es[0]).0;
    var s2 := Step(c, s1, es[1]).0;
    hide Enabled, Step, AfterOne, WellFormed, Allow;
    var es1, es2 := es[1..], es[2..];
    assert es1[0] == es[1] && es1[1..] == es2 && es2[0] == es[2] && es2[1..] == rest;
    assert ValidRun(c, s2, es2, at);
    assert ValidRun(c, s1, es1, at);
    assert ValidRun(c, s, es, from);
    var later := Answers(c, AfterOne(c, s, ip, at), rest, at, ip);
    assert Answers(c, s2, es2, at, ip) == [Step(c, s2, es[2]).1.value.1] + later;
    assert Answers(c, s1, es1, at, ip) == Answers(c, s2, es2, at, ip);
    assert Times(c, s1, es1, at, ip) == Times(c, s2, es2, at, ip);
  }

  ghost function Finish(t: int): seq<Event>
  {
    [Delete(0, t)] + One("a", t)
  }

  /** The sweep's delete falls on a key in use; the next request starts a fresh bucket. */
  lemma FinishRun(c: Config, s: State, t: int)
    requires c.Valid() && WellFormed(s) && 0 !in s.requests && 0 in s.deletes && s.deletes[0] == "a"
    ensures ValidRun(c, s, Finish(t), t)
    ensures Answers(c, s, Finish(t), t, "a") == [true] && Times(c, s, Finish(t), t, "a") == [t]
  {
    var es := Finish(t);
    var s1 := Step(c, s, es[0]).0;
    assert c.rps * 0 == 0;
    OneRun(c, s1, "a", t, t, []);
    assert es[1..] == One("a", t) + [];
  }

  /** `es` is a run whose checks all happen at `t` and grant `n` of them. */
  ghost predicate GrantsAt(c: Config, s: State, es: seq<Event>, t: int, n: nat)
  {
    && ValidRun(c, s, es, t)
    && Grants(Answers(c, s, es, t, "a")) == n
    && Sorted(Times(c, s, es, t, "a"), t)
    && forall k :: 0 <= k < |Times(c, s, es, t, "a")| ==> Times(c, s, es, t, "a")[k] <= t
  }

  /** The sweep is pending and "a" holds at least `n` tokens. */
  ghost predicate Armed(c: Config, s: State, n: nat, t: int)
  {
    && WellFormed(s) && 0 !in s.requests && 0 in s.deletes && s.deletes[0] == "a"
    && "a" in s.buckets
    && s.heap[s.buckets["a"]].bucket.last <= t
    && Level(c, s.heap[s.buckets["a"]].bucket, t) >= n * NANO
  }

  lemma OneArmed(c: Config, s: State, n: nat, t: int)
    requires n > 0 && Armed(c, s, n, t)
    ensures Armed(c, AfterOne(c, s, "a", t), n - 1, t)
    ensures Allow(c, s.heap[s.buckets["a"]].bucket, t).1
  {
    assert c.rps * 0 == 0;
    assert n * NANO == (n - 1) * NANO + NANO;
  }

  lemma OneMore(c: Config, s: State, n: nat, t: int, rest: seq<Event>, g: nat)
    requires n > 0 && Armed(c, s, n, t) && GrantsAt(c, AfterOne(c, s, "a", t), rest, t, g)
    ensures GrantsAt(c, s, One("a", t) + rest, t, g + 1)
  {
    OneArmed(c, s, n, t);
    OneRun(c, s, "a", t, t, rest);
    var s' := AfterOne(c, s, "a", t);
    var ts := Times(c, s', rest, t, "a");
    assert ([t] + ts)[1..] == ts;
    var ans := Answers(c, s', rest, t, "a");
    assert ([true] + ans)[1..] == ans;
  }

  lemma FinishGrants(c: Config, s: State, t: int)
    requires c.Valid() && Armed(c, s, 0, t)
    ensures GrantsAt(c, s, Finish(t), t, 1)
  {
    FinishRun(c, s, t);
    assert [true][1..] == [] && [t][1..] == [];
  }

  lemma ArmedParts(c: Config, s: State, n: nat, t: int)
    requires Armed(c, s, n, t)
    ensures WellFormed(s) && 0 !in s.requests
  {
  }

  lemma {:induction false} ManyRun(c: Config, s: State, n: nat, t: int)
    requires c.Valid() && Armed(c, s, n, t)
    ensures GrantsAt(c, s, Many("a", t, n) + Finish(t), t, n + 1)
    decreases n
  {
    hide GrantsAt, Armed, Finish, One, AfterOne, WellFormed, Allow;
    if n == 0 {
      FinishGrants(c, s, t);
      assert Many("a", t, n) + Finish(t) == Finish(t);
    } else {
      ArmedParts(c, s, n, t);
      OneArmed(c, s, n, t);
      ManyRun(c, AfterOne(c, s, "a", t), n - 1, t);
      OneMore(c, s, n, t, Many("a", t, n - 1) + Finish(t), n);
      assert Many("a", t, n) + Finish(t) == One("a", t) + (Many("a", t, n - 1) + Finish(t));
    }
  }

  ghost predicate SplitEvictionInvisible(c: Config)
  {
    forall es, ip, from | ValidRun(c, EMPTY, es, from) ::
      Answers(c, EMPTY, es, from, ip) == BucketAnswers(c, None, Times(c, EMPTY, es, from, ip))
  }

  /** A sweep reads the stamp of an entry idle since 0, then `burst` requests use it up
      before the delete falls. */
  ghost function Late(c: Config, t: int): seq<Event>
  {
    [Peek(0, 0, NANO, t)] + (Many("a", t, c.burst) + Finish(t))
  }

  lemma LateRun(c: Config, s: State, t: int, from: int)
    requires c.Valid() && from <= t && t == c.idle + NANO
    requires s == State([Cell("a", Bucket(c.Cap() - NANO, 0), 0)], map["a" := 0], map[], map[])
    ensures ValidRun(c, s, Late(c, t), from)
    ensures Grants(Answers(c, s, Late(c, t), from, "a")) == c.burst + 1
    ensures Sorted(Times(c, s, Late(c, t), from, "a"), t)
    ensures forall k :: 0 <= k < |Times(c, s, Late(c, t), from, "a")| ==> Times(c, s, Late(c, t), from, "a")[k] <= t
  {
    var tail := Many("a", t, c.burst) + Finish(t);
    var s2 := s.(deletes := map[0 := "a"]);
    MulMono(c.rps, NANO, t);
    MulOne(c.rps, NANO);
    assert Level(c, s.heap[0].bucket, t) == c.Cap();
    ManyRun(c, s2, c.burst, t);
    assert Late(c, t)[1..] == tail;
    assert Step(c, s, Late(c, t)[0]).0 == s2;
    assert Answers(c, s, Late(c, t), from, "a") == Answers(c, s2, tail, t, "a");
    assert Times(c, s, Late(c, t), from, "a") == Times(c, s2, tail, t, "a");
  }

  lemma MulOne(r: nat, x: nat)
    requires r > 0
    ensures r * x >= x
  {
  }

  lemma TooMany(c: Config, ts: seq<int>, t: int)
    requires c.Valid() && 0 <= t && Sorted(ts, t) && forall k :: 0 <= k < |ts| ==> ts[k] <= t
    ensures Grants(BucketAnswers(c, None, [0] + ts)) <= c.burst + 1
  {
    var b := Allow(c, Fresh(c, 0), 0).0;
    assert c.rps * 0 == 0;
    Conservation(c, b, ts, t, t);
    assert ([0] + ts)[1..] == ts;
    assert BucketAnswers(c, None, [0] + ts)[1..] == BucketAnswers(c, Some(b), ts);
  }

  /** With the test and the delete apart, no setting at all hides eviction: a request that
      stamps its entry between them has the bucket it is spending thrown away. */
  lemma SplitEvictionNeverInvisible(c: Config)
    requires c.Valid()
    ensures !SplitEvictionInvisible(c)
  {
    var t := c.idle + NANO;
    var s := AfterOne(c, EMPTY, "a", 0);
    assert c.rps * 0 == 0;
    assert s == State([Cell("a", Bucket(c.Cap() - NANO, 0), 0)], map["a" := 0], map[], map[]);
    LateRun(c, s, t, 0);
    OneRun(c, EMPTY, "a", 0, 0, Late(c, t));
    var es := One("a", 0) + Late(c, t);
    var late := Times(c, s, Late(c, t), 0, "a");
    TooMany(c, late, t);
    var answers := Answers(c, EMPTY, es, 0, "a");
    assert answers == [true] + Answers(c, s, Late(c, t), 0, "a");
    assert answers[1..] == Answers(c, s, Late(c, t), 0, "a");
    assert Grants(answers) == c.burst + 2;
    assert Times(c, EMPTY, es, 0, "a") == [0] + late;
  }
}
