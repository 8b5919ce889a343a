/** The token bucket that golang.org/x/time/rate.Limiter promises, in exact integers.
    Tokens are counted in nano-tokens and time in nanoseconds, so one nanosecond
    adds exactly `rps` nano-tokens and one request costs NANO of them. */
module TokenBucket {
  import opened Options

  const NANO: nat := 1_000_000_000

  /** What the middleware is built with; `idle` is in nanoseconds. */
  datatype Config = Config(rps: nat, burst: nat, idle: nat) {
    ghost predicate Valid() { rps > 0 && burst > 0 && idle > 0 }
    function Cap(): nat { burst * NANO }
  }

  /** `level` nano-tokens at time `last`. */
  datatype Bucket = Bucket(level: nat, last: int)

  function Fresh(c: Config, t: int): Bucket { Bucket(c.Cap(), t) }

  /** A clock reading before `last` counts as no time passed. */
  function Level(c: Config, b: Bucket, t: int): (r: nat)
    ensures r <= c.Cap()
  {
    var elapsed := if t < b.last then 0 else t - b.last;
    Gain(c.rps, elapsed);
    var l := b.level + c.rps * elapsed;
    if l <= c.Cap() then l else c.Cap()
  }

  function Allow(c: Config, b: Bucket, t: int): (Bucket, bool)
  {
    var l := Level(c, b, t);
    if l >= NANO then (Bucket(l - NANO, t), true) else (Bucket(l, t), false)
  }

  lemma Gain(rps: nat, d: nat)
    ensures rps * d >= 0
  {
  }

  lemma MulMono(r: nat, d: int, e: int)
    requires d <= e
    ensures r * d <= r * e
  {
  }

  /** A bucket that is full at one moment is full at every later moment. */
  lemma FullStaysFull(c: Config, b: Bucket, t: int, u: int)
    requires b.last <= t <= u && Level(c, b, t) == c.Cap()
    ensures Level(c, b, u) == c.Cap()
  {
    MulMono(c.rps, t - b.last, u - b.last);
  }

  /** Reading the level early and writing it back changes no later level, so it does
      not matter whether a refused request stores the advanced bucket. */
  lemma AdvanceIsTransparent(c: Config, b: Bucket, t: int, u: int)
    requires b.last <= t <= u
    ensures Level(c, Bucket(Level(c, b, t), t), u) == Level(c, b, u)
  {
    assert c.rps * (u - b.last) == c.rps * (t - b.last) + c.rps * (u - t);
    Gain(c.rps, u - t);
  }

  /** From any level, `idle + 1` nanoseconds of silence fill the bucket exactly when
      they are worth a full burst. */
  lemma RefillAfterIdle(c: Config, b: Bucket, t: int)
    requires t - b.last >= c.idle + 1
    requires c.Cap() <= c.rps * (c.idle + 1)
    ensures Level(c, b, t) == c.Cap()
  {
    MulMono(c.rps, c.idle + 1, t - b.last);
  }

  // -------- one bucket that is never evicted, fed one client's timestamps --------

  ghost predicate Sorted(ts: seq<int>, from: int)
  {
    ts == [] || (from <= ts[0] && Sorted(ts[1..], ts[0]))
  }

  /** The client's bucket before its first request is a fresh one. */
  function Current(c: Config, b: Option<Bucket>, t: int): Bucket
  {
    if b.Some? then b.value else Fresh(c, t)
  }

  function BucketAnswers(c: Config, b: Option<Bucket>, ts: seq<int>): seq<bool>
    decreases |ts|
  {
    if ts == [] then [] else
      var (b', ok) := Allow(c, Current(c, b, ts[0]), ts[0]);
      [ok] + BucketAnswers(c, Some(b'), ts[1..])
  }

  function Grants(answers: seq<bool>): nat
  {
    if answers == [] then 0 else (if answers[0] then 1 else 0) + Grants(answers[1..])
  }

  /** A grant is paid out of the level, which is at most the burst and what has accrued. */
  lemma AllowPays(c: Config, b: Bucket, at: int)
    requires b.last <= at
    ensures var (b', ok) := Allow(c, b, at);
      b'.level + (if ok then NANO else 0) <= c.Cap()
          && b'.level + (if ok then NANO else 0) <= b.level + c.rps * (at - b.last)
  {
  }

  lemma AllowFrom(c: Config, b: Bucket, from: int, t: int, to: int)
    requires b.last <= from <= t <= to
    ensures var (b', ok) := Allow(c, b, t);
      && b'.last == t
      && Level(c, b', t) + c.rps * (to - t) + (if ok then NANO else 0) <= Level(c, b, from) + c.rps * (to - from)
  {
    assert c.rps * 0 == 0;
    LevelGrowth(c, b, from, t);
    assert c.rps * (to - from) == c.rps * (to - t) + c.rps * (t - from);
  }

  /** Tokens are conserved: what a bucket grants between `from` and `to` is paid out of
      the level it had plus what accrued. */
  lemma {:induction false} Conservation(c: Config, b: Bucket, ts: seq<int>, from: int, to: int)
    requires b.last <= from <= to && Sorted(ts, from)
    requires forall k :: 0 <= k < |ts| ==> ts[k] <= to
    ensures Grants(BucketAnswers(c, Some(b), ts)) * NANO <= Level(c, b, from) + c.rps * (to - from)
    decreases |ts|
  {
    hide Level, Allow;
    if ts == [] {
      Gain(c.rps, to - from);
    } else {
      var b' := Allow(c, b, ts[0]).0;
      AllowFrom(c, b, from, ts[0], to);
      Conservation(c, b', ts[1..], ts[0], to);
      assert BucketAnswers(c, Some(b), ts)[1..] == BucketAnswers(c, Some(b'), ts[1..]);
    }
  }

  lemma LevelGrowth(c: Config, b: Bucket, t: int, u: int)
    requires b.last <= t <= u
    ensures Level(c, b, u) <= Level(c, b, t) + c.rps * (u - t)
  {
    assert c.rps * (u - b.last) == c.rps * (t - b.last) + c.rps * (u - t);
    Gain(c.rps, u - t);
  }
}
