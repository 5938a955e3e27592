/** Reconnect backoff: doubling delays with jitter over the wrapping millisecond counter, and whole
    broker outages of failing connection attempts. */
module Backoffs {
  import opened Numbers
  import opened Touch

  datatype Config = Config(base: Millis, max: Millis, jitterPct: nat)

  /** Base at most max, a percentage, and sizes for which no 32-bit product or sum overflows. */
  ghost predicate Sane(cfg: Config) {
    cfg.base <= cfg.max && cfg.jitterPct <= 100 && cfg.max * cfg.jitterPct < WRAP && 2 * cfg.max < WRAP
  }

  function NextDouble(cfg: Config, d: Millis): Millis { if 2 * d > cfg.max then cfg.max else 2 * d }

  function Span(cfg: Config, d: Millis): nat { d * cfg.jitterPct % WRAP / 100 }

  /** The delay with jitter, in 32-bit arithmetic; the modulus is odd, so never zero. */
  function Jittered(cfg: Config, d: Millis, seed: nat): Millis {
    var span := Span(cfg, d);
    if cfg.jitterPct == 0 || span == 0 then d
    else
      var m := (2 * span + 1) % WRAP;
      assert m % 2 == 1;
      (d - span + seed % m) % WRAP
  }

  /** Overflow-safe "now is at or after target": the signed 32-bit difference is not negative. */
  predicate TimeReached(now: Millis, target: Millis) { (now - target) % WRAP < WRAP / 2 }

  class ReconnectBackoff {
    const cfg: Config
    var current: Millis
    var nextAttempt: Millis
    var armed: bool

    constructor (cfg: Config)
      ensures this.cfg == cfg && State() == Start(cfg)
    {
      this.cfg := cfg;
      current, nextAttempt, armed := cfg.base, 0, false;
    }

    ghost function State(): Backoff
      reads this
    {
      Backoff(current, nextAttempt, armed)
    }

    method OnFailure(now: Millis, seed: nat)
      modifies this
      ensures State() == Failed(cfg, old(State()), now, seed)
    {
      var delay := Jittered(cfg, current, seed);
      nextAttempt := (now + delay) % WRAP;
      current := NextDouble(cfg, current);
      armed := true;
    }

    method OnSuccess()
      modifies this
      ensures State() == Backoff(cfg.base, old(nextAttempt), false)
    {
      current := cfg.base;
      armed := false;
    }

    predicate Ready(now: Millis)
      reads this
    {
      !armed || TimeReached(now, nextAttempt)
    }

    /** One disconnected service tick: an attempt if the backoff allows it, whose outcome is `joins`. */
    method TickDisconnected(now: Millis, seed: nat, joins: bool) returns (attempted: bool)
      modifies this
      ensures attempted == MayTry(old(State()), now)
      ensures !attempted ==> State() == old(State())
      ensures attempted && joins ==> current == cfg.base && !armed
      ensures attempted && !joins ==> State() == Failed(cfg, old(State()), now, seed)
    {
      attempted := Ready(now);
      if attempted {
        if joins {
          OnSuccess();
        } else {
          OnFailure(now, seed);
        }
      }
    }
  }

  // ----- One outage -----

  datatype Backoff = Backoff(current: Millis, nextAttempt: Millis, armed: bool)

  function Start(cfg: Config): Backoff { Backoff(cfg.base, 0, false) }

  function Failed(cfg: Config, b: Backoff, now: Millis, seed: nat): Backoff {
    Backoff(NextDouble(cfg, b.current), (now + Jittered(cfg, b.current, seed)) % WRAP, true)
  }

  predicate MayTry(b: Backoff, now: Millis) { !b.armed || TimeReached(now, b.nextAttempt) }

  /** A disconnected service tick at a true time. */
  datatype Beat = Beat(at: nat, seed: nat)

  /** The backoff, the true times of the failed attempts so far, and the true time the next one was
      scheduled for. */
  datatype Outage = Outage(b: Backoff, fails: seq<nat>, target: nat)

  /** The outage after the first n ticks, every attempt failing, from a backoff reset to its base. */
  function After(cfg: Config, ticks: seq<Beat>, n: nat): Outage
    requires n <= |ticks|
  {
    if n == 0 then Outage(Start(cfg), [], 0)
    else
      var o, t := After(cfg, ticks, n - 1), ticks[n - 1];
      if MayTry(o.b, Tick(t.at))
      then Outage(Failed(cfg, o.b, Tick(t.at), t.seed), o.fails + [t.at],
                  t.at + Jittered(cfg, o.b.current, t.seed))
      else o
  }

  /** The undistorted delay after the k-th consecutive failure, k counted from 0. */
  function Delay(cfg: Config, k: nat): nat {
    var d := cfg.base * Pow2(k); if d > cfg.max then cfg.max else d
  }

  function Deviation(cfg: Config, d: nat): nat { d * cfg.jitterPct / 100 }

  /** The least time that must pass after the first k failures. */
  function LeastWait(cfg: Config, k: nat): nat {
    if k == 0 then 0
    else
      var d := Delay(cfg, k - 1);
      LeastWait(cfg, k - 1) + if Deviation(cfg, d) <= d then d - Deviation(cfg, d) else 0
  }

  lemma DelayDoubles(cfg: Config, k: nat)
    requires Sane(cfg)
    ensures Delay(cfg, k) <= cfg.max
    ensures NextDouble(cfg, Delay(cfg, k)) == Delay(cfg, k + 1)
  {
    assert cfg.base * Pow2(k + 1) == 2 * (cfg.base * Pow2(k));
  }

  /** The scheduled delay lies within the deviation of the undistorted one. */
  lemma JitterIsBounded(cfg: Config, d: Millis, seed: nat)
    requires Sane(cfg) && d <= cfg.max
    ensures Deviation(cfg, d) <= d
    ensures d - Deviation(cfg, d) <= Jittered(cfg, d, seed) <= d + Deviation(cfg, d) < WRAP
  {
    SpanIsDeviation(cfg, d);
    hide Span, Deviation;
    var span := Span(cfg, d);
    if span > 0 && cfg.jitterPct > 0 {
      assert (2 * span + 1) % WRAP == 2 * span + 1;
      var r := seed % (2 * span + 1);
      assert (d - span + r) % WRAP == d - span + r;
    }
  }

  /** The jitter exactly: the seed spread evenly over the deviation on both sides of the delay. */
  lemma JitterExactly(cfg: Config, d: Millis, seed: nat)
    requires Sane(cfg) && d <= cfg.max
    ensures Jittered(cfg, d, seed) == d - Deviation(cfg, d) + seed % (2 * Deviation(cfg, d) + 1)
  {
    SpanIsDeviation(cfg, d);
    hide Deviation;
    var dev := Deviation(cfg, d);
    if cfg.jitterPct == 0 {
      NoJitter(cfg, d);
    }
    assert (2 * dev + 1) % WRAP == 2 * dev + 1;
    var r := seed % (2 * dev + 1);
    assert (d - dev + r) % WRAP == d - dev + r;
  }

  lemma NoJitter(cfg: Config, d: Millis)
    requires cfg.jitterPct == 0
    ensures Deviation(cfg, d) == 0
  {
  }

  lemma SpanIsDeviation(cfg: Config, d: Millis)
    requires Sane(cfg) && d <= cfg.max
    ensures Span(cfg, d) == Deviation(cfg, d) <= d
  {
    var p := d * cfg.jitterPct;
    Monotone(d, cfg.max, cfg.jitterPct);
    Monotone(cfg.jitterPct, 100, d);
    assert p % WRAP == p;
  }

  lemma Monotone(a: nat, b: nat, c: nat)
    requires a <= b
    ensures a * c <= b * c
  {
  }

  /** Within half a turn of the counter the signed comparison tells the true order. */
  lemma ReachedIsTrueOrder(t: nat, target: nat)
    requires -(WRAP / 2) <= t - target < WRAP / 2
    ensures TimeReached(Tick(t), Tick(target)) <==> t >= target
  {
    var d := t - target;
    var a, b := t / WRAP, target / WRAP;
    assert Tick(t) - Tick(target) == d - WRAP * (a - b);
    WholeTurns(d, b - a);
  }

  /** Every tick while a next attempt is scheduled comes within half a turn of the schedule. */
  ghost predicate InReach(cfg: Config, ticks: seq<Beat>) {
    forall n :: 0 <= n < |ticks| ==> Near(cfg, ticks, n)
  }

  ghost predicate Near(cfg: Config, ticks: seq<Beat>, n: nat)
    requires n < |ticks|
  {
    After(cfg, ticks, n).b.armed ==> -(WRAP / 2) <= ticks[n].at - After(cfg, ticks, n).target < WRAP / 2
  }

  /** After k failures the current delay is the k-th doubling capped at max, and the next attempt is
      scheduled within the deviation after the latest failure. */
  lemma {:induction false} ScheduleIsExact(cfg: Config, ticks: seq<Beat>, n: nat)
    requires Sane(cfg) && n <= |ticks|
    ensures var o := After(cfg, ticks, n);
            var k := |o.fails|;
            && o.b.current == Delay(cfg, k) && (o.b.armed <==> k > 0)
            && (k > 0 ==>
                  var d := Delay(cfg, k - 1);
                  && o.b.nextAttempt == Tick(o.target) && Deviation(cfg, d) <= d
                  && d - Deviation(cfg, d) <= o.target - o.fails[k - 1] <= d + Deviation(cfg, d))
  {
    hide Jittered, Delay, Deviation, TimeReached;
    if n == 0 {
      FirstDelay(cfg);
    } else {
      ScheduleIsExact(cfg, ticks, n - 1);
      var o, t := After(cfg, ticks, n - 1), ticks[n - 1];
      DelayDoubles(cfg, |o.fails|);
      JitterIsBounded(cfg, o.b.current, t.seed);
      TickAdds(t.at, Jittered(cfg, o.b.current, t.seed));
    }
  }

  lemma FirstDelay(cfg: Config)
    requires Sane(cfg)
    ensures Delay(cfg, 0) == cfg.base
  {
  }

  lemma TickAdds(t: nat, d: nat)
    ensures (Tick(t) + d) % WRAP == Tick(t + d)
  {
    WholeTurns(Tick(t) + d, t / WRAP);
    assert t + d == Tick(t) + d + WRAP * (t / WRAP);
  }

  /** An attempt is made exactly by the ticks that come at or after the time scheduled for it, the first one at
      once. */
  lemma TriesExactly(cfg: Config, ticks: seq<Beat>, n: nat)
    requires Sane(cfg) && n < |ticks| && Near(cfg, ticks, n)
    ensures var o := After(cfg, ticks, n);
            After(cfg, ticks, n + 1).fails
            == if o.fails == [] || ticks[n].at >= o.target then o.fails + [ticks[n].at] else o.fails
  {
    hide Jittered, Delay, Deviation, TimeReached;
    ScheduleIsExact(cfg, ticks, n);
    var o := After(cfg, ticks, n);
    if o.b.armed {
      ReachedIsTrueOrder(ticks[n].at, o.target);
    }
  }

  /** Each further failure comes no earlier than the least delay after the one before. */
  lemma {:induction false} FailuresAreSpaced(cfg: Config, ticks: seq<Beat>, n: nat, k: nat)
    requires Sane(cfg) && n <= |ticks| && InReach(cfg, ticks) && 0 < k < |After(cfg, ticks, n).fails|
    ensures var fails, d := After(cfg, ticks, n).fails, Delay(cfg, k - 1);
            fails[k] >= fails[k - 1] + d - Deviation(cfg, d)
  {
    hide Jittered, Delay, Deviation, TimeReached;
    var o := After(cfg, ticks, n - 1);
    if k < |o.fails| {
      FailuresAreSpaced(cfg, ticks, n - 1, k);
    } else {
      ScheduleIsExact(cfg, ticks, n - 1);
      assert Near(cfg, ticks, n - 1);
      ReachedIsTrueOrder(ticks[n - 1].at, o.target);
    }
  }

  /** Over a whole outage, the k-th failed attempt after the first comes no earlier than the sum of the
      preceding least delays. */
  lemma {:induction false} OutageIsSpaced(cfg: Config, ticks: seq<Beat>, n: nat, k: nat)
    requires Sane(cfg) && n <= |ticks| && InReach(cfg, ticks) && k < |After(cfg, ticks, n).fails|
    ensures After(cfg, ticks, n).fails[k] >= After(cfg, ticks, n).fails[0] + LeastWait(cfg, k)
  {
    hide Delay, Deviation, After;
    if k > 0 {
      OutageIsSpaced(cfg, ticks, n, k - 1);
      DelayDoubles(cfg, k - 1);
      JitterIsBounded(cfg, Delay(cfg, k - 1), 0);
      FailuresAreSpaced(cfg, ticks, n, k);
    }
  }
}
