/** Debounce and long press against whole sample histories. Samples carry unbounded true time; the
    engine only ever sees it modulo 2^32. */
module TouchHistory {
  import opened Wrappers
  import opened Numbers
  import opened Touch

  datatype Sample = Sample(level: TouchLevel, at: nat)

  ghost predicate Timed(h: seq<Sample>) {
    forall i, j :: 0 <= i < j < |h| ==> h[i].at <= h[j].at
  }

  /** The channel after the first n samples. */
  function After(cfg: TouchConfig, h: seq<Sample>, n: nat): Channel
    requires n <= |h|
  {
    if n == 0 then IDLE_CHANNEL
    else Debounce(cfg, After(cfg, h, n - 1), h[n - 1].level, Tick(h[n - 1].at)).0
  }

  /** What sample n makes the engine announce. */
  function EventAt(cfg: TouchConfig, h: seq<Sample>, n: nat): Option<TouchEvent>
    requires n < |h|
  {
    Debounce(cfg, After(cfg, h, n), h[n].level, Tick(h[n].at)).1
  }

  /** The press is confirmed after sample n. */
  predicate HeldAt(cfg: TouchConfig, h: seq<Sample>, n: nat)
    requires n < |h|
  {
    After(cfg, h, n + 1).stable.Pressed?
  }

  /** Where the unbroken run of equal raw levels ending at sample n begins. */
  function RunStart(h: seq<Sample>, n: nat): (j: nat)
    requires n < |h|
    ensures j <= n
    ensures forall i :: j <= i <= n ==> h[i].level == h[n].level
    ensures j > 0 ==> h[j - 1].level != h[n].level
  {
    if n == 0 || h[n - 1].level != h[n].level then n else RunStart(h, n - 1)
  }

  /** In the run from j to n some sample's time since the run began, as the counter shows it, reaches
      the debounce time. */
  ghost predicate Lasted(cfg: TouchConfig, h: seq<Sample>, j: nat, n: nat)
    requires j <= n < |h|
  {
    exists i :: j < i <= n && Tick(h[i].at - h[j].at) >= cfg.debounceMs
  }

  // ----- The reserved counter value -----

  /** The first of the first n times that is not at the counter value standing for "none yet", or n: the
      one the settle time counts from, in practice the first. */
  function FirstTimed(times: seq<nat>, n: nat): (f: nat)
    requires n <= |times|
    ensures f <= n && (f < n ==> Tick(times[f]) != NO_TIME)
    ensures forall i :: 0 <= i < f ==> Tick(times[i]) == NO_TIME
  {
    if n == 0 then 0
    else
      var f := FirstTimed(times, n - 1);
      if f == n - 1 && Tick(times[n - 1]) == NO_TIME then n else f
  }

  lemma FirstTimedIs(times: seq<nat>, n: nat, f: nat)
    requires f <= n <= |times|
    requires (f < n ==> Tick(times[f]) != NO_TIME) && forall i :: 0 <= i < f ==> Tick(times[i]) == NO_TIME
    ensures FirstTimed(times, n) == f
  {
    hide Tick, FirstTimed;
  }

  // ----- Confirmed levels -----

  /** Unsigned subtraction of counters shows the true span modulo 2^32: exactly, below one wrap. */
  lemma ElapsedIsTrueSpan(t: nat, s: nat)
    requires s <= t
    ensures Elapsed(Tick(t), Tick(s)) == Tick(t - s) <= t - s
    ensures t - s < WRAP ==> Tick(t - s) == t - s
  {
    var a, b, d := t / WRAP, s / WRAP, (t - s) / WRAP;
    assert t == a * WRAP + Tick(t) && s == b * WRAP + Tick(s);
    assert t - s == d * WRAP + Tick(t - s);
    var e := Tick(t) - Tick(s);
    assert e == (d - a + b) * WRAP + Tick(t - s);
  }

  /** The exact confirmed level: the level of the run ending at sample n is confirmed iff it already
      was when the run began or the run lasted. */
  lemma {:induction false} ConfirmedExactly(cfg: TouchConfig, h: seq<Sample>, n: nat)
    requires n < |h| && Timed(h)
    ensures var c, j := After(cfg, h, n + 1), RunStart(h, n);
            && c.candidate == h[n].level
            && (c.stable == h[n].level <==> After(cfg, h, j).stable == h[n].level || Lasted(cfg, h, j, n))
            && (c.stable != h[n].level ==> c.since == Tick(h[j].at))
  {
    hide Tick, Elapsed, Lasted;
    var j := RunStart(h, n);
    assert !Lasted(cfg, h, n, n) by { NoTimeNoRun(cfg, h, n); }
    if n > 0 {
      ConfirmedExactly(cfg, h, n - 1);
    }
    if j < n {
      ElapsedIsTrueSpan(h[n].at, h[j].at);
      LastedStep(cfg, h, j, n);
    }
  }

  lemma NoTimeNoRun(cfg: TouchConfig, h: seq<Sample>, n: nat)
    requires n < |h|
    ensures !Lasted(cfg, h, n, n)
  {
  }

  lemma LastedStep(cfg: TouchConfig, h: seq<Sample>, j: nat, n: nat)
    requires j < n < |h|
    ensures Lasted(cfg, h, j, n) <==>
            Lasted(cfg, h, j, n - 1) || Tick(h[n].at - h[j].at) >= cfg.debounceMs
  {
  }

  /** Soundness: a press or release is announced only if every sample over a true span of at least
      the debounce time had the new level. */
  lemma ConfirmIsSound(cfg: TouchConfig, h: seq<Sample>, n: nat) returns (j: nat)
    requires n < |h| && Timed(h) && EventAt(cfg, h, n) in {Some(Press), Some(Release)}
    ensures j < n && h[n].at - h[j].at >= cfg.debounceMs
    ensures var level := if EventAt(cfg, h, n) == Some(Press) then Pressed else Released;
            After(cfg, h, n + 1).stable == level && forall i :: j <= i <= n ==> h[i].level == level
  {
    hide Tick, Elapsed;
    j := RunStart(h, n);
    if n > 0 {
      ConfirmedExactly(cfg, h, n - 1);
      ElapsedIsTrueSpan(h[n].at, h[j].at);
    }
  }

  /** Completeness: a sample that is not the first of its run, in a run that has lasted at least the
      debounce time and less than 2^32 ms, leaves its level confirmed. */
  lemma ConfirmIsComplete(cfg: TouchConfig, h: seq<Sample>, n: nat)
    requires n < |h| && Timed(h) && RunStart(h, n) < n
    requires cfg.debounceMs <= h[n].at - h[RunStart(h, n)].at < WRAP
    ensures After(cfg, h, n + 1).stable == h[n].level
  {
    hide Tick, Elapsed, After, Lasted;
    var j := RunStart(h, n);
    LastedStep(cfg, h, j, n);
    ElapsedIsTrueSpan(h[n].at, h[j].at);
    ConfirmedExactly(cfg, h, n);
  }

  /** The bound is needed: two samples exactly 2^32 ms apart look simultaneous. */
  lemma WrapHidesAHold(cfg: TouchConfig)
    requires cfg.debounceMs > 0
    ensures After(cfg, [Sample(Pressed, 0), Sample(Pressed, WRAP)], 2).stable == Released
  {
    assert After(cfg, [Sample(Pressed, 0), Sample(Pressed, WRAP)], 1) == Channel(Released, Pressed, 0, false);
  }

  // ----- The order of events -----

  /** What a listener of one channel is in the middle of; Broken if it was told something that does
      not fit: a second press without a release, a second long press within one press, and so on. */
  datatype Phase = Up | Down | LongDown | Broken

  function Hears(p: Phase, e: Option<TouchEvent>): Phase {
    match (p, e)
    case (_, None) => p
    case (Up, Some(Press)) => Down
    case (Down, Some(LongPress)) => LongDown
    case (Down, Some(Release)) => Up
    case (LongDown, Some(Release)) => Up
    case _ => Broken
  }

  /** The listener's phase after the events of the first n samples. */
  function PhaseAfter(cfg: TouchConfig, h: seq<Sample>, n: nat): Phase
    requires n <= |h|
  {
    if n == 0 then Up else Hears(PhaseAfter(cfg, h, n - 1), EventAt(cfg, h, n - 1))
  }

  /** Presses and releases strictly alternate, beginning with a press, and a long press comes at most
      once within each press, after it and before its release. */
  lemma {:induction false} EventsAlternate(cfg: TouchConfig, h: seq<Sample>, n: nat)
    requires n <= |h|
    ensures var c := After(cfg, h, n);
            && (c.longFired ==> c.stable.Pressed?)
            && PhaseAfter(cfg, h, n)
               == if c.longFired then LongDown else if c.stable.Pressed? then Down else Up
  {
    if n > 0 {
      EventsAlternate(cfg, h, n - 1);
    }
  }

  // ----- Long presses -----

  /** While a confirmed press reads pressed, its timer started at a sample of the current unbroken
      run, the press being confirmed since; that sample is the run's first or the confirming one. */
  lemma {:induction false} HoldTimer(cfg: TouchConfig, h: seq<Sample>, n: nat) returns (i: nat)
    requires n < |h| && h[n].level.Pressed? && HeldAt(cfg, h, n)
    ensures RunStart(h, n) <= i <= n && After(cfg, h, n + 1).since == Tick(h[i].at)
    ensures forall k :: i <= k <= n ==> HeldAt(cfg, h, k)
    ensures i == RunStart(h, n) || !HeldAt(cfg, h, i - 1)
  {
    hide Tick, Elapsed;
    if RunStart(h, n) == n || !HeldAt(cfg, h, n - 1) {
      i := n;
      if n > 0 {
        assert After(cfg, h, n).candidate == h[n - 1].level;
      }
    } else {
      i := HoldTimer(cfg, h, n - 1);
    }
  }

  /** A long press is announced only after a true span of at least the long-press time over which
      every sample read pressed and the press was confirmed; a glitch restarts the span. */
  lemma LongPressIsSound(cfg: TouchConfig, h: seq<Sample>, n: nat) returns (i: nat)
    requires n < |h| && Timed(h) && EventAt(cfg, h, n) == Some(LongPress)
    ensures i <= n && h[n].at - h[i].at >= cfg.longPressMs
    ensures forall k :: i <= k <= n ==> h[k].level.Pressed? && HeldAt(cfg, h, k)
  {
    hide Tick, Elapsed;
    i := HoldTimer(cfg, h, n);
    ElapsedIsTrueSpan(h[n].at, h[i].at);
  }

  /** A confirmed press that has read pressed for the long-press time since sample c, in an unbroken
      run shorter than 2^32 ms, has been announced as long. */
  lemma LongPressIsComplete(cfg: TouchConfig, h: seq<Sample>, c: nat, n: nat)
    requires c < n < |h| && Timed(h) && h[n].level.Pressed?
    requires RunStart(h, n) <= c && HeldAt(cfg, h, c)
    requires cfg.longPressMs <= h[n].at - h[c].at
    requires h[n].at - h[RunStart(h, n)].at < WRAP
    ensures After(cfg, h, n + 1).longFired
  {
    hide *;
    StaysConfirmed(cfg, h, c, n - 1);
    SameRun(h, n);
    var i := HoldTimer(cfg, h, n - 1);
    if i > c {
      StaysConfirmed(cfg, h, c, i - 1);
      assert false;
    }
    InOrder(h, RunStart(h, n), i);
    InOrder(h, i, c);
    ElapsedIsTrueSpan(h[n].at, h[i].at);
    FiredByNow(cfg, h, n);
  }

  lemma InOrder(h: seq<Sample>, i: nat, j: nat)
    requires i <= j < |h| && Timed(h)
    ensures h[i].at <= h[j].at
  {
  }

  lemma SameRun(h: seq<Sample>, n: nat)
    requires 0 < n < |h| && h[n - 1].level == h[n].level
    ensures RunStart(h, n) == RunStart(h, n - 1)
  {
  }

  lemma FiredByNow(cfg: TouchConfig, h: seq<Sample>, n: nat)
    requires 0 < n < |h| && h[n].level.Pressed? && h[n - 1].level.Pressed? && HeldAt(cfg, h, n - 1)
    requires Elapsed(Tick(h[n].at), After(cfg, h, n).since) >= cfg.longPressMs
    ensures After(cfg, h, n + 1).longFired
  {
    hide Tick, Elapsed;
    assert After(cfg, h, n).candidate == h[n - 1].level;
  }

  lemma {:induction false} StaysConfirmed(cfg: TouchConfig, h: seq<Sample>, c: nat, n: nat)
    requires c <= n < |h| && HeldAt(cfg, h, c)
    requires forall i :: c <= i <= n ==> h[i].level.Pressed?
    ensures HeldAt(cfg, h, n)
  {
    if c < n {
      StaysConfirmed(cfg, h, c, n - 1);
    }
  }
}
