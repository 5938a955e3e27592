/** The factory-reset gesture against whole histories of evaluations of the reset pair. */
module ResetGesture {
  import opened Wrappers
  import opened Numbers
  import opened Touch
  import TouchHistory

  /** One evaluation: whether both buttons of the pair are confirmed pressed, at a true time. */
  datatype Eval = Eval(both: bool, at: nat)

  ghost predicate Timed(es: seq<Eval>) {
    forall i, j :: 0 <= i < j < |es| ==> es[i].at <= es[j].at
  }

  /** The gesture after the first n evaluations. */
  function After(cfg: TouchConfig, es: seq<Eval>, n: nat): Gesture
    requires n <= |es|
  {
    if n == 0 then IDLE_GESTURE
    else GestureStep(cfg, After(cfg, es, n - 1), es[n - 1].both, Tick(es[n - 1].at)).0
  }

  /** The signals of evaluation i. */
  function SignalsAt(cfg: TouchConfig, es: seq<Eval>, i: nat): seq<Signal>
    requires i < |es|
  {
    GestureStep(cfg, After(cfg, es, i), es[i].both, Tick(es[i].at)).1
  }

  predicate RequestedAt(cfg: TouchConfig, es: seq<Eval>, i: nat)
    requires i < |es|
  {
    ResetRequested in SignalsAt(cfg, es, i)
  }

  function ProgressAt(cfg: TouchConfig, es: seq<Eval>, i: nat): Option<Millis>
    requires i < |es|
  {
    var s := SignalsAt(cfg, es, i);
    if s != [] && s[0].ResetProgress? then Some(s[0].elapsed) else None
  }

  /** Where the unbroken both-held stretch ending at evaluation n began. */
  function HoldStart(es: seq<Eval>, n: nat): (s: nat)
    requires n < |es| && es[n].both
    ensures s <= n
    ensures forall i :: s <= i <= n ==> es[i].both
    ensures s > 0 ==> !es[s - 1].both
  {
    if n == 0 || !es[n - 1].both then n else HoldStart(es, n - 1)
  }

  lemma {:induction false} SameHold(es: seq<Eval>, i: nat, k: nat)
    requires i <= k < |es| && forall m :: i <= m <= k ==> es[m].both
    ensures HoldStart(es, i) == HoldStart(es, k)
  {
    if i < k {
      SameHold(es, i, k - 1);
    }
  }

  /** True span of the hold at evaluation i, as the counter shows it. */
  function Shown(es: seq<Eval>, s: nat, i: nat): Millis
    requires s <= i < |es|
  {
    Tick(es[i].at - es[s].at)
  }

  /** Whether evaluation n, in a hold that began at s, or an earlier one of that hold reaches the
      factory-reset time. */
  ghost predicate Reached(cfg: TouchConfig, es: seq<Eval>, s: nat, n: nat)
    requires s <= n < |es|
  {
    exists i :: s < i <= n && Shown(es, s, i) >= cfg.factoryHoldMs
  }

  /** The state of the gesture after evaluation n is exactly determined by the history: the window is
      open iff the pair is held and the baseline was there when the hold began, it counts from the
      hold's first evaluation, and it has fired iff some evaluation of the hold reached the time. */
  lemma {:induction false} GestureExactly(cfg: TouchConfig, es: seq<Eval>, n: nat)
    requires n < |es| && Timed(es)
    ensures var g := After(cfg, es, n + 1);
            && (g.active <==> es[n].both && After(cfg, es, HoldStart(es, n)).baseline)
            && (g.active ==> g.baseline && g.start == Tick(es[HoldStart(es, n)].at))
            && (g.fired <==> g.active && Reached(cfg, es, HoldStart(es, n), n))
  {
    hide Tick, Elapsed;
    if n > 0 {
      GestureExactly(cfg, es, n - 1);
    }
    if es[n].both {
      var s := HoldStart(es, n);
      TouchHistory.ElapsedIsTrueSpan(es[n].at, es[s].at);
      assert s < n ==> (Reached(cfg, es, s, n) <==>
                        Reached(cfg, es, s, n - 1) || Shown(es, s, n) >= cfg.factoryHoldMs);
    }
  }

  function Times(es: seq<Eval>): (ts: seq<nat>)
    ensures |ts| == |es| && forall i :: 0 <= i < |es| ==> ts[i] == es[i].at
  {
    seq(|es|, i requires 0 <= i < |es| => es[i].at)
  }

  /** The evaluation among the first n that the settle time counts from, or n. */
  function FirstTimed(es: seq<Eval>, n: nat): (f: nat)
    requires n <= |es|
    ensures f <= n && (f < n ==> Tick(es[f].at) != NO_TIME)
    ensures forall i :: 0 <= i < f ==> Tick(es[i].at) == NO_TIME
  {
    TouchHistory.FirstTimed(Times(es), n)
  }

  lemma {:induction false} FirstPoll(cfg: TouchConfig, es: seq<Eval>, n: nat)
    requires n <= |es|
    ensures var f := FirstTimed(es, n);
            !After(cfg, es, n).baseline ==> After(cfg, es, n).firstPoll == if f < n then Tick(es[f].at) else NO_TIME
  {
    hide Tick, Elapsed;
    if n > 0 {
      FirstPoll(cfg, es, n - 1);
    }
  }

  /** Evaluation b sees the pair not both held with the settle time past. */
  predicate SetsBaseline(es: seq<Eval>, b: nat)
    requires b < |es|
  {
    var f := FirstTimed(es, b + 1);
    f <= b && !es[b].both && Tick(es[b].at - es[f].at) >= SETTLE_MS
  }

  lemma BaselineStep(cfg: TouchConfig, es: seq<Eval>, b: nat)
    requires b < |es| && Timed(es)
    ensures After(cfg, es, b + 1).baseline <==> After(cfg, es, b).baseline || SetsBaseline(es, b)
  {
    FirstPoll(cfg, es, b);
    var f := FirstTimed(es, b + 1);
    ElapsedSelf(Tick(es[b].at));
    if f <= b {
      TouchHistory.ElapsedIsTrueSpan(es[b].at, es[f].at);
      TouchHistory.ElapsedIsTrueSpan(es[b].at, es[b].at);
    }
    hide Tick, Elapsed;
  }

  /** The baseline is there exactly if some evaluation so far saw the pair not both held with the settle
      time past. */
  lemma {:induction false} BaselineExactly(cfg: TouchConfig, es: seq<Eval>, n: nat)
    requires n <= |es| && Timed(es)
    ensures After(cfg, es, n).baseline <==> exists b :: 0 <= b < n && SetsBaseline(es, b)
  {
    hide SetsBaseline;
    if n > 0 {
      BaselineExactly(cfg, es, n - 1);
      BaselineStep(cfg, es, n - 1);
      hide After;
    }
  }

  /** In true time: at least 500 ms after the first evaluation. */
  lemma BaselineIsSound(cfg: TouchConfig, es: seq<Eval>, n: nat) returns (b: nat)
    requires n <= |es| && Timed(es) && After(cfg, es, n).baseline
    ensures b < n && !es[b].both && SetsBaseline(es, b) && es[b].at - es[0].at >= SETTLE_MS
  {
    BaselineExactly(cfg, es, n);
    b :| 0 <= b < n && SetsBaseline(es, b);
    var f := FirstTimed(es, b + 1);
    TouchHistory.ElapsedIsTrueSpan(es[b].at, es[f].at);
  }

  lemma ElapsedSelf(t: Millis)
    ensures Elapsed(t, t) == 0
  {
  }

  /** A request is made by exactly the first evaluation of a hold with a baseline that reaches the
      factory-reset time. */
  lemma RequestedExactly(cfg: TouchConfig, es: seq<Eval>, n: nat)
    requires n < |es| && Timed(es)
    ensures RequestedAt(cfg, es, n) <==>
            && es[n].both
            && After(cfg, es, HoldStart(es, n)).baseline
            && HoldStart(es, n) < n
            && Shown(es, HoldStart(es, n), n) >= cfg.factoryHoldMs
            && !Reached(cfg, es, HoldStart(es, n), n - 1)
  {
    hide Tick, Elapsed, After, Reached, RequestedAt, HoldStart;
    RequestOfState(cfg, es, n);
    if n == 0 {
      NothingFirst(cfg, es);
    } else {
      GestureExactly(cfg, es, n - 1);
      if es[n].both && es[n - 1].both {
        SameHold(es, n - 1, n);
        TouchHistory.ElapsedIsTrueSpan(es[n].at, es[HoldStart(es, n)].at);
      }
    }
  }

  lemma RequestOfState(cfg: TouchConfig, es: seq<Eval>, n: nat)
    requires n < |es|
    ensures var g := After(cfg, es, n);
            RequestedAt(cfg, es, n) <==>
            g.baseline && es[n].both && g.active && !g.fired
            && Elapsed(Tick(es[n].at), g.start) >= cfg.factoryHoldMs
  {
    hide Tick, Elapsed, After;
  }

  lemma ProgressOfState(cfg: TouchConfig, es: seq<Eval>, n: nat)
    requires n < |es|
    ensures var g := After(cfg, es, n);
            ProgressAt(cfg, es, n) ==
            if g.baseline && es[n].both && g.active && !g.fired
               && Elapsed(Tick(es[n].at), g.lastProgress) >= cfg.progressEveryMs
            then Some(Elapsed(Tick(es[n].at), g.start)) else None
  {
    hide Tick, Elapsed, After;
  }

  /** Safety: a request is made only after the pair was seen not both held at least 500 ms after the
      first evaluation and then held at every evaluation over a true span of at least the
      factory-reset time. */
  lemma RequestIsSound(cfg: TouchConfig, es: seq<Eval>, n: nat) returns (b: nat, s: nat)
    requires n < |es| && Timed(es) && RequestedAt(cfg, es, n)
    ensures b < s < n && !es[b].both && es[b].at - es[0].at >= SETTLE_MS
    ensures (forall i :: s <= i <= n ==> es[i].both) && es[n].at - es[s].at >= cfg.factoryHoldMs
  {
    hide Tick, Elapsed, After;
    RequestedExactly(cfg, es, n);
    s := HoldStart(es, n);
    b := BaselineIsSound(cfg, es, s);
    TouchHistory.ElapsedIsTrueSpan(es[n].at, es[s].at);
  }

  /** At most one request per continuous both-held stretch. */
  lemma OneRequestPerHold(cfg: TouchConfig, es: seq<Eval>, i: nat, k: nat)
    requires i < k < |es| && Timed(es) && RequestedAt(cfg, es, i) && RequestedAt(cfg, es, k)
    ensures exists m :: i < m < k && !es[m].both
  {
    hide Tick, Elapsed, After, Shown;
    RequestedExactly(cfg, es, i);
    RequestedExactly(cfg, es, k);
    if forall m :: i < m < k ==> es[m].both {
      SameHold(es, i, k);
    }
  }

  /** Liveness: a pair seen released with the settle time past and then held until the counter shows the
      factory-reset time does get its request. */
  lemma RequestIsComplete(cfg: TouchConfig, es: seq<Eval>, b: nat, n: nat)
    requires n < |es| && Timed(es) && es[n].both && b < HoldStart(es, n) < n && SetsBaseline(es, b)
    requires Shown(es, HoldStart(es, n), n) >= cfg.factoryHoldMs
    ensures exists i :: HoldStart(es, n) < i <= n && RequestedAt(cfg, es, i)
  {
    hide After, SetsBaseline, Shown, RequestedAt;
    BaselineExactly(cfg, es, HoldStart(es, n));
    FirstReached(cfg, es, n);
  }

  lemma {:induction false} FirstReached(cfg: TouchConfig, es: seq<Eval>, n: nat)
    requires n < |es| && Timed(es) && es[n].both && HoldStart(es, n) < n
    requires After(cfg, es, HoldStart(es, n)).baseline
    requires Shown(es, HoldStart(es, n), n) >= cfg.factoryHoldMs
    ensures exists i :: HoldStart(es, n) < i <= n && RequestedAt(cfg, es, i)
  {
    hide Tick, Elapsed, After, Shown;
    var s := HoldStart(es, n);
    RequestedExactly(cfg, es, n);
    if Reached(cfg, es, s, n - 1) {
      var i :| s < i <= n - 1 && Shown(es, s, i) >= cfg.factoryHoldMs;
      SameHold(es, i, n);
      FirstReached(cfg, es, i);
    }
  }

  // ----- Staged progress -----

  /** A progress call carries the time held and the total. */
  lemma ProgressSignal(cfg: TouchConfig, es: seq<Eval>, i: nat, held: Millis, total: Millis)
    requires i < |es|
    ensures ResetProgress(held, total) in SignalsAt(cfg, es, i)
            <==> ProgressAt(cfg, es, i) == Some(held) && total == cfg.factoryHoldMs
  {
    hide After, Tick, Elapsed;
  }

  /** Inside an open window the last-progress time is that of the latest evaluation that reported
      progress, or of the hold's first; none has reported since. */
  lemma {:induction false} LastProgress(cfg: TouchConfig, es: seq<Eval>, n: nat) returns (p: nat)
    requires n < |es| && Timed(es) && After(cfg, es, n + 1).active
    ensures es[n].both && HoldStart(es, n) <= p <= n
    ensures After(cfg, es, n + 1).lastProgress == Tick(es[p].at)
    ensures forall i :: p < i <= n ==> ProgressAt(cfg, es, i) == None
  {
    hide Tick, Elapsed;
    GestureExactly(cfg, es, n);
    if After(cfg, es, n).active && ProgressAt(cfg, es, n).None? {
      p := LastProgress(cfg, es, n - 1);
    } else {
      p := n;
    }
  }

  /** Reported progress is the true time held, and two reports within one hold shorter than 2^32 ms
      are at least the reporting interval apart, in time and in value. */
  lemma ProgressIsSpaced(cfg: TouchConfig, es: seq<Eval>, i: nat, k: nat)
    requires i < k < |es| && Timed(es) && forall m :: i <= m <= k ==> es[m].both
    requires ProgressAt(cfg, es, i).Some? && ProgressAt(cfg, es, k).Some?
    requires es[k].at - es[HoldStart(es, k)].at < WRAP
    ensures ProgressAt(cfg, es, i).value == es[i].at - es[HoldStart(es, k)].at
    ensures ProgressAt(cfg, es, k).value == es[k].at - es[HoldStart(es, k)].at
    ensures ProgressAt(cfg, es, k).value - ProgressAt(cfg, es, i).value >= cfg.progressEveryMs
  {
    hide Tick, Elapsed, After, ProgressAt, Reached, HoldStart;
    SameHold(es, i, k);
    var s := HoldStart(es, k);
    ProgressOfState(cfg, es, i);
    ProgressOfState(cfg, es, k);
    assert i > 0 by { NothingFirst(cfg, es); }
    GestureExactly(cfg, es, i - 1);
    GestureExactly(cfg, es, k - 1);
    TouchHistory.ElapsedIsTrueSpan(es[i].at, es[s].at);
    TouchHistory.ElapsedIsTrueSpan(es[k].at, es[s].at);
    var p := LastProgress(cfg, es, k - 1);
    TouchHistory.ElapsedIsTrueSpan(es[k].at, es[p].at);
  }

  lemma NothingFirst(cfg: TouchConfig, es: seq<Eval>)
    requires es != []
    ensures !RequestedAt(cfg, es, 0) && ProgressAt(cfg, es, 0).None?
  {
  }

  /** Progress stops once the request is made. */
  lemma NoProgressAfterRequest(cfg: TouchConfig, es: seq<Eval>, i: nat, k: nat)
    requires i < k < |es| && Timed(es) && RequestedAt(cfg, es, i)
    requires forall m :: i <= m <= k ==> es[m].both
    ensures ProgressAt(cfg, es, k).None?
  {
    hide Tick, Elapsed, After, ProgressAt;
    ProgressOfState(cfg, es, k);
    RequestedExactly(cfg, es, i);
    SameHold(es, i, k - 1);
    GestureExactly(cfg, es, k - 1);
  }
}
