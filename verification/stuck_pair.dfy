/** A reset pair whose pads read pressed from the first scan and are never released: when exactly the
    boot-time protection keeps the factory reset from firing. */
module StuckPair {
  import opened Numbers
  import opened RelayTypes
  import opened Touch
  import opened TouchScans
  import TouchHistory
  import ResetGesture

  /** Both pads of the reset pair read pressed in every scan. */
  ghost predicate Stuck(cfg: TouchConfig, count: nat, scans: seq<Scan>) {
    && ValidScans(count, scans) && PairValid(cfg, count) && scans != []
    && forall k :: 0 <= k < |scans| ==>
         scans[k].levels[cfg.resetA].Pressed? && scans[k].levels[cfg.resetB].Pressed?
  }

  function ScanTimes(scans: seq<Scan>): (ts: seq<nat>)
    ensures |ts| == |scans| && forall i :: 0 <= i < |scans| ==> ts[i] == scans[i].at
  {
    seq(|scans|, i requires 0 <= i < |scans| => scans[i].at)
  }

  /** The scan among the first k that the settle time counts from, or k. */
  function FirstTimedScan(scans: seq<Scan>, k: nat): (j: nat)
    requires k <= |scans|
    ensures j <= k && (j < k ==> Tick(scans[j].at) != NO_TIME)
    ensures forall i :: 0 <= i < j ==> Tick(scans[i].at) == NO_TIME
  {
    TouchHistory.FirstTimed(ScanTimes(scans), k)
  }

  /** Scan w, not the first, shows the debounce time since the first. */
  ghost predicate Debounced(cfg: TouchConfig, scans: seq<Scan>, w: int) {
    0 < w < |scans| && Tick(scans[w].at - scans[0].at) >= cfg.debounceMs
  }

  /** Scan i shows the settle time past, and no earlier scan shows the debounce time. */
  ghost predicate Arms(cfg: TouchConfig, scans: seq<Scan>, i: nat) {
    && i < |scans| && FirstTimedScan(scans, i + 1) <= i
    && Tick(scans[i].at - scans[FirstTimedScan(scans, i + 1)].at) >= SETTLE_MS
    && forall w :: 0 < w < i ==> !Debounced(cfg, scans, w)
  }

  /** A scan other than the first falls between the debounce time and the settle time. */
  ghost predicate InWindow(cfg: TouchConfig, scans: seq<Scan>, w: int)
    requires scans != []
  {
    && Debounced(cfg, scans, w) && FirstTimedScan(scans, |scans|) < |scans|
    && scans[w].at - scans[FirstTimedScan(scans, |scans|)].at < SETTLE_MS
  }

  ghost predicate Confirmed(cfg: TouchConfig, count: nat, scans: seq<Scan>, ch: nat, k: nat)
    requires ValidScans(count, scans) && ch < count && k <= |scans|
  {
    AfterScans(cfg, count, scans, k).channels[ch].stable.Pressed?
  }

  ghost predicate BothConfirmed(cfg: TouchConfig, count: nat, scans: seq<Scan>, k: nat)
    requires Stuck(cfg, count, scans) && k <= |scans|
  {
    Confirmed(cfg, count, scans, cfg.resetA, k) && Confirmed(cfg, count, scans, cfg.resetB, k)
  }

  lemma {:induction false} OneLongRun(h: seq<TouchHistory.Sample>, n: nat)
    requires n < |h| && forall i :: 0 <= i <= n ==> h[i].level.Pressed?
    ensures TouchHistory.RunStart(h, n) == 0
  {
    if n > 0 {
      OneLongRun(h, n - 1);
    }
  }

  /** A stuck pad is confirmed after k scans iff one of them, not the first, came at least the debounce
      time after the first. */
  lemma StuckConfirmed(cfg: TouchConfig, count: nat, scans: seq<Scan>, ch: nat, k: nat)
    requires Stuck(cfg, count, scans) && ch in {cfg.resetA, cfg.resetB} && k <= |scans|
    ensures Confirmed(cfg, count, scans, ch, k) <==>
            exists i :: 0 < i < k && Debounced(cfg, scans, i)
  {
    hide Tick, AfterScans, TouchHistory.Lasted;
    ChannelSeesItsHistory(cfg, count, scans, ch, k);
    var h := SamplesOf(scans, ch);
    assert TouchHistory.After(cfg, h, 0).stable == Released;
    hide TouchHistory.After, Debounced;
    if k > 0 {
      AfterOneRun(cfg, h, k - 1);
      LastedInScans(cfg, scans, ch, k - 1);
    }
  }

  lemma AfterOneRun(cfg: TouchConfig, h: seq<TouchHistory.Sample>, n: nat)
    requires n < |h| && TouchHistory.Timed(h) && forall i :: 0 <= i <= n ==> h[i].level.Pressed?
    ensures TouchHistory.After(cfg, h, n + 1).stable.Pressed? <==> TouchHistory.Lasted(cfg, h, 0, n)
  {
    assert TouchHistory.After(cfg, h, 0).stable == Released;
    hide TouchHistory.After, TouchHistory.Lasted;
    OneLongRun(h, n);
    TouchHistory.ConfirmedExactly(cfg, h, n);
  }

  lemma LastedInScans(cfg: TouchConfig, scans: seq<Scan>, ch: nat, n: nat)
    requires n < |scans| && forall i :: 0 <= i < |scans| ==> ch < |scans[i].levels|
    ensures TouchHistory.Lasted(cfg, SamplesOf(scans, ch), 0, n) <==>
            exists i :: 0 < i <= n && Debounced(cfg, scans, i)
  {
    hide Tick;
    var h := SamplesOf(scans, ch);
    assert forall i :: 0 <= i <= n ==> h[i].at == scans[i].at;
    if TouchHistory.Lasted(cfg, h, 0, n) {
      var i :| 0 < i <= n && Tick(h[i].at - h[0].at) >= cfg.debounceMs;
      assert Debounced(cfg, scans, i);
    }
    if i :| 0 < i <= n && Debounced(cfg, scans, i) {
      assert Tick(h[i].at - h[0].at) >= cfg.debounceMs;
    }
  }

  lemma StaysBothConfirmed(cfg: TouchConfig, count: nat, scans: seq<Scan>, j: nat, k: nat)
    requires Stuck(cfg, count, scans) && j <= k <= |scans| && BothConfirmed(cfg, count, scans, j)
    ensures BothConfirmed(cfg, count, scans, k)
  {
    hide Tick, Confirmed;
    StuckConfirmed(cfg, count, scans, cfg.resetA, j);
    StuckConfirmed(cfg, count, scans, cfg.resetB, j);
    StuckConfirmed(cfg, count, scans, cfg.resetA, k);
    StuckConfirmed(cfg, count, scans, cfg.resetB, k);
  }

  /** Once both pads are confirmed, every later evaluation sees the pair held. */
  lemma ScanHeld(cfg: TouchConfig, count: nat, scans: seq<Scan>, k: nat, c: nat)
    requires Stuck(cfg, count, scans) && k < |scans| && c <= count && BothConfirmed(cfg, count, scans, k)
    ensures forall i :: 0 <= i < c ==>
              EvalsUpTo(cfg, AfterScans(cfg, count, scans, k), scans[k].levels, scans[k].at, c)[i].both
  {
    hide Tick, AfterScans, Polled;
    var e, now := AfterScans(cfg, count, scans, k), Tick(scans[k].at);
    if c > 0 {
      ScanHeld(cfg, count, scans, k, c - 1);
      ScanTouchesOnce(cfg, e, scans[k].levels, now, c, cfg.resetA);
      ScanTouchesOnce(cfg, e, scans[k].levels, now, c, cfg.resetB);
      assert BothHeld(cfg, ScanUpTo(cfg, e, scans[k].levels, now, c));
    }
  }

  lemma {:induction false} LaterHeld(cfg: TouchConfig, count: nat, scans: seq<Scan>, j: nat, k: nat)
    requires Stuck(cfg, count, scans) && j <= k <= |scans| && BothConfirmed(cfg, count, scans, j)
    ensures EvalsOf(cfg, count, scans, j) <= EvalsOf(cfg, count, scans, k)
    ensures forall i :: |EvalsOf(cfg, count, scans, j)| <= i < |EvalsOf(cfg, count, scans, k)| ==>
              EvalsOf(cfg, count, scans, k)[i].both
  {
    hide Tick, AfterScans, BothConfirmed, ScanUpTo, EvalsUpTo;
    if j < k {
      LaterHeld(cfg, count, scans, j, k - 1);
      StaysBothConfirmed(cfg, count, scans, j, k - 1);
      ScanHeld(cfg, count, scans, k - 1, count);
    }
  }

  /** The evaluation index b belongs to scan i. */
  lemma {:induction false} ScanOf(cfg: TouchConfig, count: nat, scans: seq<Scan>, k: nat, b: nat) returns (i: nat)
    requires Stuck(cfg, count, scans) && k <= |scans| && b < |EvalsOf(cfg, count, scans, k)|
    ensures i < k && |EvalsOf(cfg, count, scans, i)| <= b < |EvalsOf(cfg, count, scans, i + 1)|
    ensures EvalsOf(cfg, count, scans, k)[b].at == scans[i].at
  {
    hide Tick, AfterScans, ScanUpTo;
    if b < |EvalsOf(cfg, count, scans, k - 1)| {
      i := ScanOf(cfg, count, scans, k - 1, b);
    } else {
      i := k - 1;
    }
  }

  lemma FirstTimedPlus(prev: seq<ResetGesture.Eval>, more: seq<ResetGesture.Eval>, at: nat)
    requires more != [] && forall i :: 0 <= i < |more| ==> more[i].at == at
    ensures var es, f := prev + more, ResetGesture.FirstTimed(prev, |prev|);
            ResetGesture.FirstTimed(es, |es|)
            == if f < |prev| then f else if Tick(at) == NO_TIME then |es| else |prev|
  {
    hide Tick, ResetGesture.Times;
    var es, f := prev + more, ResetGesture.FirstTimed(prev, |prev|);
    var g := if f < |prev| then f else if Tick(at) == NO_TIME then |es| else |prev|;
    assert forall i :: 0 <= i < |es| ==> es[i].at == if i < |prev| then prev[i].at else at;
    TouchHistory.FirstTimedIs(ResetGesture.Times(es), |es|, g);
  }

  lemma FirstTimedScanStep(scans: seq<Scan>, k: nat)
    requires 0 < k <= |scans|
    ensures var j := FirstTimedScan(scans, k - 1);
            FirstTimedScan(scans, k) == if j < k - 1 then j else if Tick(scans[k - 1].at) == NO_TIME then k else k - 1
  {
    hide Tick;
  }

  /** The settle time counts from the first timed scan in both histories. */
  lemma {:induction false} TimedAlike(cfg: TouchConfig, count: nat, scans: seq<Scan>, k: nat)
    requires Stuck(cfg, count, scans) && k <= |scans|
    ensures var es, j := EvalsOf(cfg, count, scans, k), FirstTimedScan(scans, k);
            var f := ResetGesture.FirstTimed(es, |es|);
            if j < k then f < |es| && es[f].at == scans[j].at else f == |es|
  {
    hide Tick, AfterScans, ScanUpTo, EvalsUpTo, ResetGesture.FirstTimed, FirstTimedScan;
    if k > 0 {
      TimedAlike(cfg, count, scans, k - 1);
      var more := EvalsUpTo(cfg, AfterScans(cfg, count, scans, k - 1), scans[k - 1].levels, scans[k - 1].at, count);
      FirstTimedPlus(EvalsOf(cfg, count, scans, k - 1), more, scans[k - 1].at);
      FirstTimedScanStep(scans, k);
    }
  }

  lemma FirstTimedOfPrefix(es: seq<ResetGesture.Eval>, m: nat, n: nat)
    requires m <= n <= |es|
    ensures ResetGesture.FirstTimed(es, m) == (var f := ResetGesture.FirstTimed(es, n); if f < m then f else m)
  {
    hide Tick, ResetGesture.FirstTimed;
    var f := ResetGesture.FirstTimed(es, n);
    TouchHistory.FirstTimedIs(ResetGesture.Times(es), m, if f < m then f else m);
  }

  lemma FirstTimedAgrees(es: seq<ResetGesture.Eval>, fs: seq<ResetGesture.Eval>, n: nat)
    requires n <= |es| && n <= |fs| && es[..n] == fs[..n]
    ensures ResetGesture.FirstTimed(es, n) == ResetGesture.FirstTimed(fs, n)
  {
    hide Tick, ResetGesture.FirstTimed;
    var f := ResetGesture.FirstTimed(fs, n);
    assert forall i :: 0 <= i < n ==> es[i] == es[..n][i] == fs[..n][i] == fs[i];
    TouchHistory.FirstTimedIs(ResetGesture.Times(es), n, f);
  }

  lemma SetsBaselineAgrees(es: seq<ResetGesture.Eval>, fs: seq<ResetGesture.Eval>, b: nat)
    requires b < |es| && es <= fs
    ensures ResetGesture.SetsBaseline(es, b) <==> ResetGesture.SetsBaseline(fs, b)
  {
    hide Tick, ResetGesture.FirstTimed;
    FirstTimedAgrees(es, fs, b + 1);
  }

  /** Unless an earlier scan shows the debounce time, a scan's first evaluation finds the pair not held. */
  lemma FirstEvalNotHeld(cfg: TouchConfig, count: nat, scans: seq<Scan>, i: nat)
    requires Stuck(cfg, count, scans) && i < |scans| && forall w :: 0 < w < i ==> !Debounced(cfg, scans, w)
    ensures !EvalsUpTo(cfg, AfterScans(cfg, count, scans, i), scans[i].levels, scans[i].at, count)[0].both
  {
    hide Tick, AfterScans, Polled, Debounced;
    var hi := if cfg.resetA < cfg.resetB then cfg.resetB else cfg.resetA;
    StuckConfirmed(cfg, count, scans, hi, i);
    var e, now := AfterScans(cfg, count, scans, i), Tick(scans[i].at);
    ScanTouchesOnce(cfg, e, scans[i].levels, now, 1, hi);
    FirstEval(cfg, e, scans[i].levels, scans[i].at, count);
  }

  lemma {:induction false} FirstEval(cfg: TouchConfig, e: Engine, levels: seq<TouchLevel>, at: nat, c: nat)
    requires 0 < c <= |levels| <= |e.channels| == MAX_CHANNELS && PairValid(cfg, |levels|)
    ensures EvalsUpTo(cfg, e, levels, at, c)[0].both == BothHeld(cfg, ScanUpTo(cfg, e, levels, Tick(at), 1))
  {
    hide Tick, Polled;
    if c > 1 {
      FirstEval(cfg, e, levels, at, c - 1);
    }
  }

  lemma {:induction false} EvalsGrow(cfg: TouchConfig, count: nat, scans: seq<Scan>, j: nat, k: nat)
    requires Stuck(cfg, count, scans) && j <= k <= |scans|
    ensures EvalsOf(cfg, count, scans, j) <= EvalsOf(cfg, count, scans, k)
  {
    hide Tick, AfterScans, EvalsUpTo;
    if j < k {
      EvalsGrow(cfg, count, scans, j, k - 1);
    }
  }

  /** The first evaluation of scan i, in any longer history. */
  lemma FirstOfScan(cfg: TouchConfig, count: nat, scans: seq<Scan>, i: nat, k: nat)
    requires Stuck(cfg, count, scans) && i < k <= |scans|
    ensures var es, b := EvalsOf(cfg, count, scans, k), |EvalsOf(cfg, count, scans, i)|;
            && b < |es| && es[b].at == scans[i].at
            && es[b] == EvalsUpTo(cfg, AfterScans(cfg, count, scans, i), scans[i].levels, scans[i].at, count)[0]
  {
    hide Tick, AfterScans, EvalsUpTo;
    var more := EvalsUpTo(cfg, AfterScans(cfg, count, scans, i), scans[i].levels, scans[i].at, count);
    assert EvalsOf(cfg, count, scans, i + 1) == EvalsOf(cfg, count, scans, i) + more;
    hide EvalsOf, Stuck;
    EvalsGrow(cfg, count, scans, i + 1, k);
  }

  /** A scan that arms does so with its first evaluation. */
  lemma ArmingSetsBaseline(cfg: TouchConfig, count: nat, scans: seq<Scan>, i: nat, k: nat)
    requires Stuck(cfg, count, scans) && i < k <= |scans| && Arms(cfg, scans, i)
    ensures var es, b := EvalsOf(cfg, count, scans, k), |EvalsOf(cfg, count, scans, i)|;
            b < |es| && ResetGesture.SetsBaseline(es, b)
  {
    hide Arms, Tick, AfterScans, EvalsOf, EvalsUpTo, FirstTimedScan, ResetGesture.SetsBaseline, Debounced;
    ArmsSpan(cfg, scans, i);
    FirstEvalNotHeld(cfg, count, scans, i);
    FirstOfScan(cfg, count, scans, i, k);
    FirstTimedBefore(cfg, count, scans, i, k);
    hide Stuck;
    SetsBaselineFrom(EvalsOf(cfg, count, scans, k), |EvalsOf(cfg, count, scans, i)|);
  }

  lemma ArmsSpan(cfg: TouchConfig, scans: seq<Scan>, i: nat)
    requires Arms(cfg, scans, i)
    ensures i < |scans| && FirstTimedScan(scans, i) < i && forall w :: 0 < w < i ==> !Debounced(cfg, scans, w)
    ensures Tick(scans[i].at - scans[FirstTimedScan(scans, i)].at) >= SETTLE_MS
  {
    var j := FirstTimedScan(scans, i + 1);
    assert j < i;
    TouchHistory.FirstTimedIs(ScanTimes(scans), i, j);
  }

  lemma SetsBaselineFrom(es: seq<ResetGesture.Eval>, b: nat)
    requires b < |es| && !es[b].both && ResetGesture.FirstTimed(es, b + 1) <= b
    requires Tick(es[b].at - es[ResetGesture.FirstTimed(es, b + 1)].at) >= SETTLE_MS
    ensures ResetGesture.SetsBaseline(es, b)
  {
    hide Tick, ResetGesture.FirstTimed;
  }

  lemma FirstTimedBefore(cfg: TouchConfig, count: nat, scans: seq<Scan>, i: nat, k: nat)
    requires Stuck(cfg, count, scans) && i < k <= |scans| && FirstTimedScan(scans, i) < i
    ensures var es, b := EvalsOf(cfg, count, scans, k), |EvalsOf(cfg, count, scans, i)|;
            && b < |es| && ResetGesture.FirstTimed(es, b + 1) < b
            && es[ResetGesture.FirstTimed(es, b + 1)].at == scans[FirstTimedScan(scans, i)].at
  {
    hide Tick, AfterScans, EvalsOf, EvalsUpTo, FirstTimedScan, ResetGesture.FirstTimed;
    var es, early := EvalsOf(cfg, count, scans, k), EvalsOf(cfg, count, scans, i);
    FirstOfScan(cfg, count, scans, i, k);
    TimedAlike(cfg, count, scans, i);
    EvalsGrow(cfg, count, scans, i, k);
    hide Stuck;
    FirstTimedAgrees(es, early, |early|);
    FirstTimedOfPrefix(es, |early|, |early| + 1);
  }

  /** An evaluation that sets the baseline belongs to a scan that arms. */
  lemma BaselineArms(cfg: TouchConfig, count: nat, scans: seq<Scan>, k: nat, b: nat) returns (i: nat)
    requires Stuck(cfg, count, scans) && k <= |scans| && b < |EvalsOf(cfg, count, scans, k)|
    requires ResetGesture.SetsBaseline(EvalsOf(cfg, count, scans, k), b)
    ensures i < k && Arms(cfg, scans, i)
  {
    hide Tick, AfterScans, EvalsOf, EvalsUpTo, FirstTimedScan, ResetGesture.FirstTimed, BothConfirmed;
    var es := EvalsOf(cfg, count, scans, k);
    i := ScanOf(cfg, count, scans, k, b);
    var part := EvalsOf(cfg, count, scans, i + 1);
    EvalsGrow(cfg, count, scans, i + 1, k);
    TimedAlike(cfg, count, scans, i + 1);
    FirstTimedAgrees(es, part, b + 1);
    FirstTimedOfPrefix(part, b + 1, |part|);
    forall w | 0 < w < i ensures !Debounced(cfg, scans, w) {
      if Debounced(cfg, scans, w) {
        DebouncedConfirms(cfg, count, scans, w);
        LaterHeld(cfg, count, scans, w + 1, k);
        EvalsGrow(cfg, count, scans, w + 1, i);
      }
    }
  }

  lemma DebouncedConfirms(cfg: TouchConfig, count: nat, scans: seq<Scan>, w: nat)
    requires Stuck(cfg, count, scans) && Debounced(cfg, scans, w)
    ensures BothConfirmed(cfg, count, scans, w + 1)
  {
    hide Confirmed, Tick;
    StuckConfirmed(cfg, count, scans, cfg.resetA, w + 1);
    StuckConfirmed(cfg, count, scans, cfg.resetB, w + 1);
  }

  /** The boot-time protection arms a stuck pair exactly when some scan shows the settle time past before
      any earlier scan but the first showed the debounce time. */
  lemma StuckPairArmsExactly(cfg: TouchConfig, count: nat, scans: seq<Scan>, n: nat)
    requires Stuck(cfg, count, scans) && n <= |scans|
    ensures AfterScans(cfg, count, scans, n).gesture.baseline <==> exists i :: 0 <= i < n && Arms(cfg, scans, i)
  {
    hide Tick, AfterScans, EvalsOf, Arms, ResetGesture.SetsBaseline, ResetGesture.After;
    var es := EvalsOf(cfg, count, scans, n);
    PairSeesItsHistory(cfg, count, scans, n);
    ResetGesture.BaselineExactly(cfg, es, |es|);
    if b :| 0 <= b < |es| && ResetGesture.SetsBaseline(es, b) {
      var i := BaselineArms(cfg, count, scans, n, b);
    }
    if i :| 0 <= i < n && Arms(cfg, scans, i) {
      ArmingSetsBaseline(cfg, count, scans, i, n);
    }
  }

  /** A scan in the window keeps every scan from arming. */
  lemma WindowProtects(cfg: TouchConfig, scans: seq<Scan>, w: nat, i: nat)
    requires scans != [] && InWindow(cfg, scans, w)
    requires forall a, b :: 0 <= a < b < |scans| ==> scans[a].at <= scans[b].at
    ensures !Arms(cfg, scans, i)
  {
    if Arms(cfg, scans, i) {
      var j := FirstTimedScan(scans, i + 1);
      TouchHistory.FirstTimedIs(ScanTimes(scans), |scans|, j);
      hide FirstTimedScan;
      assert i <= w;
      assert scans[i].at <= scans[w].at;
      TouchHistory.ElapsedIsTrueSpan(scans[i].at, scans[j].at);
    }
  }

  /** In true time, over runs shorter than 2^32 ms: armed exactly when some scan comes at least the settle
      time after the first timed one and none but the first falls in the window. */
  lemma StuckPairArmsInTime(cfg: TouchConfig, count: nat, scans: seq<Scan>)
    requires Stuck(cfg, count, scans) && scans[|scans| - 1].at - scans[0].at < WRAP
    ensures var n, j := |scans|, FirstTimedScan(scans, |scans|);
            AfterScans(cfg, count, scans, n).gesture.baseline <==>
            j < n && scans[n - 1].at - scans[j].at >= SETTLE_MS && !exists w :: InWindow(cfg, scans, w)
  {
    hide AfterScans, Arms, FirstTimedScan, InWindow, Tick;
    StuckPairArmsExactly(cfg, count, scans, |scans|);
    if i :| 0 <= i < |scans| && Arms(cfg, scans, i) {
      ArmedInTime(cfg, scans, i);
    }
    var n, j := |scans|, FirstTimedScan(scans, |scans|);
    if j < n && scans[n - 1].at - scans[j].at >= SETTLE_MS && !exists w :: InWindow(cfg, scans, w) {
      var i := FirstLate(scans, j, n - 1);
      ArmsLate(cfg, scans, j, i);
    }
  }

  lemma ArmedInTime(cfg: TouchConfig, scans: seq<Scan>, i: nat)
    requires Arms(cfg, scans, i) && forall a, b :: 0 <= a < b < |scans| ==> scans[a].at <= scans[b].at
    ensures var n, j := |scans|, FirstTimedScan(scans, |scans|);
            j < n && scans[n - 1].at - scans[j].at >= SETTLE_MS && !exists w :: InWindow(cfg, scans, w)
  {
    var n, j := |scans|, FirstTimedScan(scans, i + 1);
    TouchHistory.FirstTimedIs(ScanTimes(scans), n, j);
    TouchHistory.ElapsedIsTrueSpan(scans[i].at, scans[j].at);
    assert scans[i].at <= scans[n - 1].at;
    hide FirstTimedScan, InWindow, Tick;
    if w :| InWindow(cfg, scans, w) {
      WindowIndex(cfg, scans, w);
      WindowProtects(cfg, scans, w, i);
    }
  }

  lemma ArmsLate(cfg: TouchConfig, scans: seq<Scan>, j: nat, i: nat)
    requires j < i < |scans| && j == FirstTimedScan(scans, |scans|) && !exists w :: InWindow(cfg, scans, w)
    requires (forall a, b :: 0 <= a < b < |scans| ==> scans[a].at <= scans[b].at) && scans[i].at - scans[0].at < WRAP
    requires scans[i].at - scans[j].at >= SETTLE_MS && forall w :: 0 < w < i ==> scans[w].at - scans[j].at < SETTLE_MS
    ensures Arms(cfg, scans, i)
  {
    TouchHistory.FirstTimedIs(ScanTimes(scans), i + 1, j);
    hide FirstTimedScan;
    TouchHistory.ElapsedIsTrueSpan(scans[i].at, scans[j].at);
    forall w | 0 < w < i ensures !Debounced(cfg, scans, w) {
      assert !InWindow(cfg, scans, w);
    }
  }

  /** The first scan at least the settle time after scan j. */
  lemma FirstLate(scans: seq<Scan>, j: nat, k: nat) returns (i: nat)
    requires j < k < |scans| && scans[k].at - scans[j].at >= SETTLE_MS
    requires forall a, b :: 0 <= a < b < |scans| ==> scans[a].at <= scans[b].at
    ensures j < i <= k && scans[i].at - scans[j].at >= SETTLE_MS
    ensures forall w :: 0 <= w < i ==> scans[w].at - scans[j].at < SETTLE_MS
  {
    i := j + 1;
    while scans[i].at - scans[j].at < SETTLE_MS
      invariant j < i <= k
      invariant forall w :: 0 <= w < i ==> scans[w].at - scans[j].at < SETTLE_MS
      decreases k - i
    {
      i := i + 1;
    }
  }

  /** The evaluations up to a poll start those up to the end of its scan. */
  lemma {:induction false} PartOfScan(cfg: TouchConfig, e: Engine, levels: seq<TouchLevel>, at: nat, c: nat, d: nat)
    requires c <= d <= |levels| <= |e.channels| == MAX_CHANNELS && PairValid(cfg, |levels|)
    ensures EvalsUpTo(cfg, e, levels, at, c) <= EvalsUpTo(cfg, e, levels, at, d)
  {
    hide Tick, ScanUpTo;
    if c < d {
      PartOfScan(cfg, e, levels, at, c, d - 1);
    }
  }

  lemma ToIsPartOf(cfg: TouchConfig, count: nat, scans: seq<Scan>, k: nat, c: nat)
    requires Stuck(cfg, count, scans) && k < |scans| && c < count
    ensures EvalsOf(cfg, count, scans, k) <= EvalsTo(cfg, count, scans, k, c) <= EvalsOf(cfg, count, scans, k + 1)
  {
    hide Tick, AfterScans, ScanUpTo;
    PartOfScan(cfg, AfterScans(cfg, count, scans, k), scans[k].levels, scans[k].at, c + 1, count);
  }

  /** Safety: while no scan arms, a pair stuck pressed from the first scan never fires the factory reset,
      however long it stays; in particular if some scan but the first falls in the window. */
  lemma StuckPairNeverFires(cfg: TouchConfig, count: nat, scans: seq<Scan>, k: nat, c: nat)
    requires Stuck(cfg, count, scans) && k < |scans| && c < count
    requires (exists w :: InWindow(cfg, scans, w)) || forall i :: 0 <= i <= k ==> !Arms(cfg, scans, i)
    ensures ResetRequested !in Emitted(cfg, count, scans, k, c)
  {
    hide Tick, AfterScans, EvalsOf, EvalsTo, Emitted, Arms, InWindow, ResetGesture.SetsBaseline;
    PairEmitsItsRequests(cfg, count, scans, k, c);
    var es := EvalsTo(cfg, count, scans, k, c);
    if ResetRequested in Emitted(cfg, count, scans, k, c) {
      var b := RequestHasBaseline(cfg, es, |es| - 1);
      ToIsPartOf(cfg, count, scans, k, c);
      SetsBaselineAgrees(es, EvalsOf(cfg, count, scans, k + 1), b);
      var i := BaselineArms(cfg, count, scans, k + 1, b);
      if w :| InWindow(cfg, scans, w) {
        WindowIndex(cfg, scans, w);
        WindowProtects(cfg, scans, w, i);
      }
    }
  }

  lemma WindowIndex(cfg: TouchConfig, scans: seq<Scan>, w: int)
    requires scans != [] && InWindow(cfg, scans, w)
    ensures w > 0
  {
  }

  lemma RequestHasBaseline(cfg: TouchConfig, es: seq<ResetGesture.Eval>, n: nat) returns (b: nat)
    requires n < |es| && ResetGesture.Timed(es) && ResetGesture.RequestedAt(cfg, es, n)
    ensures b < |es| && ResetGesture.SetsBaseline(es, b)
  {
    hide ResetGesture.After, ResetGesture.SetsBaseline, ResetGesture.Shown, Tick;
    ResetGesture.RequestedExactly(cfg, es, n);
    var s := ResetGesture.HoldStart(es, n);
    ResetGesture.BaselineExactly(cfg, es, s);
    b :| 0 <= b < s && ResetGesture.SetsBaseline(es, b);
  }

  // ----- Beyond the protection's limit -----

  /** Scan q is the first to show the debounce time. */
  ghost predicate Confirms(cfg: TouchConfig, scans: seq<Scan>, q: nat) {
    Debounced(cfg, scans, q) && forall w :: 0 < w < q ==> !Debounced(cfg, scans, w)
  }

  /** The hold of a stuck pair begins in the confirming scan. */
  lemma StuckHold(cfg: TouchConfig, count: nat, scans: seq<Scan>, q: nat, m: nat)
    requires Stuck(cfg, count, scans) && Confirms(cfg, scans, q) && q < m < |scans|
    ensures var es, first := EvalsTo(cfg, count, scans, m, 0), |EvalsOf(cfg, count, scans, q)|;
            && first < |es| - 1 && es[|es| - 1].both && es[|es| - 1].at == scans[m].at
            && first < ResetGesture.HoldStart(es, |es| - 1) < |es| - 1
            && es[ResetGesture.HoldStart(es, |es| - 1)].at == scans[q].at
  {
    hide Tick, AfterScans, BothConfirmed, EvalsOf, EvalsUpTo, Debounced, EvalsTo, ResetGesture.HoldStart;
    var early, es := EvalsOf(cfg, count, scans, q + 1), EvalsTo(cfg, count, scans, m, 0);
    var first, last, n := |EvalsOf(cfg, count, scans, q)|, |early| - 1, |es| - 1;
    DebouncedConfirms(cfg, count, scans, q);
    LastOfScanHeld(cfg, count, scans, q);
    HeldThrough(cfg, count, scans, q + 1, m);
    HoldStartsBefore(es, last, n);
    FirstEvalNotHeld(cfg, count, scans, q);
    FirstOfScan(cfg, count, scans, q, q + 1);
    assert es[first] == early[first];
    var s := ResetGesture.HoldStart(es, n);
    var i := ScanOf(cfg, count, scans, q + 1, s);
    if i < q {
      EvalsGrow(cfg, count, scans, i + 1, q);
    }
    assert es[s] == early[s];
  }

  /** Once confirmed after j scans, the pair is held at every further evaluation up to the first of scan m. */
  lemma HeldThrough(cfg: TouchConfig, count: nat, scans: seq<Scan>, j: nat, m: nat)
    requires Stuck(cfg, count, scans) && 0 < j <= m < |scans| && BothConfirmed(cfg, count, scans, j)
    requires var early := EvalsOf(cfg, count, scans, j); early != [] && early[|early| - 1].both
    ensures var early, es := EvalsOf(cfg, count, scans, j), EvalsTo(cfg, count, scans, m, 0);
            && early <= es && |early| < |es| && es[|es| - 1].at == scans[m].at
            && forall k :: |early| - 1 <= k < |es| ==> es[k].both
  {
    hide Tick, AfterScans, BothConfirmed, EvalsOf, EvalsUpTo;
    LaterHeld(cfg, count, scans, j, m);
    StaysBothConfirmed(cfg, count, scans, j, m);
    ScanHeld(cfg, count, scans, m, 1);
  }

  /** The reset does fire: once a scan i has armed and scan q has confirmed the stuck pair, the first poll
      of any scan m showing the factory-reset time since q finds the request made, then or before. */
  lemma StuckPairFires(cfg: TouchConfig, count: nat, scans: seq<Scan>, i: nat, q: nat, m: nat) returns (r: nat)
    requires Stuck(cfg, count, scans) && Arms(cfg, scans, i) && Confirms(cfg, scans, q) && i <= q < m < |scans|
    requires Tick(scans[m].at - scans[q].at) >= cfg.factoryHoldMs
    ensures r < |EvalsTo(cfg, count, scans, m, 0)| && ResetGesture.RequestedAt(cfg, EvalsTo(cfg, count, scans, m, 0), r)
  {
    hide Tick, AfterScans, EvalsOf, EvalsTo, Emitted, Arms, Confirms, ResetGesture.SetsBaseline, ResetGesture.HoldStart;
    var es := EvalsTo(cfg, count, scans, m, 0);
    var n := |es| - 1;
    PairEmitsItsRequests(cfg, count, scans, m, 0);
    StuckHold(cfg, count, scans, q, m);
    ArmingSetsBaseline(cfg, count, scans, i, m);
    ToIsPartOf(cfg, count, scans, m, 0);
    var b := |EvalsOf(cfg, count, scans, i)|;
    SetsBaselineAgrees(EvalsOf(cfg, count, scans, m), es, b);
    EvalsGrow(cfg, count, scans, i, q);
    ResetGesture.RequestIsComplete(cfg, es, b, n);
    r :| 0 <= r <= n && ResetGesture.RequestedAt(cfg, es, r);
  }

  lemma {:induction false} HoldStartsBefore(es: seq<ResetGesture.Eval>, i: nat, n: nat)
    requires i <= n < |es| && forall k :: i <= k <= n ==> es[k].both
    ensures ResetGesture.HoldStart(es, n) <= i
  {
    if i < n {
      HoldStartsBefore(es, i, n - 1);
    }
  }

  lemma LastOfScanHeld(cfg: TouchConfig, count: nat, scans: seq<Scan>, q: nat)
    requires Stuck(cfg, count, scans) && q < |scans| && BothConfirmed(cfg, count, scans, q + 1)
    ensures var es := EvalsOf(cfg, count, scans, q + 1); es != [] && es[|es| - 1].both
  {
  }

  /** Scans at 1000, 1600 and 11600 ms, with the pads pressed from the first: by the third the reset has
      been requested, though the pair was never seen released. */
  lemma SlowScansFire(cfg: TouchConfig) returns (scans: seq<Scan>, r: nat)
    requires cfg.resetA == 0 && cfg.resetB == 1 && cfg.debounceMs == 30 && cfg.factoryHoldMs == 10_000
    ensures Stuck(cfg, 2, scans) && |scans| == 3 && scans[0].at == 1000 && scans[1].at == 1600 && scans[2].at == 11600
    ensures r < |EvalsTo(cfg, 2, scans, 2, 0)| && ResetGesture.RequestedAt(cfg, EvalsTo(cfg, 2, scans, 2, 0), r)
  {
    var both := [Pressed, Pressed];
    scans := [Scan(both, 1000), Scan(both, 1600), Scan(both, 11600)];
    TouchHistory.FirstTimedIs(ScanTimes(scans), 2, 0);
    assert Arms(cfg, scans, 1);
    assert Confirms(cfg, scans, 1);
    r := StuckPairFires(cfg, 2, scans, 1, 1, 2);
  }
}
