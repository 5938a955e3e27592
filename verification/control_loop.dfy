/** The Control task's cycle: drain the queued commands, scan the touch pads, drive the indicator. */
module ControlLoops {
  import opened RelayTypes
  import opened Persistence
  import opened ControlPlane
  import opened Coordination
  import opened Queues
  import opened Touch
  import opened TouchScans
  import Indicator

  ghost function DoAll(p: Plane, cmds: seq<ControlCommand>, writes: bool): (r: Plane)
    requires |p.relays| <= MAX_CHANNELS
    ensures |r.relays| == |p.relays|
  {
    if cmds == [] then p else Do(DoAll(p, cmds[..|cmds| - 1], writes), cmds[|cmds| - 1], writes)
  }

  /** What the coordinator makes of a signal: a press toggles its channel. */
  ghost function Heed(p: Plane, s: Signal, writes: bool): (r: Plane)
    requires |p.relays| <= MAX_CHANNELS && (s.Touched? ==> s.channel < 0x100)
    ensures |r.relays| == |p.relays|
  {
    if s.Touched? && s.event.Press? then Do(p, ToggleChannel(s.channel, Local), writes) else p
  }

  ghost predicate Addressed(out: seq<Signal>) { forall s :: s in out && s.Touched? ==> s.channel < MAX_CHANNELS }

  ghost function HeedAll(p: Plane, out: seq<Signal>, writes: bool): (r: Plane)
    requires |p.relays| <= MAX_CHANNELS && Addressed(out)
    ensures |r.relays| == |p.relays|
  {
    if out == [] then p else Heed(HeedAll(p, out[..|out| - 1], writes), out[|out| - 1], writes)
  }

  lemma NothingDone(p: Plane, writes: bool)
    requires |p.relays| <= MAX_CHANNELS
    ensures DoAll(p, [], writes) == HeedAll(p, [], writes) == p
  {
  }

  lemma OneMoreCommand(p: Plane, cmds: seq<ControlCommand>, i: nat, writes: bool)
    requires i < |cmds| && |p.relays| <= MAX_CHANNELS
    ensures DoAll(p, cmds[..i + 1], writes) == Do(DoAll(p, cmds[..i], writes), cmds[i], writes)
  {
    assert cmds[..i + 1][..i] == cmds[..i];
  }

  lemma OneMoreSignal(p: Plane, out: seq<Signal>, i: nat, writes: bool)
    requires i < |out| && |p.relays| <= MAX_CHANNELS && Addressed(out)
    ensures HeedAll(p, out[..i + 1], writes) == Heed(HeedAll(p, out[..i], writes), out[i], writes)
  {
    assert out[..i + 1][..i] == out[..i];
  }

  lemma HeedConcat(p: Plane, a: seq<Signal>, b: seq<Signal>, writes: bool)
    requires |p.relays| <= MAX_CHANNELS && Addressed(a) && Addressed(b)
    ensures Addressed(a + b) && HeedAll(p, a + b, writes) == HeedAll(HeedAll(p, a, writes), b, writes)
  {
    hide Heed;
    if b == [] {
      assert a + b == a;
    } else {
      assert (a + b)[..|a + b| - 1] == a + b[..|b| - 1];
      HeedConcat(p, a, b[..|b| - 1], writes);
    }
  }

  // ----- What a cycle keeps -----

  /** A restart would restore the current states, and replaying what listener r has heard since the states
      were `start` gives the current ones, every announcement being news. */
  ghost predicate InStep(start: seq<RelayState>, p: Plane, r: Recorder)
    requires |p.relays| <= MAX_CHANNELS
  {
    && |start| == |p.relays| && Restorable(p)
    && r in p.heard && Replay(start, p.heard[r]) == p.relays && NewsOnly(start, p.heard[r])
  }

  lemma DoKeepsInStep(start: seq<RelayState>, p: Plane, r: Recorder, cmd: ControlCommand)
    requires |p.relays| <= MAX_CHANNELS && InStep(start, p, r)
    ensures InStep(start, Do(p, cmd, true), r)
  {
    hide Restored, Replay, NewsOnly, Saved;
    var n, after := |p.relays|, After(cmd, p.relays);
    SavedIsRestored(p.blobs, p.relays, after);
    ReplayChanges(start, p.heard[r], p.relays, after, cmd.source, n);
    assert after[..n] + p.relays[n..] == after;
  }

  /** While the store takes writes, no commands and no touches can bring the device out of step. */
  lemma {:induction false} CommandsKeepInStep(start: seq<RelayState>, p: Plane, r: Recorder, cmds: seq<ControlCommand>)
    requires |p.relays| <= MAX_CHANNELS && InStep(start, p, r)
    ensures InStep(start, DoAll(p, cmds, true), r)
  {
    hide InStep, Do;
    if cmds != [] {
      CommandsKeepInStep(start, p, r, cmds[..|cmds| - 1]);
      DoKeepsInStep(start, DoAll(p, cmds[..|cmds| - 1], true), r, cmds[|cmds| - 1]);
    }
  }

  lemma {:induction false} TouchesKeepInStep(start: seq<RelayState>, p: Plane, r: Recorder, out: seq<Signal>)
    requires |p.relays| <= MAX_CHANNELS && Addressed(out) && InStep(start, p, r)
    ensures InStep(start, HeedAll(p, out, true), r)
  {
    hide InStep, Do;
    if out != [] {
      TouchesKeepInStep(start, p, r, out[..|out| - 1]);
      var s := out[|out| - 1];
      if s.Touched? {
        DoKeepsInStep(start, HeedAll(p, out[..|out| - 1], true), r, ToggleChannel(s.channel, Local));
      }
    }
  }

  /** What a whole scan emits. */
  ghost function ScanSignals(cfg: TouchConfig, e: Engine, levels: seq<TouchLevel>, now: Millis, c: nat): seq<Signal>
    requires c <= |levels| <= |e.channels| == MAX_CHANNELS
  {
    if c == 0 then []
    else
      ScanSignals(cfg, e, levels, now, c - 1)
        + Polled(cfg, |levels|, ScanUpTo(cfg, e, levels, now, c - 1), c - 1, levels[c - 1], now).1
  }

  /** Every poll of a scan addresses its own pad. */
  lemma {:induction false} ScanAddressed(cfg: TouchConfig, e: Engine, levels: seq<TouchLevel>, now: Millis, c: nat)
    requires c <= |levels| <= |e.channels| == MAX_CHANNELS
    ensures Addressed(ScanSignals(cfg, e, levels, now, c))
  {
    hide Polled;
    if c > 0 {
      ScanAddressed(cfg, e, levels, now, c - 1);
      OwnChannel(cfg, |levels|, ScanUpTo(cfg, e, levels, now, c - 1), c - 1, levels[c - 1], now);
    }
  }

  lemma OwnChannel(cfg: TouchConfig, count: nat, e: Engine, c: nat, level: TouchLevel, now: Millis)
    requires c < count <= |e.channels|
    ensures forall s :: s in Polled(cfg, count, e, c, level, now).1 && s.Touched? ==> s.channel == c
  {
    forall s | s in Polled(cfg, count, e, c, level, now).1 && s.Touched? ensures s.channel == c {
      PollSignals(cfg, count, e, c, level, now, s);
    }
  }

  function Presses(out: seq<Signal>, ch: nat): nat {
    if out == [] then 0
    else Presses(out[..|out| - 1], ch) + if out[|out| - 1] == Touched(ch, TouchEvent.Press) then 1 else 0
  }

  /** Every relay ends flipped once per press emitted for it, and no other signal moves it. */
  lemma {:induction false} FlippedOncePerPress(p: Plane, out: seq<Signal>, writes: bool, ch: nat)
    requires ch < |p.relays| <= MAX_CHANNELS && Addressed(out)
    ensures HeedAll(p, out, writes).relays[ch]
         == if Presses(out, ch) % 2 == 1 then Toggle(p.relays[ch]) else p.relays[ch]
  {
    hide Saved, Changes;
    if out != [] {
      FlippedOncePerPress(p, out[..|out| - 1], writes, ch);
    }
  }

  /** How many of the commands from j on toggle channel ch. */
  function TogglesSince(cmds: seq<ControlCommand>, j: nat, ch: nat): nat {
    if |cmds| <= j then 0
    else
      TogglesSince(cmds[..|cmds| - 1], j, ch)
        + if cmds[|cmds| - 1].ToggleChannel? && cmds[|cmds| - 1].channel == ch then 1 else 0
  }

  predicate Sets(cmd: ControlCommand, ch: nat) { cmd.SetAll? || (cmd.SetChannel? && cmd.channel == ch) }

  /** Commands take effect in their order: after a drain a channel is as the last command that set it asked,
      flipped once for each later toggle of it. */
  lemma {:induction false} LastCommandRules(p: Plane, cmds: seq<ControlCommand>, writes: bool, m: nat, ch: nat)
    requires ch < |p.relays| <= MAX_CHANNELS && m < |cmds| && Sets(cmds[m], ch)
    requires forall i :: m < i < |cmds| ==> !Sets(cmds[i], ch)
    ensures DoAll(p, cmds, writes).relays[ch] == cmds[m].state <==> TogglesSince(cmds, m + 1, ch) % 2 == 0
  {
    hide After, Saved, Changes, Told;
    var prefix, last := cmds[..|cmds| - 1], cmds[|cmds| - 1];
    AsAsked(last, DoAll(p, prefix, writes).relays, ch);
    if m < |cmds| - 1 {
      LastCommandRules(p, prefix, writes, m, ch);
    }
  }

  // ----- Local control under arbitrary remote traffic -----

  /** What one cycle is given: the commands pending when it starts, the pads and the time, and whether
      the snapshots it takes reach the store. */
  datatype Cycle = Cycle(cmds: seq<ControlCommand>, levels: seq<TouchLevel>, now: Millis, writes: bool)

  datatype LoopState = LoopState(engine: Engine, plane: Plane)

  ghost predicate Fits(s: LoopState, c: Cycle) {
    |c.levels| == |s.plane.relays| <= |s.engine.channels| == MAX_CHANNELS
  }

  ghost function EmittedIn(cfg: TouchConfig, s: LoopState, c: Cycle): (out: seq<Signal>)
    requires Fits(s, c)
    ensures Addressed(out)
  {
    ScanAddressed(cfg, s.engine, c.levels, c.now, |c.levels|);
    ScanSignals(cfg, s.engine, c.levels, c.now, |c.levels|)
  }

  /** One cycle, as ControlLoop.Tick does it. */
  ghost function AfterCycle(cfg: TouchConfig, s: LoopState, c: Cycle): (r: LoopState)
    requires Fits(s, c)
    ensures |r.plane.relays| == |s.plane.relays| && |r.engine.channels| == |s.engine.channels|
  {
    LoopState(ScanUpTo(cfg, s.engine, c.levels, c.now, |c.levels|),
              HeedAll(DoAll(s.plane, c.cmds, c.writes), EmittedIn(cfg, s, c), c.writes))
  }

  /** Local touch has the last word in every cycle: each relay ends as the drained commands left it unless its
      own pad emitted an odd number of presses, and then it ends the other way. */
  lemma LocalHasLastWord(cfg: TouchConfig, s: LoopState, c: Cycle, ch: nat)
    requires Fits(s, c) && ch < |s.plane.relays|
    ensures AfterCycle(cfg, s, c).plane.relays[ch] != DoAll(s.plane, c.cmds, c.writes).relays[ch]
            <==> Presses(EmittedIn(cfg, s, c), ch) % 2 == 1
  {
    FlippedOncePerPress(DoAll(s.plane, c.cmds, c.writes), EmittedIn(cfg, s, c), c.writes, ch);
    hide HeedAll, DoAll, EmittedIn, Presses, ScanUpTo;
  }

  ghost function AfterCycles(cfg: TouchConfig, s: LoopState, cs: seq<Cycle>, n: nat): (r: LoopState)
    requires n <= |cs| && forall i :: 0 <= i < |cs| ==> Fits(s, cs[i])
    ensures |r.plane.relays| == |s.plane.relays| && |r.engine.channels| == |s.engine.channels|
  {
    if n == 0 then s else AfterCycle(cfg, AfterCycles(cfg, s, cs, n - 1), cs[n - 1])
  }

  /** Two runs with the same pads and times but arbitrary, different remote commands and flash behaviour,
      from engines in the same state and relays in any states, emit identical touch signals in every
      cycle. */
  lemma {:induction false} RemoteCannotDisturbTouch(cfg: TouchConfig, s: LoopState, t: LoopState,
                                                    xs: seq<Cycle>, ys: seq<Cycle>, n: nat)
    requires s.engine == t.engine && n < |xs| == |ys|
    requires forall i :: 0 <= i < |xs| ==> Fits(s, xs[i]) && Fits(t, ys[i])
    requires forall i :: 0 <= i < |xs| ==> xs[i].levels == ys[i].levels && xs[i].now == ys[i].now
    ensures AfterCycles(cfg, s, xs, n).engine == AfterCycles(cfg, t, ys, n).engine
    ensures EmittedIn(cfg, AfterCycles(cfg, s, xs, n), xs[n]) == EmittedIn(cfg, AfterCycles(cfg, t, ys, n), ys[n])
  {
    hide ScanUpTo, ScanSignals, HeedAll, DoAll;
    if n > 0 {
      RemoteCannotDisturbTouch(cfg, s, t, xs, ys, n - 1);
    }
  }

  /** Cycles over a store that takes writes keep the device in step with its store and its listeners. */
  lemma {:induction false} CyclesKeepInStep(cfg: TouchConfig, start: seq<RelayState>, r: Recorder, s: LoopState,
                                            cs: seq<Cycle>, n: nat)
    requires n <= |cs| && forall i :: 0 <= i < |cs| ==> Fits(s, cs[i]) && cs[i].writes
    requires |s.plane.relays| <= MAX_CHANNELS && InStep(start, s.plane, r)
    ensures InStep(start, AfterCycles(cfg, s, cs, n).plane, r)
  {
    hide InStep, ScanUpTo, EmittedIn, HeedAll, DoAll;
    if n > 0 {
      CyclesKeepInStep(cfg, start, r, s, cs, n - 1);
      var t, c := AfterCycles(cfg, s, cs, n - 1), cs[n - 1];
      CommandsKeepInStep(start, t.plane, r, c.cmds);
      TouchesKeepInStep(start, DoAll(t.plane, c.cmds, true), r, EmittedIn(cfg, t, c));
    }
  }

  /** A restart would restore the current relay states. */
  ghost predicate Restorable(p: Plane)
    requires |p.relays| <= MAX_CHANNELS
  {
    Restored(p.blobs, |p.relays|) == p.relays
  }

  lemma {:induction false} CommandsKeepRestorable(p: Plane, cmds: seq<ControlCommand>)
    requires |p.relays| <= MAX_CHANNELS && Restorable(p)
    ensures Restorable(DoAll(p, cmds, true))
  {
    hide Restored, Saved;
    if cmds != [] {
      var q := DoAll(p, cmds[..|cmds| - 1], true);
      CommandsKeepRestorable(p, cmds[..|cmds| - 1]);
      SavedIsRestored(q.blobs, q.relays, After(cmds[|cmds| - 1], q.relays));
    }
  }

  lemma {:induction false} TouchesKeepRestorable(p: Plane, out: seq<Signal>)
    requires |p.relays| <= MAX_CHANNELS && Addressed(out) && Restorable(p)
    ensures Restorable(HeedAll(p, out, true))
  {
    hide Restored, Saved;
    if out != [] {
      var q, s := HeedAll(p, out[..|out| - 1], true), out[|out| - 1];
      TouchesKeepRestorable(p, out[..|out| - 1]);
      if s.Touched? {
        SavedIsRestored(q.blobs, q.relays, After(ToggleChannel(s.channel, Local), q.relays));
      }
    }
  }

  // ----- The reset handler -----

  /** What the LED shows after the sink heard some signals: progress of a reset hold switches to the
      reset pattern. */
  function Shown(out: seq<Signal>, l: Indicator.Lamp): (r: Indicator.Lamp)
    requires l.pattern.resetTotal > 0
    ensures r.pattern.resetTotal > 0
  {
    if out == [] then l
    else
      var r := Shown(out[..|out| - 1], l);
      match out[|out| - 1]
      case ResetProgress(elapsed, total) =>
        var started := Indicator.Next(r, Indicator.StatusSet(Indicator.FactoryReset));
        Indicator.Next(started, Indicator.Progress(elapsed, total))
      case _ => r
  }

  lemma ShownConcat(a: seq<Signal>, b: seq<Signal>, l: Indicator.Lamp)
    requires l.pattern.resetTotal > 0
    ensures Shown(a + b, l) == Shown(b, Shown(a, l))
  {
    if b == [] {
      assert a + b == a;
    } else {
      assert (a + b)[..|a + b| - 1] == a + b[..|b| - 1];
      ShownConcat(a, b[..|b| - 1], l);
    }
  }

  /** The last progress report decides what the LED will show: the reset pattern at that report's elapsed time
      and total; with no report nothing changes. */
  lemma {:induction false} LastReportShown(out: seq<Signal>, l: Indicator.Lamp, i: nat)
    requires l.pattern.resetTotal > 0 && forall k :: i <= k < |out| ==> !out[k].ResetProgress?
    ensures i == 0 ==> Shown(out, l) == l
    ensures 0 < i <= |out| && out[i - 1].ResetProgress? ==>
              var q := Shown(out, l).pattern;
              && q.status == Indicator.FactoryReset && q.resetActive && q.resetElapsed == out[i - 1].elapsed
              && q.resetTotal == if out[i - 1].total == 0 then 1 else out[i - 1].total
  {
    if i < |out| {
      LastReportShown(out[..|out| - 1], l, i);
    }
  }

  lemma NothingShown(l: Indicator.Lamp)
    requires l.pattern.resetTotal > 0
    ensures Shown([], l) == l
  {
  }

  class ResetHandler {
    const indicator: Indicator.IndicatorController
    var requested: bool

    constructor (indicator: Indicator.IndicatorController)
      ensures this.indicator == indicator && !requested
    {
      this.indicator, requested := indicator, false;
    }

    /** The reset signals among those of one poll, which follow its touch event. */
    method Hear(signals: seq<Signal>)
      requires indicator.Valid()
      modifies this, indicator
      ensures indicator.Valid() && indicator.State() == Shown(signals, old(indicator.State()))
      ensures requested == (old(requested) || ResetRequested in signals)
    {
      hide Indicator.Next;
      NothingShown(indicator.State());
      for i := 0 to |signals|
        invariant indicator.Valid() && indicator.State() == Shown(signals[..i], old(indicator.State()))
        invariant requested == (old(requested) || ResetRequested in signals[..i])
      {
        assert signals[..i + 1][..i] == signals[..i];
        match signals[i]
        case ResetProgress(elapsed, total) =>
          indicator.SetStatus(Indicator.FactoryReset);
          indicator.SetResetProgress(elapsed, total);
        case ResetRequested => requested := true;
        case Touched(_, _) =>
      }
      assert signals[..|signals|] == signals;
    }
  }

  // ----- The loop -----

  /** Everything a cycle can change, and whether snapshots reach the store. */
  datatype View = View(state: LoopState, pending: seq<ControlCommand>, lamp: Indicator.Lamp,
                       requested: bool, writes: bool)

  ghost predicate WellFormed(v: View) {
    |v.state.engine.channels| == MAX_CHANNELS && |v.state.plane.relays| <= MAX_CHANNELS && v.lamp.pattern.resetTotal > 0
  }

  ghost function Drained(v: View): (r: View)
    requires WellFormed(v)
    ensures WellFormed(r) && |r.state.plane.relays| == |v.state.plane.relays|
  {
    v.(pending := [], state := v.state.(plane := DoAll(v.state.plane, v.pending, v.writes)))
  }

  /** One pad: its poll, and then everyone who hears what it emits. */
  ghost function AfterPad(cfg: TouchConfig, count: nat, v: View, c: nat, level: TouchLevel, now: Millis)
      : (r: (View, seq<Signal>))
    requires WellFormed(v) && c < count <= MAX_CHANNELS
    ensures WellFormed(r.0) && |r.0.state.plane.relays| == |v.state.plane.relays|
  {
    var (e, signals) := Polled(cfg, count, v.state.engine, c, level, now);
    OwnChannel(cfg, count, v.state.engine, c, level, now);
    (v.(state := LoopState(e, HeedAll(v.state.plane, signals, v.writes)), lamp := Shown(signals, v.lamp),
        requested := v.requested || ResetRequested in signals), signals)
  }

  ghost function AfterPads(cfg: TouchConfig, v: View, levels: seq<TouchLevel>, now: Millis, c: nat): (r: View)
    requires WellFormed(v) && c <= |levels| <= MAX_CHANNELS
    ensures WellFormed(r) && |r.state.plane.relays| == |v.state.plane.relays|
  {
    if c == 0 then v else AfterPad(cfg, |levels|, AfterPads(cfg, v, levels, now, c - 1), c - 1, levels[c - 1], now).0
  }

  lemma NothingScanned(cfg: TouchConfig, v: View, levels: seq<TouchLevel>, now: Millis)
    requires WellFormed(v) && |levels| <= MAX_CHANNELS
    ensures AfterPads(cfg, v, levels, now, 0) == v && ScanSignals(cfg, v.state.engine, levels, now, 0) == []
  {
  }

  lemma OneMorePad(cfg: TouchConfig, v: View, levels: seq<TouchLevel>, now: Millis, c: nat)
    requires WellFormed(v) && c < |levels| <= MAX_CHANNELS
    ensures var (w, signals) := AfterPad(cfg, |levels|, AfterPads(cfg, v, levels, now, c), c, levels[c], now);
            && AfterPads(cfg, v, levels, now, c + 1) == w
            && ScanSignals(cfg, v.state.engine, levels, now, c + 1)
               == ScanSignals(cfg, v.state.engine, levels, now, c) + signals
  {
    PadsAre(cfg, v, levels, now, c);
    hide Polled, HeedAll, Shown, Addressed;
  }

  /** Pad by pad or by the whole scan's signals comes to the same. */
  lemma {:induction false} PadsAre(cfg: TouchConfig, v: View, levels: seq<TouchLevel>, now: Millis, c: nat)
    requires WellFormed(v) && c <= |levels| <= MAX_CHANNELS
    ensures var out := ScanSignals(cfg, v.state.engine, levels, now, c);
            && Addressed(out)
            && AfterPads(cfg, v, levels, now, c)
               == Heard(v, ScanUpTo(cfg, v.state.engine, levels, now, c), out)
  {
    ScanAddressed(cfg, v.state.engine, levels, now, c);
    if c == 0 {
      NothingShown(v.lamp);
    } else {
      PadsAre(cfg, v, levels, now, c - 1);
      hide Polled, HeedAll, Shown, AfterPad, Addressed;
      PadAdds(cfg, |levels|, v, ScanUpTo(cfg, v.state.engine, levels, now, c - 1),
              ScanSignals(cfg, v.state.engine, levels, now, c - 1), c - 1, levels[c - 1], now);
    }
  }

  /** The view v after signals `out` have been heard, with the touch engine in state e. */
  ghost function Heard(v: View, e: Engine, out: seq<Signal>): View
    requires WellFormed(v) && Addressed(out)
  {
    v.(state := LoopState(e, HeedAll(v.state.plane, out, v.writes)), lamp := Shown(out, v.lamp),
       requested := v.requested || ResetRequested in out)
  }

  lemma PadAdds(cfg: TouchConfig, count: nat, v: View, e: Engine, out: seq<Signal>, c: nat, level: TouchLevel,
                now: Millis)
    requires WellFormed(v) && c < count <= MAX_CHANNELS == |e.channels| && Addressed(out)
    ensures var (f, signals) := Polled(cfg, count, e, c, level, now);
            && Addressed(out + signals)
            && AfterPad(cfg, count, Heard(v, e, out), c, level, now).0 == Heard(v, f, out + signals)
  {
    var signals := Polled(cfg, count, e, c, level, now).1;
    OwnChannel(cfg, count, e, c, level, now);
    hide Polled, HeedAll, Shown;
    HeedConcat(v.state.plane, out, signals, v.writes);
    ShownConcat(out, signals, v.lamp);
  }

  class ControlLoop {
    const touch: TouchInput
    const coordinator: ControlCoordinator
    const reset: ResetHandler
    const commands: SyncQueue<ControlCommand>

    ghost predicate Valid(kv: KvStore)
      reads this, touch, coordinator, coordinator.relays, coordinator.relays.state, coordinator.relays.sink,
            coordinator.stateOut, coordinator.stateOut.listeners, commands.q, commands.cs, reset.indicator
    {
      && touch.Valid() && touch.initialized && touch.count == coordinator.relays.count
      && coordinator.Valid(kv) && coordinator.relays.initialized
      && commands.q.Valid() && !commands.cs.inside && reset.indicator.Valid()
    }

    constructor (touch: TouchInput, coordinator: ControlCoordinator, reset: ResetHandler,
                 commands: SyncQueue<ControlCommand>)
      ensures this.touch == touch && this.coordinator == coordinator && this.reset == reset && this.commands == commands
    {
      this.touch, this.coordinator, this.reset, this.commands := touch, coordinator, reset, commands;
    }

    ghost function Scene(kv: KvStore): (v: View)
      requires Valid(kv)
      reads this, touch, touch.ch, coordinator, coordinator.relays, coordinator.relays.state, coordinator.relays.sink,
            coordinator.stateOut, coordinator.stateOut.listeners, coordinator.stateOut.Recorders(), kv,
            commands, commands.q, commands.q.buf, commands.cs, reset, reset.indicator,
            reset.indicator.sink
      ensures WellFormed(v) && |v.state.plane.relays| == touch.count && |v.pending| <= commands.q.buf.Length
    {
      View(LoopState(touch.State(), coordinator.Now(kv)), commands.q.Contents(), reset.indicator.State(),
           reset.requested, coordinator.Writes(kv))
    }

    /** One cycle. The touch engine's new state and everything it emits depend only on its old state,
        the pads and the time; relays, store and listeners end as the drained commands leave them, then
        one local toggle per press emitted; the LED hears the reset signals and then its tick. */
    method Tick(levels: seq<TouchLevel>, now: Millis, ghost kv: KvStore) returns (out: seq<Signal>)
      requires Valid(kv) && |levels| == touch.count
      modifies touch, touch.ch, commands.q, commands.cs, coordinator.relays.state, coordinator.relays.sink,
               coordinator.stateOut.Recorders(), kv, reset, reset.indicator, reset.indicator.sink
      ensures Valid(kv)
      ensures var v := old(Scene(kv));
              var c := Cycle(v.pending, levels, now, v.writes);
              && out == EmittedIn(touch.cfg, v.state, c)
              && Scene(kv) == View(AfterCycle(touch.cfg, v.state, c), [],
                                   Indicator.Next(Shown(out, v.lamp), Indicator.Ticked(now)),
                                   v.requested || ResetRequested in out, v.writes)
      ensures old(Scene(kv)).writes && old(Restorable(Scene(kv).state.plane)) ==> Restorable(Scene(kv).state.plane)
    {
      hide Indicator.Next, Shown, HeedAll, DoAll, ScanUpTo, ScanSignals, Restorable, AfterPads, Scene, Valid;
      ghost var v := Scene(kv);
      ghost var cmds := v.pending;
      DrainCommands(kv);
      out := Scan(levels, now, kv);
      PadsAre(touch.cfg, Drained(v), levels, now, |levels|);
      ShowLed(now, kv);
      if v.writes && Restorable(v.state.plane) {
        CommandsKeepRestorable(v.state.plane, cmds);
        TouchesKeepRestorable(DoAll(v.state.plane, cmds, true), out);
      }
    }

    /** Hands over at most as many commands as the queue can hold: here, all of them. */
    method DrainCommands(ghost kv: KvStore)
      requires Valid(kv)
      modifies commands.q, commands.cs, coordinator.relays.state, coordinator.relays.sink,
               coordinator.stateOut.Recorders(), kv
      ensures Valid(kv) && Scene(kv) == Drained(old(Scene(kv)))
    {
      hide Do, DoAll, Scene, Valid;
      ghost var v := Scene(kv);
      ghost var all := v.pending;
      NothingDone(v.state.plane, v.writes);
      var budget := commands.q.buf.Length;
      ghost var i := 0;
      var more := true;
      while budget > 0 && more
        invariant Valid(kv) && 0 <= i <= |all| && budget + i >= |all|
        invariant !more ==> i == |all|
        invariant Scene(kv) == v.(pending := all[i..],
                                  state := v.state.(plane := DoAll(v.state.plane, all[..i], v.writes)))
        decreases budget
      {
        budget := budget - 1;
        more := DrainOne(kv);
        if more {
          OneMoreCommand(v.state.plane, all, i, v.writes);
          i := i + 1;
        }
      }
      assert all[..|all|] == all;
    }

    /** Pops one command and submits it, unless none is pending. */
    method DrainOne(ghost kv: KvStore) returns (more: bool)
      requires Valid(kv)
      modifies commands.q, commands.cs, coordinator.relays.state, coordinator.relays.sink,
               coordinator.stateOut.Recorders(), kv
      ensures Valid(kv)
      ensures var v := old(Scene(kv));
              && more == (v.pending != [])
              && Scene(kv) == if !more then v
                              else v.(pending := v.pending[1..],
                                      state := v.state.(plane := Do(v.state.plane, v.pending[0], v.writes)))
    {
      hide Do, RingContents;
      var cmd;
      more, cmd := commands.Pop();
      assert Scene(kv) == old(Scene(kv)).(pending := Scene(kv).pending);
      hide Scene;
      if more {
        SubmitOne(cmd, kv);
      }
    }

    method SubmitOne(cmd: ControlCommand, ghost kv: KvStore)
      requires Valid(kv)
      modifies coordinator.relays.state, coordinator.relays.sink, coordinator.stateOut.Recorders(), kv
      ensures Valid(kv)
      ensures var v := old(Scene(kv)); Scene(kv) == v.(state := v.state.(plane := Do(v.state.plane, cmd, v.writes)))
    {
      hide After, Changes, Saved, RingContents, coordinator.stateOut.Persists;
      var _ := coordinator.Submit(cmd, kv);
    }

    method Scan(levels: seq<TouchLevel>, now: Millis, ghost kv: KvStore) returns (out: seq<Signal>)
      requires Valid(kv) && |levels| == touch.count
      modifies touch, touch.ch, coordinator.relays.state, coordinator.relays.sink,
               coordinator.stateOut.Recorders(), kv, reset, reset.indicator
      ensures Valid(kv) && touch.count == old(touch.count)
      ensures out == ScanSignals(touch.cfg, old(Scene(kv)).state.engine, levels, now, |levels|)
      ensures Scene(kv) == AfterPads(touch.cfg, old(Scene(kv)), levels, now, |levels|)
    {
      ghost var v := Scene(kv);
      NothingScanned(touch.cfg, v, levels, now);
      hide AfterPads, AfterPad, ScanSignals, ScanUpTo, Scene, Valid;
      out := [];
      for c := 0 to touch.count
        invariant Valid(kv) && |levels| == touch.count
        invariant out == ScanSignals(touch.cfg, v.state.engine, levels, now, c)
        invariant Scene(kv) == AfterPads(touch.cfg, v, levels, now, c)
      {
        OneMorePad(touch.cfg, v, levels, now, c);
        var signals := PollPad(c, levels[c], now, kv);
        out := out + signals;
      }
    }

    /** One pad: its poll, and the delivery of what the poll emits. */
    method PollPad(c: ChannelId, level: TouchLevel, now: Millis, ghost kv: KvStore) returns (signals: seq<Signal>)
      requires Valid(kv) && c < touch.count
      modifies touch, touch.ch, coordinator.relays.state, coordinator.relays.sink,
               coordinator.stateOut.Recorders(), kv, reset, reset.indicator
      ensures Valid(kv) && touch.count == old(touch.count)
      ensures (Scene(kv), signals) == AfterPad(touch.cfg, touch.count, old(Scene(kv)), c, level, now)
    {
      hide HeedAll, Shown, Polled, Scene, Valid;
      signals := Poll(c, level, now, kv);
      Deliver(signals, kv);
      HearReset(signals, kv);
    }

    method Poll(c: ChannelId, level: TouchLevel, now: Millis, ghost kv: KvStore) returns (signals: seq<Signal>)
      requires Valid(kv) && c < touch.count
      modifies touch, touch.ch
      ensures Valid(kv) && touch.count == old(touch.count) && Addressed(signals)
      ensures var v := old(Scene(kv));
              var (e, s) := Polled(touch.cfg, touch.count, v.state.engine, c, level, now);
              signals == s && Scene(kv) == v.(state := v.state.(engine := e))
    {
      hide Polled, RingContents;
      OwnChannel(touch.cfg, touch.count, touch.State(), c, level, now);
      var status;
      status, signals := touch.Poll(c, level, now);
    }

    /** The calls on the coordinator as touch sink. */
    method Deliver(signals: seq<Signal>, ghost kv: KvStore)
      requires Valid(kv) && Addressed(signals)
      modifies coordinator.relays.state, coordinator.relays.sink, coordinator.stateOut.Recorders(), kv
      ensures Valid(kv)
      ensures var v := old(Scene(kv));
              Scene(kv) == v.(state := v.state.(plane := HeedAll(v.state.plane, signals, v.writes)))
    {
      hide Heed, HeedAll, Scene, Valid;
      ghost var v := Scene(kv);
      NothingDone(v.state.plane, v.writes);
      for i := 0 to |signals|
        invariant Valid(kv)
        invariant Scene(kv) == v.(state := v.state.(plane := HeedAll(v.state.plane, signals[..i], v.writes)))
      {
        OneMoreSignal(v.state.plane, signals, i, v.writes);
        DeliverOne(signals[i], kv);
      }
      assert signals[..|signals|] == signals;
    }

    method DeliverOne(s: Signal, ghost kv: KvStore)
      requires Valid(kv) && (s.Touched? ==> s.channel < MAX_CHANNELS)
      modifies coordinator.relays.state, coordinator.relays.sink, coordinator.stateOut.Recorders(), kv
      ensures Valid(kv)
      ensures var v := old(Scene(kv)); Scene(kv) == v.(state := v.state.(plane := Heed(v.state.plane, s, v.writes)))
    {
      hide Do, Scene, Valid;
      if s.Touched? {
        if s.event.Press? {
          DeliverPress(s.channel, kv);
        } else {
          DeliverOther(s.channel, s.event, kv);
        }
      }
    }

    method DeliverPress(ch: ChannelId, ghost kv: KvStore)
      requires Valid(kv)
      modifies coordinator.relays.state, coordinator.relays.sink, coordinator.stateOut.Recorders(), kv
      ensures Valid(kv)
      ensures var v := old(Scene(kv));
              Scene(kv) == v.(state := v.state.(plane := Do(v.state.plane, ToggleChannel(ch, Local), v.writes)))
    {
      hide After, Changes, Saved, RingContents, coordinator.stateOut.Persists;
      coordinator.OnTouchEvent(ch, TouchEvent.Press, kv);
    }

    method DeliverOther(ch: ChannelId, ev: TouchEvent, ghost kv: KvStore)
      requires Valid(kv) && !ev.Press?
      modifies coordinator.relays.state, coordinator.relays.sink, coordinator.stateOut.Recorders(), kv
      ensures Valid(kv) && Scene(kv) == old(Scene(kv))
    {
      hide After, Changes, Saved, RingContents, coordinator.stateOut.Persists;
      coordinator.OnTouchEvent(ch, ev, kv);
    }

    method HearReset(signals: seq<Signal>, ghost kv: KvStore)
      requires Valid(kv)
      modifies reset, reset.indicator
      ensures Valid(kv)
      ensures var v := old(Scene(kv));
              Scene(kv) == v.(lamp := Shown(signals, v.lamp), requested := v.requested || ResetRequested in signals)
    {
      hide Shown, RingContents;
      reset.Hear(signals);
    }

    method ShowLed(now: Millis, ghost kv: KvStore)
      requires Valid(kv)
      modifies reset.indicator, reset.indicator.sink
      ensures Valid(kv)
      ensures var v := old(Scene(kv)); Scene(kv) == v.(lamp := Indicator.Next(v.lamp, Indicator.Ticked(now)))
    {
      hide Indicator.Next, RingContents;
      reset.indicator.Tick(now);
    }
  }
}
