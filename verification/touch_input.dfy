/** The touch engine: per-channel debounce and long press, and the two-button factory-reset gesture.
    Time is the 32-bit millisecond counter of the platform and wraps. */
module Touch {
  import opened Wrappers
  import opened Numbers
  import opened RelayTypes

  type Millis = m: nat | m < WRAP

  /** The counter at true time t. */
  function Tick(t: int): Millis { t % WRAP }

  /** Unsigned subtraction: exact across one wrap. */
  function Elapsed(now: Millis, since: Millis): Millis { (now - since) % WRAP }

  datatype TouchLevel = Released | Pressed

  datatype TouchEvent = Press | Release | LongPress

  /** A call on the touch sink. */
  datatype Signal =
    | Touched(channel: nat, event: TouchEvent)
    | ResetProgress(elapsed: Millis, total: Millis)
    | ResetRequested

  datatype TouchConfig = TouchConfig(debounceMs: Millis, longPressMs: Millis, factoryHoldMs: Millis,
                                     progressEveryMs: Millis, resetA: ChannelId, resetB: ChannelId)

  // ----- One channel -----

  datatype Channel = Channel(stable: TouchLevel, candidate: TouchLevel, since: Millis, longFired: bool)

  const IDLE_CHANNEL := Channel(Released, Released, 0, false)

  function Debounce(cfg: TouchConfig, c: Channel, level: TouchLevel, now: Millis): (Channel, Option<TouchEvent>) {
    if level != c.candidate then
      (c.(candidate := level, since := now), None)
    else if level == c.stable then
      if c.stable.Pressed? && !c.longFired && Elapsed(now, c.since) >= cfg.longPressMs
      then (c.(longFired := true), Some(LongPress))
      else (c, None)
    else if Elapsed(now, c.since) >= cfg.debounceMs then
      (Channel(level, level, now, false), Some(if level.Pressed? then Press else Release))
    else
      (c, None)
  }

  // ----- The reset pair -----

  const NO_TIME: Millis := 0xFFFF_FFFF
  const SETTLE_MS: Millis := 500

  datatype Gesture = Gesture(active: bool, fired: bool, baseline: bool,
                             firstPoll: Millis, start: Millis, lastProgress: Millis)

  const IDLE_GESTURE := Gesture(false, false, false, NO_TIME, 0, 0)

  function GestureStep(cfg: TouchConfig, g: Gesture, bothHeld: bool, now: Millis): (Gesture, seq<Signal>) {
    if !g.baseline then
      var first := if g.firstPoll == NO_TIME then now else g.firstPoll;
      var settled := Elapsed(now, first) >= SETTLE_MS;
      (g.(firstPoll := first, baseline := settled && !bothHeld, active := false, fired := false), [])
    else if !bothHeld then
      (g.(active := false, fired := false), [])
    else if !g.active then
      (g.(active := true, start := now, lastProgress := now), [])
    else
      var held := Elapsed(now, g.start);
      var due := !g.fired && Elapsed(now, g.lastProgress) >= cfg.progressEveryMs;
      var fires := held >= cfg.factoryHoldMs && !g.fired;
      (g.(lastProgress := if due then now else g.lastProgress, fired := g.fired || fires),
       (if due then [ResetProgress(held, cfg.factoryHoldMs)] else [])
         + if fires then [ResetRequested] else [])
  }

  // ----- The engine -----

  predicate PairValid(cfg: TouchConfig, count: nat) {
    cfg.resetA < count && cfg.resetB < count && cfg.resetA != cfg.resetB
  }

  datatype Engine = Engine(channels: seq<Channel>, gesture: Gesture)

  function Fresh(): Engine { Engine(seq(MAX_CHANNELS, _ => IDLE_CHANNEL), IDLE_GESTURE) }

  ghost predicate BothHeld(cfg: TouchConfig, e: Engine)
    requires cfg.resetA < |e.channels| && cfg.resetB < |e.channels|
  {
    e.channels[cfg.resetA].stable.Pressed? && e.channels[cfg.resetB].stable.Pressed?
  }

  /** One poll of one channel: its debounce, then one evaluation of the reset pair. */
  ghost function Polled(cfg: TouchConfig, count: nat, e: Engine, ch: nat, level: TouchLevel, now: Millis)
      : (Engine, seq<Signal>)
    requires ch < count <= |e.channels|
  {
    var (c, event) := Debounce(cfg, e.channels[ch], level, now);
    var channels := e.channels[ch := c];
    var touched := if event.Some? then [Touched(ch, event.value)] else [];
    if !PairValid(cfg, count) then (Engine(channels, e.gesture), touched)
    else
      var (g, signals) := GestureStep(cfg, e.gesture, BothHeld(cfg, Engine(channels, e.gesture)), now);
      (Engine(channels, g), touched + signals)
  }

  class TouchInput {
    const cfg: TouchConfig
    const ch: array<Channel>
    var count: nat
    var initialized: bool
    var resetPairValid: bool
    var resetActive: bool
    var resetFired: bool
    var baselineReleased: bool
    var firstPollMs: Millis
    var resetStart: Millis
    var lastProgress: Millis

    ghost predicate Valid()
      reads this
    {
      && ch.Length == MAX_CHANNELS
      && count <= MAX_CHANNELS
      && (initialized ==> resetPairValid == PairValid(cfg, count))
    }

    ghost function State(): Engine
      reads this, ch
    {
      Engine(ch[..], Gesture(resetActive, resetFired, baselineReleased, firstPollMs, resetStart, lastProgress))
    }

    constructor (cfg: TouchConfig)
      ensures Valid() && !initialized && this.cfg == cfg && fresh(ch)
      ensures State() == Fresh()
    {
      this.cfg := cfg;
      ch := new Channel[MAX_CHANNELS](_ => IDLE_CHANNEL);
      count, initialized, resetPairValid := 0, false, false;
      resetActive, resetFired, baselineReleased := false, false, false;
      firstPollMs, resetStart, lastProgress := NO_TIME, 0, 0;
    }

    method Init(channelCount: ChannelId) returns (r: Status)
      requires Valid()
      modifies this, ch
      ensures Valid()
      ensures r == if 1 <= channelCount <= MAX_CHANNELS then Success else Fail(InvalidArgument)
      ensures r.Success? ==> initialized && count == channelCount
                             && State() == Engine(Fresh().channels, old(State()).gesture)
      ensures !r.Success? ==> State() == old(State()) && initialized == old(initialized)
    {
      if channelCount == 0 || channelCount > MAX_CHANNELS {
        return Fail(InvalidArgument);
      }
      count := channelCount;
      resetPairValid := cfg.resetA < count && cfg.resetB < count && cfg.resetA != cfg.resetB;
      for i := 0 to MAX_CHANNELS
        modifies ch
        invariant forall k :: 0 <= k < i ==> ch[k] == IDLE_CHANNEL
      {
        ch[i] := IDLE_CHANNEL;
      }
      initialized := true;
      assert ch[..] == Fresh().channels;
      return Success;
    }

    /** Feeds one raw level; `out` lists the calls made on the sink, in order. */
    method Poll(chan: ChannelId, level: TouchLevel, now: Millis) returns (r: Status, out: seq<Signal>)
      requires Valid()
      modifies this, ch
      ensures Valid() && count == old(count) && initialized == old(initialized)
      ensures r == if !initialized then Fail(NotInitialized)
                   else if chan >= count then Fail(ChannelNotPresent) else Success
      ensures r.Success? ==> (State(), out) == Polled(cfg, count, old(State()), chan, level, now)
      ensures !r.Success? ==> State() == old(State()) && out == []
    {
      if !initialized {
        return Fail(NotInitialized), [];
      }
      if chan >= count {
        return Fail(ChannelNotPresent), [];
      }
      ghost var before := State();
      var touched := DebounceChannel(chan, level, now);
      assert ch[..] == before.channels[chan := Debounce(cfg, before.channels[chan], level, now).0];
      var signals := UpdateResetGesture(now);
      out := touched + signals;
      assert resetPairValid || out == touched;
      return Success, out;
    }

    method DebounceChannel(chan: nat, level: TouchLevel, now: Millis) returns (out: seq<Signal>)
      requires Valid() && chan < count
      modifies ch
      ensures ch[..] == old(ch[..])[chan := Debounce(cfg, old(ch[chan]), level, now).0]
      ensures var event := Debounce(cfg, old(ch[chan]), level, now).1;
              out == if event.Some? then [Touched(chan, event.value)] else []
    {
      var c := ch[chan];
      if level != c.candidate {
        ch[chan] := c.(candidate := level, since := now);
        return [];
      }
      if level == c.stable {
        out := MaybeLongPress(chan, now);
        return;
      }
      if Elapsed(now, c.since) >= cfg.debounceMs {
        out := CommitTransition(chan, level, now);
        return;
      }
      assert ch[..][chan := c] == ch[..];
      return [];
    }

    method CommitTransition(chan: nat, level: TouchLevel, now: Millis) returns (out: seq<Signal>)
      requires Valid() && chan < count
      modifies ch
      ensures ch[..] == old(ch[..])[chan := old(ch[chan]).(stable := level, longFired := false, since := now)]
      ensures out == [Touched(chan, if level.Pressed? then Press else Release)]
    {
      ch[chan] := ch[chan].(stable := level, longFired := false, since := now);
      out := [Touched(chan, if level.Pressed? then Press else Release)];
    }

    method MaybeLongPress(chan: nat, now: Millis) returns (out: seq<Signal>)
      requires Valid() && chan < count
      modifies ch
      ensures var c := old(ch[chan]);
              var fires := c.stable.Pressed? && !c.longFired && Elapsed(now, c.since) >= cfg.longPressMs;
              && ch[..] == (if fires then old(ch[..])[chan := c.(longFired := true)] else old(ch[..]))
              && out == if fires then [Touched(chan, LongPress)] else []
    {
      var c := ch[chan];
      if c.stable.Pressed? && !c.longFired && Elapsed(now, c.since) >= cfg.longPressMs {
        ch[chan] := c.(longFired := true);
        return [Touched(chan, LongPress)];
      }
      return [];
    }

    method UpdateResetGesture(now: Millis) returns (out: seq<Signal>)
      requires Valid() && initialized
      modifies this`resetActive, this`resetFired, this`baselineReleased, this`firstPollMs,
               this`resetStart, this`lastProgress
      ensures State().channels == old(State()).channels
      ensures (State().gesture, out) ==
              if resetPairValid
              then GestureStep(cfg, old(State()).gesture, BothHeld(cfg, old(State())), now)
              else (old(State()).gesture, [])
    {
      out := [];
      if !resetPairValid {
        return;
      }
      var bothHeld := ch[cfg.resetA].stable.Pressed? && ch[cfg.resetB].stable.Pressed?;
      if !baselineReleased {
        if firstPollMs == NO_TIME {
          firstPollMs := now;
        }
        var settled := Elapsed(now, firstPollMs) >= SETTLE_MS;
        if settled && !bothHeld {
          baselineReleased := true;
        }
        resetActive, resetFired := false, false;
        return;
      }
      if !bothHeld {
        resetActive, resetFired := false, false;
        return;
      }
      if !resetActive {
        resetActive := true;
        resetStart, lastProgress := now, now;
        return;
      }
      var held := Elapsed(now, resetStart);
      if !resetFired && Elapsed(now, lastProgress) >= cfg.progressEveryMs {
        lastProgress := now;
        out := [ResetProgress(held, cfg.factoryHoldMs)];
      }
      ghost var progress := out;
      if held >= cfg.factoryHoldMs && !resetFired {
        resetFired := true;
        out := out + [ResetRequested];
      }
      assert progress + [] == progress;
    }
  }
}
