/** The status LED: blink patterns over the wrapping millisecond counter, and the write suppression that
    drives the sink only when the demanded level differs from a cached one. */
module Indicator {
  import opened Numbers
  import opened Touch

  datatype DeviceStatus = Booting | Provisioning | Connecting | Online | Offline | Fault | FactoryReset

  /** What decides the pattern: the status, the start of its phase and the latest tick, and the
      progress of a reset hold. */
  datatype Pattern = Pattern(status: DeviceStatus, phaseStart: Millis, lastTick: Millis,
                             resetActive: bool, resetElapsed: Millis, resetTotal: Millis)

  const INITIAL := Pattern(Booting, 0, 0, false, 0, 1)

  const SLOW: nat := 600
  const FAST: nat := 80

  /** Progress in percent; the product wraps, which only makes it smaller. */
  function Percent(elapsed: Millis, total: Millis): (pct: nat)
    requires elapsed < total
    ensures pct <= 99
  {
    WrapShrinks(elapsed * 100);
    QuotientBelow(elapsed * 100 % WRAP, total, 100);
    elapsed * 100 % WRAP / total
  }

  lemma WrapShrinks(x: nat)
    ensures x % WRAP <= x
  {
  }

  /** The blink period of a reset hold; 0 is solid. */
  function ResetBlinkPeriod(elapsed: Millis, total: Millis): Millis
    requires total > 0
  {
    if elapsed >= total then 0 else SLOW - (SLOW - FAST) * Percent(elapsed, total) / 100
  }

  function Period(p: Pattern): Millis
    requires p.resetTotal > 0
  {
    if p.resetActive then ResetBlinkPeriod(p.resetElapsed, p.resetTotal)
    else match p.status
      case Booting => 0
      case Provisioning => 500
      case Connecting => 200
      case Online => 0
      case Offline => 2000
      case Fault => 100
      case FactoryReset => ResetBlinkPeriod(p.resetElapsed, p.resetTotal)
  }

  /** The level the pattern demands at a tick: on when solid and in the first half of each cycle. */
  function Demanded(p: Pattern, now: Millis): bool
    requires p.resetTotal > 0
  {
    var period := Period(p);
    period == 0 || Elapsed(now, p.phaseStart) % period < period / 2
  }

  class IndicatorSink {
    var led: bool

    constructor ()
      ensures !led
    {
      led := false;
    }

    method SetStatusLed(on: bool)
      modifies this
      ensures led == on
    {
      led := on;
    }
  }

  class IndicatorController {
    const sink: IndicatorSink
    var status: DeviceStatus
    var phaseStart: Millis
    var lastTick: Millis
    var ledOn: bool
    var resetActive: bool
    var resetElapsed: Millis
    var resetTotal: Millis

    ghost predicate Valid()
      reads this
    {
      resetTotal > 0
    }

    ghost function State(): Lamp
      reads this, sink
    {
      Lamp(Pattern(status, phaseStart, lastTick, resetActive, resetElapsed, resetTotal), ledOn, sink.led)
    }

    constructor (sink: IndicatorSink)
      ensures Valid() && this.sink == sink
      ensures State() == Lamp(INITIAL, false, sink.led)
    {
      this.sink := sink;
      status, phaseStart, lastTick, ledOn := Booting, 0, 0, false;
      resetActive, resetElapsed, resetTotal := false, 0, 1;
    }

    method SetStatus(s: DeviceStatus)
      requires Valid()
      modifies this
      ensures Valid() && State() == Next(old(State()), StatusSet(s))
    {
      if s != status {
        status := s;
        phaseStart := lastTick;
        ledOn := false;
      }
    }

    method SetResetProgress(elapsed: Millis, total: Millis)
      requires Valid()
      modifies this
      ensures Valid() && State() == Next(old(State()), Progress(elapsed, total))
    {
      resetActive := true;
      resetElapsed := elapsed;
      resetTotal := if total == 0 then 1 else total;
    }

    method ClearResetProgress()
      requires Valid()
      modifies this
      ensures Valid() && State() == Next(old(State()), Cleared)
    {
      resetActive := false;
    }

    method Tick(t: nat)
      requires Valid()
      modifies this, sink
      ensures Valid() && State() == Next(old(State()), Ticked(t))
    {
      var now := Touch.Tick(t);
      lastTick := now;
      var pattern := Pattern(status, phaseStart, lastTick, resetActive, resetElapsed, resetTotal);
      var period := Period(pattern);
      if period == 0 {
        DriveLed(true);
      } else {
        var inCycle := Elapsed(now, phaseStart) % period;
        DriveLed(inCycle < period / 2);
      }
    }

    method DriveLed(on: bool)
      modifies this`ledOn, sink
      ensures ledOn == on && sink.led == if on != old(ledOn) then on else old(sink.led)
    {
      if on != ledOn {
        ledOn := on;
        sink.SetStatusLed(on);
      }
    }
  }

  // ----- Whole histories -----

  /** A call; ticks carry true time. */
  datatype Event =
    | StatusSet(status: DeviceStatus)
    | Progress(elapsed: Millis, total: Millis)
    | Cleared
    | Ticked(at: nat)

  /** The pattern, the cached level, and the level the sink really has. */
  datatype Lamp = Lamp(pattern: Pattern, cached: bool, lit: bool)

  /** The pattern evolves without regard to the LED. */
  function NextPattern(p: Pattern, e: Event): (q: Pattern)
    requires p.resetTotal > 0
    ensures q.resetTotal > 0
  {
    match e
    case StatusSet(s) => if s != p.status then p.(status := s, phaseStart := p.lastTick) else p
    case Progress(elapsed, total) =>
      p.(resetActive := true, resetElapsed := elapsed, resetTotal := if total == 0 then 1 else total)
    case Cleared => p.(resetActive := false)
    case Ticked(t) => p.(lastTick := Touch.Tick(t))
  }

  function Next(l: Lamp, e: Event): (m: Lamp)
    requires l.pattern.resetTotal > 0
    ensures m.pattern == NextPattern(l.pattern, e)
  {
    var q := NextPattern(l.pattern, e);
    match e
    case StatusSet(s) => Lamp(q, l.cached && s == l.pattern.status, l.lit)
    case Ticked(t) =>
      var on := Demanded(q, Touch.Tick(t));
      Lamp(q, on, if on != l.cached then on else l.lit)
    case _ => Lamp(q, l.cached, l.lit)
  }

  /** The pattern after the first n events. */
  function PatternAt(h: seq<Event>, n: nat): (p: Pattern)
    requires n <= |h|
    ensures p.resetTotal > 0
  {
    if n == 0 then INITIAL else NextPattern(PatternAt(h, n - 1), h[n - 1])
  }

  /** The whole state after the first n events, from a dark LED. */
  function After(h: seq<Event>, n: nat): (l: Lamp)
    requires n <= |h|
    ensures l.pattern == PatternAt(h, n)
  {
    if n == 0 then Lamp(INITIAL, false, false) else Next(After(h, n - 1), h[n - 1])
  }

  /** The status shown is the one set last. */
  lemma {:induction false} StatusIsLastSet(h: seq<Event>, n: nat, i: nat)
    requires i < n <= |h| && h[i].StatusSet? && forall k :: i < k < n ==> !h[k].StatusSet?
    ensures PatternAt(h, n).status == h[i].status
  {
    if i < n - 1 {
      StatusIsLastSet(h, n - 1, i);
    }
  }

  /** The reset override is on exactly from a progress report until it is cleared, and shows the latest one. */
  lemma {:induction false} OverrideIsLast(h: seq<Event>, n: nat, i: nat)
    requires i < n <= |h| && (h[i].Progress? || h[i].Cleared?)
    requires forall k :: i < k < n ==> !h[k].Progress? && !h[k].Cleared?
    ensures PatternAt(h, n).resetActive <==> h[i].Progress?
    ensures h[i].Progress? ==>
              && PatternAt(h, n).resetElapsed == h[i].elapsed
              && PatternAt(h, n).resetTotal == if h[i].total == 0 then 1 else h[i].total
  {
    if i < n - 1 {
      OverrideIsLast(h, n - 1, i);
    }
  }

  /** Event i is a tick whose pattern demands the LED on. */
  predicate DemandsOn(h: seq<Event>, i: nat)
    requires i < |h|
  {
    h[i].Ticked? && Demanded(PatternAt(h, i + 1), Touch.Tick(h[i].at))
  }

  /** Event i changes the status. */
  predicate ChangesStatus(h: seq<Event>, i: nat)
    requires i < |h|
  {
    h[i].StatusSet? && h[i].status != PatternAt(h, i).status
  }

  ghost predicate NoTick(h: seq<Event>, i: nat, j: nat)
    requires j <= |h|
  {
    forall k :: i <= k < j ==> !h[k].Ticked?
  }

  ghost predicate DarkSince(h: seq<Event>, i: nat, j: nat)
    requires j <= |h|
  {
    forall k :: i <= k < j ==> !DemandsOn(h, k)
  }

  /** Among the first n events, tick m is the last that demanded the LED on, and the status was changed
      at j before any further tick: the cache was cleared while the LED was lit. */
  ghost predicate ClearedWhileLit(h: seq<Event>, n: nat, m: nat, j: nat)
    requires m < j < n <= |h|
  {
    DemandsOn(h, m) && DarkSince(h, m + 1, n) && ChangesStatus(h, j) && NoTick(h, m + 1, j)
  }

  ghost predicate CacheLost(h: seq<Event>, n: nat)
    requires n <= |h|
  {
    exists m, j | 0 <= m < j < n :: ClearedWhileLit(h, n, m, j)
  }

  /** Tick m demanded on, and neither a tick nor a status change has followed. */
  ghost predicate RightlyLit(h: seq<Event>, n: nat, m: nat)
    requires m < n <= |h|
  {
    && DemandsOn(h, m) && NoTick(h, m + 1, n)
    && forall j :: m < j < n ==> !ChangesStatus(h, j)
  }

  ghost predicate LitByRight(h: seq<Event>, n: nat)
    requires n <= |h|
  {
    exists m | 0 <= m < n :: RightlyLit(h, n, m)
  }

  /** The cached level is on exactly while the last tick demanded it and no status change followed; the
      sink is lit beyond that exactly when the cache was cleared while it was lit. */
  lemma {:induction false} LampExactly(h: seq<Event>, n: nat)
    requires n <= |h|
    ensures After(h, n).cached <==> LitByRight(h, n)
    ensures After(h, n).lit <==> After(h, n).cached || CacheLost(h, n)
  {
    hide Demanded;
    if n > 0 {
      LampExactly(h, n - 1);
      var e, l := h[n - 1], After(h, n - 1);
      if DemandsOn(h, n - 1) {
        assert RightlyLit(h, n, n - 1);
      } else {
        CachedStep(h, n);
        LostStep(h, n);
      }
    }
  }

  lemma CachedStep(h: seq<Event>, n: nat)
    requires 0 < n <= |h| && !DemandsOn(h, n - 1)
    ensures LitByRight(h, n)
            <==> !h[n - 1].Ticked? && !ChangesStatus(h, n - 1) && LitByRight(h, n - 1)
  {
    hide Demanded, PatternAt;
    if m :| 0 <= m < n && RightlyLit(h, n, m) {
      assert RightlyLit(h, n - 1, m);
    }
    if LitByRight(h, n - 1) && !h[n - 1].Ticked? && !ChangesStatus(h, n - 1) {
      var m :| 0 <= m < n - 1 && RightlyLit(h, n - 1, m);
      assert RightlyLit(h, n, m);
    }
  }

  lemma LostStep(h: seq<Event>, n: nat)
    requires 0 < n <= |h| && !DemandsOn(h, n - 1)
    ensures CacheLost(h, n)
            <==> CacheLost(h, n - 1) || (ChangesStatus(h, n - 1) && LitByRight(h, n - 1))
  {
    hide Demanded, PatternAt;
    if CacheLost(h, n) {
      var m, j :| 0 <= m < j < n && ClearedWhileLit(h, n, m, j);
      FirstClearing(h, n, m, j);
    }
    if CacheLost(h, n - 1) {
      var m, j :| 0 <= m < j < n - 1 && ClearedWhileLit(h, n - 1, m, j);
      assert ClearedWhileLit(h, n, m, j);
    }
    if LitByRight(h, n - 1) && ChangesStatus(h, n - 1) {
      var m :| 0 <= m < n - 1 && RightlyLit(h, n - 1, m);
      NoTickIsDark(h, m + 1, n - 1);
      assert ClearedWhileLit(h, n, m, n - 1);
    }
  }

  lemma NoTickIsDark(h: seq<Event>, i: nat, j: nat)
    requires j <= |h| && NoTick(h, i, j)
    ensures DarkSince(h, i, j)
  {
  }

  lemma FirstClearing(h: seq<Event>, n: nat, m: nat, j: nat)
    requires m < j < n <= |h| && ClearedWhileLit(h, n, m, j)
    ensures CacheLost(h, n - 1)
            || (ChangesStatus(h, n - 1) && LitByRight(h, n - 1))
  {
    hide Demanded, PatternAt;
    if j < n - 1 {
      assert ClearedWhileLit(h, n - 1, m, j);
    } else if k :| m < k < j && ChangesStatus(h, k) {
      assert ClearedWhileLit(h, n - 1, m, k);
    } else {
      assert RightlyLit(h, n - 1, m);
    }
  }

  /** After a tick the sink shows the demanded level, except exactly when the tick demands off and the
      cache was cleared while the LED was lit with no tick demanding it on since. */
  lemma {:induction false} SinkAgreesExactly(h: seq<Event>, n: nat)
    requires n < |h| && h[n].Ticked?
    ensures After(h, n + 1).lit == DemandsOn(h, n) <==> DemandsOn(h, n) || !CacheLost(h, n)
  {
    hide Demanded;
    LampExactly(h, n);
  }

  /** The tick comes less than half of the period it will use after the latest tick; a solid pattern
      allows any delay. */
  predicate Prompt(h: seq<Event>, n: nat)
    requires n < |h| && h[n].Ticked?
  {
    var q := PatternAt(h, n + 1);
    Period(q) > 0 ==> Elapsed(Touch.Tick(h[n].at), PatternAt(h, n).lastTick) < Period(q) / 2
  }

  /** If the first tick after every status change is prompt, the sink shows the demanded level after
      every tick. */
  lemma {:induction false} PromptTicksAgree(h: seq<Event>, n: nat)
    requires n < |h| && h[n].Ticked?
    requires forall j, i :: 0 <= j < i <= n && ChangesStatus(h, j) && h[i].Ticked? && NoTick(h, j, i) ==> Prompt(h, i)
    ensures After(h, n + 1).lit == DemandsOn(h, n)
  {
    hide Demanded, Period, PatternAt;
    SinkAgreesExactly(h, n);
    if CacheLost(h, n) && !DemandsOn(h, n) {
      var m, j :| 0 <= m < j < n && ClearedWhileLit(h, n, m, j);
      var i := NextTick(h, j, n);
      PhaseKept(h, j, i);
      PromptIsOn(h, j, i);
    }
  }

  lemma NextTick(h: seq<Event>, j: nat, n: nat) returns (i: nat)
    requires j < n < |h| && h[n].Ticked? && !h[j].Ticked?
    ensures j < i <= n && h[i].Ticked? && NoTick(h, j, i)
  {
    i := j + 1;
    while !h[i].Ticked?
      invariant j < i <= n && NoTick(h, j, i)
      decreases n - i
    {
      i := i + 1;
    }
  }

  /** From a status change to the next tick the phase starts at the latest tick. */
  lemma {:induction false} PhaseKept(h: seq<Event>, j: nat, i: nat)
    requires j < i < |h| && ChangesStatus(h, j) && NoTick(h, j, i)
    ensures PatternAt(h, i).phaseStart == PatternAt(h, i).lastTick
  {
    if i > j + 1 {
      PhaseKept(h, j, i - 1);
    }
  }

  lemma PromptIsOn(h: seq<Event>, j: nat, i: nat)
    requires j < i < |h| && h[i].Ticked? && Prompt(h, i)
    requires PatternAt(h, i).phaseStart == PatternAt(h, i).lastTick
    ensures DemandsOn(h, i)
  {
    hide Elapsed, Period;
    var q := PatternAt(h, i + 1);
    var d := Elapsed(Touch.Tick(h[i].at), q.phaseStart);
    if Period(q) > 0 {
      assert d % Period(q) == d;
    }
  }

  /** A status change, then one late tick in the dark half, leaves the LED lit, and so does a prompt
      tick after it: promptness of the latest tick alone is not enough. */
  lemma LateTickLeavesLedLit()
    ensures var h := [Ticked(0), StatusSet(Provisioning), Ticked(300), Ticked(350)];
            && !DemandsOn(h, 2) && After(h, 3).lit
            && Prompt(h, 3) && !DemandsOn(h, 3) && After(h, 4).lit
  {
    var h := [Ticked(0), StatusSet(Provisioning), Ticked(300), Ticked(350)];
    assert PatternAt(h, 1) == INITIAL;
    assert PatternAt(h, 2) == INITIAL.(status := Provisioning);
    assert PatternAt(h, 3) == INITIAL.(status := Provisioning, lastTick := 300);
    assert PatternAt(h, 4) == INITIAL.(status := Provisioning, lastTick := 350);
    assert After(h, 1) == Lamp(PatternAt(h, 1), true, true);
    assert After(h, 2) == Lamp(PatternAt(h, 2), false, true);
    assert After(h, 3) == Lamp(PatternAt(h, 3), false, true);
  }

  // ----- Reset feedback -----

  /** Until completion the LED blinks with a period from 86 to 600 ms, whatever overflows. */
  lemma ResetPeriodBounds(elapsed: Millis, total: Millis)
    requires total > 0
    ensures if elapsed >= total then ResetBlinkPeriod(elapsed, total) == 0
            else 86 <= ResetBlinkPeriod(elapsed, total) <= SLOW
  {
    hide Percent;
  }

  /** The patterns, in milliseconds since the phase began: solid while booting and online, otherwise on in the
      first half of each cycle. */
  lemma StatusPatterns(p: Pattern, now: Millis)
    requires p.resetTotal > 0 && !p.resetActive
    ensures var d := Elapsed(now, p.phaseStart);
            && (p.status == Booting || p.status == Online ==> Demanded(p, now))
            && (p.status == Provisioning ==> (Demanded(p, now) <==> d % 500 < 250))
            && (p.status == Connecting ==> (Demanded(p, now) <==> d % 200 < 100))
            && (p.status == Offline ==> (Demanded(p, now) <==> d % 2000 < 1000))
            && (p.status == Fault ==> (Demanded(p, now) <==> d % 100 < 50))
  {
    hide Elapsed;
    StatusPeriods(p);
  }

  lemma StatusPeriods(p: Pattern)
    requires p.resetTotal > 0 && !p.resetActive
    ensures p.status == Booting || p.status == Online ==> Period(p) == 0
    ensures p.status == Provisioning ==> Period(p) == 500
    ensures p.status == Connecting ==> Period(p) == 200
    ensures p.status == Offline ==> Period(p) == 2000
    ensures p.status == Fault ==> Period(p) == 100
  {
  }

  /** A reset hold overrides every status: with q whole percent of it done the LED blinks with a period of
      600 - 5.2 q ms, rounded up, and is solid once it is complete. */
  lemma ResetPattern(p: Pattern, q: nat, now: Millis)
    requires p.resetTotal > 0 && (p.resetActive || p.status == FactoryReset)
    requires p.resetElapsed < p.resetTotal && p.resetElapsed * 100 < 0x1_0000_0000
    requires q * p.resetTotal <= p.resetElapsed * 100 < q * p.resetTotal + p.resetTotal
    ensures q < 100 && 600 - q * 520 / 100 == Period(p)
    ensures Demanded(p, now) <==>
            Elapsed(now, p.phaseStart) % (600 - q * 520 / 100) < (600 - q * 520 / 100) / 2
  {
    hide Elapsed;
    var e, total := p.resetElapsed, p.resetTotal;
    assert e * 100 % WRAP == e * 100;
    QuotientIs(e * 100, total, q);
    assert Percent(e, total) == q;
    hide Percent;
  }

  lemma ResetCompleteIsSolid(p: Pattern, now: Millis)
    requires p.resetTotal > 0 && (p.resetActive || p.status == FactoryReset) && p.resetElapsed >= p.resetTotal
    ensures Demanded(p, now)
  {
  }

  /** The blink never slows down while a hold of `total` progresses. */
  ghost predicate OnlySpeedsUp(total: Millis)
    requires total > 0
  {
    forall a: Millis, b: Millis :: a <= b < total ==> ResetBlinkPeriod(b, total) <= ResetBlinkPeriod(a, total)
  }

  /** The largest total whose percentages never overflow, and the least one whose wrapped percentages are
      all zero. */
  const SAFE_TOTAL: nat := 42949673
  const FLAT_TOTAL: nat := 4294967293

  /** The blink only speeds up exactly when elapsed * 100 cannot overflow before completion, or the total
      is so large that every wrapped percentage is zero. */
  lemma SpeedsUpExactly(total: Millis)
    requires total > 0
    ensures OnlySpeedsUp(total) <==> total <= SAFE_TOTAL || total >= FLAT_TOTAL
  {
    if total <= SAFE_TOTAL {
      forall a: Millis, b: Millis | a <= b < total ensures ResetBlinkPeriod(b, total) <= ResetBlinkPeriod(a, total) {
        NoOverflowSpeedsUp(a, b, total);
      }
    } else if total >= FLAT_TOTAL {
      hide Percent;
      forall a: Millis | a < total ensures ResetBlinkPeriod(a, total) == SLOW {
        FlatPercent(a, total);
      }
    } else {
      OverflowSlowsDown(total);
    }
  }

  lemma NoOverflowSpeedsUp(a: Millis, b: Millis, total: Millis)
    requires a <= b < total <= SAFE_TOTAL
    ensures ResetBlinkPeriod(b, total) <= ResetBlinkPeriod(a, total)
  {
    PercentGrows(a, b, total);
    hide Percent;
  }

  lemma PercentGrows(a: Millis, b: Millis, total: Millis)
    requires a <= b < total <= SAFE_TOTAL
    ensures Percent(a, total) <= Percent(b, total)
  {
    assert a * 100 % WRAP == a * 100 && b * 100 % WRAP == b * 100;
    QuotientGrows(a * 100, b * 100, total);
  }

  lemma FlatPercent(a: Millis, total: Millis)
    requires a < total && total >= FLAT_TOTAL
    ensures Percent(a, total) == 0
  {
    var x := a * 100 % WRAP;
    assert x == 4 * (a * 25 - 0x4000_0000 * (a * 100 / WRAP));
    assert x < total;
    QuotientIs(x, total, 0);
  }

  /** The product wraps between an elapsed time showing at least one percent and the next. */
  lemma OverflowSlowsDown(total: Millis)
    requires SAFE_TOTAL < total < FLAT_TOTAL
    ensures !OnlySpeedsUp(total)
  {
    var a: Millis := if total <= 4294967200 then 42949672 else 1030792151;
    WrapDropsToZero(a, total);
    hide Percent;
    assert ResetBlinkPeriod(a, total) < SLOW;
    assert ResetBlinkPeriod(a + 1, total) == SLOW;
  }

  lemma WrapDropsToZero(a: Millis, total: Millis)
    requires SAFE_TOTAL < total < FLAT_TOTAL
    requires a == if total <= 4294967200 then 42949672 else 1030792151
    ensures a + 1 < total && Percent(a, total) >= 1 && Percent(a + 1, total) == 0
  {
    var x, y := a * 100 % WRAP, (a + 1) * 100 % WRAP;
    if total <= 4294967200 {
      assert x == 4294967200 && y == 4;
    } else {
      assert x == 4294967292 && y == 96;
    }
    QuotientIs(y, total, 0);
    QuotientGrows(total, x, total);
  }

  // ----- Quotients -----

  lemma Multiples(a: nat, b: nat, d: nat)
    ensures a < b ==> a * d + d <= b * d
  {
    if a + 1 < b {
      Multiples(a, b - 1, d);
      assert b * d == (b - 1) * d + d;
    }
  }

  lemma Bracket(x: nat, d: nat)
    requires d > 0
    ensures x / d * d <= x < x / d * d + d
  {
  }

  lemma QuotientIs(x: nat, d: nat, q: nat)
    requires q * d <= x < q * d + d
    ensures x / d == q
  {
    Bracket(x, d);
    Multiples(x / d, q, d);
    Multiples(q, x / d, d);
  }

  lemma QuotientGrows(x: nat, y: nat, d: nat)
    requires x <= y && d > 0
    ensures x / d <= y / d
  {
    Bracket(x, d);
    Bracket(y, d);
    Multiples(y / d, x / d, d);
  }

  lemma QuotientBelow(x: nat, d: nat, bound: nat)
    requires x < bound * d
    ensures d > 0 && x / d < bound
  {
    Bracket(x, d);
    Multiples(bound - 1, x / d, d);
  }
}
