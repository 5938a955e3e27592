/** Whole scans of the touch pads: every channel and the reset pair see exactly their own histories. */
module TouchScans {
  import opened Wrappers
  import opened RelayTypes
  import opened Touch
  import TouchHistory
  import ResetGesture

  /** One scan: the level of every present pad, all read at one true time. */
  datatype Scan = Scan(levels: seq<TouchLevel>, at: nat)

  ghost predicate ValidScans(count: nat, scans: seq<Scan>) {
    && count <= MAX_CHANNELS
    && (forall k :: 0 <= k < |scans| ==> |scans[k].levels| == count)
    && (forall i, j :: 0 <= i < j < |scans| ==> scans[i].at <= scans[j].at)
  }

  /** The engine after the first c channels of a scan, polled in order. */
  ghost function ScanUpTo(cfg: TouchConfig, e: Engine, levels: seq<TouchLevel>, now: Millis, c: nat): (r: Engine)
    requires c <= |levels| <= |e.channels| == MAX_CHANNELS
    ensures |r.channels| == MAX_CHANNELS
  {
    if c == 0 then e
    else Polled(cfg, |levels|, ScanUpTo(cfg, e, levels, now, c - 1), c - 1, levels[c - 1], now).0
  }

  ghost function AfterScans(cfg: TouchConfig, count: nat, scans: seq<Scan>, k: nat): (r: Engine)
    requires ValidScans(count, scans) && k <= |scans|
    ensures |r.channels| == MAX_CHANNELS
  {
    if k == 0 then Fresh()
    else ScanUpTo(cfg, AfterScans(cfg, count, scans, k - 1), scans[k - 1].levels, Tick(scans[k - 1].at), count)
  }

  /** The engine just before channel c is polled in scan k, and what that poll emits. */
  ghost function BeforePoll(cfg: TouchConfig, count: nat, scans: seq<Scan>, k: nat, c: nat): (r: Engine)
    requires ValidScans(count, scans) && k < |scans| && c <= count
    ensures |r.channels| == MAX_CHANNELS
  {
    ScanUpTo(cfg, AfterScans(cfg, count, scans, k), scans[k].levels, Tick(scans[k].at), c)
  }

  ghost function Emitted(cfg: TouchConfig, count: nat, scans: seq<Scan>, k: nat, c: nat): seq<Signal>
    requires ValidScans(count, scans) && k < |scans| && c < count
  {
    Polled(cfg, count, BeforePoll(cfg, count, scans, k, c), c, scans[k].levels[c], Tick(scans[k].at)).1
  }

  // ----- Channels -----

  function SamplesOf(scans: seq<Scan>, ch: nat): (h: seq<TouchHistory.Sample>)
    requires forall i :: 0 <= i < |scans| ==> ch < |scans[i].levels|
    ensures |h| == |scans|
  {
    seq(|scans|, i requires 0 <= i < |scans| => TouchHistory.Sample(scans[i].levels[ch], scans[i].at))
  }

  lemma {:induction false} ScanTouchesOnce(cfg: TouchConfig, e: Engine, levels: seq<TouchLevel>, now: Millis,
                                           c: nat, ch: nat)
    requires c <= |levels| <= |e.channels| == MAX_CHANNELS && ch < |levels|
    ensures ScanUpTo(cfg, e, levels, now, c).channels[ch]
         == if ch < c then Debounce(cfg, e.channels[ch], levels[ch], now).0 else e.channels[ch]
  {
    hide Debounce, GestureStep;
    if c > 0 {
      ScanTouchesOnce(cfg, e, levels, now, c - 1, ch);
    }
  }

  lemma {:induction false} ChannelSeesItsHistory(cfg: TouchConfig, count: nat, scans: seq<Scan>, ch: nat, k: nat)
    requires ValidScans(count, scans) && ch < count && k <= |scans|
    ensures AfterScans(cfg, count, scans, k).channels[ch] == TouchHistory.After(cfg, SamplesOf(scans, ch), k)
  {
    hide Debounce, GestureStep, Tick;
    if k > 0 {
      ChannelSeesItsHistory(cfg, count, scans, ch, k - 1);
      ScanTouchesOnce(cfg, AfterScans(cfg, count, scans, k - 1), scans[k - 1].levels, Tick(scans[k - 1].at), count, ch);
    }
  }

  /** The touch events of a channel are exactly those of its own sample history, whatever the other
      channels do: every theorem of TouchHistory applies to the scanned engine. */
  lemma ChannelEmitsItsEvents(cfg: TouchConfig, count: nat, scans: seq<Scan>, k: nat, c: nat, ch: nat, ev: TouchEvent)
    requires ValidScans(count, scans) && k < |scans| && c < count && ch < count
    ensures Touched(ch, ev) in Emitted(cfg, count, scans, k, c) <==>
            c == ch && TouchHistory.EventAt(cfg, SamplesOf(scans, ch), k) == Some(ev)
  {
    hide Debounce, GestureStep, Tick, AfterScans;
    ChannelSeesItsHistory(cfg, count, scans, c, k);
    ScanTouchesOnce(cfg, AfterScans(cfg, count, scans, k), scans[k].levels, Tick(scans[k].at), c, c);
    var e := BeforePoll(cfg, count, scans, k, c);
    PollSignals(cfg, count, e, c, scans[k].levels[c], Tick(scans[k].at), Touched(ch, ev));
  }

  lemma PollSignals(cfg: TouchConfig, count: nat, e: Engine, c: nat, level: TouchLevel, now: Millis, s: Signal)
    requires c < count <= |e.channels|
    ensures var (q, out) := Polled(cfg, count, e, c, level, now);
            s in out <==>
            if s.Touched? then s.channel == c && Debounce(cfg, e.channels[c], level, now).1 == Some(s.event)
            else PairValid(cfg, count) && s in GestureStep(cfg, e.gesture, BothHeld(cfg, q), now).1
  {
    hide Debounce;
  }

  // ----- The reset pair -----

  /** The evaluations of the pair: one after every poll. */
  ghost function EvalsUpTo(cfg: TouchConfig, e: Engine, levels: seq<TouchLevel>, at: nat, c: nat)
      : (r: seq<ResetGesture.Eval>)
    requires c <= |levels| <= |e.channels| == MAX_CHANNELS && PairValid(cfg, |levels|)
    ensures |r| == c && forall i :: 0 <= i < |r| ==> r[i].at == at
  {
    if c == 0 then []
    else
      EvalsUpTo(cfg, e, levels, at, c - 1)
        + [ResetGesture.Eval(BothHeld(cfg, ScanUpTo(cfg, e, levels, Tick(at), c)), at)]
  }

  ghost function EvalsOf(cfg: TouchConfig, count: nat, scans: seq<Scan>, k: nat): seq<ResetGesture.Eval>
    requires ValidScans(count, scans) && k <= |scans| && PairValid(cfg, count)
  {
    if k == 0 then []
    else
      EvalsOf(cfg, count, scans, k - 1)
        + EvalsUpTo(cfg, AfterScans(cfg, count, scans, k - 1), scans[k - 1].levels, scans[k - 1].at, count)
  }

  /** The evaluations up to and including the poll of channel c in scan k. */
  ghost function EvalsTo(cfg: TouchConfig, count: nat, scans: seq<Scan>, k: nat, c: nat): seq<ResetGesture.Eval>
    requires ValidScans(count, scans) && k < |scans| && PairValid(cfg, count) && c < count
  {
    EvalsOf(cfg, count, scans, k)
      + EvalsUpTo(cfg, AfterScans(cfg, count, scans, k), scans[k].levels, scans[k].at, c + 1)
  }

  lemma {:induction false} PrefixDecides(cfg: TouchConfig, es: seq<ResetGesture.Eval>, fs: seq<ResetGesture.Eval>,
                                         n: nat)
    requires n <= |es|
    ensures ResetGesture.After(cfg, es + fs, n) == ResetGesture.After(cfg, es, n)
  {
    hide GestureStep;
    if n > 0 {
      PrefixDecides(cfg, es, fs, n - 1);
    }
  }

  lemma {:induction false} ScanPair(cfg: TouchConfig, e: Engine, levels: seq<TouchLevel>, at: nat, c: nat,
                                    es: seq<ResetGesture.Eval>)
    requires c <= |levels| <= |e.channels| == MAX_CHANNELS && PairValid(cfg, |levels|)
    requires e.gesture == ResetGesture.After(cfg, es, |es|)
    ensures var all := es + EvalsUpTo(cfg, e, levels, at, c);
            ScanUpTo(cfg, e, levels, Tick(at), c).gesture == ResetGesture.After(cfg, all, |all|)
  {
    hide Debounce, GestureStep, Tick;
    if c == 0 {
      assert es + [] == es;
    } else {
      ScanPair(cfg, e, levels, at, c - 1, es);
      var some := es + EvalsUpTo(cfg, e, levels, at, c - 1);
      var next := ResetGesture.Eval(BothHeld(cfg, ScanUpTo(cfg, e, levels, Tick(at), c)), at);
      assert es + EvalsUpTo(cfg, e, levels, at, c) == some + [next];
      PrefixDecides(cfg, some, [next], |some|);
    }
  }

  lemma {:induction false} PairSeesItsHistory(cfg: TouchConfig, count: nat, scans: seq<Scan>, k: nat)
    requires ValidScans(count, scans) && k <= |scans| && PairValid(cfg, count)
    ensures var es := EvalsOf(cfg, count, scans, k);
            && AfterScans(cfg, count, scans, k).gesture == ResetGesture.After(cfg, es, |es|)
            && ResetGesture.Timed(es)
            && (forall i :: 0 <= i < |es| ==> k > 0 && es[i].at <= scans[k - 1].at)
  {
    hide Debounce, GestureStep, Tick, ScanUpTo;
    if k > 0 {
      PairSeesItsHistory(cfg, count, scans, k - 1);
      ScanPair(cfg, AfterScans(cfg, count, scans, k - 1), scans[k - 1].levels, scans[k - 1].at, count,
               EvalsOf(cfg, count, scans, k - 1));
    }
  }

  /** What a poll emits for the pair is exactly what the pair's evaluation history emits. */
  lemma PairEmitsItsSignals(cfg: TouchConfig, count: nat, scans: seq<Scan>, k: nat, c: nat, s: Signal)
    requires ValidScans(count, scans) && k < |scans| && c < count && PairValid(cfg, count) && !s.Touched?
    ensures var es := EvalsTo(cfg, count, scans, k, c);
            && es != [] && ResetGesture.Timed(es)
            && (s in Emitted(cfg, count, scans, k, c) <==> s in ResetGesture.SignalsAt(cfg, es, |es| - 1))
  {
    hide Debounce, GestureStep, Tick, AfterScans, EvalsOf;
    PairSeesItsHistory(cfg, count, scans, k);
    var e, earlier := AfterScans(cfg, count, scans, k), EvalsOf(cfg, count, scans, k);
    ScanPair(cfg, e, scans[k].levels, scans[k].at, c, earlier);
    var some := earlier + EvalsUpTo(cfg, e, scans[k].levels, scans[k].at, c);
    var es := EvalsTo(cfg, count, scans, k, c);
    assert es == some + [es[|es| - 1]];
    PrefixDecides(cfg, some, [es[|es| - 1]], |some|);
    PollSignals(cfg, count, BeforePoll(cfg, count, scans, k, c), c, scans[k].levels[c], Tick(scans[k].at), s);
  }

  /** Requests and progress reports of a poll are those of the pair's evaluation history: every theorem of
      ResetGesture applies to the scanned engine. */
  lemma PairEmitsItsRequests(cfg: TouchConfig, count: nat, scans: seq<Scan>, k: nat, c: nat)
    requires ValidScans(count, scans) && k < |scans| && c < count
    requires cfg.resetA < count && cfg.resetB < count && cfg.resetA != cfg.resetB
    ensures var es, out := EvalsTo(cfg, count, scans, k, c), Emitted(cfg, count, scans, k, c);
            && es != [] && ResetGesture.Timed(es)
            && (ResetRequested in out <==> ResetGesture.RequestedAt(cfg, es, |es| - 1))
            && forall held: Millis, total: Millis ::
                 ResetProgress(held, total) in out
                 <==> ResetGesture.ProgressAt(cfg, es, |es| - 1) == Some(held) && total == cfg.factoryHoldMs
  {
    hide EvalsTo, Emitted, ResetGesture.ProgressAt;
    var es, out := EvalsTo(cfg, count, scans, k, c), Emitted(cfg, count, scans, k, c);
    PairEmitsItsSignals(cfg, count, scans, k, c, ResetRequested);
    hide ResetGesture.SignalsAt;
    forall held: Millis, total: Millis
      ensures ResetProgress(held, total) in out
              <==> ResetGesture.ProgressAt(cfg, es, |es| - 1) == Some(held) && total == cfg.factoryHoldMs
    {
      PairEmitsItsSignals(cfg, count, scans, k, c, ResetProgress(held, total));
      ResetGesture.ProgressSignal(cfg, es, |es| - 1, held, total);
    }
  }

  // ----- The two pads of the pair -----

  /** At the evaluation after the poll of channel c in scan k, pad ch is confirmed pressed by its own samples:
      those of earlier scans, and that of scan k when its turn has come. */
  ghost predicate PadHeld(cfg: TouchConfig, count: nat, scans: seq<Scan>, ch: nat, k: nat, c: nat)
    requires ValidScans(count, scans) && ch < count && k < |scans|
  {
    TouchHistory.After(cfg, SamplesOf(scans, ch), if ch <= c then k + 1 else k).stable == Pressed
  }

  /** An evaluation sees the pair held iff each of its two pads is confirmed by its own history. */
  lemma PairHeldExactly(cfg: TouchConfig, count: nat, scans: seq<Scan>, k: nat, c: nat)
    requires ValidScans(count, scans) && k < |scans| && PairValid(cfg, count) && c < count
    ensures BothHeld(cfg, BeforePoll(cfg, count, scans, k, c + 1))
            <==> PadHeld(cfg, count, scans, cfg.resetA, k, c) && PadHeld(cfg, count, scans, cfg.resetB, k, c)
  {
    PadOfScan(cfg, count, scans, cfg.resetA, k, c);
    PadOfScan(cfg, count, scans, cfg.resetB, k, c);
    hide PadHeld, BeforePoll;
  }

  lemma PadOfScan(cfg: TouchConfig, count: nat, scans: seq<Scan>, ch: nat, k: nat, c: nat)
    requires ValidScans(count, scans) && k < |scans| && ch < count && c < count
    ensures BeforePoll(cfg, count, scans, k, c + 1).channels[ch].stable.Pressed?
            <==> PadHeld(cfg, count, scans, ch, k, c)
  {
    hide Debounce, GestureStep, Tick, AfterScans;
    ChannelSeesItsHistory(cfg, count, scans, ch, k);
    ScanTouchesOnce(cfg, AfterScans(cfg, count, scans, k), scans[k].levels, Tick(scans[k].at), c + 1, ch);
  }

  /** The number of the evaluation after the poll of channel c in scan k. */
  function Place(count: nat, k: nat, c: nat): nat { k * count + c }

  lemma Placed(count: nat, k: nat, c: nat, j: nat, i: nat)
    requires c < count && i < count
    ensures j < k ==> Place(count, j, i) < k * count
    ensures j < k || (j == k && i < c) <==> Place(count, j, i) < Place(count, k, c)
  {
    if j < k {
      RowsApart(count, j, k);
    } else if k < j {
      RowsApart(count, k, j);
    }
  }

  lemma {:induction false} RowsApart(count: nat, j: nat, k: nat)
    requires j < k
    ensures j * count + count <= k * count
  {
    assert k * count == (k - 1) * count + count;
    if j < k - 1 {
      RowsApart(count, j, k - 1);
    }
  }

  lemma {:induction false} EvalsOfScan(cfg: TouchConfig, count: nat, scans: seq<Scan>, k: nat, n: nat, c: nat)
    requires ValidScans(count, scans) && k < |scans| && PairValid(cfg, count) && c < n <= count
    ensures EvalsUpTo(cfg, AfterScans(cfg, count, scans, k), scans[k].levels, scans[k].at, n)[c]
         == ResetGesture.Eval(PadHeld(cfg, count, scans, cfg.resetA, k, c) &&
                              PadHeld(cfg, count, scans, cfg.resetB, k, c), scans[k].at)
  {
    hide Debounce, GestureStep, Tick, AfterScans, PadHeld, BothHeld;
    if c < n - 1 {
      EvalsOfScan(cfg, count, scans, k, n - 1, c);
    } else {
      PairHeldExactly(cfg, count, scans, k, c);
    }
  }

  lemma {:induction false} EvalsOfScans(cfg: TouchConfig, count: nat, scans: seq<Scan>, k: nat, j: nat, i: nat)
    requires ValidScans(count, scans) && k <= |scans| && PairValid(cfg, count) && i < count
    ensures |EvalsOf(cfg, count, scans, k)| == k * count
    ensures j < k ==>
              && Place(count, j, i) < k * count
              && EvalsOf(cfg, count, scans, k)[Place(count, j, i)]
              == ResetGesture.Eval(PadHeld(cfg, count, scans, cfg.resetA, j, i) &&
                                   PadHeld(cfg, count, scans, cfg.resetB, j, i), scans[j].at)
  {
    hide EvalsUpTo, AfterScans, PadHeld;
    if k > 0 {
      EvalsOfScans(cfg, count, scans, k - 1, j, i);
      assert k * count == (k - 1) * count + count;
      if j < k - 1 {
        Placed(count, k - 1, 0, j, i);
      } else if j == k - 1 {
        EvalsOfScan(cfg, count, scans, j, count, i);
      }
    }
  }

  /** The evaluations so far, one by one: that after the poll of channel i in scan j carries the scan's time,
      and whether both pads are confirmed by their own samples. */
  lemma EvalsAreOfPads(cfg: TouchConfig, count: nat, scans: seq<Scan>, k: nat, c: nat, j: nat, i: nat)
    requires ValidScans(count, scans) && k < |scans| && c < count && i < count
    requires cfg.resetA < count && cfg.resetB < count && cfg.resetA != cfg.resetB
    requires j < k || (j == k && i <= c)
    ensures |EvalsTo(cfg, count, scans, k, c)| == Place(count, k, c) + 1 > Place(count, j, i)
    ensures EvalsTo(cfg, count, scans, k, c)[Place(count, j, i)]
         == ResetGesture.Eval(PadHeld(cfg, count, scans, cfg.resetA, j, i) &&
                              PadHeld(cfg, count, scans, cfg.resetB, j, i), scans[j].at)
  {
    hide EvalsUpTo, EvalsOf, AfterScans, PadHeld;
    EvalsOfScans(cfg, count, scans, k, j, i);
    if j == k {
      EvalsOfScan(cfg, count, scans, k, c + 1, i);
    }
  }

  lemma PlaceOf(count: nat, k: nat, c: nat, n: nat) returns (j: nat, i: nat)
    requires c < count && n <= Place(count, k, c)
    ensures i < count && n == Place(count, j, i) && (j < k || (j == k && i <= c))
  {
    j, i := n / count, n % count;
    Placed(count, j, i, k, c);
  }

  /** Safety on the raw pads: a poll requests the reset only if the pair is a real one, some evaluation at least
      500 ms after the first saw one of its pads not confirmed, and from an evaluation at least the factory-reset
      time before this one, in true time, up to this one every evaluation had both pads confirmed pressed. */
  lemma RequestNeedsBothPads(cfg: TouchConfig, count: nat, scans: seq<Scan>, k: nat, c: nat)
      returns (kb: nat, cb: nat, ks: nat, cs: nat)
    requires ValidScans(count, scans) && k < |scans| && c < count
    requires ResetRequested in Emitted(cfg, count, scans, k, c)
    ensures cfg.resetA < count && cfg.resetB < count && cfg.resetA != cfg.resetB
    ensures cb < count && cs < count && kb <= ks <= k && (kb < ks || cb < cs) && (ks < k || cs < c)
    ensures !PadHeld(cfg, count, scans, cfg.resetA, kb, cb) || !PadHeld(cfg, count, scans, cfg.resetB, kb, cb)
    ensures scans[kb].at - scans[0].at >= 500 && scans[k].at - scans[ks].at >= cfg.factoryHoldMs
    ensures forall j: nat, i: nat ::
              i < count && (ks < j || (ks == j && cs <= i)) && (j < k || (j == k && i <= c)) ==>
              PadHeld(cfg, count, scans, cfg.resetA, j, i) && PadHeld(cfg, count, scans, cfg.resetB, j, i)
  {
    hide Debounce, GestureStep, Tick, BeforePoll, ResetGesture.RequestedAt, EvalsTo, PadHeld, Place;
    PollSignals(cfg, count, BeforePoll(cfg, count, scans, k, c), c, scans[k].levels[c], Tick(scans[k].at),
                ResetRequested);
    PairEmitsItsRequests(cfg, count, scans, k, c);
    var es := EvalsTo(cfg, count, scans, k, c);
    EvalsAreOfPads(cfg, count, scans, k, c, k, c);
    var b, s := ResetGesture.RequestIsSound(cfg, es, |es| - 1);
    kb, cb := PlaceOf(count, k, c, b);
    ks, cs := PlaceOf(count, k, c, s);
    EvalsAreOfPads(cfg, count, scans, k, c, kb, cb);
    EvalsAreOfPads(cfg, count, scans, k, c, ks, cs);
    EvalsAreOfPads(cfg, count, scans, k, c, 0, 0);
    Placed(count, ks, cs, kb, cb);
    Placed(count, k, c, ks, cs);
    assert Place(count, 0, 0) == 0 by { FirstPlace(count); }
    forall j: nat, i: nat |
      i < count && (ks < j || (ks == j && cs <= i)) && (j < k || (j == k && i <= c))
      ensures PadHeld(cfg, count, scans, cfg.resetA, j, i) && PadHeld(cfg, count, scans, cfg.resetB, j, i)
    {
      EvalsAreOfPads(cfg, count, scans, k, c, j, i);
      Placed(count, ks, cs, j, i);
      Placed(count, k, c, j, i);
    }
  }

  lemma FirstPlace(count: nat)
    ensures Place(count, 0, 0) == 0
  {
  }

  /** One button is not enough: a poll after which either pad of the pair is not confirmed by its own samples
      neither requests the reset nor reports progress; nor does any poll when the pair is not a real one. */
  lemma OneButtonIsNotEnough(cfg: TouchConfig, count: nat, scans: seq<Scan>, k: nat, c: nat, s: Signal)
    requires ValidScans(count, scans) && k < |scans| && c < count && s in Emitted(cfg, count, scans, k, c)
    ensures cfg.resetA >= count || cfg.resetB >= count || cfg.resetA == cfg.resetB ==> s.Touched?
    ensures cfg.resetA < count && !PadHeld(cfg, count, scans, cfg.resetA, k, c) ==> s.Touched?
    ensures cfg.resetB < count && !PadHeld(cfg, count, scans, cfg.resetB, k, c) ==> s.Touched?
  {
    hide Debounce, Tick, BeforePoll, PadHeld, BothHeld;
    PollSignals(cfg, count, BeforePoll(cfg, count, scans, k, c), c, scans[k].levels[c], Tick(scans[k].at), s);
    if !s.Touched? {
      PairHeldExactly(cfg, count, scans, k, c);
      AfterPoll(cfg, count, scans, k, c);
    }
  }

  lemma AfterPoll(cfg: TouchConfig, count: nat, scans: seq<Scan>, k: nat, c: nat)
    requires ValidScans(count, scans) && k < |scans| && c < count
    ensures BeforePoll(cfg, count, scans, k, c + 1)
         == Polled(cfg, count, BeforePoll(cfg, count, scans, k, c), c, scans[k].levels[c], Tick(scans[k].at)).0
  {
    hide Polled, Tick, AfterScans;
  }
}
