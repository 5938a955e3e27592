/** What commands mean for the relay states, and what is announced about them. */
module ControlPlane {
  import opened RelayTypes
  import opened Persistence

  /** The relay states a command asks for; a command for an absent channel asks for nothing. */
  function After(cmd: ControlCommand, relays: seq<RelayState>): (r: seq<RelayState>)
    ensures |r| == |relays|
  {
    match cmd
    case SetChannel(ch, s, _) => if ch < |relays| then relays[ch := s] else relays
    case ToggleChannel(ch, _) => if ch < |relays| then relays[ch := Toggle(relays[ch])] else relays
    case SetAll(s, _) => All(|relays|, s)
  }

  /** One announcement per channel below n whose state differs, in channel order. */
  function ChangesBelow(before: seq<RelayState>, after: seq<RelayState>, source: CommandSource, n: nat)
      : seq<Announcement>
    requires n <= |before| == |after|
  {
    if n == 0 then []
    else
      ChangesBelow(before, after, source, n - 1)
        + if before[n - 1] == after[n - 1] then [] else [Announcement(n - 1, after[n - 1], source)]
  }

  lemma NoChangesYet(before: seq<RelayState>, after: seq<RelayState>, source: CommandSource)
    requires |before| == |after|
    ensures ChangesBelow(before, after, source, 0) == []
  {
  }

  lemma ChangesStep(before: seq<RelayState>, after: seq<RelayState>, source: CommandSource, n: nat)
    requires n < |before| == |after|
    ensures ChangesBelow(before, after, source, n + 1)
         == ChangesBelow(before, after, source, n)
              + if before[n] == after[n] then [] else [Announcement(n, after[n], source)]
  {
  }

  function Changes(before: seq<RelayState>, after: seq<RelayState>, source: CommandSource): seq<Announcement>
    requires |before| == |after|
  {
    ChangesBelow(before, after, source, |before|)
  }

  /** The states a listener that heard these announcements believes in. */
  function Replay(start: seq<RelayState>, heard: seq<Announcement>): (r: seq<RelayState>)
    ensures |r| == |start|
  {
    if heard == [] then start
    else
      var r := Replay(start, heard[..|heard| - 1]);
      var a := heard[|heard| - 1];
      if a.channel < |r| then r[a.channel := a.state] else r
  }

  /** Every announcement tells its listener something new about its channel. */
  predicate NewsOnly(start: seq<RelayState>, heard: seq<Announcement>) {
    heard == [] ||
    var prefix := heard[..|heard| - 1];
    var a := heard[|heard| - 1];
    NewsOnly(start, prefix) && a.channel < |start| && Replay(start, prefix)[a.channel] != a.state
  }

  /** The four-channel snapshot of a device with fewer channels. */
  function Padded(relays: seq<RelayState>): (r: seq<RelayState>)
    requires |relays| <= MAX_CHANNELS
    ensures |r| == MAX_CHANNELS
  {
    relays + All(MAX_CHANNELS - |relays|, Off)
  }

  /** The states RestoreLast gives n channels: the stored ones, or all Off when none are intact. */
  ghost function Restored(blobs: Blobs, n: nat): (r: seq<RelayState>)
    requires n <= MAX_CHANNELS
    ensures |r| == n
  {
    var saved := Decode(Stored(blobs));
    if saved.valid then saved.channel[..n] else All(n, Off)
  }

  /** The store after a command: a new snapshot exactly if something changed. */
  ghost function Saved(blobs: Blobs, before: seq<RelayState>, after: seq<RelayState>)
      : Blobs
    requires |before| == |after| <= MAX_CHANNELS
  {
    if before == after then blobs else blobs[KEY := Encode(Padded(after))]
  }

  // ----- Lemmas -----

  /** A command leaves the channels it names as asked, and every other channel as it was. */
  lemma AsAsked(cmd: ControlCommand, relays: seq<RelayState>, ch: nat)
    requires ch < |relays|
    ensures cmd.SetChannel? && cmd.channel == ch ==> After(cmd, relays)[ch] == cmd.state
    ensures cmd.ToggleChannel? && cmd.channel == ch ==> After(cmd, relays)[ch] != relays[ch]
    ensures cmd.SetAll? ==> After(cmd, relays)[ch] == cmd.state
    ensures !cmd.SetAll? && cmd.channel != ch ==> After(cmd, relays)[ch] == relays[ch]
  {
  }

  /** A channel is announced exactly if its state differs, with the state it has now and its command's source;
      nothing else is announced. */
  lemma {:induction false} AnnouncedExactly(before: seq<RelayState>, after: seq<RelayState>, source: CommandSource,
                                            n: nat, a: Announcement)
    requires n <= |before| == |after|
    ensures a in ChangesBelow(before, after, source, n)
            <==> && a.channel < n && before[a.channel] != after[a.channel]
                 && a.state == after[a.channel] && a.source == source
  {
    if n > 0 {
      AnnouncedExactly(before, after, source, n - 1, a);
    }
  }

  lemma {:induction false} ChangesOfOne(relays: seq<RelayState>, ch: nat, s: RelayState,
                                        source: CommandSource, n: nat)
    requires ch < |relays| && n <= |relays|
    ensures ChangesBelow(relays, relays[ch := s], source, n)
         == if relays[ch] == s || n <= ch then [] else [Announcement(ch, s, source)]
  {
    if n > 0 {
      ChangesOfOne(relays, ch, s, source, n - 1);
    }
  }

  lemma {:induction false} ChangesEmpty(before: seq<RelayState>, after: seq<RelayState>,
                                        source: CommandSource, n: nat)
    requires n <= |before| == |after|
    ensures ChangesBelow(before, after, source, n) == [] <==> before[..n] == after[..n]
  {
    if n > 0 {
      ChangesEmpty(before, after, source, n - 1);
      assert before[..n] == before[..n - 1] + [before[n - 1]];
      assert after[..n] == after[..n - 1] + [after[n - 1]];
    }
  }

  lemma ReplayPush(start: seq<RelayState>, heard: seq<Announcement>, a: Announcement)
    requires a.channel < |start|
    ensures Replay(start, heard + [a]) == Replay(start, heard)[a.channel := a.state]
    ensures NewsOnly(start, heard + [a]) <==>
            NewsOnly(start, heard) && Replay(start, heard)[a.channel] != a.state
  {
    assert (heard + [a])[..|heard|] == heard;
  }

  /** Hearing the changes of one command moves a listener from the old states to the new ones, and
      each of them is news. */
  lemma {:induction false} ReplayChanges(start: seq<RelayState>, heard: seq<Announcement>,
                                         before: seq<RelayState>, after: seq<RelayState>,
                                         source: CommandSource, n: nat)
    requires n <= |before| == |after| == |start|
    requires Replay(start, heard) == before && NewsOnly(start, heard)
    ensures Replay(start, heard + ChangesBelow(before, after, source, n)) == after[..n] + before[n..]
    ensures NewsOnly(start, heard + ChangesBelow(before, after, source, n))
  {
    if n == 0 {
      assert heard + [] == heard;
    } else {
      var m := n - 1;
      ReplayChanges(start, heard, before, after, source, m);
      var earlier := ChangesBelow(before, after, source, m);
      assert after[..n] + before[n..] == (after[..m] + before[m..])[m := after[m]];
      if before[m] == after[m] {
        assert after[..n] + before[n..] == after[..m] + before[m..];
        assert earlier + [] == earlier;
      } else {
        var a := Announcement(m, after[m], source);
        ReplayPush(start, heard + earlier, a);
        assert heard + (earlier + [a]) == heard + earlier + [a];
      }
    }
  }

  /** A boot from a stored snapshot brings back the states it was taken of. */
  lemma SavedRestores(blobs: Blobs, relays: seq<RelayState>)
    requires |relays| <= MAX_CHANNELS
    ensures Restored(blobs[KEY := Encode(Padded(relays))], |relays|) == relays
  {
    DecodeEncode(Padded(relays));
  }

  /** So does a boot from the store a command leaves behind. */
  lemma SavedIsRestored(blobs: Blobs, before: seq<RelayState>, after: seq<RelayState>)
    requires |before| == |after| <= MAX_CHANNELS
    requires Restored(blobs, |before|) == before
    ensures Restored(Saved(blobs, before, after), |after|) == after
  {
    SavedRestores(blobs, after);
  }

  // ----- One channel -----

  /** A listener's view of one channel: the last state it was told, or what it knew before. */
  function View(known: RelayState, told: seq<Announcement>, ch: nat): RelayState {
    if told == [] then known
    else
      var a := told[|told| - 1];
      if a.channel == ch then a.state else View(known, told[..|told| - 1], ch)
  }

  function Mentions(told: seq<Announcement>, ch: nat): nat {
    if told == [] then 0
    else Mentions(told[..|told| - 1], ch) + if told[|told| - 1].channel == ch then 1 else 0
  }

  /** A listener that hears everything knows the true state, and as every announcement is news, that
      state has flipped once per announcement of its channel. */
  lemma {:induction false} TrueStateFlips(start: seq<RelayState>, heard: seq<Announcement>, ch: nat)
    requires ch < |start| && NewsOnly(start, heard)
    ensures Replay(start, heard)[ch] == View(start[ch], heard, ch)
    ensures Replay(start, heard)[ch] == start[ch] <==> Mentions(heard, ch) % 2 == 0
  {
    if heard != [] {
      TrueStateFlips(start, heard[..|heard| - 1], ch);
    }
  }

  // ----- Whole runs -----

  /** A device as its owner sees it: relay states, the stored blobs, the states after the last boot and
      everything announced since; and the states a restart would find, with everything announced since
      they were stored. */
  datatype Device = Device(relays: seq<RelayState>, blobs: Blobs,
                           booted: seq<RelayState>, heard: seq<Announcement>,
                           safe: seq<RelayState>, unsaved: seq<Announcement>)

  /** A power cycle, a local press, or a remote command; for the latter two, whether the flash takes the
      writes they cause. */
  datatype Event = Reboot | Press(channel: ChannelId, writes: bool) | Command(cmd: ControlCommand, writes: bool)

  ghost function OnCommand(d: Device, cmd: ControlCommand, writes: bool): Device
    requires |d.relays| <= MAX_CHANNELS
  {
    var after := After(cmd, d.relays);
    var said := Changes(d.relays, after, cmd.source);
    if writes && after != d.relays
    then Device(after, Saved(d.blobs, d.relays, after), d.booted, d.heard + said, after, [])
    else Device(after, d.blobs, d.booted, d.heard + said, d.safe, d.unsaved + said)
  }

  ghost function OnBoot(blobs: Blobs, n: nat): Device
    requires n <= MAX_CHANNELS
  {
    var r := Restored(blobs, n);
    Device(r, blobs, r, [], r, [])
  }

  ghost function OnEvent(d: Device, e: Event): (r: Device)
    requires |d.relays| <= MAX_CHANNELS
    ensures |r.relays| == |d.relays|
  {
    match e
    case Reboot => OnBoot(d.blobs, |d.relays|)
    case Press(ch, writes) => OnCommand(d, ToggleChannel(ch, Local), writes)
    case Command(cmd, writes) => OnCommand(d, cmd, writes)
  }

  /** The device after a first boot over any store contents, followed by any events. */
  ghost function Run(blobs: Blobs, n: nat, events: seq<Event>): (d: Device)
    requires n <= MAX_CHANNELS
    ensures |d.relays| == n
  {
    if events == [] then OnBoot(blobs, n)
    else OnEvent(Run(blobs, n, events[..|events| - 1]), events[|events| - 1])
  }

  /** What holds at every step boundary of every run. */
  ghost predicate Consistent(d: Device) {
    && |d.relays| <= MAX_CHANNELS
    && |d.booted| == |d.safe| == |d.relays|
    && Restored(d.blobs, |d.relays|) == d.safe
    && Replay(d.booted, d.heard) == d.relays && NewsOnly(d.booted, d.heard)
    && Replay(d.safe, d.unsaved) == d.relays && NewsOnly(d.safe, d.unsaved)
  }

  lemma CommandKeepsConsistent(d: Device, cmd: ControlCommand, writes: bool)
    requires Consistent(d)
    ensures Consistent(OnCommand(d, cmd, writes))
  {
    var n, after := |d.relays|, After(cmd, d.relays);
    ReplayChanges(d.booted, d.heard, d.relays, after, cmd.source, n);
    assert after[..n] + d.relays[n..] == after;
    hide Restored, Saved, Replay, NewsOnly;
    if writes && after != d.relays {
      SavedRestores(d.blobs, after);
      NothingReplayed(after);
    } else {
      ReplayChanges(d.safe, d.unsaved, d.relays, after, cmd.source, n);
    }
  }

  lemma NothingReplayed(start: seq<RelayState>)
    ensures Replay(start, []) == start && NewsOnly(start, [])
  {
  }

  /** Over every run of boots, local presses and commands, starting from any store contents, whichever
      writes fail: a restart would restore exactly the states of the last boot or successful write, and
      replaying the announcements heard since the boot, or since then, gives the current relay states,
      every announcement being a real change. */
  lemma {:induction false} RunIsConsistent(blobs: Blobs, n: nat, events: seq<Event>)
    requires n <= MAX_CHANNELS
    ensures Consistent(Run(blobs, n, events))
  {
    if events == [] {
      NothingReplayed(Restored(blobs, n));
    } else {
      var prefix := events[..|events| - 1];
      RunIsConsistent(blobs, n, prefix);
      hide Consistent;
      EventKeepsConsistent(Run(blobs, n, prefix), events[|events| - 1]);
    }
  }

  lemma EventKeepsConsistent(d: Device, e: Event)
    requires |d.relays| <= MAX_CHANNELS && Consistent(d)
    ensures Consistent(OnEvent(d, e))
  {
    match e
    case Reboot => NothingReplayed(Restored(d.blobs, |d.relays|));
    case Press(ch, writes) => CommandKeepsConsistent(d, ToggleChannel(ch, Local), writes);
    case Command(cmd, writes) => CommandKeepsConsistent(d, cmd, writes);
  }

  /** A restart restores the current relay states exactly if every channel was announced an even number of
      times since the last boot or successful write. */
  lemma RestartExactly(blobs: Blobs, n: nat, events: seq<Event>)
    requires n <= MAX_CHANNELS
    ensures var d := Run(blobs, n, events);
            Restored(d.blobs, n) == d.relays <==> forall ch :: 0 <= ch < n ==> Mentions(d.unsaved, ch) % 2 == 0
  {
    hide Run, Restored, Replay, NewsOnly, Mentions, Consistent;
    RunIsConsistent(blobs, n, events);
    ConsistentRestart(Run(blobs, n, events));
  }

  lemma ConsistentRestart(d: Device)
    requires Consistent(d)
    ensures Restored(d.blobs, |d.relays|) == d.relays
            <==> forall ch :: 0 <= ch < |d.relays| ==> Mentions(d.unsaved, ch) % 2 == 0
  {
    hide Restored, Replay, NewsOnly, Mentions;
    forall ch | 0 <= ch < |d.relays| ensures d.relays[ch] == d.safe[ch] <==> Mentions(d.unsaved, ch) % 2 == 0 {
      TrueStateFlips(d.safe, d.unsaved, ch);
    }
    assert Restored(d.blobs, |d.relays|) == d.relays <==> d.relays == d.safe;
    if d.relays == d.safe {
      forall ch | 0 <= ch < |d.relays| ensures Mentions(d.unsaved, ch) % 2 == 0 {
        assert d.relays[ch] == d.safe[ch];
      }
    } else {
      var ch :| 0 <= ch < |d.relays| && d.relays[ch] != d.safe[ch];
      assert Mentions(d.unsaved, ch) % 2 != 0;
    }
  }

  ghost predicate AllWritten(events: seq<Event>) {
    forall i :: 0 <= i < |events| && !events[i].Reboot? ==> events[i].writes
  }

  /** While every write succeeds, a restart at any step boundary restores exactly the current states. */
  lemma {:induction false} WrittenRunsRestore(blobs: Blobs, n: nat, events: seq<Event>)
    requires n <= MAX_CHANNELS && AllWritten(events)
    ensures var d := Run(blobs, n, events); d.unsaved == [] && Restored(d.blobs, n) == d.relays
  {
    if events != [] {
      var prefix := events[..|events| - 1];
      WrittenRunsRestore(blobs, n, prefix);
      WrittenEvent(Run(blobs, n, prefix), events[|events| - 1]);
    }
    hide OnBoot, OnEvent, Restored, AllWritten;
    RestartExactly(blobs, n, events);
  }

  lemma WrittenEvent(d: Device, e: Event)
    requires |d.relays| <= MAX_CHANNELS && d.unsaved == [] && (!e.Reboot? ==> e.writes)
    ensures OnEvent(d, e).unsaved == []
  {
    match e
    case Reboot =>
    case Press(ch, writes) => WrittenCommand(d, ToggleChannel(ch, Local));
    case Command(cmd, writes) => WrittenCommand(d, cmd);
  }

  lemma WrittenCommand(d: Device, cmd: ControlCommand)
    requires |d.relays| <= MAX_CHANNELS && d.unsaved == []
    ensures OnCommand(d, cmd, true).unsaved == []
  {
    var after := After(cmd, d.relays);
    hide Saved, Changes, ChangesBelow;
    if after == d.relays {
      NoNews(d.relays, after, cmd.source);
    }
  }

  lemma NoNews(before: seq<RelayState>, after: seq<RelayState>, source: CommandSource)
    requires before == after
    ensures Changes(before, after, source) == []
  {
    ChangesEmpty(before, after, source, |before|);
  }

  // ----- The last word -----

  /** The event flips channel ch: a press of it, or a toggle command for it. */
  predicate Flips(e: Event, ch: nat) {
    match e
    case Reboot => false
    case Press(c, _) => c == ch
    case Command(cmd, _) => cmd.ToggleChannel? && cmd.channel == ch
  }

  /** The event sets channel ch to s, alone or with all the others. */
  predicate SetsTo(e: Event, ch: nat, s: RelayState) {
    e.Command? && match e.cmd
                  case SetChannel(c, want, _) => c == ch && want == s
                  case ToggleChannel(_, _) => false
                  case SetAll(want, _) => want == s
  }

  /** How many of the events from j on flip channel ch. */
  function FlipsSince(events: seq<Event>, j: nat, ch: nat): nat {
    if |events| <= j then 0
    else
      FlipsSince(events[..|events| - 1], j, ch) + if Flips(events[|events| - 1], ch) then 1 else 0
  }

  lemma EventOnChannel(d: Device, e: Event, ch: nat)
    requires ch < |d.relays| <= MAX_CHANNELS
    ensures !e.Reboot? ==> (Flips(e, ch) <==> OnEvent(d, e).relays[ch] != d.relays[ch])
                           || exists s :: SetsTo(e, ch, s)
    ensures forall s :: SetsTo(e, ch, s) ==> OnEvent(d, e).relays[ch] == s
  {
    if !e.Reboot? {
      var cmd := if e.Press? then ToggleChannel(e.channel, Local) else e.cmd;
      AsAsked(cmd, d.relays, ch);
      assert !cmd.ToggleChannel? ==> e == Command(cmd, e.writes);
      hide After, Saved, Changes;
      if !cmd.ToggleChannel? && OnEvent(d, e).relays[ch] != d.relays[ch] {
        assert SetsTo(e, ch, cmd.state);
      }
    }
  }

  /** While no event sets a channel, its state is the earlier one, flipped once for each press or toggle of
      the channel; power cycles leave it alone if every write succeeded. */
  lemma {:induction false} FlippedSince(blobs: Blobs, n: nat, events: seq<Event>, j: nat, ch: nat)
    requires n <= MAX_CHANNELS && ch < n && j <= |events|
    requires forall i, s :: j <= i < |events| ==> !SetsTo(events[i], ch, s)
    requires AllWritten(events) || forall i :: j <= i < |events| ==> !events[i].Reboot?
    ensures Run(blobs, n, events).relays[ch] == Run(blobs, n, events[..j]).relays[ch]
            <==> FlipsSince(events, j, ch) % 2 == 0
  {
    hide OnEvent, AllWritten, SetsTo, Flips;
    if j == |events| {
      assert events[..j] == events;
    } else {
      var prefix, e := events[..|events| - 1], events[|events| - 1];
      assert prefix[..j] == events[..j];
      WrittenPrefix(events, |prefix|);
      FlippedSince(blobs, n, prefix, j, ch);
      var d := Run(blobs, n, prefix);
      assert Flips(e, ch) <==> OnEvent(d, e).relays[ch] != d.relays[ch] by {
        EventOnChannel(d, e, ch);
        if e.Reboot? {
          WrittenRunsRestore(blobs, n, prefix);
          RebootRestores(d, ch);
        }
      }
    }
  }

  lemma WrittenPrefix(events: seq<Event>, n: nat)
    requires n <= |events|
    ensures AllWritten(events) ==> AllWritten(events[..n])
  {
  }

  lemma RebootRestores(d: Device, ch: nat)
    requires ch < |d.relays| <= MAX_CHANNELS
    ensures OnEvent(d, Reboot).relays == Restored(d.blobs, |d.relays|) && !Flips(Reboot, ch)
  {
  }

  /** The last word: a channel is as the last event that set it asked, flipped once for each later press or
      toggle of it, power cycles included while every write succeeds. */
  lemma LastSetRules(blobs: Blobs, n: nat, events: seq<Event>, m: nat, ch: nat, s: RelayState)
    requires n <= MAX_CHANNELS && ch < n && m < |events| && SetsTo(events[m], ch, s)
    requires forall i, t :: m < i < |events| ==> !SetsTo(events[i], ch, t)
    requires AllWritten(events) || forall i :: m < i < |events| ==> !events[i].Reboot?
    ensures Run(blobs, n, events).relays[ch] == s <==> FlipsSince(events, m + 1, ch) % 2 == 0
  {
    hide OnEvent, AllWritten, SetsTo, Flips, FlipsSince;
    var upTo := events[..m + 1];
    assert upTo[..|upTo| - 1] == events[..m];
    EventOnChannel(Run(blobs, n, events[..m]), events[m], ch);
    FlippedSince(blobs, n, events, m + 1, ch);
  }
}
