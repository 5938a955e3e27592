/** Cold-boot policy, and a whole switch that is booted, used and power-cycled over one flash store. */
module Booting {
  import opened RelayTypes
  import opened Persistence
  import opened RelayControl
  import opened ControlPlane
  import opened Coordination
  import Touch

  datatype RestorePolicy = AlwaysOff | AlwaysOn | RestoreLast

  class BootPolicy {
    const relays: RelayController
    const persist: FlashDbStatePersistence

    constructor (relays: RelayController, persist: FlashDbStatePersistence)
      ensures this.relays == relays && this.persist == persist
    {
      this.relays, this.persist := relays, persist;
    }

    /** Absent or corrupt storage means all Off, never an accident. */
    method ApplyBootState(policy: RestorePolicy) returns (r: Status)
      requires relays.Valid()
      modifies relays.state, relays.sink
      ensures relays.Valid()
      ensures r == if relays.initialized then Success else Fail(NotInitialized)
      ensures relays.initialized ==>
                relays.Relays() == match policy
                                   case AlwaysOff => All(relays.count, Off)
                                   case AlwaysOn => All(relays.count, On)
                                   case RestoreLast => Restored(persist.kv.blobs, relays.count)
    {
      if !relays.initialized {
        return Fail(NotInitialized);
      }
      match policy
      case AlwaysOff => r := relays.SetAll(Off);
      case AlwaysOn => r := relays.SetAll(On);
      case RestoreLast => r := ApplyRestoreLast();
    }

    method ApplyRestoreLast() returns (r: Status)
      requires relays.Valid() && relays.initialized
      modifies relays.state, relays.sink
      ensures relays.Valid() && r == Success
      ensures relays.Relays() == Restored(persist.kv.blobs, relays.count)
    {
      var saved := persist.LoadRelayState();
      if !saved.valid {
        r := relays.SetAll(Off);
      } else {
        r := ApplyPersisted(saved);
      }
    }

    method ApplyPersisted(saved: PersistedRelayState) returns (r: Status)
      requires relays.Valid() && relays.initialized && |saved.channel| == MAX_CHANNELS
      modifies relays.state, relays.sink
      ensures relays.Valid() && r == Success
      ensures relays.Relays() == saved.channel[..relays.count]
    {
      r := Success;
      for ch := 0 to relays.count
        invariant relays.Valid() && r == Success
        invariant forall c :: 0 <= c < ch ==> relays.Relays()[c] == saved.channel[c]
      {
        r := relays.Set(ch, saved.channel[ch]);
      }
    }
  }

  /** One power-on of the device, wired in the order the composition root uses: relays, boot state,
      and only then the persisting listener. */
  class Switch {
    const kv: KvStore
    const relays: RelayController
    const recorder: Recorder
    const fanOut: FanOutStateChange
    const coordinator: ControlCoordinator
    ghost const booted: seq<RelayState>
    ghost var safe: seq<RelayState>
    ghost var unsaved: seq<Announcement>

    ghost predicate Valid()
      reads this, relays, relays.state, relays.sink, fanOut, fanOut.listeners, kv
    {
      && coordinator.relays == relays && coordinator.stateOut == fanOut
      && relays.Valid() && relays.initialized
      && fanOut.Wired(relays, kv) && fanOut.Persists() && fanOut.Recorders() == {recorder}
    }

    ghost function Observed(): Device
      reads this, relays, relays.state, kv, recorder
      requires relays.state.Length == MAX_CHANNELS && relays.count <= MAX_CHANNELS
    {
      Device(relays.Relays(), kv.blobs, booted, recorder.heard, safe, unsaved)
    }

    constructor (kv: KvStore, channelCount: ChannelId)
      requires 1 <= channelCount <= MAX_CHANNELS
      ensures Valid() && this.kv == kv && relays.count == channelCount
      ensures fresh(relays) && fresh(relays.state) && fresh(relays.sink) && fresh(recorder)
      ensures Observed() == OnBoot(kv.blobs, channelCount)
    {
      hide Restored;
      var persistence := new FlashDbStatePersistence(kv);
      var relays := BootRelays(persistence, channelCount);
      var recorder := new Recorder();
      var fanOut := new FanOutStateChange(5);
      var saver := new PersistingStateListener(relays, persistence);
      Register(fanOut, recorder, saver);
      var coordinator := new ControlCoordinator(relays, fanOut);
      this.kv, this.relays, this.recorder := kv, relays, recorder;
      this.fanOut, this.coordinator := fanOut, coordinator;
      booted, safe, unsaved := Restored(kv.blobs, channelCount), Restored(kv.blobs, channelCount), [];
    }

    static method BootRelays(persistence: FlashDbStatePersistence, channelCount: ChannelId)
      returns (relays: RelayController)
      requires 1 <= channelCount <= MAX_CHANNELS
      ensures fresh(relays) && fresh(relays.state) && fresh(relays.sink)
      ensures relays.Valid() && relays.initialized && relays.count == channelCount
      ensures relays.Relays() == Restored(persistence.kv.blobs, channelCount)
    {
      hide Restored;
      var pins := new RelayPins();
      relays := new RelayController(pins);
      var ready := relays.Init(channelCount, Off);
      var boot := new BootPolicy(relays, persistence);
      var applied := boot.ApplyBootState(RestoreLast);
    }

    static method Register(fanOut: FanOutStateChange, recorder: Recorder, saver: PersistingStateListener)
      requires fanOut.count == 0 && fanOut.listeners.Length == 5
      modifies fanOut, fanOut.listeners
      ensures fanOut.Wired(saver.relays, saver.persist.kv) && fanOut.Persists()
      ensures fanOut.Recorders() == {recorder}
    {
      var added := fanOut.Add(Note(recorder));
      assert fanOut.listeners[..1] == [Note(recorder)];
      added := fanOut.Add(Persist(saver));
      var both := fanOut.listeners[..2];
      assert both == [Note(recorder), Persist(saver)];
      assert fanOut.listeners[0] == both[0] && fanOut.listeners[1] == both[1];
    }

    /** A local press or a remote command does to the device what OnEvent says, with the flash taking its
        writes or refusing them. */
    method Handle(e: Event)
      requires Valid() && !e.Reboot?
      modifies this`safe, this`unsaved, relays.state, relays.sink, recorder, kv
      ensures Valid()
      ensures Observed() == OnEvent(old(Observed()), e)
      ensures OnlyAdds(old(kv.history), kv.history, kv.blobs)
    {
      kv.writable := e.writes;
      match e
      case Press(ch, _) => HandleCommand(ToggleChannel(ch, Local), true);
      case Command(cmd, _) => HandleCommand(cmd, false);
    }

    method HandleCommand(cmd: ControlCommand, touched: bool)
      requires Valid() && (touched ==> cmd.ToggleChannel? && cmd.source == Local)
      modifies this`safe, this`unsaved, relays.state, relays.sink, recorder, kv
      ensures Valid() && relays.count == old(relays.count)
      ensures Observed() == OnCommand(old(Observed()), cmd, kv.writable)
      ensures OnlyAdds(old(kv.history), kv.history, kv.blobs) && kv.writable == old(kv.writable)
    {
      hide Changes, After, Encode, Padded;
      ghost var d := OnCommand(Observed(), cmd, kv.writable);
      if touched {
        coordinator.OnTouchEvent(cmd.channel, Touch.Press, kv);
      } else {
        var _ := coordinator.Submit(cmd, kv);
      }
      safe, unsaved := d.safe, d.unsaved;
    }
  }

  /** Boots a switch over any store and plays any events, power cycles included, with any of the writes
      refused. At the end (hence, with any prefix of the events, at every step boundary) a fresh boot over
      the store would bring up the relay states of the last boot or successful write, and so exactly the
      states the switch has now if every channel was announced an even number of times since; in
      particular while all writes succeed. */
  method Operate(kv: KvStore, channelCount: ChannelId, events: seq<Event>) returns (switch: Switch)
    requires 1 <= channelCount <= MAX_CHANNELS
    modifies kv
    ensures switch.Valid() && switch.kv == kv
    ensures switch.Observed() == Run(old(kv.blobs), channelCount, events)
    ensures Restored(kv.blobs, channelCount) == switch.safe
    ensures Restored(kv.blobs, channelCount) == switch.relays.Relays()
            <==> forall ch :: 0 <= ch < channelCount ==> Mentions(switch.unsaved, ch) % 2 == 0
    ensures AllWritten(events) ==> Restored(kv.blobs, channelCount) == switch.relays.Relays()
  {
    hide Restored, Mentions;
    switch := new Switch(kv, channelCount);
    for i := 0 to |events|
      invariant switch.Valid() && switch.kv == kv && switch.relays.count == channelCount
      invariant fresh(switch) && fresh(switch.relays.state) && fresh(switch.relays.sink) && fresh(switch.recorder)
      invariant switch.Observed() == Run(old(kv.blobs), channelCount, events[..i])
    {
      assert events[..i + 1][..i] == events[..i];
      if events[i].Reboot? {
        switch := new Switch(kv, channelCount);
      } else {
        switch.Handle(events[i]);
      }
    }
    assert events[..|events|] == events;
    RunIsConsistent(old(kv.blobs), channelCount, events);
    RestartExactly(old(kv.blobs), channelCount, events);
    if AllWritten(events) {
      WrittenRunsRestore(old(kv.blobs), channelCount, events);
    }
  }
}
