/** The running control plane: fan-out of announcements, the persisting listener, the coordinator and
    the boot policy, each proved against the meaning of commands in ControlPlane. */
module Coordination {
  import opened RelayTypes
  import opened Bytes
  import opened Persistence
  import opened RelayControl
  import opened ControlPlane
  import Touch

  /** Any listener that only takes notes: the event log, the serial trace, the telemetry queue. */
  class Recorder {
    var heard: seq<Announcement>

    constructor ()
      ensures heard == []
    {
      heard := [];
    }

    method OnStateChanged(a: Announcement)
      modifies this
      ensures heard == old(heard) + [a]
    {
      heard := heard + [a];
    }
  }

  /** Writes the whole snapshot on every change. */
  class PersistingStateListener {
    const relays: RelayController
    const persist: FlashDbStatePersistence

    constructor (relays: RelayController, persist: FlashDbStatePersistence)
      ensures this.relays == relays && this.persist == persist
    {
      this.relays, this.persist := relays, persist;
    }

    method OnStateChanged()
      requires relays.Valid()
      modifies persist.kv
      ensures persist.kv.writable == old(persist.kv.writable)
      ensures persist.kv.blobs == if persist.kv.writable
                                  then old(persist.kv.blobs)[KEY := Encode(Padded(relays.Relays()))]
                                  else old(persist.kv.blobs)
      ensures persist.kv.history == old(persist.kv.history) + if persist.kv.writable then [persist.kv.blobs] else []
    {
      var channel := [];
      for c := 0 to MAX_CHANNELS
        invariant |channel| == c
        invariant forall i :: 0 <= i < c ==> channel[i] == relays.State(i)
      {
        channel := channel + [relays.State(c)];
      }
      assert channel == Padded(relays.Relays());
      var _ := persist.SaveRelayState(PersistedRelayState(channel, true));
    }
  }

  datatype Listener = Vacant | Note(recorder: Recorder) | Persist(listener: PersistingStateListener)

  /** One announcement to every registered listener, in registration order. */
  class FanOutStateChange {
    const listeners: array<Listener>
    var count: nat

    /** The persisting listeners watch these relays and write this store; no recorder is registered
        twice. */
    ghost predicate Wired(relays: RelayController, kv: KvStore)
      reads this, listeners
    {
      && count <= listeners.Length
      && (forall i :: 0 <= i < count ==> !listeners[i].Vacant?)
      && (forall i :: 0 <= i < count && listeners[i].Persist? ==>
            listeners[i].listener.relays == relays && listeners[i].listener.persist.kv == kv)
      && (forall i, j :: 0 <= i < j < count && listeners[i].Note? && listeners[j].Note? ==>
            listeners[i].recorder != listeners[j].recorder)
    }

    ghost function Recorders(): set<Recorder>
      reads this, listeners
      requires count <= listeners.Length
    {
      set i | 0 <= i < count && listeners[i].Note? :: listeners[i].recorder
    }

    ghost predicate Persists()
      reads this, listeners
      requires count <= listeners.Length
    {
      exists i :: 0 <= i < count && listeners[i].Persist?
    }

    constructor (maxListeners: nat)
      ensures listeners.Length == maxListeners && count == 0 && fresh(listeners)
    {
      listeners := new Listener[maxListeners](_ => Vacant);
      count := 0;
    }

    /** Registers a listener unless all slots are taken. */
    method Add(l: Listener) returns (added: bool)
      requires count <= listeners.Length
      modifies this, listeners
      ensures added == (!l.Vacant? && old(count) < listeners.Length)
      ensures count == (if added then old(count) + 1 else old(count)) <= listeners.Length
      ensures listeners[..count] == if added then old(listeners[..count]) + [l] else old(listeners[..count])
    {
      if l.Vacant? || count >= listeners.Length {
        return false;
      }
      listeners[count] := l;
      count := count + 1;
      return true;
    }

    method OnStateChanged(a: Announcement, ghost relays: RelayController, ghost kv: KvStore)
      requires Wired(relays, kv) && relays.Valid()
      modifies Recorders(), kv
      ensures forall r :: r in Recorders() ==> r.heard == old(r.heard) + [a]
      ensures Wrote(kv, Encode(Padded(relays.Relays())), Persists())
    {
      hide Encode, Padded, OnlyAdds;
      NothingAdded(kv.history, kv.blobs[KEY := Encode(Padded(relays.Relays()))]);
      ghost var snapshot := Encode(Padded(relays.Relays()));
      ghost var next := kv.blobs[KEY := snapshot];
      assert next[KEY := snapshot] == next;
      ghost var saved := false;
      for i := 0 to count
        invariant forall j :: 0 <= j < count && listeners[j].Note? ==>
                    listeners[j].recorder.heard
                      == old(listeners[j].recorder.heard) + (if j < i then [a] else [])
        invariant saved <==> exists j :: 0 <= j < i && listeners[j].Persist?
        invariant kv.writable == old(kv.writable)
        invariant kv.blobs == if saved && kv.writable then next else old(kv.blobs)
        invariant OnlyAdds(old(kv.history), kv.history, next)
        invariant !(saved && kv.writable) ==> kv.history == old(kv.history)
      {
        ghost var h := kv.history;
        Notify(i, a, relays, kv);
        MoreAdded(old(kv.history), h, kv.history, next);
        saved := saved || listeners[i].Persist?;
      }
    }

    method Notify(i: nat, a: Announcement, ghost relays: RelayController, ghost kv: KvStore)
      requires Wired(relays, kv) && relays.Valid() && i < count
      modifies if listeners[i].Note? then {listeners[i].recorder} else {}, kv
      ensures listeners[i].Note? ==> listeners[i].recorder.heard == old(listeners[i].recorder.heard) + [a]
      ensures Wrote(kv, Encode(Padded(relays.Relays())), listeners[i].Persist?)
    {
      match listeners[i]
      case Note(r) => r.OnStateChanged(a);
      case Persist(p) => p.OnStateChanged();
    }
  }

  /** Whatever was written in between was this content. */
  ghost predicate OnlyAdds<T>(earlier: seq<T>, later: seq<T>, content: T) {
    earlier <= later && forall i :: |earlier| <= i < |later| ==> later[i] == content
  }

  lemma NothingAdded<T>(h: seq<T>, content: T)
    ensures OnlyAdds(h, h, content)
  {
  }

  lemma MoreAdded<T>(a: seq<T>, b: seq<T>, c: seq<T>, content: T)
    requires OnlyAdds(a, b, content) && OnlyAdds(b, c, content)
    ensures OnlyAdds(a, c, content)
  {
  }

  /** The store holds this snapshot if `saved`, and had no other new content on the way. */
  twostate predicate Wrote(kv: KvStore, snapshot: seq<byte>, saved: bool)
    reads kv
  {
    && kv.writable == old(kv.writable)
    && kv.blobs == (if saved && kv.writable then old(kv.blobs)[KEY := snapshot] else old(kv.blobs))
    && OnlyAdds(old(kv.history), kv.history, old(kv.blobs)[KEY := snapshot])
    && (!(saved && kv.writable) ==> kv.history == old(kv.history))
  }

  /** What commands change: relay states, store, and what each listener has heard. */
  datatype Plane = Plane(relays: seq<RelayState>, blobs: Blobs, heard: Ears)

  type Ears = map<Recorder, seq<Announcement>>

  /** Everyone hears the same news. */
  ghost function Told(heard: Ears, said: seq<Announcement>): Ears {
    map r | r in heard :: heard[r] + said
  }

  /** One command, its snapshots reaching the store or not. */
  ghost function Do(p: Plane, cmd: ControlCommand, writes: bool): (r: Plane)
    requires |p.relays| <= MAX_CHANNELS
    ensures |r.relays| == |p.relays|
  {
    var after := After(cmd, p.relays);
    Plane(after, if writes then Saved(p.blobs, p.relays, after) else p.blobs,
          Told(p.heard, Changes(p.relays, after, cmd.source)))
  }

  /** The one place that turns touches and commands into relay actions. */
  class ControlCoordinator {
    const relays: RelayController
    const stateOut: FanOutStateChange

    constructor (relays: RelayController, stateOut: FanOutStateChange)
      ensures this.relays == relays && this.stateOut == stateOut
    {
      this.relays, this.stateOut := relays, stateOut;
    }

    ghost predicate Valid(kv: KvStore)
      reads this, relays, relays.state, relays.sink, stateOut, stateOut.listeners
    {
      relays.Valid() && stateOut.Wired(relays, kv)
    }

    /** Whether snapshots reach the store. */
    ghost predicate Writes(kv: KvStore)
      requires Valid(kv)
      reads this, relays, relays.state, relays.sink, stateOut, stateOut.listeners, kv
    {
      stateOut.Persists() && kv.writable
    }

    /** Relays, store and listeners now. */
    ghost function Now(kv: KvStore): (p: Plane)
      requires Valid(kv)
      reads this, relays, relays.state, relays.sink,
            stateOut, stateOut.listeners, stateOut.Recorders(), kv
      ensures |p.relays| == relays.count <= MAX_CHANNELS
    {
      Plane(relays.Relays(), kv.blobs, map r | r in stateOut.Recorders() :: r.heard)
    }

    /** What a command did to everything observable: relays, pins (by Valid), listeners and store.
        Every content the store had on the way, and so what a power cut during the command leaves,
        is either the old one or the one holding all the new states. */
    twostate predicate Performed(kv: KvStore, listening: set<Recorder>, cmd: ControlCommand)
      reads relays, relays.state, stateOut, stateOut.listeners, listening, kv
      requires old(relays.state.Length == MAX_CHANNELS && relays.count <= MAX_CHANNELS)
      requires relays.state.Length == MAX_CHANNELS && relays.count <= MAX_CHANNELS
      requires stateOut.count <= stateOut.listeners.Length
    {
      var before, after := old(relays.Relays()), relays.Relays();
      && after == After(cmd, before)
      && (forall r :: r in listening ==>
            r.heard == old(r.heard) + Changes(before, after, cmd.source))
      && kv.writable == old(kv.writable)
      && kv.blobs == (if stateOut.Persists() && kv.writable then Saved(old(kv.blobs), before, after) else old(kv.blobs))
      && OnlyAdds(old(kv.history), kv.history, Saved(old(kv.blobs), before, after))
      && (!kv.writable ==> kv.history == old(kv.history))
    }

    method Submit(cmd: ControlCommand, ghost kv: KvStore) returns (r: Status)
      requires Valid(kv)
      modifies relays.state, relays.sink, stateOut.Recorders(), kv
      ensures Valid(kv)
      ensures r == if !relays.initialized then Fail(NotInitialized)
                   else if !cmd.SetAll? && cmd.channel >= relays.count then Fail(ChannelNotPresent)
                   else Success
      ensures r.Success? && cmd.SetChannel? ==> relays.State(cmd.channel) == cmd.state
      ensures r.Success? && cmd.ToggleChannel? ==> relays.State(cmd.channel) != old(relays.State(cmd.channel))
      ensures r.Success? && cmd.SetAll? ==> forall c :: 0 <= c < relays.count ==> relays.State(c) == cmd.state
      ensures !r.Success? || !cmd.SetAll? ==>
                forall c :: 0 <= c < relays.count && (r.Success? ==> c != cmd.channel) ==>
                  relays.State(c) == old(relays.State(c))
      ensures Performed(kv, old(stateOut.Recorders()), cmd)
    {
      ghost var before := relays.Relays();
      match cmd
      case SetChannel(ch, s, src) => r := ApplySet(ch, s, src, kv);
      case ToggleChannel(ch, src) => r := ApplyToggle(ch, src, kv);
      case SetAll(s, src) => r := ApplySetAll(s, src, kv);
      forall c | 0 <= c < relays.count {
        AsAsked(cmd, before, c);
      }
    }

    /** A confirmed press toggles its channel; a release or long press moves no relay. */
    method OnTouchEvent(ch: ChannelId, ev: Touch.TouchEvent, ghost kv: KvStore)
      requires Valid(kv)
      modifies relays.state, relays.sink, stateOut.Recorders(), kv
      ensures Valid(kv)
      ensures ev.Press? ==> Performed(kv, old(stateOut.Recorders()), ToggleChannel(ch, Local))
      ensures forall c :: 0 <= c < relays.count ==>
                (relays.State(c) != old(relays.State(c)) <==> ev.Press? && c == ch)
      ensures !ev.Press? ==>
                && unchanged(relays.state, relays.sink, kv)
                && (forall r :: r in stateOut.Recorders() ==> r.heard == old(r.heard))
    {
      ghost var before := relays.Relays();
      if ev == Touch.Press {
        var _ := ApplyToggle(ch, Local, kv);
        forall c | 0 <= c < relays.count {
          AsAsked(ToggleChannel(ch, Local), before, c);
        }
      }
    }

    method ApplySet(ch: ChannelId, want: RelayState, src: CommandSource, ghost kv: KvStore) returns (r: Status)
      requires Valid(kv)
      modifies relays.state, relays.sink, stateOut.Recorders(), kv
      ensures Valid(kv)
      ensures r == relays.Guard(ch) && Performed(kv, old(stateOut.Recorders()), SetChannel(ch, want, src))
    {
      hide Encode, Padded, ChangesBelow;
      var before := relays.State(ch);
      ghost var states := relays.Relays();
      r := relays.Set(ch, want);
      if r.Success? {
        ChangesOfOne(states, ch, want, src, |states|);
        AnnounceIfChanged(ch, before, src, kv);
      } else {
        ChangesEmpty(states, states, src, |states|);
      }
    }

    method ApplyToggle(ch: ChannelId, src: CommandSource, ghost kv: KvStore) returns (r: Status)
      requires Valid(kv)
      modifies relays.state, relays.sink, stateOut.Recorders(), kv
      ensures Valid(kv)
      ensures r == relays.Guard(ch) && Performed(kv, old(stateOut.Recorders()), ToggleChannel(ch, src))
    {
      hide Encode, Padded, ChangesBelow;
      var before := relays.State(ch);
      ghost var states := relays.Relays();
      r := relays.ToggleChannel(ch);
      if r.Success? {
        ChangesOfOne(states, ch, Toggle(before), src, |states|);
        AnnounceIfChanged(ch, before, src, kv);
      } else {
        ChangesEmpty(states, states, src, |states|);
      }
    }

    method ApplySetAll(want: RelayState, src: CommandSource, ghost kv: KvStore) returns (r: Status)
      requires Valid(kv)
      modifies relays.state, relays.sink, stateOut.Recorders(), kv
      ensures Valid(kv)
      ensures r == if relays.initialized then Success else Fail(NotInitialized)
      ensures Performed(kv, old(stateOut.Recorders()), SetAll(want, src))
    {
      hide Encode, Padded;
      var n := relays.count;
      var before := [];
      for ch := 0 to n
        invariant before == relays.Relays()[..ch]
      {
        before := before + [relays.State(ch)];
      }
      assert before == relays.Relays();
      r := relays.SetAll(want);
      if !r.Success? {
        return;
      }
      AnnounceAll(before, src, kv);
      ChangesEmpty(before, relays.Relays(), src, n);
    }

    /** The announcing half of ApplySetAll: by now every relay already has its new state. */
    method AnnounceAll(before: seq<RelayState>, src: CommandSource, ghost kv: KvStore)
      requires Valid(kv) && |before| == relays.count
      modifies stateOut.Recorders(), kv
      ensures Valid(kv)
      ensures forall r :: r in stateOut.Recorders() ==>
                r.heard == old(r.heard) + Changes(before, relays.Relays(), src)
      ensures Wrote(kv, Encode(Padded(relays.Relays())), stateOut.Persists() && before != relays.Relays())
    {
      hide Encode, Padded, OnlyAdds, ChangesBelow, stateOut.Persists;
      assert ChangesBelow(before, relays.Relays(), src, 0) == [] by { NoChangesYet(before, relays.Relays(), src); }
      NothingAdded(kv.history, kv.blobs[KEY := Encode(Padded(relays.Relays()))]);
      ghost var after := relays.Relays();
      ghost var next := kv.blobs[KEY := Encode(Padded(after))];
      assert next[KEY := Encode(Padded(after))] == next;
      ghost var saved := false;
      for ch := 0 to relays.count
        invariant forall r :: r in stateOut.Recorders() ==>
                    r.heard == old(r.heard) + ChangesBelow(before, after, src, ch)
        invariant saved <==> stateOut.Persists() && ChangesBelow(before, after, src, ch) != []
        invariant kv.writable == old(kv.writable)
        invariant kv.blobs == if saved && kv.writable then next else old(kv.blobs)
        invariant OnlyAdds(old(kv.history), kv.history, next)
        invariant !(saved && kv.writable) ==> kv.history == old(kv.history)
      {
        assert relays.State(ch) == after[ch];
        ghost var h := kv.history;
        ChangesStep(before, after, src, ch);
        AnnounceIfChanged(ch, before[ch], src, kv);
        MoreAdded(old(kv.history), h, kv.history, next);
        assert relays.State(ch) == after[ch] && relays.Relays() == after;
        saved := saved || (stateOut.Persists() && before[ch] != after[ch]);
      }
      ChangesEmpty(before, after, src, relays.count);
    }

    method AnnounceIfChanged(ch: ChannelId, before: RelayState, src: CommandSource, ghost kv: KvStore)
      requires Valid(kv) && ch < relays.count
      modifies stateOut.Recorders(), kv
      ensures Valid(kv)
      ensures forall r :: r in stateOut.Recorders() ==>
                r.heard == old(r.heard)
                  + if relays.State(ch) == before then [] else [Announcement(ch, relays.State(ch), src)]
      ensures Wrote(kv, Encode(Padded(relays.Relays())), stateOut.Persists() && relays.State(ch) != before)
    {
      hide Encode, Padded;
      var now := relays.State(ch);
      if now != before {
        stateOut.OnStateChanged(Announcement(ch, now, src), relays, kv);
      }
    }
  }
}
