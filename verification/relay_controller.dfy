/** The owner of the logical relay state and the only component that drives the relay pins. */
module RelayControl {
  import opened RelayTypes

  /** The outbound seam to the relay hardware, remembering the level each channel was last driven to. */
  class RelayPins {
    var level: map<nat, RelayState>

    constructor ()
      ensures level == map[]
    {
      level := map[];
    }

    method DriveRelay(ch: nat, state: RelayState)
      modifies this
      ensures level == old(level)[ch := state]
    {
      level := level[ch := state];
    }
  }

  class RelayController {
    const sink: RelayPins
    const state: array<RelayState>
    var count: nat
    var initialized: bool

    /** Logical state and pins agree on every present channel. */
    ghost predicate Valid()
      reads this, state, sink
    {
      && state.Length == MAX_CHANNELS
      && count <= MAX_CHANNELS
      && (initialized ==> 1 <= count)
      && (!initialized ==> count == 0)
      && forall ch :: 0 <= ch < count ==> ch in sink.level && sink.level[ch] == state[ch]
    }

    /** The states of the present channels. */
    ghost function Relays(): seq<RelayState>
      reads this, state
      requires state.Length == MAX_CHANNELS && count <= MAX_CHANNELS
    {
      state[..count]
    }

    constructor (sink: RelayPins)
      ensures Valid() && !initialized && Relays() == []
      ensures this.sink == sink && fresh(state)
    {
      this.sink := sink;
      state := new RelayState[MAX_CHANNELS](_ => Off);
      count, initialized := 0, false;
    }

    method Init(channelCount: ChannelId, coldBoot: RelayState) returns (r: Status)
      requires Valid()
      modifies this, state, sink
      ensures Valid()
      ensures r == if 1 <= channelCount <= MAX_CHANNELS then Success else Fail(InvalidArgument)
      ensures r.Success? ==> initialized && Relays() == All(channelCount, coldBoot)
      ensures !r.Success? ==> unchanged(this, state, sink)
    {
      if channelCount == 0 || channelCount > MAX_CHANNELS {
        return Fail(InvalidArgument);
      }
      for ch := 0 to channelCount
        invariant state[..ch] == All(ch, coldBoot)
        invariant forall c :: 0 <= c < ch ==> c in sink.level && sink.level[c] == state[c]
      {
        ApplyState(ch, coldBoot);
      }
      count := channelCount;
      initialized := true;
      return Success;
    }

    method Set(ch: ChannelId, want: RelayState) returns (r: Status)
      requires Valid()
      modifies state, sink
      ensures Valid()
      ensures r == if !initialized then Fail(NotInitialized) else if ch >= count then Fail(ChannelNotPresent)
                   else Success
      ensures Relays() == if r.Success? then old(Relays())[ch := want] else old(Relays())
    {
      r := Guard(ch);
      if r.Success? {
        ApplyState(ch, want);
      }
    }

    method ToggleChannel(ch: ChannelId) returns (r: Status)
      requires Valid()
      modifies state, sink
      ensures Valid()
      ensures r == if !initialized then Fail(NotInitialized) else if ch >= count then Fail(ChannelNotPresent)
                   else Success
      ensures Relays() == if r.Success? then old(Relays())[ch := Toggle(old(Relays())[ch])] else old(Relays())
    {
      r := Guard(ch);
      if r.Success? {
        ApplyState(ch, Toggle(state[ch]));
      }
    }

    method SetAll(want: RelayState) returns (r: Status)
      requires Valid()
      modifies state, sink
      ensures Valid()
      ensures r == if initialized then Success else Fail(NotInitialized)
      ensures Relays() == if initialized then All(count, want) else old(Relays())
    {
      if !initialized {
        return Fail(NotInitialized);
      }
      for ch := 0 to count
        invariant Valid()
        invariant state[..ch] == All(ch, want)
      {
        ApplyState(ch, want);
      }
      return Success;
    }

    /** An absent channel reads as Off. */
    function State(ch: nat): (s: RelayState)
      reads this, state, sink
      requires Valid()
      ensures s == if ch < count then Relays()[ch] else Off
    {
      if ch < count then state[ch] else Off
    }

    function Guard(ch: nat): Status
      reads this
    {
      if !initialized then Fail(NotInitialized)
      else if ch >= count then Fail(ChannelNotPresent)
      else Success
    }

    method ApplyState(ch: nat, want: RelayState)
      requires ch < state.Length
      modifies state, sink
      ensures state[..] == old(state[..])[ch := want]
      ensures sink.level == old(sink.level)[ch := want]
    {
      state[ch] := want;
      sink.DriveRelay(ch, want);
    }
  }
}
