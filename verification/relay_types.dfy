/** Value types shared by the control plane. */
module RelayTypes {

  const MAX_CHANNELS: nat := 4

  type ChannelId = c: nat | c < 0x100

  datatype RelayState = Off | On

  function Toggle(s: RelayState): RelayState { if s.On? then Off else On }

  datatype CommandSource = Local | Cloud | Lan | Boot | Internal

  datatype Error = InvalidArgument | NotInitialized | ChannelNotPresent | Busy | InternalInvariant

  datatype Status = Success | Fail(error: Error)

  datatype ControlCommand =
    | SetChannel(channel: ChannelId, state: RelayState, source: CommandSource)
    | ToggleChannel(channel: ChannelId, source: CommandSource)
    | SetAll(state: RelayState, source: CommandSource)

  /** One call of the state-change port: channel, its new state, and who caused it. */
  datatype Announcement = Announcement(channel: nat, state: RelayState, source: CommandSource)

  function All(n: nat, s: RelayState): (r: seq<RelayState>) { seq(n, _ => s) }
}
