# LibreSwitch: a verified model of the firmware's control logic

This project models the logic of the LibreSwitch wall-switch firmware in Dafny and proves how far it does what
it is for: that the wall buttons work whatever the network does, that a power cut leaves the relays' old or new
states to come back to, that a factory reset needs a deliberate gesture, and that what is read from flash and
the network is understood as it was meant. Some of these goals hold without exception; the others hold exactly
under the conditions listed in the second section, each with an input that breaks it.
`dafny verify dfyconfig.toml` checks all of it.

Code that updates fields step by step is modelled as classes and methods with loops, each proved against a
specification function; the theorems are lemmas about those functions over all inputs, histories or runs.

## What is proved

- **Control plane and restart** (`relay_types`, `relay_controller`, `persistence`, `control_plane`,
  `coordinator`, `boot_policy`). Over every run of boots, presses and commands, from any store contents and
  with any of the writes failing, a restart at any step boundary restores the relay states of the last boot or
  successful write, hence exactly the current ones while writes succeed, and the announcements since the last
  boot replay to them. A channel is always as the last event that set it asked, flipped once for each later
  press or toggle. Within one command every snapshot written is already the final one, so a power cut
  inside it leaves the old states or the new ones, never a mixture.
- **CRC-16** (`bytes`, `crc16`, `record_damage`). The byte loop equals a bit-serial register with the generator
  of section 2 of ITU-T Recommendation V.41; the register is linear and its step is invertible. Hence every
  burst of at most 16 bits and every odd number of flipped bits changes the checksum of a message of any
  length. For the flash record, whose checksum is part of what may be damaged, the undetected damage is
  characterised exactly; a record with recognised damage boots all Off.
- **Touch** (`touch_input`, `touch_history`, `reset_gesture`, `touch_scans`, `stuck_pair`). Samples carry
  unbounded true time and the engine sees it modulo 2^32. Debounce, long press and the factory-reset gesture
  are each proved sound and complete against the whole history, the scanned engine is shown to give every
  channel and the reset pair their own histories, a requested reset is traced back to both pads' own samples,
  and the boot-time protection has its exact condition.
- **Queues and tasks** (`bounded_queue`, `cross_task`, `control_loop`). The ring under its lock is split into
  single reads and writes of two interleaved tasks; every micro-step refines an atomic queue operation, so
  for every schedule no command is lost, duplicated or reordered, and every push and drain that is let run ends
  with its work done. Two runs with the same pads but different remote traffic emit identical touch events.
- **Parsers** (`text`, `mqtt_text`, `mqtt_payload`, `publishing`, `ota_types`, `ota_manifest`, `url_form`, `enrollment`). Each
  parser is proved against a declarative reading of its format, for every input, and printing followed by
  parsing is the identity (form encoding as in section 5.1 of the WHATWG URL Standard and section 2.1 of
  RFC 3986; version order as in section 11 of Semantic Versioning 2.0.0, without pre-releases).
- **Connectivity and indicator** (`backoff`, `ota_pipeline`, `ota_runs`, `stored_pairs`, `provisioning`,
  `indicator`). Whole outages, update and rollback runs with power cuts at any step, power-on sessions and
  sequences of them cut at any write, and LED histories.

## Where the code does something other than one would say

- The comment at `src/domain/touch_input.h:126-130` says that a pair stuck pressed from boot never arms the
  reset. That depends on the polling cadence: it arms exactly if some scan shows 500 ms before any earlier scan
  but the first shows the debounce time (`StuckPair.StuckPairArmsExactly`, `StuckPair.StuckPairArmsInTime`), and
  it then fires (`StuckPair.StuckPairFires`, `StuckPair.SlowScansFire`).
- `src/net/mqtt_payload.h:11-14` promises that nothing but the documented shape is accepted. The reader accepts
  exactly the texts of `MqttPayload.ReadExactly`; it keeps the promise exactly for the texts named in
  `MqttPayload.StrictExactly`, and `MqttPayload.LooseShapeAccepted` is one for which it does not.
- The record's checksum is stored low byte first, so the detection of bursts ends at its boundary
  (`RecordDamage.DamageExactly`, `RecordDamage.BoundaryBurstMissed`).
- A topic's channel is kept modulo 256 (`MqttText.TopicWithNumeral`, `MqttText.Channel256IsZero`), and a ten-digit
  size is kept modulo 2^32 (`OtaManifests.U32ExactBelowWrap`, `OtaManifests.U32Wraps`).
- The drop-oldest publish queue can push a channel's last change out; a subscriber then stays wrong, exactly
  on an odd number of changes lost since the last one published (`Publishing.CurrentAfterDrainsExactly`,
  `Publishing.ALastChangeCanBeLost`).
- The persisting listener ignores whether its write succeeded. After failed writes a restart restores the current
  states exactly if every channel has changed an even number of times since the last successful one
  (`ControlPlane.RestartExactly`).
- Setting a status clears the cached LED level without driving the LED. It stays lit through the dark half of
  the next pattern exactly if no tick demands it on first (`Indicator.SinkAgreesExactly`); the first tick
  after a status change must come within half a blink period (`Indicator.PromptTicksAgree`,
  `Indicator.LateTickLeavesLedLit`).
- The reset blink is said to speed up; its 32-bit product overflows for very long holds and it then jumps
  back to slow (`Indicator.SpeedsUpExactly`).
- Credentials are stored by two writes; a power cut between them can leave a pair that never joined
  (`StoredPairs.CutIsSafeExactly`, `StoredPairs.StoredPairsKnown`, `StoredPairs.TornPair`).
- An update is verified before its commit, but a power cut during its download leaves what was written in the
  slot, and if the health window of an earlier update then expires, the device boots it. Only proven images run
  exactly if that never happens (`OtaRuns.OnlyProvenImagesRun`, `OtaRuns.CutDownloadBoots`).
- An expired health window undoes an update only while no later update has passed the precheck: one that then
  fails has already erased the slot (`OtaRuns.ExpiryExactly`, `OtaRuns.UndoneExactly`, `OtaRuns.BrokenDownloadStrandsUpdate`).
- The update service ignores whether its pending mark was written, and writes it after the commit: a store that
  refuses writes, or a power cut in between, boots the new image without a health window
  (`OtaPipeline.MarkedExactly`, `OtaPipeline.CutDuringCommitment`, `OtaRuns.RefusingStoreRebootsUnmarked`).

## Model

| member | source | states |
|---|---|---|
| `Crc16.Compute` | src/domain/crc16.h:16-25 | The byte-and-bit loop computes, for every message and initial value, the register fed one message bit at a time |
| `Crc16.XoredBitsAreFedBits` | src/domain/crc16.h:18-24 | Adding up to 16 bits to the register at once and shifting them out equals feeding them one by one |
| `Crc16.FeedConcat` | src/domain/crc16.h:16-25 | The checksum of a concatenation continues the checksum of its first part |
| `Crc16.FeedIsLinear` | src/domain/crc16.h:20-22 | Two streams leave registers that differ exactly by the register of their error pattern |
| `Crc16.ClearedOnlyByItself` | src/domain/crc16.h:20-22 | At most 16 bits clear the register only if they are the register itself: the step loses nothing |
| `Crc16.ZerosKeepNonzero` | src/domain/crc16.h:20-22 | Undamaged bits can neither create nor hide a difference, in both directions |
| `Crc16.BurstDetected` | src/domain/crc16.h:16-25 | Any nonempty change within 16 consecutive bit positions changes the checksum, for messages of any length and any initial value |
| `Crc16.StepParity` | src/domain/crc16.h:20-22 | The generator has an even number of terms: a step adds exactly the entering bit's parity |
| `Crc16.FeedParity` | src/domain/crc16.h:16-25 | The register's parity is the parity of its start and of everything fed |
| `Crc16.OddErrorsDetected` | src/domain/crc16.h:16-25 | Any odd number of flipped bits, wherever they are, changes the checksum |
| `Crc16.CheckValues` | src/domain/crc16.h:16-25 | Two checksums written out, FF FF giving 0000 and FF FF 01 giving 1021, fix the start value, the generator and the order of the bits |
| `RelayControl.RelayController.Init` | src/domain/relay_controller.h:27-35 | Accepts 1 to 4 channels, drives them all to the cold-boot state, refuses anything else without touching a pin; keeps logical state and pins equal |
| `RelayControl.RelayController.Set` | src/domain/relay_controller.h:38-42 | Changes exactly the one present channel, or nothing with the error of an uninitialised controller or an absent channel; logical state and last driven level stay equal |
| `RelayControl.RelayController.ToggleChannel` | src/domain/relay_controller.h:45-49 | Flips exactly the one guarded channel, or nothing; state and pins stay equal |
| `RelayControl.RelayController.SetAll` | src/domain/relay_controller.h:52-57 | Every present channel gets the state, or nothing happens before initialisation; state and pins stay equal |
| `RelayControl.RelayController.State` | src/domain/relay_controller.h:60-63 | An absent channel reads Off |
| `RelayControl.RelayController.ApplyState` | src/domain/relay_controller.h:77-80 | Records and drives together |
| `Persistence.KvStore.SetBlob` | src/platform/kv_store.h:22-22 | A write succeeds as a whole or changes nothing; the ghost history records every content the store has had |
| `Persistence.KvStore.GetBlob` | src/platform/kv_store.h:24-27 | Returns the bytes actually read, none for an absent key |
| `Persistence.FlashDbStatePersistence.LoadRelayState` | src/adapters/flashdb_state_persistence.h:28-40 | The field-by-field reader returns the decoding of the stored blob; wrong size, magic, version or checksum each give an invalid snapshot |
| `Persistence.FlashDbStatePersistence.SaveRelayState` | src/adapters/flashdb_state_persistence.h:42-52 | Stores exactly the encoded record under the one key, or reports the failed write and changes nothing |
| `Persistence.DecodeEncode` | src/adapters/flashdb_state_persistence.h:28-72 | Saving and loading returns the snapshot, through the 12-byte little-endian layout with its checksum at offset 10 |
| `Persistence.RecordLayout` | src/adapters/flashdb_state_persistence.h:42-72 | The record byte by byte, written out, with the checksum of the first ten bytes low byte first |
| `Persistence.LoadedExactly` | src/adapters/flashdb_state_persistence.h:28-40 | A blob loads iff it has twelve bytes or more and the right five head bytes and checksum; a channel is on iff it loads and its byte is not zero |
| `RecordDamage.DamageExactly` | src/adapters/flashdb_state_persistence.h:28-40 | For every damage to an intact 12-byte record: it stays intact iff magic and version are untouched and the flipped checksum bits are what the flipped covered bits leave in an empty register |
| `RecordDamage.DamageDetected` | src/adapters/flashdb_state_persistence.h:28-40 | A valid record loads as invalid after any change of magic or version, any change of the checksum alone, a burst of at most 16 bits within the covered bytes, or an odd number of flips anywhere in its 96 bits |
| `RecordDamage.BoundaryBurstMissed` | src/adapters/flashdb_state_persistence.h:56-69 | As the checksum is stored low byte first, a six-bit burst of 14 positions across its boundary turns the record of any snapshot with channel 3 off into a valid one with channel 3 on |
| `ControlPlane.ReplayChanges` | src/domain/control_coordinator.h:96-109 | Hearing one command's announcements takes a listener from the old states to the new ones, each announcement being news |
| `ControlPlane.AnnouncedExactly` | src/domain/control_coordinator.h:106-109 | An announcement is made iff its channel changed, it carries the channel's new state and its command's source |
| `ControlPlane.FlippedSince` | src/domain/control_coordinator.h:58-104 | Over any run, while no event sets a channel, its state is the earlier one flipped once per press or toggle of it; power cycles do not touch it while every write succeeds |
| `ControlPlane.LastSetRules` | src/domain/control_coordinator.h:58-104 | Over any run a channel is as the last event that set it asked, flipped once per later press or toggle of it, power cycles included while every write succeeds |
| `ControlPlane.SavedIsRestored` | src/app/persisting_state_listener.h:29-38 | A RestoreLast boot from the store a command leaves brings back the states the command left |
| `ControlPlane.CommandKeepsConsistent` | src/domain/control_coordinator.h:70-109 | Every command, its writes taken or refused, keeps all of that |
| `ControlPlane.RunIsConsistent` | src/domain/control_coordinator.h:58-109 | Over every run of boots, presses and commands from any store contents (absent and corrupt included), whichever writes fail, at every step boundary a restart would restore the states of the last boot or successful write, and the announcements since then and since the boot replay to the current ones, each a real change |
| `ControlPlane.RestartExactly` | src/app/persisting_state_listener.h:29-38 | A restart restores exactly the current relays iff every channel was announced an even number of times since the last boot or successful write |
| `ControlPlane.WrittenRunsRestore` | src/app/persisting_state_listener.h:29-38 | While every write succeeds a restart at any step boundary restores exactly the current relays |
| `Coordination.PersistingStateListener.OnStateChanged` | src/app/persisting_state_listener.h:29-38 | Writes the full four-channel snapshot of the current relays, absent channels Off |
| `Coordination.FanOutStateChange.Add` | src/app/fan_out_state_change.h:24-28 | Appends in order; refuses a null listener and a full table |
| `Coordination.FanOutStateChange.OnStateChanged` | src/app/fan_out_state_change.h:30-33 | Every recording listener hears exactly this announcement once; the store gets the current snapshot iff a persisting listener is registered |
| `Coordination.ControlCoordinator.Submit` | src/domain/control_coordinator.h:70-77 | Accepted, a command leaves the named channel at the state asked for, or other than it was for a toggle, or all channels at it, and every other channel as it was; refused, with the error of each case, it changes none. Announcements and store follow; every store content on the way is the old one or the complete new one |
| `Coordination.ControlCoordinator.OnTouchEvent` | src/domain/control_coordinator.h:58-62 | A press flips its own channel and no other, as a local toggle does; a release or long press changes nothing anywhere |
| `Coordination.ControlCoordinator.ApplySet` | src/domain/control_coordinator.h:82-87 | Announces iff the state changed |
| `Coordination.ControlCoordinator.ApplyToggle` | src/domain/control_coordinator.h:89-94 | One flip, one announcement, or the guard's error and nothing |
| `Coordination.ControlCoordinator.ApplySetAll` | src/domain/control_coordinator.h:96-104 | Announces exactly the changed channels in order; a power cut between two snapshots of one command can only leave the old or the final states |
| `Coordination.ControlCoordinator.AnnounceAll` | src/domain/control_coordinator.h:101-103 | The announcing loop: all snapshots it saves are the same final one |
| `Coordination.ControlCoordinator.AnnounceIfChanged` | src/domain/control_coordinator.h:106-109 | One announcement with the current state iff it differs from before |
| `Booting.BootPolicy.ApplyBootState` | src/domain/boot_policy.h:32-41 | Each policy's resulting relay states; absent or corrupt storage means all Off |
| `Booting.BootPolicy.ApplyRestoreLast` | src/domain/boot_policy.h:49-54 | The stored states, or all Off if none are intact |
| `Booting.BootPolicy.ApplyPersisted` | src/domain/boot_policy.h:56-62 | Every present channel gets its stored state |
| `Booting.Switch.constructor` | src/app/composition_root.h:181-191 | Booting in the composition root's order produces the device the run model starts from, with nothing announced or written |
| `Booting.Switch.Handle` | src/domain/control_coordinator.h:58-77 | The running objects do to relays, store and listeners exactly what the run model says for a press or a command, with its writes taken or refused; all contents written on the way are the final one |
| `Booting.Operate` | src/app/composition_root.h:181-191 | For every sequence of events, refused writes and power cycles over one store the real objects end in the run model's state; a fresh boot would restore the last saved states, and exactly the current ones under the condition above |
| `Touch.TouchInput.Init` | src/domain/touch_input.h:39-52 | Accepts 1 to 4 channels and starts every channel idle; otherwise changes nothing |
| `Touch.TouchInput.Poll` | src/domain/touch_input.h:56-62 | New state and emitted signals of a poll, or the error and no change |
| `Touch.TouchInput.DebounceChannel` | src/domain/touch_input.h:78-92 | The in-place channel update and its event |
| `Touch.TouchInput.CommitTransition` | src/domain/touch_input.h:94-102 | Commits the level, restarts the timer, re-arms the long press |
| `Touch.TouchInput.MaybeLongPress` | src/domain/touch_input.h:104-111 | Fires once, only while pressed and due |
| `Touch.TouchInput.UpdateResetGesture` | src/domain/touch_input.h:114-168 | The in-place gesture update and its signals |
| `TouchHistory.ElapsedIsTrueSpan` | src/domain/touch_input.h:174-176 | Unsigned subtraction of wrapped counters is the true span modulo 2^32, exact below one wrap |
| `TouchHistory.ConfirmedExactly` | src/domain/touch_input.h:78-102 | A level is confirmed iff it was when its run of equal samples began or some later sample of the run showed the debounce time |
| `TouchHistory.ConfirmIsSound` | src/domain/touch_input.h:78-102 | A press or release is announced only if every sample over a true span of at least the debounce time had the level |
| `TouchHistory.ConfirmIsComplete` | src/domain/touch_input.h:78-102 | A non-first sample of a run lasting from the debounce time up to 2^32 ms leaves its level confirmed |
| `TouchHistory.WrapHidesAHold` | src/domain/touch_input.h:174-176 | The 2^32 bound is needed: two samples exactly one wrap apart look simultaneous |
| `TouchHistory.EventsAlternate` | src/domain/touch_input.h:94-111 | Presses and releases strictly alternate, with at most one long press inside each press |
| `TouchHistory.HoldTimer` | src/domain/touch_input.h:104-111 | While a confirmed press reads pressed, its timer started at a sample of the current unbroken run |
| `TouchHistory.LongPressIsSound` | src/domain/touch_input.h:104-111 | A long press is announced only after an unbroken confirmed pressed span of at least the long-press time, glitches restarting it |
| `TouchHistory.LongPressIsComplete` | src/domain/touch_input.h:104-111 | A confirmed press reading pressed for the long-press time has been announced as long |
| `ResetGesture.GestureExactly` | src/domain/touch_input.h:131-159 | Window, start and fired flag are exactly determined by the history of evaluations |
| `ResetGesture.BaselineIsSound` | src/domain/touch_input.h:131-138 | The baseline needs an evaluation with the pair not both held at least 500 ms after the first |
| `ResetGesture.BaselineExactly` | src/domain/touch_input.h:131-138 | The baseline is there iff some evaluation saw the pair not both held with the settle time past, counted from the first evaluation not at the counter value meaning "none yet" |
| `ResetGesture.RequestedExactly` | src/domain/touch_input.h:140-159 | A request is made by exactly the first evaluation of a hold with a baseline that reaches the factory-reset time |
| `ResetGesture.RequestIsSound` | src/domain/touch_input.h:114-160 | A request needs a released observation past the settle time and then a hold at every evaluation over a true span of the factory-reset time |
| `ResetGesture.OneRequestPerHold` | src/domain/touch_input.h:155-159 | At most one request per continuous both-held stretch |
| `ResetGesture.RequestIsComplete` | src/domain/touch_input.h:114-160 | A pair seen released past the settle time and then held until the counter shows the factory-reset time does get its request |
| `ResetGesture.LastProgress` | src/domain/touch_input.h:162-168 | The last-progress time is that of the latest report, or of the hold's start |
| `ResetGesture.ProgressIsSpaced` | src/domain/touch_input.h:162-168 | Reports within a hold are the true time held and at least the reporting interval apart, hence strictly increasing unless that interval is 0 |
| `ResetGesture.NoProgressAfterRequest` | src/domain/touch_input.h:163-163 | Reports stop at the request |
| `TouchScans.ChannelSeesItsHistory` | src/adapters/gpio_touch_source.h:56-63 | After whole scans every channel's state is that of its own sample history |
| `TouchScans.ChannelEmitsItsEvents` | src/adapters/gpio_touch_source.h:56-63 | A poll in a scan emits exactly the events of that channel's history |
| `TouchScans.PairSeesItsHistory` | src/domain/touch_input.h:56-62 | The gesture after whole scans is that of the pair's evaluations, one after every poll |
| `TouchScans.PairEmitsItsRequests` | src/domain/touch_input.h:56-62 | A poll requests the reset, and reports progress with a given time held, iff the pair's evaluation history does |
| `TouchScans.PairHeldExactly` | src/domain/touch_input.h:117-118 | The evaluation after any poll of any scan sees the pair held iff each of its two pads is confirmed pressed by its own samples so far |
| `TouchScans.EvalsAreOfPads` | src/domain/touch_input.h:117-118 | The whole history of evaluations, one after every poll, carries the scans' times and whether both pads are confirmed by their own samples |
| `TouchScans.RequestNeedsBothPads` | src/domain/touch_input.h:114-160 | A poll that requests the reset has both pads confirmed by their own samples at every evaluation over a true span of the factory-reset time, and before that an evaluation past the settle time with one of them not confirmed |
| `TouchScans.OneButtonIsNotEnough` | src/domain/touch_input.h:114-123 | A poll after which either pad is not confirmed neither requests the reset nor reports progress, and with no real pair no poll does |
| `StuckPair.StuckConfirmed` | src/domain/touch_input.h:78-92 | When exactly a pad stuck from the first scan is confirmed |
| `StuckPair.StuckPairNeverFires` | src/domain/touch_input.h:121-138 | While no scan arms, in particular if a scan other than the first falls between the debounce time and 500 ms, a pair pressed from the first scan on never fires the reset |
| `StuckPair.WindowProtects` | src/domain/touch_input.h:131-138 | A scan in that window keeps every scan of the run from arming |
| `StuckPair.StuckPairArmsExactly` | src/domain/touch_input.h:131-138 | For every run, whatever wraps: such a pair has its baseline iff some scan showed the settle time past before any earlier one but the first showed the debounce time |
| `StuckPair.StuckPairArmsInTime` | src/domain/touch_input.h:131-138 | In true time, below one wrap: iff some scan came 500 ms after the first and none other than the first fell in the window |
| `StuckPair.StuckPairFires` | src/domain/touch_input.h:131-159 | Once armed and confirmed, a pair that stays stuck for the factory-reset time does fire the reset |
| `StuckPair.SlowScansFire` | src/domain/touch_input.h:126-130 | Scans at 1000, 1600 and 11600 ms: the reset fires though the pair was never seen released |
| `Queues.RingPop` | src/platform/bounded_queue.h:48-61 | Advancing the head of the ring removes the oldest element |
| `Queues.RingPush` | src/platform/bounded_queue.h:36-45 | Writing at the tail appends, also across the end of the buffer |
| `Queues.BoundedQueue.Push` | src/platform/bounded_queue.h:36-45 | New contents under both policies; refused exactly when full and rejecting |
| `Queues.BoundedQueue.Pop` | src/platform/bounded_queue.h:48-53 | The oldest element, refused exactly when empty |
| `Queues.BoundedQueue.PopInternal` | src/platform/bounded_queue.h:61-61 | Drops the oldest element |
| `Queues.DropOldestKeepsNewest` | src/platform/bounded_queue.h:36-45 | A drop-oldest queue holds exactly the newest elements that fit, in order |
| `Queues.RejectKeepsOldest` | src/platform/bounded_queue.h:36-45 | A rejecting queue holds exactly the oldest |
| `Queues.CriticalSection.Enter` | src/platform/critical_section.h:40-40 | Entered only from outside |
| `Queues.CriticalSection.Exit` | src/platform/critical_section.h:41-41 | Left only from inside |
| `Queues.SyncQueue.Push` | src/platform/sync_queue.h:26-29 | A queue push inside the guard, which is left on every path |
| `Queues.SyncQueue.Pop` | src/platform/sync_queue.h:30-33 | A queue pop inside the guard |
| `Queues.CommandQueuePort.Submit` | src/app/command_sink.h:39-41 | Success iff the command was queued, Busy iff the queue was full |
| `CrossTask.StepRefines` | src/platform/bounded_queue.h:36-62 | Every micro-step of either task is one atomic offer, take or hand-over of an abstract queue, or invisible; an offer is refused iff the queue is full; mutual exclusion and the ring's indices are kept mid-operation |
| `CrossTask.StepConserves` | src/platform/sync_queue.h:26-33 | Every micro-step keeps: accepted = handed over ++ in hand ++ pending |
| `CrossTask.DrainTakesAllPending` | src/app/control_loop.h:53-58 | A drain hands over, in order, everything accepted before it began, and at most the capacity, whatever is pushed meanwhile |
| `CrossTask.EveryScheduleConserves` | src/platform/sync_queue.h:26-33 | For every schedule of the two tasks, at every micro-step: mutual exclusion, no command lost, duplicated or reordered, at most the capacity pending |
| `CrossTask.PushCompletes` | src/platform/sync_queue.h:26-29 | A push that finds the other task outside the guard ends within seven of its own moves with exactly its element accepted, or refused iff the ring was full |
| `CrossTask.DrainCompletes` | src/app/control_loop.h:53-58 | A drain under way ends within a bounded number of its own moves while the pushing task is outside the guard |
| `CrossTask.FullDrain` | src/app/control_loop.h:53-58 | A whole drain, uninterrupted, ends within eight moves a slot and two more, with everything accepted handed over |
| `CrossTask.EverythingGetsThrough` | src/platform/sync_queue.h:26-33 | From every reachable state some continuation hands over, in order, everything accepted by then |
| `ControlLoops.FlippedOncePerPress` | src/domain/control_coordinator.h:58-62 | After a scan every relay is flipped once per press emitted for it and by nothing else |
| `ControlLoops.LastCommandRules` | src/app/control_loop.h:53-58 | After a drain a channel is as the last command that set it asked, flipped once per later toggle of it |
| `ControlLoops.LocalHasLastWord` | src/app/control_loop.h:44-48 | In every cycle each relay ends as the drained commands left it, or the other way iff its own pad emitted an odd number of presses |
| `ControlLoops.LastReportShown` | src/app/composition_root.h:99-103 | The LED shows the reset pattern at the elapsed time and total of the last progress report; without a report nothing changes |
| `ControlLoops.RemoteCannotDisturbTouch` | src/app/control_loop.h:44-58 | Runs with the same pads and times but arbitrary different remote commands and flash behaviour emit identical touch signals in every cycle |
| `ControlLoops.CyclesKeepInStep` | src/app/control_loop.h:44-48 | Over any cycles with a store that takes writes, a restart would restore the relays and what any listener heard replays to them |
| `ControlLoops.ControlLoop.Tick` | src/app/control_loop.h:44-48 | Signals, relays, store, what every listener heard, reset request and LED after one cycle: drained commands, then the scan, then the indicator's tick; a restart that would have restored the relays before it does so after it if snapshots reach the store |
| `ControlLoops.ControlLoop.DrainCommands` | src/app/control_loop.h:53-58 | Performs everything queued, in order, within the budget, with its effect on relays, store and listeners |
| `ControlLoops.ControlLoop.DrainOne` | src/app/control_loop.h:56-57 | Pops the oldest command under the lock and performs it on relays, store and listeners, or reports an empty queue and changes nothing |
| `ControlLoops.ResetHandler.Hear` | src/app/composition_root.h:95-103 | The LED pattern and the pending request after the reset signals of a poll |
| `ControlLoops.ControlLoop.Scan` | src/adapters/gpio_touch_source.h:56-63 | Polls all pads in order and delivers every signal to relays, store, listeners and LED |
| `ControlLoops.ControlLoop.PollPad` | src/adapters/gpio_touch_source.h:58-61 | One poll and the effect of its signals on relays, store, listeners and LED |
| `ControlLoops.PadsAre` | src/adapters/gpio_touch_source.h:56-63 | Delivering pad by pad comes to the same as delivering the whole scan's signals |
| `ControlLoops.ControlLoop.Deliver` | src/domain/control_coordinator.h:58-62 | Relays, store and listeners after the coordinator heard the signals |
| `Text.NumeralOfDec` | src/net/mqtt_topics.h:37-40 | A printed number is a nonempty numeral that reads back as itself |
| `Text.SplitJoin` | src/net/ota_manifest.h:34-38 | Splitting joined separator-free pieces returns them |
| `MqttText.ParseRelaySetChannel` | src/net/mqtt_topics.h:65-75 | The digit loop in 32-bit arithmetic returns the numeral after the first "cmd/relay/" modulo 256, for every topic |
| `MqttText.TopicWithNumeral` | src/net/mqtt_topics.h:65-75 | A set-topic with any numeral, however long, is read as that numeral modulo 256 |
| `MqttText.Channel256IsZero` | src/net/mqtt_topics.h:73-73 | A set-topic for channel 256 is read as channel 0 |
| `MqttText.TopicRoundTrip` | src/net/mqtt_topics.h:37-40 | Every channel 0 to 255 is recovered from its built topic if the prefix holds no "cmd/relay/" |
| `MqttText.SetTopicRoutes` | src/net/mqtt_service.h:75-82 | A built set-topic is routed to its channel and to nothing else |
| `MqttText.SystemTopicsRoute` | src/net/mqtt_service.h:75-82 | The topics of the update manifest, its confirmation and the set-all command, written out after any prefix, have their own routes |
| `MqttText.TopicsLookLike` | src/net/mqtt_topics.h:37-53 | The set and state topics of every channel written out; one of 96 characters or more is not built |
| `MqttPayload.RelayStateFits` | src/net/mqtt_payload.h:47-54 | A relay-state event always fits its 64 bytes |
| `MqttPayload.ParseRelaySet` | src/net/mqtt_payload.h:30-44 | Returns a position iff the text splits into anything without an "on" key, that key, anything without a colon, a colon, blanks, the literal and anything |
| `MqttPayload.ReadExactly` | src/net/mqtt_payload.h:30-44 | The same for the reader's specification: accepted iff such a split exists, in both directions |
| `MqttPayload.ShapeIsRead` | src/net/mqtt_payload.h:27-29 | The documented shape, with any blanks between its tokens, is always read as its literal |
| `MqttPayload.StrictExactly` | src/net/mqtt_payload.h:11-14 | The reader returns what a reader of the documented shape alone would iff the text has that shape or admits no such split |
| `MqttPayload.PayloadRoundTrip` | src/net/mqtt_payload.h:30-54 | The text of any relay-state event reads back as its state |
| `MqttPayload.EventLooksLike` | src/net/mqtt_payload.h:47-54 | The event written out, with the literal of each state and the name of each source |
| `MqttPayload.CommandsLookLike` | src/net/mqtt_payload.h:27-44 | The two documented payloads, written out, are read as on and off |
| `MqttPayload.LooseShapeAccepted` | src/net/mqtt_payload.h:11-12 | A concrete text of another shape that the reader accepts and a strict reader would not |
| `Publishing.MessageIsBuilt` | src/net/mqtt_service.h:150-156 | With root and id inside their buffers every change has its message |
| `Publishing.MqttService.OnStateChanged` | src/net/mqtt_service.h:60-62 | The publish queue stays exactly the newest 16 undrained announcements, in order |
| `Publishing.MqttService.DrainPublishes` | src/net/mqtt_service.h:144-148 | Publishes the messages of exactly those announcements, in order |
| `Publishing.MqttService.PublishState` | src/net/mqtt_service.h:150-156 | One message, or none if the topic does not fit |
| `Publishing.MqttService.OnMessage` | src/net/mqtt_service.h:75-82 | Which command, if any, an incoming topic and payload queue; nothing else is queued |
| `Publishing.BuiltCommandRoutes` | src/net/mqtt_service.h:158-163 | A built topic with a relay-state payload asks for exactly that one command |
| `Publishing.BelievedIsView` | src/net/mqtt_service.h:144-156 | A subscriber reading the published texts on a channel's topic learns the last announced state of that channel |
| `Publishing.TopicsDiffer` | src/net/mqtt_topics.h:50-53 | Different channels have different state topics |
| `ControlPlane.TrueStateFlips` | src/domain/control_coordinator.h:106-109 | As every announcement is a change, the true state has flipped once per announcement of its channel |
| `Publishing.SubscriberIsCurrentExactly` | src/net/mqtt_service.h:41-62 | After the drain of one outage an up-to-date subscriber is up to date again on a channel iff the channel was among the newest 16 announcements or was announced an even number of times |
| `Publishing.CurrentAfterDrainsExactly` | src/net/mqtt_service.h:144-156 | Over any sequence of outages and drains a subscriber is up to date on a channel iff the channel was announced an even number of times after the last of its announcements that was published |
| `Publishing.ALastChangeCanBeLost` | src/net/mqtt_service.h:41-42 | A concrete outage after which a subscriber stays wrong |
| `OtaTypes.NewerIsRank` | src/net/ota_types.h:26-30 | "Newer" is a strict total order, that of the number major.minor.patch |
| `OtaManifests.ParseU32` | src/net/ota_manifest.h:75-83 | Accepts exactly 1 to 10 digits and yields the numeral modulo 2^32 |
| `OtaManifests.U32ExactBelowWrap` | src/net/ota_manifest.h:75-83 | The value is exact iff the numeral is below 2^32 |
| `OtaManifests.U32Wraps` | src/net/ota_manifest.h:75-83 | The ten-digit 2^32 reads as 0 |
| `OtaManifests.ParseVer` | src/net/ota_manifest.h:89-105 | Accepts exactly three dot-separated numerals of at most 65535, and is exact |
| `OtaManifests.VersionRoundTrip` | src/net/ota_manifest.h:89-105 | Printing and parsing a version is the identity |
| `OtaManifests.Parse` | src/net/ota_manifest.h:26-64 | The cursor loop returns the manifest of the payload's separator-delimited tokens |
| `OtaManifests.Token` | src/net/ota_manifest.h:39-57 | One token, split at its first '=', applied to the manifest |
| `OtaManifests.SetField` | src/net/ota_manifest.h:47-56 | A value that does not fit or parse withdraws the field again; an unknown key does nothing |
| `OtaManifests.ManifestRoundTrip` | src/net/ota_manifest.h:26-64 | Printing in any order, with repetitions and unknown tokens anywhere and any separator, and parsing gives back the manifest |
| `OtaManifests.FieldRoundTrip` | src/net/ota_manifest.h:39-47 | A printed token reads back as its key and value, '=' in the value included |
| `OtaManifests.ManifestExactly` | src/net/ota_manifest.h:26-64 | For every payload: it is valid iff the values last given under "url", "sig", "hw", "ver", "ch" and "size" are each acceptable, and its fields are those values, with downgrades allowed by "dg" |
| `OtaManifests.TokenMeans` | src/net/ota_manifest.h:39-56 | Which texts before the '=' name which field |
| `OtaManifests.VersionLooksLike` | src/net/ota_manifest.h:89-105 | The text 1.2.3 is major 1, minor 2, patch 3 |
| `UrlForms.UrlDecode` | src/net/provisioning_types.h:49-62 | Decoding into a buffer gives the first capacity-1 bytes of the full decoding, terminated |
| `UrlForms.DecodeEncode` | src/net/provisioning_types.h:49-62 | Decoding undoes form encoding for every byte string; encoded text is free of '=' and '&' |
| `UrlForms.EscapeDecoded` | src/net/provisioning_types.h:49-62 | '%' and any two hexadecimal digits, in either case, decode to the byte they write |
| `UrlForms.DecodedExactly` | src/net/provisioning_types.h:49-62 | A plus is a space; everything that neither is a plus nor begins an escape stays |
| `UrlForms.Field` | src/net/provisioning_types.h:65-83 | The decoded value of the first pair with the name, or empty |
| `UrlForms.Parse` | src/net/provisioning_types.h:87-94 | The three fields in their buffers; valid iff the SSID is nonempty |
| `UrlForms.FormRoundTrip` | src/net/provisioning_types.h:65-83 | Looking a name up in any serialised form and decoding gives the first pair's value |
| `UrlForms.CredentialsRoundTrip` | src/net/provisioning_types.h:87-94 | Any credentials that fit their buffers are read back from their form, first match winning over later duplicates |
| `Enrollment.Parse` | src/net/enrollment_response.h:73-102 | On every input the one-pass parser returns, for each field, the trimmed value of its last marker line, and validity iff the four required ones are nonempty; the rows below say which text marks which field |
| `Enrollment.OnMarker` | src/net/enrollment_response.h:84-93 | Closes the open field and opens the marker's own |
| `Enrollment.CloseField` | src/net/enrollment_response.h:106-111 | Cuts the trailing line breaks off the open field |
| `Enrollment.SlicesInsideAndDisjoint` | src/net/enrollment_response.h:73-111 | Returned slices lie inside the buffer and are pairwise disjoint |
| `Enrollment.PrintedMarkers` | src/net/enrollment_response.h:73-126 | Where a field's last marker is in a printed response, and that its slice is the value printed last |
| `Enrollment.ResponseRoundTrip` | src/net/enrollment_response.h:73-126 | Parsing what was printed returns every value verbatim; unknown markers in between change nothing |
| `Enrollment.IdentityRoundTrip` | src/net/enrollment_response.h:118-126 | Parsing a printed response puts under each of the six fields what was printed last under its own text: device_id, mqtt_host, mqtt_root, tls_ca, tls_cert, tls_key |
| `Enrollment.AcceptedExactly` | src/net/enrollment_response.h:99-100 | It is accepted iff a nonempty value was printed last under each of tls_ca, tls_cert, tls_key and mqtt_host |
| `Enrollment.CarriageReturnDropped` | src/net/enrollment_response.h:84-93 | A carriage return at the end of a marker line is not part of its name |
| `Enrollment.ValidExactly` | src/net/enrollment_response.h:99-100 | A printed response is accepted iff its four required values are nonempty |
| `Backoffs.ReconnectBackoff.OnFailure` | src/net/reconnect_backoff.h:28-33 | Schedules the jittered delay and doubles, in 32-bit arithmetic |
| `Backoffs.ReconnectBackoff.OnSuccess` | src/net/reconnect_backoff.h:36-39 | Back to the base delay, disarmed |
| `Backoffs.ReconnectBackoff.TickDisconnected` | src/net/mqtt_service.h:97-130 | An attempt iff the backoff allows one, and its effect |
| `Backoffs.JitterIsBounded` | src/net/reconnect_backoff.h:56-62 | The scheduled delay lies within floor(d*pct/100) of d |
| `Backoffs.JitterExactly` | src/net/reconnect_backoff.h:56-62 | The scheduled delay is d less its deviation plus the seed modulo twice the deviation and one |
| `Backoffs.ReachedIsTrueOrder` | src/net/reconnect_backoff.h:64-68 | Within 2^31 ms the signed wrapping comparison is the true order |
| `Backoffs.ScheduleIsExact` | src/net/reconnect_backoff.h:28-62 | After k failures the delay is min(base*2^k, max) and the next attempt lies within its deviation |
| `Backoffs.TriesExactly` | src/net/mqtt_service.h:97-130 | Within 2^31 ms of the schedule a tick makes an attempt iff it comes at or after the scheduled time, the first one at once |
| `Backoffs.FailuresAreSpaced` | src/net/mqtt_service.h:90-131 | Consecutive failed attempts are at least the least delay apart in true time |
| `Backoffs.OutageIsSpaced` | src/net/mqtt_service.h:90-131 | The k-th failure after the first comes no earlier than the sum of the preceding least delays |
| `OtaPipeline.OtaService.Apply` | src/net/ota_service.h:47-70 | An outside call is made iff the manifest is valid, its family and its channel count both equal the profile's, its size is from 1 to the slot's, and downgrades are allowed or its version is higher; each failing test has its own refusal. Also result, flash, store, the exact sequence of calls, and every state of flash and store on the way, for every manifest and behaviour of the world |
| `OtaPipeline.OtaService.VerifyAndCommit` | src/net/ota_service.h:56-69 | The half after the download: commit only after verification, abort otherwise, the reboot after the pending mark |
| `OtaPipeline.CallsExactly` | src/net/ota_service.h:47-70 | The writer is touched iff the precheck passed, committed iff moreover all of the image arrived and verified, the reboot requested iff the commit succeeded too, and every other started update aborted |
| `OtaPipeline.RefusalsExactly` | src/net/ota_service.h:72-81 | Which of the four refusals a manifest gets, in the order of the tests |
| `OtaPipeline.AcceptedInOrder` | src/net/ota_service.h:47-70 | The calls of an accepted update in order: begin, every chunk, finish, verify, commit, pending mark, reboot last |
| `OtaPipeline.OtaService.DoDownload` | src/net/ota_service.h:83-93 | Begins with the announced size, streams the chunks in order and finishes; on success the slot holds their concatenation, and the running image is untouched |
| `OtaPipeline.OtaService.MarkAwaitingConfirm` | src/net/ota_service.h:95-101 | The pending flag and version in the store, write by write |
| `OtaPipeline.MarkedExactly` | src/net/ota_service.h:66-68 | An accepted update leaves the pending mark iff the store takes writes or already had it |
| `OtaPipeline.CutDuringCommitment` | src/net/ota_service.h:64-68 | A power cut after the commit boots the new image; before the first write of the mark it does so without a health window unless an older mark was there |
| `OtaRuns.RefusingStoreRebootsUnmarked` | src/net/ota_service.h:64-69 | A concrete store that refuses writes: the device reboots into the new image with no mark |
| `OtaPipeline.VerdictExactly` | src/net/ota_health_confirm.h:32-52 | Over every history of marks: confirmed iff the boot and all three further criteria were reported, in any order and however late; rolled back iff the boot was, one was not, and the window since the latest boot has passed |
| `OtaPipeline.ConfirmedIsFinal` | src/net/ota_health_confirm.h:42-52 | A confirmed image is confirmed by every later evaluation |
| `OtaRuns.StagesAreMoments` | src/net/ota_service.h:47-70 | The stages at which the run model lets the power fail are exactly the states Apply passes through |
| `OtaRuns.UpdateIsApplied` | src/net/ota_service.h:47-70 | An update that runs to its end leaves what Apply leaves, followed by the reboot if it was accepted |
| `OtaRuns.OnlyProvenImagesRun` | src/net/ota_service.h:47-70 | Over every run of updates, power cuts at any of their steps, restarts and verdicts: every running image was the initial one or verified in the update that committed it iff no window expired while the slot held the unproven remains of a cut update |
| `OtaRuns.UncutRunsAreProven` | src/net/ota_service.h:47-70 | Without a power cut during an update only such images run |
| `OtaRuns.CutDownloadBoots` | src/net/ota_service.h:83-93 | A concrete run: a cut download inside an earlier update's window makes the device boot an image its verifier rejects |
| `OtaRuns.VersionsClimb` | src/net/ota_types.h:70-75 | Without the downgrade switch and rollbacks the running version never falls and every update that gets as far as its commit strictly raises it |
| `OtaRuns.PendingExactly` | src/net/ota_service.h:66-68 | Over every run a health window is open iff a mark set by an update has had no verdict |
| `OtaRuns.ExpiryExactly` | src/net/ota_health_confirm.h:42-47 | What an expired window leads to, over every run: nothing if none is open; else what the last update to start decides, namely the image it replaced, the remains it left, or no change if it failed |
| `OtaRuns.UndoneExactly` | src/net/ota_service.h:47-70 | After a committed and marked update and events without verdict or downgrade switch, an expired window restores the replaced image iff none of them passed the precheck |
| `OtaRuns.BrokenDownloadStrandsUpdate` | src/net/ota_service.h:56-57 | A concrete second update that breaks off inside the window: its expiry leaves the unconfirmed image running |
| `OtaRuns.ConfirmedStays` | src/net/ota_health_confirm.h:42-47 | After a confirmation no expiry moves the image until a further update is marked |
| `StoredPairs.StoredPairRoundTrip` | src/net/provisioning_service.h:107-123 | The persisted pair is read back at the next boot |
| `StoredPairs.CutIsSafeExactly` | src/net/provisioning_service.h:107-111 | A power cut between the two writes leaves the old or new pair iff the SSID or the passphrase is unchanged |
| `StoredPairs.TornPair` | src/net/provisioning_service.h:107-111 | Two concrete networks whose cut leaves a pair that was never stored and never joined |
| `StoredPairs.CutIsALife` | src/net/provisioning_service.h:107-111 | Every content the store goes through in a session is what some submissions stored in full, and at most one cut in between, leave |
| `StoredPairs.StoredPairsKnown` | src/net/provisioning_service.h:99-123 | Over every sequence of power-ons cut at any content: the pair a boot would try was always the initial one or joined iff every mixture a cut left was such a pair |
| `StoredPairs.HarmlessCutsStayKnown` | src/net/provisioning_service.h:99-123 | It always is if every cut found the SSID or the passphrase unchanged |
| `Provisioning.ProvisioningService.Begin` | src/net/provisioning_service.h:44-51 | Operational iff stored credentials and certificate exist and the join succeeds; the pair tried is the stored one; otherwise the portal |
| `Provisioning.ProvisioningService.Tick` | src/net/provisioning_service.h:54-59 | The open portal is polled, with its submission's effect, and then the timeout counted from boot may latch, even if that submission made the device operational |
| `Provisioning.ProvisioningService.OnCredentialsSubmitted` | src/net/provisioning_service.h:62-66 | State, radio and store after a submission; the pair is stored only after it joined |
| `Provisioning.ProvisioningService.RunSequentialTest` | src/net/provisioning_service.h:79-92 | The access point is down before the station starts, and up again after a failure |
| `Provisioning.ProvisioningService.OnTestFailed` | src/net/provisioning_service.h:99-104 | Station down, portal up; the idle clock is not restarted |
| `Provisioning.ProvisioningService.OpenPortal` | src/net/provisioning_service.h:72-76 | Starts the access point only with the station down |
| `Provisioning.ProvisioningService.TryStoredConnect` | src/net/provisioning_service.h:118-123 | Tries exactly the stored pair |
| `Provisioning.Session` | src/net/provisioning_service.h:44-123 | Over any power-on session of ticks and submissions, between calls the state is portal or operational with the radios to match, never both; the stored pair is the earlier one or one that joined; the contents the store goes through are exactly those of the submissions stored |
| `Indicator.IndicatorController.SetStatus` | src/domain/indicator_controller.h:31-33 | A real change restarts the phase and clears the cache, leaving the sink alone |
| `Indicator.IndicatorController.SetResetProgress` | src/domain/indicator_controller.h:44-48 | Overrides the pattern, guarding against a zero total |
| `Indicator.IndicatorController.ClearResetProgress` | src/domain/indicator_controller.h:49-49 | Ends the override and nothing else |
| `Indicator.IndicatorController.Tick` | src/domain/indicator_controller.h:52-57 | The demanded level goes to the sink only if it differs from the cache |
| `Indicator.IndicatorController.DriveLed` | src/domain/indicator_controller.h:100-102 | The write suppression |
| `Indicator.LampExactly` | src/domain/indicator_controller.h:31-102 | Over every history: when exactly the cached level is on, and when exactly the sink is lit beyond it |
| `Indicator.SinkAgreesExactly` | src/domain/indicator_controller.h:94-102 | After a tick the sink shows the demanded level, except exactly when off is demanded and the cache was cleared while lit with no tick demanding on since |
| `Indicator.PromptTicksAgree` | src/domain/indicator_controller.h:94-102 | If the first tick after every status change comes within half its blink period, the sink agrees after every tick |
| `Indicator.LateTickLeavesLedLit` | src/domain/indicator_controller.h:31-33 | A late tick leaves the LED lit, and a prompt one after it does not repair it |
| `Indicator.ResetPeriodBounds` | src/domain/indicator_controller.h:77-83 | The reset blink period lies between 86 and 600 ms until completion, then solid, even when the product overflows |
| `Indicator.StatusPatterns` | src/domain/indicator_controller.h:61-73 | The pattern of every status in milliseconds since its phase began |
| `Indicator.ResetPattern` | src/domain/indicator_controller.h:77-83 | At q whole percent of a hold the LED blinks with a period of 600 - 5.2 q ms, rounded up, whatever the status |
| `Indicator.StatusIsLastSet` | src/domain/indicator_controller.h:31-33 | Over every history the status is the one set last |
| `Indicator.OverrideIsLast` | src/domain/indicator_controller.h:44-49 | Over every history the reset override is on iff the latest of report and clearing is a report, and it shows that report |
| `Indicator.SpeedsUpExactly` | src/domain/indicator_controller.h:77-83 | The blink never slows down during a hold iff the total is at most 42949673 ms, or at least 4294967293 ms where every wrapped percentage is zero |

## Left out

- Provisioning.Session: at most one submission arrives per tick; enrollment's own network exchange is a yes or no of the environment; `begin` is called once per boot with the radios down, as the composition root does, starting the access point succeeds, and a failed join leaves the station down.
- OtaRuns.OnlyProvenImagesRun: signature verification is an arbitrary predicate on the staged bytes and the signature, an image reports the version it was announced with, a rollback boots whatever the other slot holds (no check of its own by the boot loader is assumed), and the pending mark's writes succeed; the driver that evaluates the window only while Wi-Fi is operational is not modelled.
- Backoffs.OutageIsSpaced: assumes a configuration whose products and sums fit 32 bits, base at most max, at most 100 percent, and ticks within 2^31 ms of the schedule, beyond which the signed comparison itself is wrong.
- Publishing.MqttService.DrainPublishes: every publish succeeds, and a push and a whole drain are atomic; the unsynchronised access to this queue from two tasks is not modelled.
- Publishing.MqttService.OnMessage: what the update and confirm handlers do with their messages is modelled by the manifest parser and the update service, not wired to the router.
- ControlLoops.ControlLoop.Tick: a cycle's drain is modelled without interleaved pushes; interleaving is the subject of the cross-task module.
- Touch.TouchInput.Poll: the calls on the touch sink are returned in order and delivered to the coordinator right after the poll; the coordinator never calls back into the engine. The debounced-level query is not modelled.
- Coordination.FanOutStateChange.Add: listeners are a closed set of two kinds, persisting and recording, where the source has an interface; recorders stand for the event log, the serial trace and the publish queue.
- Coordination.ControlCoordinator.Submit: a command kind outside the enumeration and a restore policy outside it cannot be expressed.
- Persistence.KvStore.SetBlob: a write succeeds as a whole or not at all; the flash database below it, its wear and torn sectors are not modelled. A stored record longer than 12 bytes is read as its first 12.
- Crc16.Compute: 16-bit words are lists of bits, most significant first, and the machine's shift, mask and exclusive-or are operations on them.
- Texts are sequences of characters standing for bytes; a C string is the text before its terminator, so a form body or topic holds no terminator.
- StoredPairs.StoredPairRoundTrip: stored strings are cut at the reader's buffer if they lack a terminator.
- What a factory reset then does to the store; its request and its LED feedback are modelled.
- Device profiles, pin maps, active level of pads and relays, backlight and PWM: constant tables and single branches. Every present channel has a pad, as the touch source's own start-up check demands.
- Logger, log codec and log ring: field copies beside the queue already proved.
- Wi-Fi, TLS, HTTP, SNTP, MQTT client, flash database and scheduler implementations, and all timing, heap and stack budgets.
