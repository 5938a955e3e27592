/** The device over any run of updates, power cuts during updates, restarts and health verdicts. */
module OtaRuns {
  import opened Wrappers
  import opened Bytes
  import opened OtaTypes
  import opened OtaPipeline
  import opened Persistence

  /** What stays the same over a run: the verifier, the profile and the image the device started with. */
  datatype Device = Device(verify: (seq<byte>, string) -> bool, profile: Profile, initial: Firmware)

  /** An update that runs to its end; one cut off by a power failure after some of its steps; a restart;
      a confirming verdict; an expired window; and one cut off between clearing its mark and rolling
      back. */
  datatype Event =
    | Update(m: OtaManifest, env: Env)
    | Cut(m: OtaManifest, env: Env, at: nat)
    | Restart
    | HealthOk
    | HealthExpired
    | ExpiryCut

  datatype World = World(flash: Flash, pending: bool)

  // ----- Updates, step by step -----

  function Passes(d: Device, w: World, m: OtaManifest): bool {
    m.valid && Precheck(d.profile, w.flash.active.version, m).Ok?
  }

  function OutcomeAt(d: Device, w: World, m: OtaManifest, env: Env): OtaResult {
    Outcome(d.verify, d.profile, w.flash.active.version, m, env)
  }

  function Worlds(fs: seq<Flash>, pending: bool): (ws: seq<World>)
    ensures |ws| == |fs|
  {
    seq(|fs|, i requires 0 <= i < |fs| => World(fs[i], pending))
  }

  /** The worlds an update that passed the precheck goes through: the slot filling up, then either the
      commit and the two writes of its mark, or the erased slot. */
  function Stages(d: Device, w: World, m: OtaManifest, env: Env): (ws: seq<World>)
    ensures |ws| >= 2
  {
    var staged := Flash(w.flash.active, Some(Staged(m, env)), true);
    Worlds(DownloadFlashes(w.flash.active, m, env), w.pending)
      + if OutcomeAt(d, w, m, env).Ok? then [World(staged, w.pending), World(staged, true), World(staged, true)]
        else [World(Flash(w.flash.active, None, false), w.pending)]
  }

  /** The stages are the moments that Apply goes through, over a store that takes writes. */
  lemma StagesAreMoments(d: Device, w: World, m: OtaManifest, env: Env, blobs: Blobs)
    requires Passes(d, w, m) && w.pending == Guarded(blobs)
    ensures var ss, r := Stages(d, w, m, env), OutcomeAt(d, w, m, env);
            var ms := UpdateMoments(w.flash.active, m, env, r, blobs, true);
            && |ss| == |ms|
            && forall i :: 0 <= i < |ss| ==> ss[i] == World(ms[i].flash, Guarded(ms[i].blobs))
  {
    hide Concat, Downloads, Precheck, DownloadFlashes;
    var fs, n := DownloadFlashes(w.flash.active, m, env), |DownloadFlashes(w.flash.active, m, env)|;
    var staged := Flash(w.flash.active, Some(Staged(m, env)), true);
    var ss, r := Stages(d, w, m, env), OutcomeAt(d, w, m, env);
    var ms := UpdateMoments(w.flash.active, m, env, r, blobs, true);
    CutDuringCommitment(staged, Staged(m, env), blobs, true, m.version);
    forall i | 0 <= i < |ss| ensures ss[i] == World(ms[i].flash, Guarded(ms[i].blobs)) {
      if i >= n && r.Ok? {
        assert ms[i] == Commitment(staged, blobs, true, m.version)[i - n];
      }
    }
  }

  /** How far a started update gets: to its last stage, or to the one the power failed at. */
  function Reached(d: Device, w: World, e: Event): World
    requires e.Update? || e.Cut?
  {
    var ss := Stages(d, w, e.m, e.env);
    if e.Cut? && e.at < |ss| then ss[e.at] else ss[|ss| - 1]
  }

  /** One event. A started update ends in a boot from the stage it reached: if it was accepted it reboots
      itself, and if it failed a boot changes nothing. An expired health window goes back to the image in
      the slot, if there is one. */
  function AfterEvent(d: Device, w: World, e: Event): World {
    match e
    case Update(m, env) => if Passes(d, w, m) then Boot(Reached(d, w, e)) else w
    case Cut(m, env, at) => if Passes(d, w, m) then Boot(Reached(d, w, e)) else Boot(w)
    case Restart => Boot(w)
    case HealthOk => World(w.flash, false)
    case HealthExpired => if w.pending then World(Booted(w.flash.(switching := true)), false) else w
    case ExpiryCut => Boot(World(w.flash, false))
  }

  function Boot(w: World): World { World(Booted(w.flash), w.pending) }

  /** An update that runs to its end does what Apply does, followed by the reboot if it was accepted. */
  lemma UpdateIsApplied(d: Device, w: World, m: OtaManifest, env: Env)
    ensures var r := OutcomeAt(d, w, m, env);
            var f := Updated(w.flash, r, m, env);
            AfterEvent(d, w, Update(m, env)) == if r.Ok? then World(Booted(f), true) else World(f, w.pending)
  {
    hide Downloads, Concat, DownloadFlashes;
  }

  function AfterEvents(d: Device, es: seq<Event>, n: nat): World
    requires n <= |es|
  {
    if n == 0 then World(Flash(d.initial, None, false), false)
    else AfterEvent(d, AfterEvents(d, es, n - 1), es[n - 1])
  }

  /** The image running after the first n events. */
  function Active(d: Device, es: seq<Event>, n: nat): Firmware
    requires n <= |es|
  {
    AfterEvents(d, es, n).flash.active
  }

  // ----- What an event is, in its run -----

  /** Event i is an update, cut or not, that passes the precheck and so touches the writer. */
  predicate Starts(d: Device, es: seq<Event>, i: nat)
    requires i < |es|
  {
    (es[i].Update? || es[i].Cut?) && Passes(d, AfterEvents(d, es, i), es[i].m)
  }

  function StageOf(d: Device, es: seq<Event>, i: nat): World
    requires i < |es| && Starts(d, es, i)
  {
    Reached(d, AfterEvents(d, es, i), es[i])
  }

  /** Event i gets as far as its commit: the next boot runs the new image. */
  predicate Switches(d: Device, es: seq<Event>, i: nat)
    requires i < |es|
  {
    Starts(d, es, i) && StageOf(d, es, i).flash.switching
  }

  /** Event i gets as far as its mark: the next boot opens a health window. */
  predicate Marks(d: Device, es: seq<Event>, i: nat)
    requires i < |es|
  {
    Starts(d, es, i) && Reached(d, AfterEvents(d, es, i).(pending := false), es[i]).pending
  }

  /** Event i is cut off while the slot holds what was written so far. */
  predicate LeavesRemains(d: Device, es: seq<Event>, i: nat)
    requires i < |es|
  {
    Starts(d, es, i) && !StageOf(d, es, i).flash.switching && StageOf(d, es, i).flash.slot.Some?
  }

  /** An update that runs to its end with success switches and marks. */
  lemma AcceptedMarks(d: Device, es: seq<Event>, i: nat)
    requires i < |es| && es[i].Update? && OutcomeAt(d, AfterEvents(d, es, i), es[i].m, es[i].env).Ok?
    ensures Switches(d, es, i) && Marks(d, es, i)
  {
    hide Downloads, Concat, DownloadFlashes;
  }

  /** The three kinds of stage. */
  lemma StageKinds(d: Device, w: World, e: Event)
    requires e.Update? || e.Cut?
    ensures var s := Reached(d, w, e);
            && s.flash.active == w.flash.active
            && (s.flash.switching ==> s.flash.slot == Some(Staged(e.m, e.env)) && OutcomeAt(d, w, e.m, e.env).Ok?)
            && (!s.flash.switching ==> s.pending == w.pending)
            && (!s.flash.switching && s.flash.slot.Some? ==> e.Cut? && s.flash.slot.value.version == e.m.version)
  {
    hide Concat, Downloads;
    var ss, fs := Stages(d, w, e.m, e.env), DownloadFlashes(w.flash.active, e.m, e.env);
    forall i | 0 <= i < |fs|
      ensures fs[i].active == w.flash.active && !fs[i].switching
      ensures fs[i].slot.Some? ==> fs[i].slot.value.version == e.m.version
    {
    }
    hide DownloadFlashes, Outcome;
  }

  /** The mark is set on the way or was there before. */
  lemma StageMark(d: Device, w: World, e: Event)
    requires e.Update? || e.Cut?
    ensures Reached(d, w, e).pending <==> w.pending || Reached(d, w.(pending := false), e).pending
    ensures Reached(d, w, e).flash == Reached(d, w.(pending := false), e).flash
  {
    hide Concat, Downloads, DownloadFlashes, Outcome;
  }

  predicate Verdict(e: Event) { e.HealthOk? || e.HealthExpired? || e.ExpiryCut? }

  ghost predicate NoVerdict(es: seq<Event>, i: nat, n: nat)
    requires n <= |es|
  {
    forall j :: i <= j < n ==> !Verdict(es[j])
  }

  ghost predicate NoStart(d: Device, es: seq<Event>, i: nat, n: nat)
    requires n <= |es|
  {
    forall j :: i <= j < n ==> !Starts(d, es, j)
  }

  /** Event k was the last to start in the first n. */
  ghost predicate LastStarted(d: Device, es: seq<Event>, k: nat, n: nat)
    requires k < n <= |es|
  {
    Starts(d, es, k) && NoStart(d, es, k + 1, n)
  }

  /** After n events the mark set by event k has had no verdict. */
  ghost predicate Awaiting(d: Device, es: seq<Event>, k: nat, n: nat)
    requires k < n <= |es|
  {
    Marks(d, es, k) && NoVerdict(es, k + 1, n)
  }

  ghost predicate SomeAwaiting(d: Device, es: seq<Event>, n: nat)
    requires n <= |es|
  {
    exists k :: 0 <= k < n && Awaiting(d, es, k, n)
  }

  // ----- The health window and the slot -----

  lemma {:induction false} LastStart(d: Device, es: seq<Event>, k: nat, n: nat) returns (j: nat)
    requires k <= n <= |es| && !NoStart(d, es, k, n)
    ensures k <= j < n && LastStarted(d, es, j, n)
  {
    hide Starts;
    j := n - 1;
    if !Starts(d, es, j) {
      j := LastStart(d, es, k, n - 1);
    }
  }

  /** No run leaves the flash about to switch: every commit is followed by a boot. */
  lemma {:induction false} NeverSwitching(d: Device, es: seq<Event>, n: nat)
    requires n <= |es|
    ensures !AfterEvents(d, es, n).flash.switching
  {
    hide Passes, Reached;
    if n > 0 {
      NeverSwitching(d, es, n - 1);
      var w, e := AfterEvents(d, es, n - 1), es[n - 1];
      if e.Update? || e.Cut? {
        StageKinds(d, w, e);
      }
    }
  }

  /** A health window is open exactly if a mark set by an update has had no verdict. */
  lemma {:induction false} PendingExactly(d: Device, es: seq<Event>, n: nat)
    requires n <= |es|
    ensures AfterEvents(d, es, n).pending <==> SomeAwaiting(d, es, n)
  {
    hide AfterEvents, Marks, SomeAwaiting;
    if n == 0 {
      NoneAwaiting(d, es);
    } else {
      PendingExactly(d, es, n - 1);
      PendingStep(d, es, n - 1);
      AwaitingStep(d, es, n - 1);
    }
  }

  lemma NoneAwaiting(d: Device, es: seq<Event>)
    ensures !AfterEvents(d, es, 0).pending && !SomeAwaiting(d, es, 0)
  {
  }

  lemma PendingStep(d: Device, es: seq<Event>, n: nat)
    requires n < |es|
    ensures AfterEvents(d, es, n + 1).pending
            <==> Marks(d, es, n) || (AfterEvents(d, es, n).pending && !Verdict(es[n]))
  {
    hide Reached, Passes, Booted;
    var w, e := AfterEvents(d, es, n), es[n];
    if e.Update? || e.Cut? {
      StageMark(d, w, e);
    }
  }

  lemma AwaitingStep(d: Device, es: seq<Event>, n: nat)
    requires n < |es|
    ensures SomeAwaiting(d, es, n + 1) <==> Marks(d, es, n) || (SomeAwaiting(d, es, n) && !Verdict(es[n]))
  {
    hide Marks;
    if SomeAwaiting(d, es, n + 1) {
      var k :| 0 <= k < n + 1 && Awaiting(d, es, k, n + 1);
      assert k < n ==> Awaiting(d, es, k, n);
    }
    if Marks(d, es, n) {
      assert Awaiting(d, es, n, n + 1);
    } else if SomeAwaiting(d, es, n) && !Verdict(es[n]) {
      var k :| 0 <= k < n && Awaiting(d, es, k, n);
      assert Awaiting(d, es, k, n + 1);
    }
  }

  lemma QuietStep(d: Device, es: seq<Event>, n: nat)
    requires n < |es| && !Starts(d, es, n) && (!es[n].HealthExpired? || !AfterEvents(d, es, n).pending)
    ensures AfterEvents(d, es, n + 1).flash == AfterEvents(d, es, n).flash
  {
    hide Passes, Reached;
    NeverSwitching(d, es, n);
  }

  /** While nothing starts and no verdict comes, the flash stays as it is. */
  lemma {:induction false} QuietRun(d: Device, es: seq<Event>, k: nat, n: nat)
    requires k <= n <= |es| && NoVerdict(es, k, n) && NoStart(d, es, k, n)
    ensures AfterEvents(d, es, n).flash == AfterEvents(d, es, k).flash
  {
    hide Starts, AfterEvents;
    if k < n {
      QuietRun(d, es, k, n - 1);
      QuietStep(d, es, n - 1);
    }
  }

  /** What a started event leaves in flash. */
  lemma StartLeaves(d: Device, es: seq<Event>, i: nat)
    requires i < |es| && Starts(d, es, i)
    ensures var s, f := StageOf(d, es, i), AfterEvents(d, es, i + 1).flash;
            if Switches(d, es, i) then f == Flash(Staged(es[i].m, es[i].env), Some(Active(d, es, i)), false)
            else f == Flash(Active(d, es, i), s.flash.slot, false)
  {
    hide Reached, Staged;
    StageKinds(d, AfterEvents(d, es, i), es[i]);
  }

  /** An open window means the last update to start has had no verdict. */
  lemma OpenSinceLast(d: Device, es: seq<Event>, n: nat) returns (j: nat)
    requires n <= |es| && AfterEvents(d, es, n).pending
    ensures j < n && LastStarted(d, es, j, n) && NoVerdict(es, j + 1, n)
    ensures AfterEvents(d, es, n).flash == AfterEvents(d, es, j + 1).flash
  {
    PendingExactly(d, es, n);
    var k :| 0 <= k < n && Awaiting(d, es, k, n);
    hide AfterEvents;
    assert Starts(d, es, k);
    j := LastStart(d, es, k, n);
    hide Starts;
    QuietRun(d, es, j + 1, n);
  }

  // ----- Which images run -----

  /** The initial image, or one that some update staged, found genuine and committed. */
  ghost predicate Proven(d: Device, es: seq<Event>, n: nat, fw: Firmware)
    requires n <= |es|
  {
    fw == d.initial || exists i :: 0 <= i < n && Committed(d, es[i], fw)
  }

  ghost predicate Committed(d: Device, e: Event, fw: Firmware) {
    && (e.Update? || e.Cut?) && fw == Staged(e.m, e.env) && e.m.valid && Downloads(e.env)
    && d.verify(fw.bytes, e.m.sig) && e.env.commitOk
  }

  /** The window expires at event i while the slot holds the remains that the cut event j left: the window
      of an earlier update, kept open by its mark. */
  ghost predicate BootsRemains(d: Device, es: seq<Event>, j: nat, i: nat)
    requires j < i < |es|
  {
    && es[i].HealthExpired? && AfterEvents(d, es, i).pending
    && LeavesRemains(d, es, j) && LastStarted(d, es, j, i) && NoVerdict(es, j + 1, i)
  }

  function Remains(d: Device, es: seq<Event>, j: nat): Firmware
    requires j < |es| && LeavesRemains(d, es, j)
  {
    StageOf(d, es, j).flash.slot.value
  }

  lemma ProvenStays(d: Device, es: seq<Event>, n: nat, fw: Firmware)
    requires n < |es| && Proven(d, es, n, fw)
    ensures Proven(d, es, n + 1, fw)
  {
    hide Committed;
  }

  lemma SwitchedIsProven(d: Device, es: seq<Event>, i: nat)
    requires i < |es| && Switches(d, es, i)
    ensures Proven(d, es, i + 1, Staged(es[i].m, es[i].env))
  {
    hide Reached, Concat, Downloads, Precheck;
    StageKinds(d, AfterEvents(d, es, i), es[i]);
    assert Committed(d, es[i], Staged(es[i].m, es[i].env));
  }

  /** The slot holds nothing, a proven image, or what the last event to start left when it was cut. */
  ghost predicate SlotKnown(d: Device, es: seq<Event>, n: nat)
    requires n <= |es|
  {
    var slot := AfterEvents(d, es, n).flash.slot;
    || slot.None?
    || Proven(d, es, n, slot.value)
    || exists j :: 0 <= j < n && LeftInSlot(d, es, j, n)
  }

  ghost predicate LeftInSlot(d: Device, es: seq<Event>, j: nat, n: nat)
    requires j < n <= |es|
  {
    LeavesRemains(d, es, j) && LastStarted(d, es, j, n) && AfterEvents(d, es, n).flash.slot == Some(Remains(d, es, j))
  }

  lemma BootedRemains(d: Device, es: seq<Event>, j: nat, i: nat)
    requires j < i < |es| && BootsRemains(d, es, j, i)
    ensures AfterEvents(d, es, i + 1).flash == Flash(Remains(d, es, j), Some(Active(d, es, i)), false)
  {
    StartLeaves(d, es, j);
    NeverSwitching(d, es, i);
    hide Starts, StageOf;
    QuietRun(d, es, j + 1, i);
  }

  /** Only proven images were booted by the expiries before event n. */
  ghost predicate ExpiriesProven(d: Device, es: seq<Event>, n: nat)
    requires n <= |es|
  {
    forall j, i :: 0 <= j < i < n && BootsRemains(d, es, j, i) ==> Proven(d, es, i, Remains(d, es, j))
  }

  lemma SlotStep(d: Device, es: seq<Event>, n: nat)
    requires n < |es| && SlotKnown(d, es, n) && Proven(d, es, n, Active(d, es, n)) && ExpiriesProven(d, es, n + 1)
    ensures SlotKnown(d, es, n + 1) && Proven(d, es, n + 1, Active(d, es, n + 1))
  {
    var f, g := AfterEvents(d, es, n).flash, AfterEvents(d, es, n + 1).flash;
    ProvenStays(d, es, n, f.active);
    if f.slot.Some? && Proven(d, es, n, f.slot.value) {
      ProvenStays(d, es, n, f.slot.value);
    }
    if Starts(d, es, n) {
      StartLeaves(d, es, n);
      if Switches(d, es, n) {
        SwitchedIsProven(d, es, n);
      } else if g.slot.Some? {
        assert LeftInSlot(d, es, n, n + 1);
      }
    } else if es[n].HealthExpired? && AfterEvents(d, es, n).pending {
      ExpiryStep(d, es, n);
    } else {
      QuietStep(d, es, n);
      hide Starts, AfterEvents, LeavesRemains;
      if j :| 0 <= j < n && LeftInSlot(d, es, j, n) {
        assert LeftInSlot(d, es, j, n + 1);
      }
    }
  }

  lemma ExpiryStep(d: Device, es: seq<Event>, n: nat)
    requires n < |es| && SlotKnown(d, es, n) && Proven(d, es, n, Active(d, es, n)) && ExpiriesProven(d, es, n + 1)
    requires es[n].HealthExpired? && AfterEvents(d, es, n).pending
    ensures SlotKnown(d, es, n + 1) && Proven(d, es, n + 1, Active(d, es, n + 1))
  {
    var f := AfterEvents(d, es, n).flash;
    NeverSwitching(d, es, n);
    ProvenStays(d, es, n, f.active);
    assert AfterEvents(d, es, n + 1).flash
        == if f.slot.Some? then Flash(f.slot.value, Some(f.active), false) else f;
    if f.slot.Some? {
      var k := OpenSinceLast(d, es, n);
      hide AfterEvents, LeavesRemains, Starts, Proven;
      if j :| 0 <= j < n && LeftInSlot(d, es, j, n) {
        SameLast(d, es, j, k, n);
        assert BootsRemains(d, es, j, n);
      }
      ProvenStays(d, es, n, f.slot.value);
    }
  }

  lemma SameLast(d: Device, es: seq<Event>, j: nat, k: nat, n: nat)
    requires j < n <= |es| && k < n && LastStarted(d, es, j, n) && LastStarted(d, es, k, n)
    ensures j == k
  {
    hide Starts;
  }

  lemma {:induction false} RunsProven(d: Device, es: seq<Event>, n: nat)
    requires n <= |es| && ExpiriesProven(d, es, n)
    ensures SlotKnown(d, es, n) && Proven(d, es, n, Active(d, es, n))
  {
    if n > 0 {
      hide AfterEvents, BootsRemains, Proven, SlotKnown;
      assert ExpiriesProven(d, es, n - 1);
      RunsProven(d, es, n - 1);
      SlotStep(d, es, n - 1);
    }
  }

  /** Which images run, over every run of updates, power cuts at any of their steps, restarts and verdicts:
      every running image was the initial one or one whose staged bytes verified in the update that
      committed it, exactly if no window expired while the slot held the unproven remains of a cut
      update. */
  lemma OnlyProvenImagesRun(d: Device, es: seq<Event>, n: nat)
    requires n <= |es|
    ensures (forall k :: 0 <= k <= n ==> Proven(d, es, k, Active(d, es, k))) <==> ExpiriesProven(d, es, n)
  {
    hide Proven, LeavesRemains;
    if ExpiriesProven(d, es, n) {
      forall k | 0 <= k <= n ensures Proven(d, es, k, Active(d, es, k)) {
        assert ExpiriesProven(d, es, k);
        RunsProven(d, es, k);
      }
    } else {
      var j, i :| 0 <= j < i < n && BootsRemains(d, es, j, i) && !Proven(d, es, i, Remains(d, es, j));
      UnprovenRuns(d, es, j, i);
    }
  }

  /** An image that was not proven before an expiry is not proven by it. */
  lemma UnprovenRuns(d: Device, es: seq<Event>, j: nat, i: nat)
    requires j < i < |es| && BootsRemains(d, es, j, i) && !Proven(d, es, i, Remains(d, es, j))
    ensures !Proven(d, es, i + 1, Active(d, es, i + 1))
  {
    BootedRemains(d, es, j, i);
    assert !Committed(d, es[i], Remains(d, es, j));
    hide Committed, LeavesRemains;
  }

  /** Without a power cut during an update only proven images run. */
  lemma UncutRunsAreProven(d: Device, es: seq<Event>, n: nat)
    requires n <= |es| && forall i :: 0 <= i < n ==> !es[i].Cut?
    ensures Proven(d, es, n, Active(d, es, n))
  {
    forall j, i | 0 <= j < i < n && BootsRemains(d, es, j, i) ensures false {
      StageKinds(d, AfterEvents(d, es, j), es[j]);
    }
    hide BootsRemains, Proven, LeavesRemains;
    RunsProven(d, es, n);
  }

  ghost predicate NoDowngrade(es: seq<Event>, k: nat, n: nat)
    requires n <= |es|
  {
    forall i :: k <= i < n && (es[i].Update? || es[i].Cut?) ==> !es[i].m.allowDowngrade
  }

  lemma StartsNewer(d: Device, es: seq<Event>, i: nat)
    requires i < |es| && Starts(d, es, i) && !es[i].m.allowDowngrade
    ensures Rank(es[i].m.version) > Rank(Active(d, es, i).version)
  {
    NewerIsRank(es[i].m.version, Active(d, es, i).version);
  }

  /** Without the downgrade switch and rollbacks, the running version never falls, and every update that
      gets as far as its commit strictly raises it, in the strict total order of versions. */
  lemma {:induction false} VersionsClimb(d: Device, es: seq<Event>, k: nat, n: nat)
    requires k <= n <= |es| && NoDowngrade(es, k, n) && forall i :: k <= i < n ==> !es[i].HealthExpired?
    ensures Rank(Active(d, es, n).version) >= Rank(Active(d, es, k).version)
    ensures k < n && Switches(d, es, k) ==> Rank(Active(d, es, n).version) > Rank(Active(d, es, k).version)
  {
    hide AfterEvents, Starts, Rank, StageOf;
    if k < n {
      VersionsClimb(d, es, k, n - 1);
      if Starts(d, es, n - 1) {
        StartIsUpdate(d, es, n - 1);
        StartsNewer(d, es, n - 1);
        StartLeaves(d, es, n - 1);
      } else {
        QuietStep(d, es, n - 1);
      }
    }
  }

  lemma StartIsUpdate(d: Device, es: seq<Event>, i: nat)
    requires i < |es| && Starts(d, es, i)
    ensures es[i].Update? || es[i].Cut?
  {
  }

  // ----- What an expired window brings back -----

  /** The image running after an expired window. */
  function Expired(d: Device, es: seq<Event>, n: nat): Firmware
    requires n <= |es|
  {
    AfterEvent(d, AfterEvents(d, es, n), HealthExpired).flash.active
  }

  /** What an expired window leads to, over every run. With no window open, nothing changes. With one
      open, the last update to start decides: if it got as far as its commit, the image it replaced comes
      back; if it was cut while the slot was filling, its remains boot; if it failed, or was cut with the
      slot erased, nothing changes. */
  lemma ExpiryExactly(d: Device, es: seq<Event>, n: nat) returns (j: nat)
    requires n <= |es|
    ensures !SomeAwaiting(d, es, n) ==> Expired(d, es, n) == Active(d, es, n)
    ensures SomeAwaiting(d, es, n) ==>
              && j < n && LastStarted(d, es, j, n) && NoVerdict(es, j + 1, n)
              && Expired(d, es, n) == (if Switches(d, es, j) then Active(d, es, j)
                                       else if LeavesRemains(d, es, j) then Remains(d, es, j)
                                       else Active(d, es, n))
  {
    PendingExactly(d, es, n);
    j := 0;
    if AfterEvents(d, es, n).pending {
      j := OpenSinceLast(d, es, n);
      StartLeaves(d, es, j);
      hide AfterEvents, Starts, StageOf, SomeAwaiting;
    }
  }

  /** A marked update, then any events without a verdict or a downgrade switch: an expired window brings
      back the image the update replaced exactly if none of them passed the precheck. */
  lemma UndoneExactly(d: Device, es: seq<Event>, k: nat, n: nat)
    requires k < n <= |es| && Awaiting(d, es, k, n) && Switches(d, es, k) && NoDowngrade(es, k, n)
    ensures Expired(d, es, n) == Active(d, es, k) <==> NoStart(d, es, k + 1, n)
  {
    StartIsUpdate(d, es, k);
    hide AfterEvents, Marks, Rank, Active, Expired, StageOf, Starts;
    assert SomeAwaiting(d, es, n);
    var j := ExpiryExactly(d, es, n);
    if NoStart(d, es, k + 1, n) {
      SameLast(d, es, j, k, n);
    } else {
      LaterStart(d, es, j, k, n);
      VersionsClimb(d, es, k, j);
      VersionsClimb(d, es, k, n);
      StartIsUpdate(d, es, j);
      StartsNewer(d, es, j);
      if LeavesRemains(d, es, j) {
        RemainsVersion(d, es, j);
      }
    }
  }

  lemma LaterStart(d: Device, es: seq<Event>, j: nat, k: nat, n: nat)
    requires k < n <= |es| && j < n && LastStarted(d, es, j, n) && !NoStart(d, es, k + 1, n)
    ensures k < j
  {
    hide Starts;
  }

  lemma RemainsVersion(d: Device, es: seq<Event>, j: nat)
    requires j < |es| && LeavesRemains(d, es, j)
    ensures Remains(d, es, j).version == es[j].m.version
  {
    StageKinds(d, AfterEvents(d, es, j), es[j]);
  }

  /** An update confirmed in its window stays: no later expiry moves it before a further update is marked. */
  lemma ConfirmedStays(d: Device, es: seq<Event>, c: nat, n: nat)
    requires c < n <= |es| && es[c].HealthOk? && forall i :: c < i < n ==> !Marks(d, es, i)
    ensures Expired(d, es, n) == Active(d, es, n)
  {
    assert !Marks(d, es, c) && Verdict(es[c]);
    hide AfterEvents, Marks;
    var j := ExpiryExactly(d, es, n);
  }

  // ----- Concrete runs -----

  const OLD := Firmware([0], FwVersion(1, 0, 0))

  /** A device that accepts every image but the one-byte image [9]. */
  const SWITCH := Device((bytes, sig) => bytes != [9], Profile("sw", 1), OLD)

  const GOOD := Env(true, [[1]], None, true, true, true)

  function Announced(patch: U16): OtaManifest {
    OtaManifest("u", FwVersion(1, 0, patch), "s", "sw", 1, 1, false, true)
  }

  lemma FirstUpdate(es: seq<Event>)
    requires |es| > 0 && es[0] == Update(Announced(1), GOOD)
    ensures Starts(SWITCH, es, 0) && Marks(SWITCH, es, 0) && Switches(SWITCH, es, 0)
    ensures AfterEvents(SWITCH, es, 1) == World(Flash(Firmware([1], FwVersion(1, 0, 1)), Some(OLD), false), true)
  {
    var w := World(Flash(OLD, None, false), false);
    assert AfterEvents(SWITCH, es, 0) == w;
    assert AfterEvents(SWITCH, es, 1) == AfterEvent(SWITCH, AfterEvents(SWITCH, es, 0), es[0]);
    FirstAccepted();
    hide AfterEvent, Outcome, Staged, Stages;
    AcceptedMarks(SWITCH, es, 0);
    UpdateIsApplied(SWITCH, w, Announced(1), GOOD);
  }

  lemma FirstAccepted()
    ensures Outcome(SWITCH.verify, SWITCH.profile, OLD.version, Announced(1), GOOD).Ok?
    ensures Staged(Announced(1), GOOD) == Firmware([1], FwVersion(1, 0, 1))
  {
    OneChunk([1]);
  }

  lemma OneChunk(c: seq<byte>)
    ensures Concat([c]) == c
  {
    assert [c][..0] == [];
  }

  /** An accepted update, a second one whose download breaks off inside the window, then the window
      expires: the unconfirmed image keeps running, with no window open. */
  lemma BrokenDownloadStrandsUpdate()
    ensures var broken := Env(true, [[2]], None, false, true, true);
            var es := [Update(Announced(1), GOOD), Update(Announced(2), broken), HealthExpired];
            Active(SWITCH, es, 3) == Staged(Announced(1), GOOD) != OLD && !AfterEvents(SWITCH, es, 3).pending
  {
    var broken := Env(true, [[2]], None, false, true, true);
    var es := [Update(Announced(1), GOOD), Update(Announced(2), broken), HealthExpired];
    OneChunk([1]);
    FirstUpdate(es);
    UpdateIsApplied(SWITCH, AfterEvents(SWITCH, es, 1), Announced(2), broken);
    hide Stages;
    assert AfterEvents(SWITCH, es, 2) == AfterEvent(SWITCH, AfterEvents(SWITCH, es, 1), es[1]);
    assert AfterEvents(SWITCH, es, 3) == AfterEvent(SWITCH, AfterEvents(SWITCH, es, 2), HealthExpired);
  }

  /** An accepted update, a second one cut off after its first chunk, then the first one's window expires:
      the device boots an image its own verifier rejects. */
  lemma CutDownloadBoots()
    ensures var cut := Env(true, [[9], [8]], None, true, true, true);
            var es := [Update(Announced(1), GOOD), Cut(Announced(2), cut, 1), HealthExpired];
            && Active(SWITCH, es, 3) == Firmware([9], FwVersion(1, 0, 2))
            && (forall sig :: !SWITCH.verify(Active(SWITCH, es, 3).bytes, sig))
            && !Proven(SWITCH, es, 3, Active(SWITCH, es, 3))
  {
    var cut := Env(true, [[9], [8]], None, true, true, true);
    var es := [Update(Announced(1), GOOD), Cut(Announced(2), cut, 1), HealthExpired];
    FirstUpdate(es);
    var w := AfterEvents(SWITCH, es, 1);
    assert cut.chunks[..1] == [[9]];
    OneChunk([9]);
    assert DownloadFlashes(w.flash.active, Announced(2), cut)[1] == Partial(w.flash.active, Announced(2), cut, 1);
    assert Reached(SWITCH, w, es[1]) == World(Partial(w.flash.active, Announced(2), cut, 1), true);
    hide Stages;
    assert AfterEvents(SWITCH, es, 2) == AfterEvent(SWITCH, w, es[1]);
    assert AfterEvents(SWITCH, es, 3) == AfterEvent(SWITCH, AfterEvents(SWITCH, es, 2), HealthExpired);
  }

  /** A store that refuses writes: the update reboots into the new image with no mark for a window. */
  method RefusingStoreRebootsUnmarked() returns (service: OtaService)
    ensures RebootNow in service.calls && !Guarded(service.kv.blobs)
    ensures Booted(service.flash).active != OLD
  {
    var kv := new KvStore(map[]);
    kv.writable := false;
    service := new OtaService(SWITCH.verify, SWITCH.profile, OLD.version, kv, Flash(OLD, None, false));
    OneChunk([1]);
    var r := service.Apply(Announced(1), GOOD);
    assert r == Ok;
    hide Transfer;
    assert service.calls[|service.calls| - 1] == RebootNow;
  }
}
