/** The staged OTA update: precheck, download, verify before commit, and the health window of the next
    boot, over a device with a running image and a download slot. */
module OtaPipeline {
  import opened Wrappers
  import opened Bytes
  import opened OtaTypes
  import opened Persistence
  import opened Touch

  /** A firmware image: its bytes, and the version it was announced as and will report. */
  datatype Firmware = Firmware(bytes: seq<byte>, version: FwVersion)

  datatype Profile = Profile(family: string, channels: nat)

  datatype OtaResult = Ok | RejectHwMismatch | RejectDowngrade | RejectTooLarge | DownloadFailed
                     | VerifyFailed | CommitFailed | BadManifest

  /** The calls on the outside world, in order. */
  datatype Call = Begin(size: nat) | WriteChunk(data: seq<byte>) | Finish | Abort | Commit | Verify(good: bool)
                | MarkPending | RebootNow

  /** What the outside world does during one update: the chunks the server sends, the write that fails
      if any, and the other answers. */
  datatype Env = Env(beginOk: bool, chunks: seq<seq<byte>>, failingWrite: Option<nat>,
                     delivered: bool, finishOk: bool, commitOk: bool)

  /** The running image, the download slot, and whether the next boot runs the slot's image. */
  datatype Flash = Flash(active: Firmware, slot: Option<Firmware>, switching: bool)

  function Concat(chunks: seq<seq<byte>>): seq<byte> {
    if chunks == [] then [] else Concat(chunks[..|chunks| - 1]) + chunks[|chunks| - 1]
  }

  function Precheck(p: Profile, current: FwVersion, m: OtaManifest): (r: OtaResult)
    ensures r.Ok? || r.RejectHwMismatch? || r.RejectTooLarge? || r.RejectDowngrade?
  {
    if m.hwChannels != p.channels || m.hwFamily != p.family then RejectHwMismatch
    else if !SizeFits(m.sizeBytes) then RejectTooLarge
    else if !VersionAccepted(m.version, current, m.allowDowngrade) then RejectDowngrade
    else Ok
  }

  /** The image an update would stage. */
  function Staged(m: OtaManifest, env: Env): Firmware { Firmware(Concat(env.chunks), m.version) }

  predicate Downloads(env: Env) {
    env.beginOk && (env.failingWrite.Some? ==> env.failingWrite.value >= |env.chunks|) && env.delivered && env.finishOk
  }

  /** The outcome of an update, decided by the manifest, the verifier and the world. */
  function Outcome(verify: (seq<byte>, string) -> bool, p: Profile, current: FwVersion, m: OtaManifest, env: Env)
      : OtaResult
  {
    if !m.valid then BadManifest
    else if Precheck(p, current, m) != Ok then Precheck(p, current, m)
    else if !Downloads(env) then DownloadFailed
    else if !verify(Concat(env.chunks), m.sig) then VerifyFailed
    else if !env.commitOk then CommitFailed
    else Ok
  }

  /** The flash after an update: untouched if refused up front, the slot erased if anything failed
      later, and switching to the new image otherwise. */
  function Updated(f: Flash, r: OtaResult, m: OtaManifest, env: Env): Flash {
    if r.BadManifest? || r.RejectHwMismatch? || r.RejectTooLarge? || r.RejectDowngrade? then f
    else if r.Ok? then Flash(f.active, Some(Staged(m, env)), true)
    else Flash(f.active, None, false)
  }

  /** Flash and store at a moment of an update, as a power cut would leave them. */
  datatype Moment = Moment(flash: Flash, blobs: Blobs)

  /** The next boot opens a health window iff it finds the mark. */
  predicate Guarded(blobs: Blobs) { "ota_pending" in blobs && blobs["ota_pending"] == [1] }

  /** The store after each of the two writes of the pending mark. */
  function HalfMarked(blobs: Blobs, writable: bool): Blobs {
    if writable then blobs["ota_pending" := [1]] else blobs
  }

  function FullyMarked(blobs: Blobs, writable: bool, v: FwVersion): Blobs {
    if writable then blobs["ota_pending" := [1]]["ota_pending_ver" := VersionBytes(v)] else blobs
  }

  class OtaService {
    const verify: (seq<byte>, string) -> bool
    const profile: Profile
    const current: FwVersion
    const kv: KvStore
    var flash: Flash
    ghost var calls: seq<Call>
    ghost var moments: seq<Moment>

    constructor (verify: (seq<byte>, string) -> bool, profile: Profile, current: FwVersion, kv: KvStore, flash: Flash)
      ensures this.verify == verify && this.profile == profile && this.current == current && this.kv == kv
      ensures this.flash == flash && calls == [] && moments == []
    {
      this.verify, this.profile, this.current, this.kv := verify, profile, current, kv;
      this.flash, calls, moments := flash, [], [];
    }

    /** One update. The outside world is called only after the precheck passed; the image is committed
        only after its verification succeeded; every later failure ends by erasing the slot, with no
        reboot; a reboot comes only after the pending mark is written. */
    method Apply(m: OtaManifest, env: Env) returns (r: OtaResult)
      modifies this, kv
      ensures r == Outcome(verify, profile, current, m, env)
      ensures flash == Updated(old(flash), r, m, env)
      ensures calls == old(calls) + UpdateCalls(m, env, r)
      ensures kv.writable == old(kv.writable)
      ensures kv.blobs == if r.Ok? then FullyMarked(old(kv.blobs), kv.writable, m.version) else old(kv.blobs)
      ensures moments == old(moments) + UpdateMoments(old(flash).active, m, env, r, old(kv.blobs), kv.writable)
      // which manifests are let through to the writer, and what each failing test answers
      ensures calls != old(calls) <==>
              && m.valid && m.hwFamily == profile.family && m.hwChannels == profile.channels
              && 0 < m.sizeBytes <= 0xA6000
              && (m.allowDowngrade || Rank(m.version) > Rank(current))
      ensures r.BadManifest? <==> !m.valid
      ensures r.RejectHwMismatch? <==> m.valid && (m.hwFamily != profile.family || m.hwChannels != profile.channels)
      ensures r.RejectTooLarge? <==>
              && m.valid && m.hwFamily == profile.family && m.hwChannels == profile.channels
              && !(0 < m.sizeBytes <= 0xA6000)
      ensures r.RejectDowngrade? <==>
              && m.valid && m.hwFamily == profile.family && m.hwChannels == profile.channels
              && 0 < m.sizeBytes <= 0xA6000 && !m.allowDowngrade && Rank(m.version) <= Rank(current)
    {
      RefusalsExactly(verify, profile, current, m, env);
      TransferBegins(m, env);
      hide Rank;
      hide Precheck, Concat, Downloads, FullyMarked, Commitment, DownloadFlashes, Timeline;
      if !m.valid {
        return BadManifest;
      }
      r := Precheck(profile, current, m);
      if r != Ok {
        return;
      }
      var downloaded := DoDownload(m, env);
      hide Transfer;
      if !downloaded {
        EraseSlot();
        return DownloadFailed;
      }
      r := VerifyAndCommit(m, env);
    }

    /** The second half of an update: nothing is committed before the staged image is found genuine. */
    method VerifyAndCommit(m: OtaManifest, env: Env) returns (r: OtaResult)
      requires flash.slot == Some(Staged(m, env)) && !flash.switching
      modifies this`flash, this`calls, this`moments, kv
      ensures r == if !verify(Concat(env.chunks), m.sig) then VerifyFailed
                   else if !env.commitOk then CommitFailed else Ok
      ensures flash == if r.Ok? then Flash(old(flash).active, Some(Staged(m, env)), true)
                       else Flash(old(flash).active, None, false)
      ensures calls == old(calls) + ClosingCalls(r)
      ensures kv.writable == old(kv.writable)
      ensures kv.blobs == if r.Ok? then FullyMarked(old(kv.blobs), kv.writable, m.version) else old(kv.blobs)
      ensures moments == old(moments) + ClosingMoments(old(flash).active, m, env, r, old(kv.blobs), kv.writable)
    {
      hide Concat, FullyMarked, MarkMoments;
      var good := verify(Concat(env.chunks), m.sig);
      calls := calls + [Verify(good)];
      if !good {
        EraseSlot();
        return VerifyFailed;
      }
      calls := calls + [Commit];
      if !env.commitOk {
        EraseSlot();
        return CommitFailed;
      }
      flash := flash.(switching := true);
      moments := moments + [Moment(flash, kv.blobs)];
      MarkAwaitingConfirm(m.version);
      calls := calls + [RebootNow];
      return Ok;
    }

    /** Streams the image into the erased slot, chunk by chunk. */
    method DoDownload(m: OtaManifest, env: Env) returns (ok: bool)
      modifies this`flash, this`calls, this`moments
      ensures ok == Downloads(env)
      ensures flash.active == old(flash).active && !flash.switching
      ensures ok ==> flash.slot == Some(Staged(m, env))
      ensures calls == old(calls) + Transfer(m, env)
      ensures moments == old(moments) + Timeline(DownloadFlashes(old(flash).active, m, env), kv.blobs)
    {
      hide Concat, Writes, Partials;
      ghost var active := flash.active;
      calls := calls + [Begin(m.sizeBytes)];
      flash := Flash(flash.active, None, false);
      if !env.beginOk {
        moments := moments + [Moment(flash, kv.blobs)];
        return false;
      }
      flash := flash.(slot := Some(Firmware([], m.version)));
      moments := moments + [Moment(flash, kv.blobs)];
      NoneYet();
      FirstPartial(active, m, env, kv.blobs);
      var i := 0;
      while i < |env.chunks|
        invariant 0 <= i <= |env.chunks|
        invariant flash == Flash(old(flash).active, Some(Firmware(Concat(env.chunks[..i]), m.version)), false)
        invariant env.failingWrite.Some? ==> env.failingWrite.value >= i
        invariant calls == old(calls) + [Begin(m.sizeBytes)] + Writes(env.chunks[..i])
        invariant moments == old(moments) + Timeline(Partials(active, m, env, i), kv.blobs)
      {
        OneMore(env.chunks, i);
        calls := calls + [WriteChunk(env.chunks[i])];
        if env.failingWrite == Some(i) {
          return false;
        }
        flash := flash.(slot := Some(Firmware(flash.slot.value.bytes + env.chunks[i], m.version)));
        moments := moments + [Moment(flash, kv.blobs)];
        OneMorePartial(active, m, env, kv.blobs, i);
        i := i + 1;
      }
      assert env.chunks[..|env.chunks|] == env.chunks;
      if !env.delivered {
        return false;
      }
      calls := calls + [Finish];
      return env.finishOk;
    }

    method EraseSlot()
      modifies this`flash, this`calls, this`moments
      ensures flash == Flash(old(flash).active, None, false)
      ensures calls == old(calls) + [Abort]
      ensures moments == old(moments) + [Moment(flash, kv.blobs)]
    {
      flash := Flash(flash.active, None, false);
      moments := moments + [Moment(flash, kv.blobs)];
      calls := calls + [Abort];
    }

    method MarkAwaitingConfirm(v: FwVersion)
      modifies this`calls, this`moments, kv
      ensures calls == old(calls) + [MarkPending]
      ensures kv.writable == old(kv.writable)
      ensures kv.blobs == FullyMarked(old(kv.blobs), kv.writable, v)
      ensures moments == old(moments) + MarkMoments(flash, old(kv.blobs), kv.writable, v)
    {
      var _ := kv.SetBlob("ota_pending", [1]);
      moments := moments + [Moment(flash, kv.blobs)];
      var _ := kv.SetBlob("ota_pending_ver", VersionBytes(v));
      moments := moments + [Moment(flash, kv.blobs)];
      calls := calls + [MarkPending];
    }
  }

  /** The flash with the first k chunks written to the slot. */
  function Partial(active: Firmware, m: OtaManifest, env: Env, k: nat): Flash
    requires k <= |env.chunks|
  {
    Flash(active, Some(Firmware(Concat(env.chunks[..k]), m.version)), false)
  }

  function Partials(active: Firmware, m: OtaManifest, env: Env, k: nat): (fs: seq<Flash>)
    requires k <= |env.chunks|
    ensures |fs| == k + 1
  {
    seq(k + 1, i requires 0 <= i <= k => Partial(active, m, env, i))
  }

  /** How many chunks are written successfully. */
  function Taken(env: Env): (k: nat)
    ensures k <= |env.chunks|
  {
    if env.failingWrite.Some? && env.failingWrite.value < |env.chunks| then env.failingWrite.value else |env.chunks|
  }

  /** The flash after each call of a download that changes it: the begin, and each successful write. */
  function DownloadFlashes(active: Firmware, m: OtaManifest, env: Env): (fs: seq<Flash>)
    ensures fs != []
  {
    if env.beginOk then Partials(active, m, env, Taken(env)) else [Flash(active, None, false)]
  }

  function Timeline(fs: seq<Flash>, blobs: Blobs): (ms: seq<Moment>)
    ensures |ms| == |fs|
  {
    seq(|fs|, i requires 0 <= i < |fs| => Moment(fs[i], blobs))
  }

  lemma FirstPartial(active: Firmware, m: OtaManifest, env: Env, blobs: Blobs)
    ensures Timeline(Partials(active, m, env, 0), blobs)
         == [Moment(Flash(active, Some(Firmware([], m.version)), false), blobs)]
  {
  }

  lemma OneMorePartial(active: Firmware, m: OtaManifest, env: Env, blobs: Blobs, k: nat)
    requires k < |env.chunks|
    ensures Timeline(Partials(active, m, env, k + 1), blobs)
         == Timeline(Partials(active, m, env, k), blobs) + [Moment(Partial(active, m, env, k + 1), blobs)]
  {
    hide Concat;
  }

  /** Every state of flash and store an update passes through, and so all that a power cut during it can
      leave. A call that changes neither adds none. */
  function UpdateMoments(active: Firmware, m: OtaManifest, env: Env, r: OtaResult, blobs: Blobs,
                         writable: bool): seq<Moment>
  {
    if r.BadManifest? || r.RejectHwMismatch? || r.RejectTooLarge? || r.RejectDowngrade? then []
    else
      Timeline(DownloadFlashes(active, m, env), blobs)
        + ClosingMoments(active, m, env, r, blobs, writable)
  }

  function ClosingMoments(active: Firmware, m: OtaManifest, env: Env, r: OtaResult, blobs: Blobs,
                          writable: bool): seq<Moment>
  {
    if r.Ok? then Commitment(Flash(active, Some(Staged(m, env)), true), blobs, writable, m.version)
    else [Moment(Flash(active, None, false), blobs)]
  }

  /** The moments from the commit to the reboot: just committed, and after each write of the mark. */
  function Commitment(f: Flash, blobs: Blobs, writable: bool, v: FwVersion): (ms: seq<Moment>)
    ensures |ms| == 3
  {
    [Moment(f, blobs)] + MarkMoments(f, blobs, writable, v)
  }

  function MarkMoments(f: Flash, blobs: Blobs, writable: bool, v: FwVersion): (ms: seq<Moment>)
    ensures |ms| == 2
  {
    [Moment(f, HalfMarked(blobs, writable)), Moment(f, FullyMarked(blobs, writable, v))]
  }

  /** An accepted update leaves the pending mark exactly if the store takes writes or had it already. */
  lemma MarkedExactly(blobs: Blobs, writable: bool, v: FwVersion)
    ensures Guarded(FullyMarked(blobs, writable, v)) <==> writable || Guarded(blobs)
  {
  }

  /** A power cut between the commit and the reboot boots the new image. Right after the commit it does so
      with a health window only if an older mark was still there; after the first write, exactly as the
      finished update does. */
  lemma CutDuringCommitment(f: Flash, fw: Firmware, blobs: Blobs, writable: bool, v: FwVersion)
    requires f.switching && f.slot == Some(fw)
    ensures var ms := Commitment(f, blobs, writable, v);
            && (forall i :: 0 <= i < 3 ==> Booted(ms[i].flash).active == fw)
            && (Guarded(ms[0].blobs) <==> Guarded(blobs))
            && (Guarded(ms[1].blobs) <==> writable || Guarded(blobs))
            && (Guarded(ms[2].blobs) <==> writable || Guarded(blobs))
  {
    var ms := Commitment(f, blobs, writable, v);
    assert ms[0] == Moment(f, blobs) && ms[1] == Moment(f, HalfMarked(blobs, writable));
    assert ms[2] == Moment(f, FullyMarked(blobs, writable, v));
  }

  function U16Bytes(x: U16): seq<byte> { [(x % 0x100) as byte, (x / 0x100) as byte] }

  function VersionBytes(v: FwVersion): seq<byte> { U16Bytes(v.major) + U16Bytes(v.minor) + U16Bytes(v.patch) }

  /** A boot runs the slot's image if told to, keeping the other image in the slot. */
  function Booted(f: Flash): Flash {
    if f.switching && f.slot.Some? then Flash(f.slot.value, Some(f.active), false) else f.(switching := false)
  }

  /** How many chunks reach the writer: all, or those up to and including the failing one. */
  function Written(env: Env): (n: nat)
    ensures n <= |env.chunks|
  {
    if env.failingWrite.Some? && env.failingWrite.value < |env.chunks| then env.failingWrite.value + 1 else |env.chunks|
  }

  function Writes(chunks: seq<seq<byte>>): (cs: seq<Call>)
    ensures |cs| == |chunks|
  {
    seq(|chunks|, i requires 0 <= i < |chunks| => WriteChunk(chunks[i]))
  }

  lemma NoneYet()
    ensures Concat([]) == [] && Writes([]) == []
  {
  }

  lemma OneMore(chunks: seq<seq<byte>>, i: nat)
    requires i < |chunks|
    ensures Writes(chunks[..i + 1]) == Writes(chunks[..i]) + [WriteChunk(chunks[i])]
    ensures Concat(chunks[..i + 1]) == Concat(chunks[..i]) + chunks[i]
  {
    assert chunks[..i + 1][..i] == chunks[..i];
  }

  /** The calls of a download: begin with the announced size, the chunks in order, and finish if
      everything was delivered and written. */
  function Transfer(m: OtaManifest, env: Env): seq<Call> {
    [Begin(m.sizeBytes)]
      + (if env.beginOk then Writes(env.chunks[..Written(env)]) else [])
      + if env.beginOk && env.delivered && (env.failingWrite.Some? ==> env.failingWrite.value >= |env.chunks|)
        then [Finish] else []
  }

  /** The calls of an update after its download, by its result. */
  function ClosingCalls(r: OtaResult): seq<Call> {
    match r
    case VerifyFailed => [Verify(false), Abort]
    case CommitFailed => [Verify(true), Commit, Abort]
    case Ok => [Verify(true), Commit, MarkPending, RebootNow]
    case _ => [Abort]
  }

  /** The calls an update makes, by its result. */
  function UpdateCalls(m: OtaManifest, env: Env, r: OtaResult): seq<Call> {
    if r.BadManifest? || r.RejectHwMismatch? || r.RejectTooLarge? || r.RejectDowngrade? then []
    else Transfer(m, env) + ClosingCalls(r)
  }

  /** The outcomes that refuse a manifest up front, test by test, in their order. */
  lemma RefusalsExactly(verify: (seq<byte>, string) -> bool, p: Profile, current: FwVersion, m: OtaManifest, env: Env)
    ensures var r := Outcome(verify, p, current, m, env);
            var fits := m.hwFamily == p.family && m.hwChannels == p.channels;
            var sized := 0 < m.sizeBytes <= 0xA6000;
            var newer := m.allowDowngrade || Rank(m.version) > Rank(current);
            && (r.BadManifest? <==> !m.valid)
            && (r.RejectHwMismatch? <==> m.valid && !fits)
            && (r.RejectTooLarge? <==> m.valid && fits && !sized)
            && (r.RejectDowngrade? <==> m.valid && fits && sized && !newer)
  {
    NewerIsRank(m.version, current);
    hide Downloads, Concat, Rank;
  }

  /** A download begins with its announced size; a complete one then writes the chunks in order and
      finishes. */
  lemma TransferBegins(m: OtaManifest, env: Env)
    ensures var t := Transfer(m, env);
            && t != [] && t[0] == Begin(m.sizeBytes)
            && (Downloads(env) ==>
                  && |t| == |env.chunks| + 2 && t[|t| - 1] == Finish
                  && forall i :: 0 <= i < |env.chunks| ==> t[1 + i] == WriteChunk(env.chunks[i]))
  {
  }

  /** In the calls of an accepted update everything comes after what it depends on: the image is verified
      after its download is finished, committed once found genuine, marked pending once committed, and the
      reboot is last. */
  lemma AcceptedInOrder(verify: (seq<byte>, string) -> bool, p: Profile, current: FwVersion, m: OtaManifest, env: Env)
    requires Outcome(verify, p, current, m, env).Ok?
    ensures var cs := UpdateCalls(m, env, Ok);
            var n := |cs|;
            && n == |env.chunks| + 6
            && cs[0] == Begin(m.sizeBytes) && cs[n - 5] == Finish && cs[n - 4] == Verify(true) && cs[n - 3] == Commit
            && cs[n - 2] == MarkPending && cs[n - 1] == RebootNow
            && forall i :: 0 <= i < |env.chunks| ==> cs[1 + i] == WriteChunk(env.chunks[i])
  {
    TransferBegins(m, env);
    hide Transfer, Concat, Downloads;
  }

  /** What is stored of a pending version: three 16-bit numbers, low byte first. */
  lemma VersionLayout()
    ensures VersionBytes(FwVersion(1, 2, 0x304)) == [1, 0, 2, 0, 4, 3]
  {
  }

  lemma OnlyTransfers(m: OtaManifest, env: Env, c: Call)
    requires c in Transfer(m, env)
    ensures c.Begin? || c.WriteChunk? || c.Finish?
  {
  }

  /** The writer is touched exactly after a passed precheck, committed exactly when moreover the whole
      image arrived and verified, and the device reboots exactly when the commit succeeded too. */
  lemma CallsExactly(verify: (seq<byte>, string) -> bool, p: Profile, current: FwVersion, m: OtaManifest, env: Env)
    ensures var calls := UpdateCalls(m, env, Outcome(verify, p, current, m, env));
            var proven := m.valid && Precheck(p, current, m).Ok? && Downloads(env) && verify(Concat(env.chunks), m.sig);
            && (calls != [] <==> m.valid && Precheck(p, current, m).Ok?)
            && (Commit in calls <==> proven)
            && (RebootNow in calls <==> proven && env.commitOk)
            && (Abort in calls <==> calls != [] && RebootNow !in calls)
  {
    hide Transfer, Downloads, Concat;
    forall c | c in Transfer(m, env) ensures c.Begin? || c.WriteChunk? || c.Finish? {
      OnlyTransfers(m, env, c);
    }
  }

  // ----- Post-boot health -----

  datatype HealthOutcome = Pending | Confirmed | Rollback

  class OtaHealthConfirm {
    const windowMs: Millis
    var bootAt: Millis
    var started: bool
    var reachedScheduler: bool
    var localControlOk: bool
    var networkUp: bool
    var explicitConfirm: bool

    constructor (windowMs: Millis)
      ensures this.windowMs == windowMs && State() == Health(0, false, false, false, false, false)
    {
      this.windowMs := windowMs;
      bootAt, started, reachedScheduler := 0, false, false;
      localControlOk, networkUp, explicitConfirm := false, false, false;
    }

    ghost function State(): Health
      reads this
    {
      Health(bootAt, started, reachedScheduler, localControlOk, networkUp, explicitConfirm)
    }

    method OnBoot(now: Millis)
      modifies this
      ensures State() == Marked(old(State()), BootedAt(now))
    {
      bootAt, reachedScheduler, started := now, true, true;
    }

    method MarkLocalControlOk()
      modifies this
      ensures State() == Marked(old(State()), LocalControl)
    {
      localControlOk := true;
    }

    method MarkNetworkUp()
      modifies this
      ensures State() == Marked(old(State()), NetworkUp)
    {
      networkUp := true;
    }

    method MarkExplicitConfirm()
      modifies this
      ensures State() == Marked(old(State()), Explicit)
    {
      explicitConfirm := true;
    }

    function Evaluate(now: Millis): (r: HealthOutcome)
      reads this
      ensures r == Evaluated(windowMs, State(), now)
      ensures r.Confirmed? <==> started && reachedScheduler && localControlOk && networkUp && explicitConfirm
      ensures r.Rollback? ==> started && Elapsed(now, bootAt) >= windowMs
                              && !(reachedScheduler && localControlOk && networkUp && explicitConfirm)
    {
      if !started then Pending
      else if reachedScheduler && localControlOk && networkUp && explicitConfirm then Confirmed
      else if Elapsed(now, bootAt) >= windowMs then Rollback
      else Pending
    }
  }

  datatype Health = Health(bootAt: Millis, started: bool, scheduler: bool, local: bool, network: bool, confirm: bool)

  datatype Mark = BootedAt(now: Millis) | LocalControl | NetworkUp | Explicit

  function Marked(h: Health, k: Mark): Health {
    match k
    case BootedAt(now) => h.(bootAt := now, started := true, scheduler := true)
    case LocalControl => h.(local := true)
    case NetworkUp => h.(network := true)
    case Explicit => h.(confirm := true)
  }

  function MarkedAll(h: Health, ks: seq<Mark>): Health {
    if ks == [] then h else Marked(MarkedAll(h, ks[..|ks| - 1]), ks[|ks| - 1])
  }

  /** Confirmed by the four criteria, whenever they come; rolled back only by the window without them. */
  function Evaluated(window: Millis, h: Health, now: Millis): HealthOutcome {
    if h.started && h.scheduler && h.local && h.network && h.confirm then Confirmed
    else if h.started && Elapsed(now, h.bootAt) >= window then Rollback
    else Pending
  }

  const NOT_BOOTED := Health(0, false, false, false, false, false)

  /** The counter at the latest boot among the marks, or 0. */
  function BootTime(ks: seq<Mark>): Millis {
    if ks == [] then 0
    else if ks[|ks| - 1].BootedAt? then ks[|ks| - 1].now
    else BootTime(ks[..|ks| - 1])
  }

  predicate HasBooted(ks: seq<Mark>) { exists i :: 0 <= i < |ks| && ks[i].BootedAt? }

  lemma {:induction false} MarksCollected(ks: seq<Mark>)
    ensures var h := MarkedAll(NOT_BOOTED, ks);
            && h.bootAt == BootTime(ks) && h.started == h.scheduler == HasBooted(ks)
            && h.local == (LocalControl in ks) && h.network == (NetworkUp in ks) && h.confirm == (Explicit in ks)
  {
    hide HasBooted;
    if ks == [] {
      NotBooted(ks);
    } else {
      MarksCollected(ks[..|ks| - 1]);
      BootedStep(ks);
      InStep(ks, LocalControl);
      InStep(ks, NetworkUp);
      InStep(ks, Explicit);
    }
  }

  lemma NotBooted(ks: seq<Mark>)
    requires ks == []
    ensures !HasBooted(ks)
  {
  }

  lemma BootedStep(ks: seq<Mark>)
    requires ks != []
    ensures HasBooted(ks) <==> HasBooted(ks[..|ks| - 1]) || ks[|ks| - 1].BootedAt?
  {
    var k := |ks| - 1;
    if i :| 0 <= i < k && ks[..k][i].BootedAt? {
      assert ks[i].BootedAt?;
    }
    if i :| 0 <= i < |ks| && ks[i].BootedAt? {
      assert i < k ==> ks[..k][i].BootedAt?;
    }
  }

  lemma InStep(ks: seq<Mark>, x: Mark)
    requires ks != []
    ensures x in ks <==> x in ks[..|ks| - 1] || x == ks[|ks| - 1]
  {
    assert ks == ks[..|ks| - 1] + [ks[|ks| - 1]];
  }

  /** The verdict over every history of marks: confirmed exactly if the boot and all three further
      criteria have been reported, in whatever order and however late; rolled back exactly if the boot
      was, some criterion was not, and the window since the latest boot has passed. */
  lemma VerdictExactly(window: Millis, ks: seq<Mark>, now: Millis)
    ensures var all := LocalControl in ks && NetworkUp in ks && Explicit in ks;
            var r := Evaluated(window, MarkedAll(NOT_BOOTED, ks), now);
            && (r.Confirmed? <==> HasBooted(ks) && all)
            && (r.Rollback? <==> HasBooted(ks) && !all && Elapsed(now, BootTime(ks)) >= window)
  {
    MarksCollected(ks);
  }

  /** A confirmed image is never rolled back: whatever is marked later and however much time passes,
      every later evaluation confirms it again. */
  lemma {:induction false} ConfirmedIsFinal(window: Millis, h: Health, ks: seq<Mark>, now: Millis, later: Millis)
    requires Evaluated(window, h, now).Confirmed?
    ensures Evaluated(window, MarkedAll(h, ks), later).Confirmed?
  {
    if ks != [] {
      ConfirmedIsFinal(window, h, ks[..|ks| - 1], now, later);
    }
  }
}
