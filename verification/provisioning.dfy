/** The provisioning state machine: portal, sequential credential test, enrollment. */
module Provisioning {
  import opened Wrappers
  import opened Persistence
  import opened StoredPairs
  import Text
  import Touch
  import UrlForms

  datatype ProvState = ApPortal | TestingCreds | IdentityBootstrap | Operational | Failed

  // ----- The seams -----

  /** The radio. It cannot run the access point and a station at once: neither may be started while the
      other is up. */
  class WifiControl {
    var apUp: bool
    var staUp: bool
    ghost var tried: Option<Pair>
    ghost var joined: set<Pair>

    constructor ()
      ensures !apUp && !staUp && tried == None && joined == {}
    {
      apUp, staUp, tried, joined := false, false, None, {};
    }

    method StartAp()
      requires !staUp
      modifies this`apUp
      ensures apUp
    {
      apUp := true;
    }

    method StopAp()
      modifies this`apUp
      ensures !apUp
    {
      apUp := false;
    }

    /** A blocking join; a failed one leaves the station down. */
    method ConnectSta(p: Pair, joins: bool) returns (ok: bool)
      requires !apUp
      modifies this`staUp, this`tried, this`joined
      ensures ok == joins == staUp && tried == Some(p)
      ensures joined == old(joined) + if joins then {p} else {}
    {
      staUp, tried := joins, Some(p);
      joined := joined + if joins then {p} else {};
      ok := joins;
    }

    method DisconnectSta()
      modifies this`staUp
      ensures !staUp
    {
      staUp := false;
    }
  }

  class PortalServer {
    var up: bool
    var message: string

    constructor ()
      ensures !up
    {
      up, message := false, "";
    }
  }

  /** How the outside world answers one submission or one boot. */
  datatype World = World(joins: bool, enrolls: bool)

  /** A submission and how the world answers it. */
  datatype Submission = Submission(creds: Credentials, world: World)

  /** The submission reaches the store: valid, joined, and the store takes writes. */
  predicate Stores(s: Submission, writable: bool) { s.creds.valid && s.world.joins && writable }

  function AfterSubmission(blobs: Blobs, writable: bool, heard: Option<Submission>): Blobs
    requires heard.Some? ==> Fits(heard.value.creds)
  {
    if heard.Some? && Stores(heard.value, writable) then WithPair(blobs, heard.value.creds) else blobs
  }

  function WrittenBy(blobs: Blobs, writable: bool, heard: Option<Submission>): seq<Blobs>
    requires heard.Some? ==> Fits(heard.value.creds)
  {
    if heard.Some? && Stores(heard.value, writable)
    then [HalfWritten(blobs, heard.value.creds), WithPair(blobs, heard.value.creds)] else []
  }

  function JoinedBy(heard: Option<Submission>): set<Pair> {
    if heard.Some? && heard.value.creds.valid && heard.value.world.joins
    then {Pair(heard.value.creds.ssid, heard.value.creds.pass)} else {}
  }

  class ProvisioningService {
    const wifi: WifiControl
    const portal: PortalServer
    const kv: KvStore
    var state: ProvState
    var startedAt: Touch.Millis
    var idleTimedOut: bool
    const apIdleTimeoutMs: Touch.Millis

    constructor (wifi: WifiControl, portal: PortalServer, kv: KvStore, apIdleTimeoutMs: Touch.Millis)
      ensures this.wifi == wifi && this.portal == portal && this.kv == kv && !idleTimedOut
    {
      this.apIdleTimeoutMs := apIdleTimeoutMs;
      this.wifi, this.portal, this.kv := wifi, portal, kv;
      state, startedAt, idleTimedOut := ApPortal, 0, false;
    }

    /** Between calls, once begun: portal or operational; access point and portal up exactly in the
        former; never access point and station together. */
    ghost predicate Settled()
      reads this, wifi, portal
    {
      && state in {ApPortal, Operational}
      && wifi.apUp == portal.up == (state == ApPortal)
      && !(wifi.apUp && wifi.staUp)
      && (state == Operational ==> wifi.staUp)
    }

    /** Boot: a stored pair with an operational certificate is tried, and it is the stored pair that is
        tried; otherwise, or if that fails, the portal opens. */
    method Begin(now: Touch.Millis, hasCert: bool, world: World) returns (entered: ProvState)
      requires !wifi.apUp && !wifi.staUp && !portal.up
      modifies this, wifi, portal
      ensures Settled() && entered == state
      ensures state == if "sta_ssid" in kv.blobs && kv.blobs["sta_ssid"] != [] && hasCert && world.joins
                       then Operational else ApPortal
      ensures HasSsid(kv.blobs) && hasCert ==> wifi.tried == StoredPair(kv.blobs)
      ensures !(HasSsid(kv.blobs) && hasCert) ==> wifi.tried == old(wifi.tried)
    {
      startedAt := now;
      if HasSsid(kv.blobs) && hasCert {
        var ok := TryStoredConnect(world);
        if ok {
          state := Operational;
          return state;
        }
      }
      OpenPortal();
      return state;
    }

    /** A service tick. With the portal open it is polled first, which may bring in one submission; then
        the idle timeout, counted from boot and not restarted by a failed test, may latch, even if that
        submission has just made the device operational. */
    method Tick(now: Touch.Millis, arrived: Option<Submission>)
      requires Settled() && (arrived.Some? ==> Fits(arrived.value.creds))
      modifies this, wifi, portal, kv
      ensures Settled()
      ensures idleTimedOut == (old(idleTimedOut)
                               || (old(state) == ApPortal && Touch.Elapsed(now, startedAt) >= apIdleTimeoutMs))
      ensures startedAt == old(startedAt) && kv.writable == old(kv.writable)
      ensures var heard := if old(state) == ApPortal then arrived else None;
              && state == (if heard.None? || !heard.value.creds.valid then old(state)
                           else if heard.value.world.joins && heard.value.world.enrolls then Operational else ApPortal)
              && kv.blobs == AfterSubmission(old(kv.blobs), kv.writable, heard)
              && kv.history == old(kv.history) + WrittenBy(old(kv.blobs), kv.writable, heard)
              && wifi.joined == old(wifi.joined) + JoinedBy(heard)
    {
      if state == ApPortal {
        if arrived.Some? {
          OnCredentialsSubmitted(arrived.value.creds, arrived.value.world);
        }
        if Touch.Elapsed(now, startedAt) >= apIdleTimeoutMs {
          idleTimedOut := true;
        }
      }
    }

    /** A submitted form. Invalid credentials change nothing but the message. Otherwise the test runs
        with the access point down; the pair is stored only after it joined. */
    method OnCredentialsSubmitted(c: Credentials, world: World)
      requires Settled() && Fits(c)
      modifies this, wifi, portal, kv
      ensures Settled()
      ensures !c.valid ==> state == old(state) && wifi.staUp == old(wifi.staUp)
      ensures c.valid ==> state == if world.joins && world.enrolls then Operational else ApPortal
      ensures kv.writable == old(kv.writable) && startedAt == old(startedAt)
      ensures kv.blobs == AfterSubmission(old(kv.blobs), kv.writable, Some(Submission(c, world)))
      ensures kv.history == old(kv.history) + WrittenBy(old(kv.blobs), kv.writable, Some(Submission(c, world)))
      ensures wifi.joined == old(wifi.joined) + JoinedBy(Some(Submission(c, world)))
      ensures idleTimedOut == old(idleTimedOut)
    {
      if !c.valid {
        portal.message := "Invalid: SSID required";
        return;
      }
      RunSequentialTest(c, world);
    }

    method RunSequentialTest(c: Credentials, world: World)
      requires Settled() && Fits(c)
      modifies this`state, wifi, portal, kv
      ensures Settled() && state == if world.joins && world.enrolls then Operational else ApPortal
      ensures kv.writable == old(kv.writable) && startedAt == old(startedAt)
      ensures kv.blobs == if world.joins && kv.writable then WithPair(old(kv.blobs), c) else old(kv.blobs)
      ensures kv.history == old(kv.history)
                            + if world.joins && kv.writable
                              then [HalfWritten(old(kv.blobs), c), WithPair(old(kv.blobs), c)] else []
      ensures wifi.joined == old(wifi.joined) + if world.joins then {Pair(c.ssid, c.pass)} else {}
    {
      state := TestingCreds;
      portal.message := "Testing... the switch will leave this network.";
      portal.up := false;
      wifi.StopAp();
      var joined := wifi.ConnectSta(Pair(c.ssid, c.pass), world.joins);
      if !joined {
        OnTestFailed();
        return;
      }
      var _ := kv.SetBlob("sta_ssid", StringBytes(c.ssid) + [0]);
      var _ := kv.SetBlob("sta_pass", StringBytes(c.pass) + [0]);
      state := IdentityBootstrap;
      if !world.enrolls {
        OnTestFailed();
        return;
      }
      state := Operational;
    }

    method OnTestFailed()
      requires !wifi.apUp
      modifies this`state, wifi`apUp, wifi`staUp, portal
      ensures Settled() && state == ApPortal
    {
      wifi.DisconnectSta();
      state := Failed;
      OpenPortal();
      portal.message := "Could not connect. Check password and retry.";
    }

    method OpenPortal()
      requires !wifi.staUp
      modifies this`state, wifi`apUp, portal`up
      ensures Settled() && state == ApPortal
    {
      wifi.StartAp();
      portal.up := true;
      state := ApPortal;
    }

    method TryStoredConnect(world: World) returns (ok: bool)
      requires !wifi.apUp && HasSsid(kv.blobs)
      modifies wifi`staUp, wifi`tried, wifi`joined
      ensures ok == world.joins == wifi.staUp && wifi.tried == StoredPair(kv.blobs)
    {
      var ssid := kv.GetBlob("sta_ssid", UrlForms.SSID_CAP);
      var pass := kv.GetBlob("sta_pass", UrlForms.PASS_CAP);
      ok := wifi.ConnectSta(Pair(Text.CString(BytesString(ssid)), Text.CString(BytesString(pass))), world.joins);
    }
  }

  /** One cycle of the Net task: its time and the submission waiting at the portal, if any. */
  datatype Cycle = Cycle(now: Touch.Millis, arrived: Option<Submission>)

  /** One power-on: begin, then any cycles. Whatever happens, between calls the service is settled, and
      afterwards the stored pair is the one stored before or one that really joined during this session,
      and the next boot's stored connect tries exactly it. */
  method Session(kv: KvStore, idleMs: Touch.Millis, bootAt: Touch.Millis, hasCert: bool, boot: World,
                 cycles: seq<Cycle>)
    returns (service: ProvisioningService, ghost stored: seq<Credentials>)
    requires forall i :: 0 <= i < |cycles| && cycles[i].arrived.Some? ==> Fits(cycles[i].arrived.value.creds)
    modifies kv
    ensures service.Settled() && service.kv == kv
    ensures StoredPair(kv.blobs) == old(StoredPair(kv.blobs))
            || (StoredPair(kv.blobs).Some? && StoredPair(kv.blobs).value in service.wifi.joined)
    ensures AllFit(stored) && forall c :: c in stored ==> PairOf(c) in service.wifi.joined
    ensures kv.blobs == StoredAll(old(kv.blobs), stored)
    ensures kv.history == old(kv.history) + Written(old(kv.blobs), stored)
  {
    var wifi := new WifiControl();
    var portal := new PortalServer();
    service := new ProvisioningService(wifi, portal, kv, idleMs);
    var entered := service.Begin(bootAt, hasCert, boot);
    stored := [];
    for i := 0 to |cycles|
      invariant service.Settled() && service.kv == kv && service.wifi == wifi && service.portal == portal
      invariant fresh(service) && fresh(wifi) && fresh(portal)
      invariant AllFit(stored) && forall c :: c in stored ==> PairOf(c) in wifi.joined
      invariant kv.blobs == StoredAll(old(kv.blobs), stored)
      invariant kv.history == old(kv.history) + Written(old(kv.blobs), stored)
    {
      hide StoredAll, Written, HalfWritten, WithPair, Fits, AllFit;
      var c := cycles[i];
      ghost var portalOpen := service.state == ApPortal;
      service.Tick(c.now, c.arrived);
      if portalOpen && c.arrived.Some? && Stores(c.arrived.value, kv.writable) {
        OneMoreStored(old(kv.blobs), stored, c.arrived.value.creds);
        stored := stored + [c.arrived.value.creds];
      }
    }
    LastIsStored(old(kv.blobs), stored);
  }
}
