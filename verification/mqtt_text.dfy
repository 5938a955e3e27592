/** MQTT topics: how they are built and how incoming ones are read and routed. */
module MqttText {
  import opened Wrappers
  import opened Numbers
  import opened RelayTypes
  import opened Text

  const MAX_TOPIC: nat := 96
  const CMD_RELAY := "cmd/relay/"
  const ALL_SET := "cmd/relay/all/set"
  const SYSTEM_OTA := "cmd/system/ota"
  const SYSTEM_CONFIRM := "cmd/system/confirm"

  // ----- Topics -----

  function Prefix(root: string, id: string): string { root + "/" + id + "/" }

  /** A topic, unless it does not fit the caller's buffer with its terminator. */
  function Built(root: string, id: string, suffix: string, cap: nat): (r: Option<string>)
  {
    var topic := Prefix(root, id) + suffix;
    if |topic| < cap then Some(topic) else None
  }

  function SetSuffix(ch: ChannelId): string { CMD_RELAY + (Dec(ch) + "/set") }

  function StateSuffix(ch: ChannelId): string { "evt/relay/" + (Dec(ch) + "/state") }

  /** The channel a topic addresses: the numeral after the first "cmd/relay/", modulo 256, if "/set"
      follows it. */
  function ChannelOf(topic: string): (r: Option<ChannelId>) {
    match Find(topic, CMD_RELAY)
    case None => None
    case Some(at) =>
      var rest := topic[at + |CMD_RELAY|..];
      var digits := LeadingDigits(rest);
      if digits == "" || !StartsWith(rest[|digits|..], "/set") then None
      else Some(Numeral(digits) % 0x100)
  }

  /** Reads the channel digit by digit into a 32-bit accumulator and keeps its low byte. */
  method ParseRelaySetChannel(topic: string) returns (r: Option<ChannelId>)
    ensures r == ChannelOf(topic)
  {
    var found := Find(topic, CMD_RELAY);
    if found.None? {
      return None;
    }
    var p := found.value + |CMD_RELAY|;
    if p == |topic| || !IsDigit(topic[p]) {
      return None;
    }
    var v := 0;
    var n := 0;
    while p + n < |topic| && IsDigit(topic[p + n])
      invariant p + n <= |topic|
      invariant AllDigits(topic[p..p + n]) && v == Numeral(topic[p..p + n]) % WRAP
    {
      hide ChannelOf, Find, Numeral;
      OneMoreDigit(topic, p, n);
      AccumulatorWraps(Numeral(topic[p..p + n]), DigitValue(topic[p + n]));
      v := (v * 10 + DigitValue(topic[p + n])) % WRAP;
      n := n + 1;
    }
    hide Numeral, Find, ChannelOf;
    ChannelRead(topic, found.value, n);
    if !StartsWith(topic[p + n..], "/set") {
      return None;
    }
    LowByteOf32(Numeral(topic[p..p + n]));
    return Some(v % 0x100);
  }

  lemma ChannelRead(topic: string, at: nat, n: nat)
    requires Find(topic, CMD_RELAY) == Some(at) && 0 < n && at + |CMD_RELAY| + n <= |topic|
    requires var p := at + |CMD_RELAY|;
             AllDigits(topic[p..p + n]) && (p + n < |topic| ==> !IsDigit(topic[p + n]))
    ensures var p := at + |CMD_RELAY|;
            ChannelOf(topic)
            == if StartsWith(topic[p + n..], "/set") then Some(Numeral(topic[p..p + n]) % 0x100) else None
  {
    hide Find, Numeral, StartsWith, LeadingDigits;
    var p := at + |CMD_RELAY|;
    CutAt(topic, p, n);
    LeadingDigitsOf(topic[p..p + n], topic[p + n..]);
  }

  lemma CutAt(s: string, p: nat, n: nat)
    requires p + n <= |s|
    ensures s[p..] == s[p..p + n] + s[p + n..] && s[p..][n..] == s[p + n..]
  {
  }

  lemma LowByteOf32(x: nat)
    ensures (x % WRAP) % 0x100 == x % 0x100
  {
    var q, r := x / WRAP, x % WRAP;
    assert x == r + 0x100 * (0x100_0000 * q);
  }

  // ----- What a built topic is read as -----

  /** The configured root and device id do not themselves look like a relay command. */
  ghost predicate PlainPrefix(root: string, id: string) {
    forall i :: 0 <= i ==> !OccursAt(Prefix(root, id), CMD_RELAY, i)
  }

  /** A pattern that begins in the prefix and ends after it would need the prefix's final slash at its
      place 3, and then an 'r' where the suffix has its 'c'. */
  lemma FirstCommand(root: string, id: string, tail: string)
    requires PlainPrefix(root, id)
    ensures Find(Prefix(root, id) + (CMD_RELAY + tail), CMD_RELAY) == Some(|Prefix(root, id)|)
  {
    var p := Prefix(root, id);
    var topic := p + (CMD_RELAY + tail);
    assert topic[|p| - 1] == '/' && topic[|p|] == 'c';
    forall i | 0 <= i < |p| ensures !OccursAt(topic, CMD_RELAY, i) {
      assert !OccursAt(p, CMD_RELAY, i);
      if i + |CMD_RELAY| <= |p| {
        assert topic[i..i + |CMD_RELAY|] == p[i..i + |CMD_RELAY|];
      } else if OccursAt(topic, CMD_RELAY, i) {
        OccursChar(topic, CMD_RELAY, i, |p| - i - 1);
        OccursChar(topic, CMD_RELAY, i, |p| - i);
      }
    }
    assert topic[|p|..|p| + |CMD_RELAY|] == CMD_RELAY;
    FoundAt(topic, CMD_RELAY, |p|);
  }

  /** A set-topic with any numeral is read as that numeral modulo 256. */
  lemma TopicWithNumeral(root: string, id: string, digits: string)
    requires PlainPrefix(root, id) && digits != "" && AllDigits(digits)
    ensures ChannelOf(Prefix(root, id) + (CMD_RELAY + (digits + "/set"))) == Some(Numeral(digits) % 0x100)
  {
    hide Prefix, ChannelOf, Find, Numeral;
    FirstCommand(root, id, digits + "/set");
    ReadsNumeral(Prefix(root, id), digits);
  }

  /** Channel 256 is read as channel 0. */
  lemma Channel256IsZero()
    ensures ChannelOf("h/d/cmd/relay/256/set") == Some(0)
  {
    NumeralOf256();
    assert |Prefix("h", "d")| == 4;
    assert "h/d/cmd/relay/256/set" == Prefix("h", "d") + (CMD_RELAY + ("256" + "/set"));
    TopicWithNumeral("h", "d", "256");
  }

  lemma NumeralOf256()
    ensures AllDigits("256") && Numeral("256") == 256
  {
    assert "256"[..2] == "25" && "25"[..1] == "2" && "2"[..0] == "";
    assert Numeral("2") == 2 && Numeral("25") == 25;
  }

  /** Every built set-topic is read back as its channel. */
  lemma TopicRoundTrip(root: string, id: string, ch: ChannelId)
    requires PlainPrefix(root, id)
    ensures ChannelOf(Prefix(root, id) + SetSuffix(ch)) == Some(ch)
  {
    hide Prefix, ChannelOf, Find, Numeral, Dec;
    NumeralOfDec(ch);
    TopicWithNumeral(root, id, Dec(ch));
  }

  lemma ReadsNumeral(p: string, digits: string)
    requires digits != "" && AllDigits(digits)
    requires Find(p + (CMD_RELAY + (digits + "/set")), CMD_RELAY) == Some(|p|)
    ensures ChannelOf(p + (CMD_RELAY + (digits + "/set"))) == Some(Numeral(digits) % 0x100)
  {
    hide Find, Numeral;
    var topic := p + (CMD_RELAY + (digits + "/set"));
    var rest := topic[|p| + |CMD_RELAY|..];
    assert rest == digits + "/set";
    LeadingDigitsOf(digits, "/set");
    assert rest[|digits|..] == "/set";
  }

  // ----- Routing -----

  datatype Route = OtaManifest | OtaConfirm | AllSet | ChannelSet(channel: ChannelId) | Ignored

  function RouteOf(topic: string): Route {
    if EndsWith(topic, SYSTEM_OTA) then OtaManifest
    else if EndsWith(topic, SYSTEM_CONFIRM) then OtaConfirm
    else if Find(topic, ALL_SET).Some? then AllSet
    else match ChannelOf(topic) case Some(ch) => ChannelSet(ch) case None => Ignored
  }

  /** A built set-topic is routed to its channel and to nothing else. */
  lemma SetTopicRoutes(root: string, id: string, ch: ChannelId)
    requires PlainPrefix(root, id)
    ensures RouteOf(Prefix(root, id) + SetSuffix(ch)) == ChannelSet(ch)
  {
    var topic := Prefix(root, id) + SetSuffix(ch);
    assert topic[|topic| - 1] == 't';
    hide Prefix, SetSuffix, ChannelOf, Find, EndsWith;
    TopicRoundTrip(root, id, ch);
    NoAllSet(root, id, ch);
    EndsDifferently(topic, SYSTEM_OTA);
    EndsDifferently(topic, SYSTEM_CONFIRM);
  }

  lemma EndsDifferently(s: string, p: string)
    requires s != "" && p != "" && s[|s| - 1] != p[|p| - 1]
    ensures !EndsWith(s, p)
  {
  }

  lemma NoAllSet(root: string, id: string, ch: ChannelId)
    requires PlainPrefix(root, id)
    ensures Find(Prefix(root, id) + SetSuffix(ch), ALL_SET).None?
  {
    NumeralOfDec(ch);
    FirstCommand(root, id, Dec(ch) + "/set");
    hide *;
    AllSetNeedsLetter(Prefix(root, id), Dec(ch));
  }

  lemma AllSetNeedsLetter(p: string, digits: string)
    requires digits != "" && AllDigits(digits)
    requires Find(p + (CMD_RELAY + (digits + "/set")), CMD_RELAY) == Some(|p|)
    ensures Find(p + (CMD_RELAY + (digits + "/set")), ALL_SET).None?
  {
    hide Numeral;
    var suffix := CMD_RELAY + (digits + "/set");
    var topic := p + suffix;
    assert IsDigit(topic[|p| + |CMD_RELAY|]);
    forall i | |p| < i < |topic| ensures topic[i] != 'c' {
      assert topic[i] == suffix[i - |p|];
    }
    var r := Find(topic, ALL_SET);
    hide Find, CMD_RELAY;
    if r.Some? {
      OccursChar(topic, ALL_SET, r.value, 0);
      if r.value <= |p| {
        CommandInAllSet(topic, r.value);
        OccursChar(topic, ALL_SET, r.value, |CMD_RELAY|);
      }
    }
  }

  lemma CommandInAllSet(topic: string, i: nat)
    requires OccursAt(topic, ALL_SET, i)
    ensures OccursAt(topic, CMD_RELAY, i)
  {
    var w := topic[i..i + |ALL_SET|];
    assert w[..|CMD_RELAY|] == CMD_RELAY;
    assert topic[i..i + |CMD_RELAY|] == w[..|CMD_RELAY|];
  }

  /** The other three topics a device listens to, written out after any prefix, have their own routes. */
  lemma SystemTopicsRoute(p: string)
    ensures RouteOf(p + "cmd/system/ota") == OtaManifest
    ensures RouteOf(p + "cmd/system/confirm") == OtaConfirm
    ensures RouteOf(p + "cmd/relay/all/set") == AllSet
  {
    OtaRoutes(p);
    ConfirmRoutes(p);
    AllSetRoutes(p);
    hide RouteOf;
  }

  lemma OtaRoutes(p: string)
    ensures RouteOf(p + "cmd/system/ota") == OtaManifest
  {
    EndsWithTail(p, "cmd/system/ota");
    hide EndsWith;
  }

  lemma ConfirmRoutes(p: string)
    ensures RouteOf(p + "cmd/system/confirm") == OtaConfirm
  {
    var topic := p + "cmd/system/confirm";
    assert topic[|topic| - 1] == 'm';
    hide EndsWith;
    EndsWithTail(p, "cmd/system/confirm");
    EndsDifferently(topic, SYSTEM_OTA);
  }

  lemma AllSetRoutes(p: string)
    ensures RouteOf(p + "cmd/relay/all/set") == AllSet
  {
    var topic := p + "cmd/relay/all/set";
    assert topic[|topic| - 1] == 't';
    assert topic[|p|..|p| + |ALL_SET|] == ALL_SET;
    hide EndsWith;
    OccurrenceIsFound(topic, ALL_SET, |p|);
    hide Find, OccursAt;
    EndsDifferently(topic, SYSTEM_OTA);
    EndsDifferently(topic, SYSTEM_CONFIRM);
  }

  lemma EndsWithTail(p: string, tail: string)
    ensures EndsWith(p + tail, tail)
  {
    assert (p + tail)[|p|..] == tail;
  }

  lemma OccurrenceIsFound(s: string, w: string, i: nat)
    requires OccursAt(s, w, i)
    ensures Find(s, w).Some?
  {
  }

  /** The topics of a channel, written out; one of 96 characters or more is not built. */
  lemma TopicsLookLike(root: string, id: string, ch: ChannelId)
    ensures var topic := root + "/" + id + ("/cmd/relay/" + (Dec(ch) + "/set"));
            Built(root, id, SetSuffix(ch), MAX_TOPIC) == if |topic| < 96 then Some(topic) else None
    ensures var topic := root + "/" + id + ("/evt/relay/" + (Dec(ch) + "/state"));
            Built(root, id, StateSuffix(ch), MAX_TOPIC) == if |topic| < 96 then Some(topic) else None
  {
    hide Dec;
    SlashMoves(root + "/" + id, "cmd/relay/", Dec(ch) + "/set");
    SlashMoves(root + "/" + id, "evt/relay/", Dec(ch) + "/state");
    assert "/" + "cmd/relay/" == "/cmd/relay/" && "/" + "evt/relay/" == "/evt/relay/";
  }

  lemma SlashMoves(p: string, a: string, b: string)
    ensures p + "/" + (a + b) == p + ("/" + a + b)
  {
  }
}
