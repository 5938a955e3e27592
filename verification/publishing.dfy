/** The MQTT service's two directions: relay changes queued and published, commands routed inward. */
module Publishing {
  import opened Wrappers
  import opened Numbers
  import opened RelayTypes
  import opened ControlPlane
  import opened Queues
  import opened MqttText
  import opened MqttPayload
  import Text

  const PUBLISH_DEPTH: nat := 16

  /** The broker connection seam, remembering what was published: topic and payload. */
  class MqttClient {
    var sent: seq<(string, string)>

    constructor ()
      ensures sent == []
    {
      sent := [];
    }

    method Publish(topic: string, payload: string)
      modifies this
      ensures sent == old(sent) + [(topic, payload)]
    {
      sent := sent + [(topic, payload)];
    }
  }

  /** The message announcing a relay change: none if its topic would not fit the topic buffer. */
  function Message(root: string, id: string, a: Announcement, ts: nat): seq<(string, string)>
    requires a.channel < 0x100
  {
    match Built(root, id, StateSuffix(a.channel), MAX_TOPIC)
    case None => []
    case Some(topic) => [(topic, RelayStateText(a.state, a.source, ts))]
  }

  /** The messages for a list of changes, in order. */
  function Messages(root: string, id: string, q: seq<Announcement>, ts: nat): seq<(string, string)>
    requires forall a :: a in q ==> a.channel < 0x100
  {
    if q == [] then []
    else Messages(root, id, q[..|q| - 1], ts) + Message(root, id, q[|q| - 1], ts)
  }

  /** With the configured root and device id in their buffers, every change has its message. */
  lemma MessageIsBuilt(root: string, id: string, a: Announcement, ts: nat)
    requires a.channel < 0x100 && |root| < 24 && |id| < 40
    ensures Message(root, id, a, ts)
         == [(Prefix(root, id) + StateSuffix(a.channel), RelayStateText(a.state, a.source, ts))]
  {
    assert Text.Pow10(3) == 1000;
    Text.DecLength(a.channel, 3);
    hide RelayStateText;
  }

  class MqttService {
    const root: string
    const id: string
    const client: MqttClient
    const publishQ: BoundedQueue<Announcement>
    const commands: CommandQueuePort
    ghost var undrained: seq<Announcement>

    /** The publish queue holds exactly the newest sixteen of the announcements not yet drained. */
    ghost predicate Valid()
      reads this, publishQ, publishQ.buf
    {
      && publishQ.Valid() && publishQ.policy == DropOldest && publishQ.buf.Length == PUBLISH_DEPTH
      && publishQ.Contents() == Newest(undrained, PUBLISH_DEPTH)
      && (forall a :: a in undrained ==> a.channel < 0x100)
    }

    constructor (root: string, id: string, client: MqttClient, commands: CommandQueuePort)
      ensures Valid() && undrained == [] && fresh(publishQ) && fresh(publishQ.buf)
      ensures this.client == client && this.commands == commands && this.root == root && this.id == id
    {
      this.root, this.id, this.client, this.commands := root, id, client, commands;
      publishQ := new BoundedQueue<Announcement>(PUBLISH_DEPTH, DropOldest);
      undrained := [];
    }

    method OnStateChanged(a: Announcement)
      requires Valid() && a.channel < 0x100
      modifies this, publishQ, publishQ.buf
      ensures Valid() && undrained == old(undrained) + [a]
    {
      NewestOfPush(undrained, a, PUBLISH_DEPTH);
      var _ := publishQ.Push(a);
      undrained := undrained + [a];
    }

    /** Publishes everything queued, oldest first. */
    method DrainPublishes(ts: nat)
      requires Valid() && ts < WRAP
      modifies this, publishQ, client
      ensures Valid() && undrained == []
      ensures client.sent == old(client.sent)
                               + Messages(root, id, Newest(old(undrained), PUBLISH_DEPTH), ts)
    {
      hide RingContents, Message;
      ghost var all := publishQ.Contents();
      var budget := publishQ.buf.Length;
      ghost var i := 0;
      var more := true;
      while budget > 0 && more
        invariant publishQ.Valid() && 0 <= i <= |all| && budget + i >= |all|
        invariant publishQ.Contents() == all[i..]
        invariant !more ==> i == |all|
        invariant client.sent == old(client.sent) + Messages(root, id, all[..i], ts)
        decreases budget
      {
        budget := budget - 1;
        var a;
        more, a := publishQ.Pop();
        if more {
          PublishState(a, ts);
          assert all[..i + 1][..i] == all[..i];
          i := i + 1;
        }
      }
      assert all[..|all|] == all;
      undrained := [];
    }

    method PublishState(a: Announcement, ts: nat)
      requires a.channel < 0x100 && ts < WRAP
      modifies client
      ensures client.sent == old(client.sent) + Message(root, id, a, ts)
    {
      var topic := Built(root, id, StateSuffix(a.channel), MAX_TOPIC);
      if topic.None? {
        return;
      }
      RelayStateFits(a.state, a.source, ts);
      var payload := RelayStateText(a.state, a.source, ts);
      if |payload| < MAX_PAYLOAD {
        client.Publish(topic.value, payload);
      }
    }

    /** Routes one incoming message. A relay command is queued for the Control task, never acted on
        here; a malformed payload and an unknown topic are ignored. */
    method OnMessage(topic: string, payload: string) returns (route: Route)
      requires commands.queue.q.Valid() && !commands.queue.cs.inside
      modifies commands.queue.q, commands.queue.q.buf, commands.queue.cs
      ensures commands.queue.q.Valid() && !commands.queue.cs.inside
      ensures route == RouteOf(topic)
      ensures commands.queue.q.Contents()
           == match (route, RelaySetOf(payload))
              case (AllSet, Some(on)) => Queued(old(commands.queue.q.Contents()), SetAll(if on then On else Off, Cloud))
              case (ChannelSet(ch), Some(on)) =>
                Queued(old(commands.queue.q.Contents()), SetChannel(ch, if on then On else Off, Cloud))
              case _ => old(commands.queue.q.Contents())
    {
      hide RelaySetOf, ChannelOf, RingContents;
      if Text.EndsWith(topic, SYSTEM_OTA) {
        return OtaManifest;
      }
      if Text.EndsWith(topic, SYSTEM_CONFIRM) {
        return OtaConfirm;
      }
      if Text.Find(topic, ALL_SET).Some? {
        var on := ParseRelaySet(payload);
        if on.Some? {
          var _ := commands.Submit(SetAll(if on.value then On else Off, Cloud));
        }
        return AllSet;
      }
      var ch := ParseRelaySetChannel(topic);
      if ch.Some? {
        var on := ParseRelaySet(payload);
        if on.Some? {
          var _ := commands.Submit(SetChannel(ch.value, if on.value then On else Off, Cloud));
        }
        return ChannelSet(ch.value);
      }
      return Ignored;
    }

    ghost function Queued(q: seq<ControlCommand>, cmd: ControlCommand): seq<ControlCommand> {
      Pushed(commands.queue.q.policy, commands.queue.q.buf.Length, q, cmd)
    }
  }

  lemma NewestOfPush<T>(xs: seq<T>, x: T, n: nat)
    requires n >= 1
    ensures Pushed(DropOldest, n, Newest(xs, n), x) == Newest(xs + [x], n)
  {
  }

  /** Injecting a built set-topic with a relay-state payload asks for exactly that one command. */
  lemma BuiltCommandRoutes(root: string, id: string, ch: ChannelId, state: RelayState, src: CommandSource, ts: nat)
    requires PlainPrefix(root, id) && ts < WRAP
    ensures RouteOf(Prefix(root, id) + SetSuffix(ch)) == ChannelSet(ch)
    ensures RelaySetOf(RelayStateText(state, src, ts)) == Some(state.On?)
  {
    SetTopicRoutes(root, id, ch);
    PayloadRoundTrip(state, src, ts);
  }

  // ----- What a subscriber believes -----

  /** A subscriber to one topic believes the last readable payload on it, or what it knew before. */
  function Believed(known: RelayState, sent: seq<(string, string)>, topic: string): RelayState {
    if sent == [] then known
    else
      var (t, payload) := sent[|sent| - 1];
      var earlier := Believed(known, sent[..|sent| - 1], topic);
      if t != topic then earlier
      else match RelaySetOf(payload)
           case Some(on) => if on then On else Off
           case None => earlier
  }

  function StateTopic(root: string, id: string, ch: ChannelId): string { Prefix(root, id) + StateSuffix(ch) }

  /** Different channels have different state topics. */
  lemma TopicsDiffer(root: string, id: string, a: ChannelId, b: ChannelId)
    requires StateTopic(root, id, a) == StateTopic(root, id, b)
    ensures a == b
  {
    hide Text.Dec, Text.Numeral, Prefix;
    var p, x, y := Prefix(root, id), StateSuffix(a), StateSuffix(b);
    assert (p + x)[|p|..] == x && (p + y)[|p|..] == y;
    assert x[10..|x| - 6] == Text.Dec(a) && y[10..|y| - 6] == Text.Dec(b);
    Text.NumeralOfDec(a);
    Text.NumeralOfDec(b);
  }

  /** What the messages for some changes make a subscriber to a channel's topic believe is the state
      of the last change of that channel. */
  lemma {:induction false} BelievedIsView(root: string, id: string, q: seq<Announcement>, ts: nat,
                                          known: RelayState, ch: ChannelId)
    requires |root| < 24 && |id| < 40 && ts < WRAP && forall a :: a in q ==> a.channel < 0x100
    ensures Believed(known, Messages(root, id, q, ts), StateTopic(root, id, ch)) == View(known, q, ch)
  {
    hide Message, RelaySetOf, RelayStateText, StateTopic;
    if q != [] {
      var a, earlier := q[|q| - 1], Messages(root, id, q[..|q| - 1], ts);
      BelievedIsView(root, id, q[..|q| - 1], ts, known, ch);
      TopicOfMessage(root, id, a, ts);
      PayloadRoundTrip(a.state, a.source, ts);
      var sent := earlier + Message(root, id, a, ts);
      assert sent[..|sent| - 1] == earlier;
      if StateTopic(root, id, a.channel) == StateTopic(root, id, ch) {
        TopicsDiffer(root, id, a.channel, ch);
      }
    }
  }

  lemma TopicOfMessage(root: string, id: string, a: Announcement, ts: nat)
    requires a.channel < 0x100 && |root| < 24 && |id| < 40
    ensures Message(root, id, a, ts) == [(StateTopic(root, id, a.channel), RelayStateText(a.state, a.source, ts))]
  {
    MessageIsBuilt(root, id, a, ts);
  }

  lemma {:induction false} ViewOfConcat(known: RelayState, a: seq<Announcement>, b: seq<Announcement>, ch: nat)
    ensures View(known, a + b, ch) == View(View(known, a, ch), b, ch)
    ensures Mentions(a + b, ch) == Mentions(a, ch) + Mentions(b, ch)
  {
    if b == [] {
      assert a + b == a;
    } else {
      assert (a + b)[..|a + b| - 1] == a + b[..|b| - 1];
      ViewOfConcat(known, a, b[..|b| - 1], ch);
    }
  }

  lemma {:induction false} ViewWhenMentioned(known: RelayState, other: RelayState, told: seq<Announcement>, ch: nat)
    ensures Mentions(told, ch) == 0 ==> View(known, told, ch) == known
    ensures Mentions(told, ch) > 0 ==> View(known, told, ch) == View(other, told, ch)
  {
    if told != [] {
      ViewWhenMentioned(known, other, told[..|told| - 1], ch);
    }
  }

  /** After a drain of all that was announced, a subscriber that knew the state of a channel when the
      announcements began knows it again, exactly if the channel was mentioned among the newest sixteen
      of them, or an even number of times in all: a channel whose changes were all pushed out is lost
      on an odd number. */
  lemma SubscriberIsCurrentExactly(root: string, id: string, start: seq<RelayState>, undrained: seq<Announcement>,
                                   ts: nat, ch: ChannelId)
    requires |root| < 24 && |id| < 40 && ts < WRAP && forall a :: a in undrained ==> a.channel < 0x100
    requires ch < |start| && NewsOnly(start, undrained)
    ensures var newest := Newest(undrained, PUBLISH_DEPTH);
            var believed := Believed(start[ch], Messages(root, id, newest, ts), StateTopic(root, id, ch));
            believed == Replay(start, undrained)[ch]
            <==> Mentions(newest, ch) > 0 || Mentions(undrained, ch) % 2 == 0
  {
    hide Believed, Messages, StateTopic;
    BelievedIsView(root, id, Newest(undrained, PUBLISH_DEPTH), ts, start[ch], ch);
    NewestDecides(start, undrained, ch);
  }

  lemma NewestDecides(start: seq<RelayState>, undrained: seq<Announcement>, ch: nat)
    requires ch < |start| && NewsOnly(start, undrained)
    ensures View(start[ch], Newest(undrained, PUBLISH_DEPTH), ch) == Replay(start, undrained)[ch] <==>
            Mentions(Newest(undrained, PUBLISH_DEPTH), ch) > 0 || Mentions(undrained, ch) % 2 == 0
  {
    hide View, Mentions, Replay, NewsOnly;
    var newest := Newest(undrained, PUBLISH_DEPTH);
    var lost := undrained[..|undrained| - |newest|];
    assert undrained == lost + newest;
    ViewOfConcat(start[ch], lost, newest, ch);
    ViewWhenMentioned(start[ch], View(start[ch], lost, ch), newest, ch);
    ViewWhenMentioned(View(start[ch], lost, ch), start[ch], newest, ch);
    TrueStateFlips(start, undrained, ch);
  }

  // ----- Several outages -----

  /** What was announced up to a drain since the one before, and the drain's time stamp. */
  datatype Drain = Drain(batch: seq<Announcement>, ts: nat)

  predicate Sendable(drains: seq<Drain>) {
    forall i :: 0 <= i < |drains| ==> drains[i].ts < WRAP && forall a :: a in drains[i].batch ==> a.channel < 0x100
  }

  function Announced(drains: seq<Drain>): seq<Announcement> {
    if drains == [] then [] else Announced(drains[..|drains| - 1]) + drains[|drains| - 1].batch
  }

  /** Everything published by a sequence of drains. */
  function Sent(root: string, id: string, drains: seq<Drain>): seq<(string, string)>
    requires Sendable(drains)
  {
    if drains == [] then []
    else
      var last := drains[|drains| - 1];
      Sent(root, id, drains[..|drains| - 1]) + Messages(root, id, Newest(last.batch, PUBLISH_DEPTH), last.ts)
  }

  /** How often a channel was announced after the last of its announcements that was published. */
  function Missed(drains: seq<Drain>, ch: nat): nat {
    if drains == [] then 0
    else
      var batch := drains[|drains| - 1].batch;
      if Mentions(Newest(batch, PUBLISH_DEPTH), ch) > 0 then 0
      else Missed(drains[..|drains| - 1], ch) + Mentions(batch, ch)
  }

  lemma {:induction false} BelievedConcat(known: RelayState, a: seq<(string, string)>, b: seq<(string, string)>,
                                          topic: string)
    ensures Believed(known, a + b, topic) == Believed(Believed(known, a, topic), b, topic)
  {
    hide RelaySetOf;
    if b == [] {
      assert a + b == a;
    } else {
      assert (a + b)[..|a + b| - 1] == a + b[..|b| - 1];
      BelievedConcat(known, a, b[..|b| - 1], topic);
    }
  }

  lemma {:induction false} ReplayConcat(start: seq<RelayState>, a: seq<Announcement>, b: seq<Announcement>)
    ensures Replay(start, a + b) == Replay(Replay(start, a), b)
    ensures NewsOnly(start, a + b) ==> NewsOnly(start, a) && NewsOnly(Replay(start, a), b)
  {
    if b == [] {
      assert a + b == a;
    } else {
      assert (a + b)[..|a + b| - 1] == a + b[..|b| - 1];
      ReplayConcat(start, a, b[..|b| - 1]);
    }
  }

  /** One more drain: if it publishes the channel the subscriber is up to date again, otherwise every
      announcement of the channel that it loses turns right into wrong and wrong into right. */
  lemma NextDrain(root: string, id: string, known: RelayState, start: seq<RelayState>, d: Drain, ch: ChannelId)
    requires |root| < 24 && |id| < 40 && d.ts < WRAP && forall a :: a in d.batch ==> a.channel < 0x100
    requires ch < |start| && NewsOnly(start, d.batch)
    ensures var newest := Newest(d.batch, PUBLISH_DEPTH);
            var believed := Believed(known, Messages(root, id, newest, d.ts), StateTopic(root, id, ch));
            if Mentions(newest, ch) > 0 then believed == Replay(start, d.batch)[ch]
            else (believed == Replay(start, d.batch)[ch]) == ((known == start[ch]) == (Mentions(d.batch, ch) % 2 == 0))
  {
    hide Believed, Messages, StateTopic, View, Mentions, Replay, NewsOnly;
    var newest := Newest(d.batch, PUBLISH_DEPTH);
    BelievedIsView(root, id, newest, d.ts, known, ch);
    NewestDecides(start, d.batch, ch);
    ViewWhenMentioned(known, start[ch], newest, ch);
    TrueStateFlips(start, d.batch, ch);
  }

  /** Over any sequence of outages: after the last drain a subscriber that knew the state of a channel at
      the beginning knows it exactly if the channel was announced an even number of times after the last
      of its announcements that was published. */
  lemma {:induction false} CurrentAfterDrainsExactly(root: string, id: string, start: seq<RelayState>,
                                                     drains: seq<Drain>, ch: ChannelId)
    requires |root| < 24 && |id| < 40 && Sendable(drains)
    requires ch < |start| && NewsOnly(start, Announced(drains))
    ensures var believed := Believed(start[ch], Sent(root, id, drains), StateTopic(root, id, ch));
            believed == Replay(start, Announced(drains))[ch] <==> Missed(drains, ch) % 2 == 0
  {
    hide Believed, Messages, StateTopic, Mentions, Replay, NewsOnly;
    if drains == [] {
      NothingSent(start[ch], start, StateTopic(root, id, ch));
    } else {
      var earlier, d := drains[..|drains| - 1], drains[|drains| - 1];
      ReplayConcat(start, Announced(earlier), d.batch);
      CurrentAfterDrainsExactly(root, id, start, earlier, ch);
      var sent, topic := Sent(root, id, earlier), StateTopic(root, id, ch);
      var known := Believed(start[ch], sent, topic);
      BelievedConcat(start[ch], sent, Messages(root, id, Newest(d.batch, PUBLISH_DEPTH), d.ts), topic);
      NextDrain(root, id, known, Replay(start, Announced(earlier)), d, ch);
    }
  }

  lemma NothingSent(known: RelayState, start: seq<RelayState>, topic: string)
    ensures Believed(known, [], topic) == known && Replay(start, []) == start
  {
  }

  /** One change of channel 0 followed by sixteen of channel 1 within one broker outage. */
  lemma ALastChangeCanBeLost(source: CommandSource) returns (undrained: seq<Announcement>)
    ensures |undrained| == 17 && NewsOnly([Off, Off], undrained)
    ensures Replay([Off, Off], undrained)[0] == On
    ensures View(Off, Newest(undrained, PUBLISH_DEPTH), 0) == Off
  {
    undrained := [Announcement(0, On, source)];
    ReplayPush([Off, Off], [], undrained[0]);
    assert [] + [undrained[0]] == undrained;
    var flip := On;
    assert Replay([Off, Off], undrained) == [On, Off];
    while |undrained| < 17
      invariant 1 <= |undrained| <= 17 && undrained[0].channel == 0
      invariant forall i :: 1 <= i < |undrained| ==> undrained[i].channel == 1
      invariant NewsOnly([Off, Off], undrained) && Replay([Off, Off], undrained) == [On, Toggle(flip)]
    {
      ReplayPush([Off, Off], undrained, Announcement(1, flip, source));
      undrained := undrained + [Announcement(1, flip, source)];
      flip := Toggle(flip);
    }
    NotMentioned(Off, Newest(undrained, PUBLISH_DEPTH), 0);
  }

  lemma {:induction false} NotMentioned(known: RelayState, told: seq<Announcement>, ch: nat)
    requires forall i :: 0 <= i < |told| ==> told[i].channel != ch
    ensures View(known, told, ch) == known
  {
    if told != [] {
      NotMentioned(known, told[..|told| - 1], ch);
    }
  }
}
