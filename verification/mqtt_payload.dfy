/** MQTT payloads: the relay-state event and the command reader, with exactly which texts it accepts. */
module MqttPayload {
  import opened Wrappers
  import opened Numbers
  import opened RelayTypes
  import opened Text

  const MAX_PAYLOAD: nat := 64

  function SourceName(s: CommandSource): string {
    match s
    case Local => "local"
    case Cloud => "cloud"
    case Lan => "lan"
    case Boot => "boot"
    case Internal => "internal"
  }

  const ON_KEY := "\"on\""

  function OnText(on: bool): string { if on then "true" else "false" }

  function EventTail(src: CommandSource, ts: nat): string {
    ",\"src\":\"" + SourceName(src) + "\",\"ts\":" + Dec(ts) + "}"
  }

  /** {"on":<bool>,"src":"<src>","ts":<n>} */
  function RelayStateText(state: RelayState, src: CommandSource, ts: nat): string {
    "{" + (ON_KEY + ":" + OnText(state.On?) + EventTail(src, ts))
  }

  /** A relay-state event always fits its 64-byte buffer, whatever the time stamp. */
  lemma RelayStateFits(state: RelayState, src: CommandSource, ts: nat)
    requires ts < WRAP
    ensures |RelayStateText(state, src, ts)| < MAX_PAYLOAD
  {
    assert Pow10(10) == 10_000_000_000;
    DecLength(ts, 10);
  }

  predicate IsSpace(c: char) { c == ' ' || c == '\t' || c == '\n' || c == '\r' }

  function SkipSpace(s: string, from: nat): (v: nat)
    requires from <= |s|
    ensures from <= v <= |s|
    decreases |s| - from
  {
    if from < |s| && IsSpace(s[from]) then SkipSpace(s, from + 1) else from
  }

  /** The switch position a command payload asks for: the literal after the first colon at or after
      the first "on" key. */
  function RelaySetOf(data: string): Option<bool> {
    if data == "" || |data| > MAX_PAYLOAD then None
    else
      var buf := CString(data);
      match Find(buf, ON_KEY)
      case None => None
      case Some(key) =>
        match FindFrom(buf, ":", key)
        case None => None
        case Some(colon) =>
          var v := SkipSpace(buf, colon + 1);
          if StartsWith(buf[v..], "true") then Some(true)
          else if StartsWith(buf[v..], "false") then Some(false)
          else None
  }

  method ParseRelaySet(data: string) returns (r: Option<bool>)
    ensures r == RelaySetOf(data)
    ensures forall on :: r == Some(on) <==> Loose(data, on)
  {
    ReadExactly(data, true);
    ReadExactly(data, false);
    hide Loose;
    if data == "" || |data| > MAX_PAYLOAD {
      return None;
    }
    var buf := CString(data);
    var key := Find(buf, ON_KEY);
    if key.None? {
      return None;
    }
    var colon := FindFrom(buf, ":", key.value);
    if colon.None? {
      return None;
    }
    var v := colon.value + 1;
    while v < |buf| && IsSpace(buf[v])
      invariant colon.value + 1 <= v <= |buf|
      invariant SkipSpace(buf, colon.value + 1) == SkipSpace(buf, v)
    {
      v := v + 1;
    }
    if StartsWith(buf[v..], "true") {
      return Some(true);
    }
    if StartsWith(buf[v..], "false") {
      return Some(false);
    }
    return None;
  }

  // ----- What the reader accepts -----

  predicate Blank(s: string) { forall i :: 0 <= i < |s| ==> IsSpace(s[i]) }

  /** The text consists of the first "on" key, the first colon behind it and, after blanks, the literal,
      with anything before, between and behind. */
  ghost predicate Parts(s: string, pre: string, mid: string, ws: string, post: string, on: bool) {
    && s == pre + (ON_KEY + (mid + (":" + (ws + (OnText(on) + post)))))
    && (forall i :: 0 <= i < |pre| ==> !OccursAt(s, ON_KEY, i)) && ':' !in mid && Blank(ws)
  }

  ghost predicate Loose(data: string, on: bool) {
    1 <= |data| <= MAX_PAYLOAD && exists pre, mid, ws, post :: Parts(CString(data), pre, mid, ws, post, on)
  }

  /** The documented shape {"on":<bool>}, with any blanks between its tokens. */
  ghost predicate Shaped(s: string, a: string, b: string, c: string, d: string, e: string, f: string, on: bool) {
    && s == a + "{" + b + (ON_KEY + (c + (":" + (d + (OnText(on) + (e + "}" + f))))))
    && Blank(a) && Blank(b) && Blank(c) && Blank(d) && Blank(e) && Blank(f)
  }

  ghost predicate Shape(data: string, on: bool) {
    1 <= |data| <= MAX_PAYLOAD && exists a, b, c, d, e, f :: Shaped(CString(data), a, b, c, d, e, f, on)
  }

  lemma {:induction false} SkipSpaceIs(s: string, from: nat, v: nat)
    requires from <= v <= |s| && (forall i :: from <= i < v ==> IsSpace(s[i])) && (v < |s| ==> !IsSpace(s[v]))
    ensures SkipSpace(s, from) == v
    decreases v - from
  {
    if from < v {
      SkipSpaceIs(s, from + 1, v);
    }
  }

  lemma {:induction false} SkippedIsBlank(s: string, from: nat)
    requires from <= |s|
    ensures forall i :: from <= i < SkipSpace(s, from) ==> IsSpace(s[i])
    decreases |s| - from
  {
    if from < |s| && IsSpace(s[from]) {
      SkippedIsBlank(s, from + 1);
    }
  }

  lemma OccursHere(a: string, p: string, rest: string)
    ensures OccursAt(a + (p + rest), p, |a|) && (a + (p + rest))[|a| + |p|..] == rest
  {
  }

  lemma NotEarlier(s: string, p: string, from: nat, at: nat)
    requires from <= at && OccursAt(s, p, at) && forall i :: from <= i < at ==> !OccursAt(s, p, i)
    ensures FindFrom(s, p, from) == Some(at)
  {
  }

  lemma ColonAt(s: string, i: nat)
    requires i < |s|
    ensures OccursAt(s, ":", i) <==> s[i] == ':'
  {
  }

  lemma ColonFound(head: string, mid: string, tail: string, from: nat)
    requires from <= |head| && ':' !in head[from..] && ':' !in mid
    ensures var s, colon := head + (mid + (":" + tail)), |head| + |mid|;
            FindFrom(s, ":", from) == Some(colon) && s[colon + 1..] == tail
  {
    var s, colon := head + (mid + (":" + tail)), |head| + |mid|;
    OccursHere(head + mid, ":", tail);
    assert s == head + mid + (":" + tail);
    forall i | from <= i < colon ensures !OccursAt(s, ":", i) {
      ColonAt(s, i);
      assert s[i] == if i < |head| then head[from..][i - from] else mid[i - |head|];
    }
    NotEarlier(s, ":", from, colon);
  }

  lemma BlanksSkipped(s: string, at: nat, ws: string, rest: string)
    requires at <= |s| && s[at..] == ws + rest && Blank(ws) && (rest != "" ==> !IsSpace(rest[0]))
    ensures SkipSpace(s, at) == at + |ws| && s[at + |ws|..] == rest
  {
    var v := at + |ws|;
    assert s[v..] == s[at..][|ws|..] == rest;
    forall i | at <= i < v ensures IsSpace(s[i]) {
      assert s[i] == s[at..][i - at];
    }
    assert v < |s| ==> s[v] == rest[0];
    SkipSpaceIs(s, at, v);
  }

  lemma LiteralsDiffer(on: bool, post: string)
    ensures var s := OnText(on) + post; StartsWith(s, OnText(on)) && !StartsWith(s, OnText(!on)) && !IsSpace(s[0])
  {
    var s := OnText(on) + post;
    assert s[0] == OnText(on)[0];
  }

  lemma KeyFound(s: string, pre: string, mid: string, ws: string, post: string, on: bool)
    requires Parts(s, pre, mid, ws, post, on)
    ensures Find(s, ON_KEY) == Some(|pre|)
  {
    OccursHere(pre, ON_KEY, mid + (":" + (ws + (OnText(on) + post))));
    NotEarlier(s, ON_KEY, 0, |pre|);
  }

  /** A text with such parts is read as its literal. */
  lemma PartsAreRead(s: string, pre: string, mid: string, ws: string, post: string, on: bool)
    requires Parts(s, pre, mid, ws, post, on)
    ensures var colon := |pre| + |ON_KEY| + |mid|;
            && FindFrom(s, ":", |pre|) == Some(colon)
            && SkipSpace(s, colon + 1) == colon + 1 + |ws|
            && s[colon + 1 + |ws|..] == OnText(on) + post
  {
    hide FindFrom, SkipSpace, Blank, OnText, OccursAt, ON_KEY;
    var head, rest := pre + ON_KEY, ws + (OnText(on) + post);
    HeadSplit(pre, mid + (":" + rest));
    ColonFound(head, mid, rest, |pre|);
    AfterColon(s, |head| + |mid| + 1, ws, post, on);
  }

  lemma AfterColon(s: string, at: nat, ws: string, post: string, on: bool)
    requires at <= |s| && s[at..] == ws + (OnText(on) + post) && Blank(ws)
    ensures SkipSpace(s, at) == at + |ws| && s[at + |ws|..] == OnText(on) + post
  {
    hide SkipSpace, Blank, OnText, StartsWith;
    LiteralsDiffer(on, post);
    BlanksSkipped(s, at, ws, OnText(on) + post);
  }

  lemma HeadSplit(pre: string, rest: string)
    ensures pre + (ON_KEY + rest) == pre + ON_KEY + rest && ':' !in (pre + ON_KEY)[|pre|..]
  {
    assert (pre + ON_KEY)[|pre|..] == ON_KEY;
  }

  lemma Reassembled(s: string, key: nat, colon: nat, v: nat, lit: string)
    requires OccursAt(s, ON_KEY, key) && OccursAt(s, ":", colon)
    requires key + |ON_KEY| <= colon < v <= |s| && StartsWith(s[v..], lit)
    ensures v + |lit| <= |s|
    ensures s == s[..key] + (ON_KEY + (s[key + |ON_KEY|..colon] + (":" + (s[colon + 1..v] + (lit + s[v + |lit|..])))))
  {
    var from := key + |ON_KEY|;
    assert s[v..] == lit + s[v + |lit|..];
    assert s[colon + 1..] == s[colon + 1..v] + s[v..];
    assert s[colon..] == ":" + s[colon + 1..];
    assert s[from..] == s[from..colon] + s[colon..];
    assert s[key..] == ON_KEY + s[from..];
    assert s == s[..key] + s[key..];
  }

  /** A text that is read has such parts. */
  lemma ReadHasParts(s: string, key: nat, colon: nat, on: bool)
    returns (pre: string, mid: string, ws: string, post: string)
    requires Find(s, ON_KEY) == Some(key) && FindFrom(s, ":", key) == Some(colon)
    requires StartsWith(s[SkipSpace(s, colon + 1)..], OnText(on))
    ensures Parts(s, pre, mid, ws, post, on)
  {
    hide FindFrom, SkipSpace, OnText, OccursAt, StartsWith;
    var from, v, lit := key + |ON_KEY|, SkipSpace(s, colon + 1), OnText(on);
    KeyHasNoColon(s, key, colon);
    Reassembled(s, key, colon, v, lit);
    pre, mid, ws, post := s[..key], s[from..colon], s[colon + 1..v], s[v + |lit|..];
    SkippedIsBlank(s, colon + 1);
    forall i | 0 <= i < |mid| ensures mid[i] != ':' {
      ColonAt(s, from + i);
    }
  }

  lemma KeyHasNoColon(s: string, key: nat, colon: nat)
    requires OccursAt(s, ON_KEY, key) && OccursAt(s, ":", colon) && key <= colon
    ensures key + |ON_KEY| <= colon
  {
    OccursChar(s, ":", colon, 0);
    if colon < key + |ON_KEY| {
      OccursChar(s, ON_KEY, key, colon - key);
    }
  }

  /** The reader's exact acceptance: a position is returned iff the text has the parts for it. */
  lemma ReadExactly(data: string, on: bool)
    ensures RelaySetOf(data) == Some(on) <==> Loose(data, on)
  {
    var s := CString(data);
    hide CString, Parts, Find, FindFrom, SkipSpace;
    if 1 <= |data| <= MAX_PAYLOAD {
      if RelaySetOf(data) == Some(on) {
        var key := Find(s, ON_KEY).value;
        var pre, mid, ws, post := ReadHasParts(s, key, FindFrom(s, ":", key).value, on);
      }
      if Loose(data, on) {
        var pre, mid, ws, post :| Parts(s, pre, mid, ws, post, on);
        KeyFound(s, pre, mid, ws, post, on);
        PartsAreRead(s, pre, mid, ws, post, on);
        LiteralsDiffer(on, post);
      }
    }
  }

  /** The documented shape has the parts. */
  lemma ShapedHasParts(s: string, a: string, b: string, c: string, d: string, e: string, f: string, on: bool)
    requires Shaped(s, a, b, c, d, e, f, on)
    ensures Parts(s, a + "{" + b, c, d, e + "}" + f, on)
  {
    var pre := a + "{" + b;
    forall i | 0 <= i < |pre| ensures !OccursAt(s, ON_KEY, i) {
      assert s[i] == pre[i] != '"';
      if OccursAt(s, ON_KEY, i) {
        OccursChar(s, ON_KEY, i, 0);
      }
    }
  }

  /** The documented shape is always read as its literal. */
  lemma ShapeIsRead(data: string, on: bool)
    requires Shape(data, on)
    ensures RelaySetOf(data) == Some(on)
  {
    hide CString, Shaped, Parts, RelaySetOf;
    var a, b, c, d, e, f :| Shaped(CString(data), a, b, c, d, e, f, on);
    ShapedHasParts(CString(data), a, b, c, d, e, f, on);
    ReadExactly(data, on);
  }

  /** What a reader of the documented shape alone would return. */
  ghost function Strict(data: string): Option<bool> {
    if Shape(data, true) then Some(true) else if Shape(data, false) then Some(false) else None
  }

  lemma ThreeAnswers(r: Option<bool>)
    ensures r == None || r == Some(true) || r == Some(false)
  {
    if r.Some? {
      var on := r.value;
      assert r == if on then Some(true) else Some(false);
    }
  }

  /** "Anything else is rejected" holds exactly for the texts of the documented shape and those in which
      no literal follows the first colon behind the first "on" key. */
  lemma StrictExactly(data: string)
    ensures RelaySetOf(data) == Strict(data) <==>
            Shape(data, true) || Shape(data, false) || (!Loose(data, true) && !Loose(data, false))
  {
    hide Shape, Loose, RelaySetOf;
    ReadExactly(data, true);
    ReadExactly(data, false);
    ThreeAnswers(RelaySetOf(data));
    if Shape(data, true) {
      ShapeIsRead(data, true);
    }
    if Shape(data, false) {
      ShapeIsRead(data, false);
    }
  }

  /** A text of another shape that is accepted. */
  lemma LooseShapeAccepted(data: string)
    requires data == "\"on\"?:truely"
    ensures RelaySetOf(data) == Some(true) && Strict(data) == None
  {
    var s := CString(data);
    assert s == "" + (ON_KEY + ("?" + (":" + ("" + (OnText(true) + "ly")))));
    assert Parts(s, "", "?", "", "ly", true);
    ReadExactly(data, true);
    hide RelaySetOf;
    forall a, b, c, d, e, f, on ensures !Shaped(s, a, b, c, d, e, f, on) {
      FirstIsNotQuote(s, a, b, c, d, e, f, on);
    }
  }

  lemma FirstIsNotQuote(s: string, a: string, b: string, c: string, d: string, e: string, f: string, on: bool)
    ensures Shaped(s, a, b, c, d, e, f, on) ==> s[0] != '"'
  {
    if Shaped(s, a, b, c, d, e, f, on) {
      assert s[0] == (a + "{")[0];
    }
  }

  /** The text of a relay-state event, taken as a command, asks for the state it reports. */
  lemma PayloadRoundTrip(state: RelayState, src: CommandSource, ts: nat)
    requires ts < WRAP
    ensures RelaySetOf(RelayStateText(state, src, ts)) == Some(state.On?)
  {
    RelayStateFits(state, src, ts);
    TailPlain(src, ts);
    var s, tail := RelayStateText(state, src, ts), EventTail(src, ts);
    assert s == "{" + (ON_KEY + ":" + OnText(state.On?) + tail);
    hide EventTail, RelayStateText, RelaySetOf, CString, Parts;
    EventHasParts(s, state.On?, tail);
    ReadExactly(s, state.On?);
  }

  lemma TailPlain(src: CommandSource, ts: nat)
    ensures '\0' !in EventTail(src, ts)
  {
    NumeralOfDec(ts);
    SourcePlain(src);
    hide Dec, Numeral, SourceName;
  }

  lemma EventHasParts(s: string, on: bool, tail: string)
    requires s == "{" + (ON_KEY + ":" + OnText(on) + tail) && '\0' !in tail
    ensures CString(s) == s && Parts(s, "{", "", "", tail, on)
  {
    NoTerminator(s);
    assert s == "{" + (ON_KEY + ("" + (":" + ("" + (OnText(on) + tail)))));
    if OccursAt(s, ON_KEY, 0) {
      OccursChar(s, ON_KEY, 0, 0);
    }
  }

  lemma SourcePlain(src: CommandSource)
    ensures '\0' !in SourceName(src)
  {
  }

  /** The event written out: its state, its source and its time stamp. */
  lemma EventLooksLike(state: RelayState, src: CommandSource, ts: nat, on: string, name: string)
    requires on == if state == On then "true" else "false"
    requires src == Local ==> name == "local"
    requires src == Cloud ==> name == "cloud"
    requires src == Lan ==> name == "lan"
    requires src == Boot ==> name == "boot"
    requires src == Internal ==> name == "internal"
    ensures RelayStateText(state, src, ts)
         == "{\"on\":" + on + (",\"src\":\"" + name + "\",\"ts\":" + Dec(ts) + "}")
  {
    assert OnText(state.On?) == on && SourceName(src) == name;
    hide Dec, SourceName, OnText;
    var tail := ",\"src\":\"" + name + "\",\"ts\":" + Dec(ts) + "}";
    assert EventTail(src, ts) == tail;
    hide EventTail;
    EventStart(on, tail);
    hide ON_KEY;
  }

  lemma EventStart(on: string, tail: string)
    ensures "{" + (ON_KEY + ":" + on + tail) == "{\"on\":" + on + tail
  {
    assert "{" + (ON_KEY + ":") == "{\"on\":";
  }

  /** The payloads of the command topic, written out, are read as they say. */
  lemma CommandsLookLike(data: string, on: bool)
    requires data == if on then "{\"on\":true}" else "{\"on\":false}"
    ensures RelaySetOf(data) == Some(on)
  {
    PieceEndIs(data, {'\0'}, |data|);
    assert CString(data) == data;
    hide CString, RelaySetOf;
    assert data == "" + "{" + "" + (ON_KEY + ("" + (":" + ("" + (OnText(on) + ("" + "}" + ""))))));
    assert Shaped(data, "", "", "", "", "", "", on);
    ShapeIsRead(data, on);
  }
}
