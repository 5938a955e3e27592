/** The enrollment response: '@@'-marked fields sliced out of one buffer without copying. */
module Enrollment {
  import opened Wrappers

  const MAX_RESPONSE: nat := 8192

  datatype Name = DeviceId | MqttHost | MqttRoot | TlsCa | TlsCert | TlsKey

  /** A view into the buffer. */
  datatype Slice = Slice(start: nat, len: nat)

  /** The fields whose marker occurred, and whether all required ones are nonempty. */
  datatype Response = Response(fields: map<Name, Slice>, valid: bool)

  /** The field a marker name stands for; the version header and unknown names stand for none. */
  function FieldFor(k: string): Option<Name> {
    if k == "device_id" then Some(DeviceId)
    else if k == "mqtt_host" then Some(MqttHost)
    else if k == "mqtt_root" then Some(MqttRoot)
    else if k == "tls_ca" then Some(TlsCa)
    else if k == "tls_cert" then Some(TlsCert)
    else if k == "tls_key" then Some(TlsKey)
    else None
  }

  predicate Present(fields: map<Name, Slice>, f: Name) { f in fields && fields[f].len > 0 }

  predicate AllRequired(fields: map<Name, Slice>) {
    Present(fields, TlsCa) && Present(fields, TlsCert) && Present(fields, TlsKey) && Present(fields, MqttHost)
  }

  // ----- Lines and markers, declaratively -----

  predicate LineStart(body: string, i: nat) { i == 0 || (i <= |body| && body[i - 1] == '\n') }

  function LineEnd(body: string, i: nat): (e: nat)
    requires i <= |body|
    ensures i <= e <= |body| && (forall k :: i <= k < e ==> body[k] != '\n') && (e < |body| ==> body[e] == '\n')
    decreases |body| - i
  {
    if i == |body| || body[i] == '\n' then i else LineEnd(body, i + 1)
  }

  /** A line starting with two at-signs. */
  predicate IsMarker(body: string, i: nat) {
    LineStart(body, i) && i + 2 <= |body| && body[i] == '@' && body[i + 1] == '@'
  }

  /** The name on a marker line, without a trailing carriage return. */
  function MarkerName(body: string, i: nat): string
    requires IsMarker(body, i)
  {
    var e := LineEnd(body, i);
    var ne := if e > i + 2 && body[e - 1] == '\r' then e - 1 else e;
    if i + 2 <= ne then body[i + 2..ne] else ""
  }

  predicate Marks(body: string, i: nat, f: Name) { IsMarker(body, i) && FieldFor(MarkerName(body, i)) == Some(f) }

  /** Where the value of a marker begins: after its line. */
  function ValueStart(body: string, i: nat): (s: nat)
    requires i <= |body|
    ensures i <= s <= |body|
  {
    var e := LineEnd(body, i);
    if e < |body| then e + 1 else |body|
  }

  /** The first marker at or after i, or the end. */
  function NextMarker(body: string, i: nat): (n: nat)
    requires i <= |body|
    ensures i <= n <= |body| && (n < |body| ==> IsMarker(body, n))
    ensures forall k :: i <= k < n ==> !IsMarker(body, k)
    decreases |body| - i
  {
    if i == |body| || IsMarker(body, i) then i else NextMarker(body, i + 1)
  }

  predicate LineBreak(c: char) { c == '\n' || c == '\r' }

  /** The end of the text [start, end) without trailing line breaks. */
  function Trimmed(body: string, start: nat, end: nat): (n: nat)
    requires start <= end <= |body|
    ensures start <= n <= end
    ensures forall k :: n <= k < end ==> LineBreak(body[k])
    ensures n > start ==> !LineBreak(body[n - 1])
    decreases end
  {
    if start < end && LineBreak(body[end - 1]) then Trimmed(body, start, end - 1) else end
  }

  /** The value of the marker at i: from its next line to the next marker, trailing line breaks cut. */
  function SliceOf(body: string, i: nat): Slice
    requires i <= |body|
  {
    var s := ValueStart(body, i);
    Slice(s, Trimmed(body, s, NextMarker(body, s)) - s)
  }

  /** The last marker of a field. */
  ghost predicate LastMarker(body: string, f: Name, m: nat) {
    Marks(body, m, f) && forall k: nat :: k > m ==> !Marks(body, k, f)
  }

  /** What parsing must return: for every field, the value of its last marker. */
  ghost predicate Agrees(body: string, fields: map<Name, Slice>) {
    forall f ::
      && (f !in fields ==> forall m: nat :: !Marks(body, m, f))
      && (f in fields ==> exists m: nat :: LastMarker(body, f, m) && fields[f] == SliceOf(body, m))
  }

  // ----- The parser -----

  /** All lines before i have been read: closed fields have the value of their last marker so far; the
      open one starts after its marker, with nothing but its text since. */
  ghost predicate Midway(body: string, i: nat, fields: map<Name, Slice>, cur: Option<Name>, open: nat) {
    && i <= |body|
    && (cur.Some? ==>
          && cur.value in fields && Open(body, i, cur.value, open)
          && fields[cur.value].start == ValueStart(body, open))
    && forall f :: Known(body, i, fields, cur, f)
  }

  ghost predicate Known(body: string, i: nat, fields: map<Name, Slice>, cur: Option<Name>, f: Name)
    requires i <= |body|
  {
    && (f !in fields ==> Absent(body, 0, i, f))
    && (f in fields && cur != Some(f) ==> Closed(body, i, f, fields[f]))
  }

  ghost predicate Absent(body: string, i: nat, j: nat, f: Name) {
    forall m: nat :: i <= m < j ==> !Marks(body, m, f)
  }

  ghost predicate Open(body: string, i: nat, f: Name, open: nat)
    requires i <= |body|
  {
    && open < i && Marks(body, open, f) && ValueStart(body, open) <= i
    && forall k: nat :: open < k < i ==> !IsMarker(body, k)
  }

  ghost predicate Closed(body: string, i: nat, f: Name, s: Slice)
    requires i <= |body|
  {
    exists m: nat :: m < i && Marks(body, m, f) && s == SliceOf(body, m)
                     && forall k: nat :: m < k < i ==> !Marks(body, k, f)
  }

  function Close(body: string, i: nat, fields: map<Name, Slice>, cur: Option<Name>): map<Name, Slice>
    requires cur.Some? ==> cur.value in fields && fields[cur.value].start <= i <= |body|
  {
    if cur.None? then fields
    else
      var start := fields[cur.value].start;
      fields[cur.value := Slice(start, Trimmed(body, start, i) - start)]
  }

  lemma {:induction false} NextMarkerIs(body: string, s: nat, i: nat)
    requires s <= i <= |body| && (i < |body| ==> IsMarker(body, i))
    requires forall k: nat :: s <= k < i ==> !IsMarker(body, k)
    ensures NextMarker(body, s) == i
    decreases i - s
  {
    if s < i {
      NextMarkerIs(body, s + 1, i);
    }
  }

  lemma NoMarkerInLine(body: string, i: nat, k: nat)
    requires i <= |body| && i < k < ValueStart(body, i)
    ensures !IsMarker(body, k)
  {
  }

  /** At a marker line, or at the end, the open field is closed. */
  lemma ClosesField(body: string, i: nat, fields: map<Name, Slice>, cur: Option<Name>, open: nat)
    requires Midway(body, i, fields, cur, open) && (i < |body| ==> IsMarker(body, i))
    ensures Midway(body, i, Close(body, i, fields, cur), None, open)
  {
    hide IsMarker, Marks;
    var closed := Close(body, i, fields, cur);
    if cur.Some? {
      NextMarkerIs(body, ValueStart(body, open), i);
      assert closed[cur.value] == SliceOf(body, open);
      OpenIsLast(body, i, cur.value, open);
      assert Closed(body, i, cur.value, closed[cur.value]);
    }
    forall f ensures Known(body, i, closed, None, f) {
      assert Known(body, i, fields, cur, f);
    }
  }

  lemma OpenIsLast(body: string, i: nat, f: Name, open: nat)
    requires i <= |body| && Open(body, i, f, open)
    ensures forall k: nat :: open < k < i ==> !Marks(body, k, f)
  {
  }

  /** Past a marker line its own field, if any, is open. */
  lemma OpensField(body: string, i: nat, fields: map<Name, Slice>, open: nat)
    requires Midway(body, i, fields, None, open) && i < |body| && IsMarker(body, i)
    ensures var cur := FieldFor(MarkerName(body, i));
            var grown := if cur.Some? then fields[cur.value := Slice(ValueStart(body, i), 0)] else fields;
            Midway(body, ValueStart(body, i), grown, cur, i)
  {
    var next, cur := ValueStart(body, i), FieldFor(MarkerName(body, i));
    forall k: nat | i < k < next ensures !IsMarker(body, k) {
      NoMarkerInLine(body, i, k);
    }
    PassesMarker(body, i, next, fields, cur, open);
  }

  lemma PassesMarker(body: string, i: nat, next: nat, fields: map<Name, Slice>, cur: Option<Name>, open: nat)
    requires i < next <= |body| && next == ValueStart(body, i) && Midway(body, i, fields, None, open)
    requires cur.Some? ==> Marks(body, i, cur.value)
    requires forall f :: Marks(body, i, f) ==> cur == Some(f)
    requires forall k: nat :: i < k < next ==> !IsMarker(body, k)
    ensures Midway(body, next, if cur.Some? then fields[cur.value := Slice(next, 0)] else fields, cur, i)
  {
    hide IsMarker, Closed, Absent, Marks, ValueStart, Known;
    var grown := if cur.Some? then fields[cur.value := Slice(next, 0)] else fields;
    forall f ensures Known(body, next, grown, cur, f) {
      if cur != Some(f) {
        NotMarked(body, i, next, f);
        assert Known(body, i, fields, None, f);
        KnownGrows(body, i, next, fields, grown, None, cur, f);
      } else {
        KnownIfOpen(body, next, grown, f);
      }
    }
  }

  lemma KnownIfOpen(body: string, i: nat, fields: map<Name, Slice>, f: Name)
    requires i <= |body| && f in fields
    ensures Known(body, i, fields, Some(f), f)
  {
  }

  lemma NotMarked(body: string, i: nat, next: nat, f: Name)
    requires !Marks(body, i, f) && forall k: nat :: i < k < next ==> !IsMarker(body, k)
    ensures Absent(body, i, next, f)
  {
  }

  lemma KnownGrows(body: string, i: nat, next: nat, fields: map<Name, Slice>, grown: map<Name, Slice>,
                   was: Option<Name>, cur: Option<Name>, f: Name)
    requires i <= next <= |body| && Known(body, i, fields, was, f) && Absent(body, i, next, f)
    requires cur != Some(f) ==> was != Some(f) && (f in fields <==> f in grown)
    requires cur != Some(f) && f in fields ==> fields[f] == grown[f]
    requires cur == Some(f) ==> f in grown
    ensures Known(body, next, grown, cur, f)
  {
    hide Marks;
    if f in grown && cur != Some(f) {
      ClosedGrows(body, i, next, f, fields[f]);
    }
  }

  lemma ClosedGrows(body: string, i: nat, next: nat, f: Name, s: Slice)
    requires i <= next <= |body| && Closed(body, i, f, s) && Absent(body, i, next, f)
    ensures Closed(body, next, f, s)
  {
    hide Marks;
    var m: nat :| m < i && Marks(body, m, f) && s == SliceOf(body, m)
                  && forall k: nat :: m < k < i ==> !Marks(body, k, f);
    assert forall k: nat :: m < k < next ==> !Marks(body, k, f);
  }

  lemma SkipsLine(body: string, i: nat, fields: map<Name, Slice>, cur: Option<Name>, open: nat)
    requires Midway(body, i, fields, cur, open) && !IsMarker(body, i)
    ensures Midway(body, ValueStart(body, i), fields, cur, open)
  {
    var next := ValueStart(body, i);
    forall k | i <= k < next ensures !IsMarker(body, k) {
      if i < k {
        NoMarkerInLine(body, i, k);
      }
    }
    hide MarkerName, Closed, Absent, SliceOf, Known;
    forall f ensures Known(body, next, fields, cur, f) {
      NotMarked(body, i, next, f);
      assert Known(body, i, fields, cur, f);
      KnownGrows(body, i, next, fields, fields, cur, cur, f);
    }
  }

  lemma AllRead(body: string, fields: map<Name, Slice>, open: nat)
    requires Midway(body, |body|, fields, None, open)
    ensures Agrees(body, fields)
  {
    assert forall k: nat :: k >= |body| ==> !IsMarker(body, k);
    hide IsMarker;
    forall f ensures f !in fields ==> forall m: nat :: !Marks(body, m, f) {
      assert Known(body, |body|, fields, None, f);
    }
    forall f | f in fields ensures exists m: nat :: LastMarker(body, f, m) && fields[f] == SliceOf(body, m) {
      assert Known(body, |body|, fields, None, f);
      var m: nat :| m < |body| && Marks(body, m, f) && fields[f] == SliceOf(body, m)
                    && forall k: nat :: m < k < |body| ==> !Marks(body, k, f);
      assert LastMarker(body, f, m);
    }
  }

  method Parse(body: string) returns (r: Response)
    ensures body == "" || |body| > MAX_RESPONSE ==> r == Response(map[], false)
    ensures 1 <= |body| <= MAX_RESPONSE ==> Agrees(body, r.fields) && r.valid == AllRequired(r.fields)
  {
    if body == "" || |body| > MAX_RESPONSE {
      return Response(map[], false);
    }
    var fields: map<Name, Slice> := map[];
    var cur: Option<Name> := None;
    ghost var open := 0;
    var i := 0;
    while i <= |body|
      invariant i <= |body| && LineStart(body, i) && Midway(body, i, fields, cur, open)
      decreases |body| - i
    {
      hide Midway, MarkerName, FieldFor, Agrees;
      var eol := i;
      while eol < |body| && body[eol] != '\n'
        invariant i <= eol <= |body| && LineEnd(body, i) == LineEnd(body, eol)
      {
        eol := eol + 1;
      }
      if eol - i >= 2 && body[i] == '@' && body[i + 1] == '@' {
        fields, cur := OnMarker(body, i, eol, fields, cur, open);
        open := i;
      } else {
        SkipsLine(body, i, fields, cur, open);
      }
      if eol >= |body| {
        i := |body|;
        break;
      }
      i := eol + 1;
    }
    hide Midway, Agrees;
    ClosesField(body, |body|, fields, cur, open);
    fields := CloseField(body, |body|, fields, cur, open);
    AllRead(body, fields, open);
    return Response(fields, AllRequired(fields));
  }

  /** A marker line closes the open field and opens its own, if its name is known. */
  method OnMarker(body: string, i: nat, eol: nat, fields: map<Name, Slice>, cur: Option<Name>, ghost open: nat)
    returns (fields': map<Name, Slice>, cur': Option<Name>)
    requires Midway(body, i, fields, cur, open) && IsMarker(body, i) && eol == LineEnd(body, i)
    ensures Midway(body, ValueStart(body, i), fields', cur', i)
  {
    hide Midway;
    ClosesField(body, i, fields, cur, open);
    fields' := CloseField(body, i, fields, cur, open);
    OpensField(body, i, fields', open);
    var ne := if eol > i + 2 && body[eol - 1] == '\r' then eol - 1 else eol;
    NameOfLine(body, i, ne);
    cur' := FieldFor(body[i + 2..ne]);
    if cur'.Some? {
      fields' := fields'[cur'.value := Slice(if eol < |body| then eol + 1 else |body|, 0)];
    }
  }

  lemma NameOfLine(body: string, i: nat, ne: nat)
    requires IsMarker(body, i)
    requires var e := LineEnd(body, i); ne == if e > i + 2 && body[e - 1] == '\r' then e - 1 else e
    ensures i + 2 <= ne && MarkerName(body, i) == body[i + 2..ne]
  {
    assert body[i] != '\n' && body[i + 1] != '\n';
    assert LineEnd(body, i) >= i + 2;
  }

  /** Cuts the trailing line breaks off the open field. */
  method CloseField(body: string, end: nat, fields: map<Name, Slice>, cur: Option<Name>, ghost open: nat)
    returns (closed: map<Name, Slice>)
    requires Midway(body, end, fields, cur, open)
    ensures closed == Close(body, end, fields, cur)
  {
    hide Known, Marks, IsMarker, SliceOf;
    if cur.None? {
      return fields;
    }
    var start := fields[cur.value].start;
    var n := end;
    while n > start && LineBreak(body[n - 1])
      invariant start <= n <= end && Trimmed(body, start, end) == Trimmed(body, start, n)
    {
      n := n - 1;
    }
    return fields[cur.value := Slice(start, n - start)];
  }

  // ----- What the fields are -----

  /** Every field lies inside the buffer, and no two fields overlap. */
  lemma SlicesInsideAndDisjoint(body: string, fields: map<Name, Slice>, f: Name, g: Name)
    requires Agrees(body, fields) && f in fields && g in fields && f != g
    ensures fields[f].start + fields[f].len <= |body|
    ensures || fields[f].start + fields[f].len <= fields[g].start
            || fields[g].start + fields[g].len <= fields[f].start
  {
    hide MarkerName, FieldFor, LineEnd, NextMarker, Trimmed;
    var m: nat :| LastMarker(body, f, m) && fields[f] == SliceOf(body, m);
    var n: nat :| LastMarker(body, g, n) && fields[g] == SliceOf(body, n);
    assert m != n;
    SliceInside(body, m);
    if m < n {
      SliceEndsBefore(body, m, n);
    } else {
      SliceEndsBefore(body, n, m);
    }
  }

  lemma SliceInside(body: string, m: nat)
    requires IsMarker(body, m)
    ensures SliceOf(body, m).start + SliceOf(body, m).len <= |body|
  {
  }

  lemma SliceEndsBefore(body: string, m: nat, n: nat)
    requires m < n && IsMarker(body, m) && IsMarker(body, n)
    ensures SliceOf(body, m).start + SliceOf(body, m).len <= n <= SliceOf(body, n).start
  {
    if n < ValueStart(body, m) {
      NoMarkerInLine(body, m, n);
    }
  }

  function TextOf(body: string, s: Slice): string
    requires s.start + s.len <= |body|
  {
    body[s.start..s.start + s.len]
  }

  // ----- Printing and reading back -----

  /** A marker with its value; any name, known or not. */
  datatype Block = Block(name: string, value: string)

  /** The name fits on its line; no line of the value looks like a marker, and the value does not end
      in a line break. */
  predicate Plain(b: Block) {
    && '\n' !in b.name && (b.name != "" ==> b.name[|b.name| - 1] != '\r')
    && (forall i :: 0 <= i < |b.value| ==> !IsMarker(b.value, i))
    && (b.value != "" ==> !LineBreak(b.value[|b.value| - 1]))
  }

  function BlockText(b: Block): string { "@@" + b.name + "\n" + b.value + "\n" }

  function Printed(blocks: seq<Block>): string
    decreases blocks
  {
    if blocks == [] then "" else BlockText(blocks[0]) + Printed(blocks[1..])
  }

  /** The value of the last block naming a field. */
  function LastValue(blocks: seq<Block>, f: Name): Option<string>
    decreases blocks
  {
    if blocks == [] then None
    else
      match LastValue(blocks[1..], f)
      case Some(v) => Some(v)
      case None => if FieldFor(blocks[0].name) == Some(f) then Some(blocks[0].value) else None
  }

  /** Behind text that ends with a line break, lines and markers are those of the rest. */
  lemma MarkersShift(b: string, rest: string, i: nat)
    requires b != "" && b[|b| - 1] == '\n'
    ensures |b| <= i ==> (IsMarker(b + rest, i) <==> IsMarker(rest, i - |b|))
    ensures i < |b| ==> (IsMarker(b + rest, i) <==> IsMarker(b, i))
  {
  }

  lemma {:induction false} LineEndShift(b: string, rest: string, i: nat)
    requires i <= |rest|
    ensures LineEnd(b + rest, |b| + i) == |b| + LineEnd(rest, i)
    decreases |rest| - i
  {
    if i < |rest| && rest[i] != '\n' {
      LineEndShift(b, rest, i + 1);
    }
  }

  lemma {:induction false} NextMarkerShift(b: string, rest: string, i: nat)
    requires i <= |rest| && b != "" && b[|b| - 1] == '\n'
    ensures NextMarker(b + rest, |b| + i) == |b| + NextMarker(rest, i)
    decreases |rest| - i
  {
    MarkersShift(b, rest, |b| + i);
    if i < |rest| && !IsMarker(rest, i) {
      NextMarkerShift(b, rest, i + 1);
    }
  }

  lemma {:induction false} TrimmedShift(b: string, rest: string, start: nat, end: nat)
    requires start <= end <= |rest|
    ensures Trimmed(b + rest, |b| + start, |b| + end) == |b| + Trimmed(rest, start, end)
    decreases end
  {
    if start < end && LineBreak(rest[end - 1]) {
      TrimmedShift(b, rest, start, end - 1);
    }
  }

  /** A marker of the rest keeps its name and value behind any text ending with a line break. */
  lemma NameShift(b: string, rest: string, i: nat)
    requires b != "" && b[|b| - 1] == '\n' && IsMarker(rest, i)
    ensures IsMarker(b + rest, |b| + i) && MarkerName(b + rest, |b| + i) == MarkerName(rest, i)
  {
    MarkersShift(b, rest, |b| + i);
    LineEndShift(b, rest, i);
    var e := LineEnd(rest, i);
    var ne := if e > i + 2 && rest[e - 1] == '\r' then e - 1 else e;
    NameOfLine(rest, i, ne);
    NameOfLine(b + rest, |b| + i, |b| + ne);
    assert (b + rest)[|b| + i + 2..|b| + ne] == rest[i + 2..ne];
  }

  lemma ValueShift(b: string, rest: string, i: nat)
    requires b != "" && b[|b| - 1] == '\n' && IsMarker(rest, i)
    ensures var s, t := SliceOf(b + rest, |b| + i), SliceOf(rest, i);
            && s.start + s.len <= |b + rest| && t.start + t.len <= |rest|
            && s.start == |b| + t.start && s.len == t.len && TextOf(b + rest, s) == TextOf(rest, t)
  {
    hide LineEnd, NextMarker, Trimmed;
    LineEndShift(b, rest, i);
    var v := ValueStart(rest, i);
    assert ValueStart(b + rest, |b| + i) == |b| + v;
    NextMarkerShift(b, rest, v);
    TrimmedShift(b, rest, v, NextMarker(rest, v));
    var t := SliceOf(rest, i);
    assert (b + rest)[|b| + t.start..|b| + t.start + t.len] == rest[t.start..t.start + t.len];
  }

  /** A printed block has its one marker at its start. */
  lemma BlockMarkers(b: Block, i: nat)
    requires Plain(b) && i < |BlockText(b)|
    ensures IsMarker(BlockText(b), i) <==> i == 0
  {
    var t := BlockText(b);
    var v := |b.name| + 3;
    assert t[..2] == "@@" && t[v - 1] == '\n' && t[|t| - 1] == '\n';
    if 0 < i < v {
      assert t[i - 1] == (("@@" + b.name)[i - 1]);
    } else if v <= i < |t| - 1 {
      assert t[i] == b.value[i - v];
      assert !IsMarker(b.value, i - v);
      assert i > v ==> t[i - 1] == b.value[i - v - 1];
      assert i + 1 < |t| - 1 ==> t[i + 1] == b.value[i + 1 - v];
    }
  }

  /** The head block's marker has its name, and its value is the block's value. */
  lemma HeadName(b: Block, rest: string)
    requires Plain(b)
    ensures var body := BlockText(b) + rest; IsMarker(body, 0) && MarkerName(body, 0) == b.name
    ensures LineEnd(BlockText(b) + rest, 0) == |b.name| + 2
  {
    var body := BlockText(b) + rest;
    var v := |b.name| + 3;
    assert body[..2] == "@@" && body[v - 1] == '\n';
    assert body[0] == '@' && body[1] == '@' by { assert body[0] == body[..2][0] && body[1] == body[..2][1]; }
    forall k | 0 <= k < v - 1 ensures body[k] != '\n' {
      assert body[k] == ("@@" + b.name)[k];
    }
    LineEndIs(body, 0, v - 1);
    assert body[2..v - 1] == b.name;
    assert b.name != "" ==> body[v - 2] == b.name[|b.name| - 1];
    NameOfLine(body, 0, v - 1);
  }

  lemma BlockLayout(b: Block, rest: string)
    ensures var t, v := BlockText(b), |b.name| + 3;
            && |t| == v + |b.value| + 1 && t[|t| - 1] == (t + rest)[|t| - 1] == '\n'
            && (t + rest)[v..v + |b.value|] == b.value
            && (b.value != "" ==> (t + rest)[v + |b.value| - 1] == b.value[|b.value| - 1])
  {
    var t, v := BlockText(b), |b.name| + 3;
    assert (t + rest)[v..v + |b.value|] == b.value;
    if b.value != "" {
      assert (t + rest)[v..v + |b.value|][|b.value| - 1] == (t + rest)[v + |b.value| - 1];
    }
  }

  lemma HeadEnds(b: Block, rest: string)
    requires Plain(b) && (rest == "" || IsMarker(rest, 0))
    ensures |b.name| + 3 <= |BlockText(b)|
    ensures NextMarker(BlockText(b) + rest, |b.name| + 3) == |BlockText(b)|
  {
    var t, v := BlockText(b), |b.name| + 3;
    var body := t + rest;
    BlockLayout(b, rest);
    forall k: nat | v <= k < |t| ensures !IsMarker(body, k) {
      MarkersShift(t, rest, k);
      BlockMarkers(b, k);
    }
    MarkersShift(t, rest, |t|);
    hide IsMarker, BlockText;
    NextMarkerIs(body, v, |t|);
  }

  lemma HeadValue(b: Block, rest: string)
    requires Plain(b) && (rest == "" || IsMarker(rest, 0))
    ensures var body := BlockText(b) + rest;
            SliceOf(body, 0) == Slice(|b.name| + 3, |b.value|) && |b.name| + 3 + |b.value| <= |body|
            && TextOf(body, SliceOf(body, 0)) == b.value
  {
    hide IsMarker, BlockText, MarkerName, LineEnd, NextMarker, Trimmed;
    HeadName(b, rest);
    HeadEnds(b, rest);
    BlockLayout(b, rest);
    var t, v := BlockText(b), |b.name| + 3;
    TrimmedIs(t + rest, v, |t|, v + |b.value|);
  }

  lemma {:induction false} LineEndIs(body: string, i: nat, e: nat)
    requires i <= e <= |body| && (e < |body| ==> body[e] == '\n') && forall k :: i <= k < e ==> body[k] != '\n'
    ensures LineEnd(body, i) == e
    decreases e - i
  {
    if i < e {
      LineEndIs(body, i + 1, e);
    }
  }

  lemma {:induction false} TrimmedIs(body: string, start: nat, end: nat, n: nat)
    requires start <= n <= end <= |body| && (forall k :: n <= k < end ==> LineBreak(body[k]))
    requires n > start ==> !LineBreak(body[n - 1])
    ensures Trimmed(body, start, end) == n
    decreases end
  {
    if n < end {
      TrimmedIs(body, start, end - 1, n);
    }
  }

  lemma MarksShift(b: string, rest: string, k: nat, f: Name)
    requires b != "" && b[|b| - 1] == '\n' && k >= |b|
    ensures Marks(b + rest, k, f) <==> Marks(rest, k - |b|, f)
  {
    hide MarkerName, FieldFor;
    MarkersShift(b, rest, k);
    if IsMarker(rest, k - |b|) {
      NameShift(b, rest, k - |b|);
    }
  }

  /** Where the last marker of a field is in a printed response, and what follows it. */
  lemma {:induction false} PrintedMarkers(blocks: seq<Block>, f: Name) returns (m: nat)
    requires forall b :: b in blocks ==> Plain(b)
    ensures blocks != [] ==> IsMarker(Printed(blocks), 0)
    ensures LastValue(blocks, f).None? ==> forall k: nat :: !Marks(Printed(blocks), k, f)
    ensures LastValue(blocks, f).Some? ==>
              && LastMarker(Printed(blocks), f, m)
              && (var s := SliceOf(Printed(blocks), m);
                  s.start + s.len <= |Printed(blocks)| && TextOf(Printed(blocks), s) == LastValue(blocks, f).value)
    decreases blocks
  {
    hide IsMarker, MarkerName, FieldFor, BlockText, SliceOf, Marks, LastMarker, TextOf;
    m := 0;
    if blocks == [] {
      NoMarks(f);
    } else {
      var b, rest := blocks[0], Printed(blocks[1..]);
      var n := PrintedMarkers(blocks[1..], f);
      HeadName(b, rest);
      if LastValue(blocks[1..], f).Some? {
        m := |BlockText(b)| + n;
        LastBehind(b, rest, n, f);
      } else if FieldFor(b.name) == Some(f) {
        LastAtHead(b, rest, f);
      } else {
        MarksSplit(b, rest, f);
      }
    }
  }

  /** The last marker of the rest is the last one behind a block, with the same value. */
  lemma LastBehind(b: Block, rest: string, n: nat, f: Name)
    requires Plain(b) && LastMarker(rest, f, n)
    ensures var t := BlockText(b);
            && LastMarker(t + rest, f, |t| + n)
            && (var s, u := SliceOf(t + rest, |t| + n), SliceOf(rest, n);
                s.start + s.len <= |t + rest| && u.start + u.len <= |rest| && TextOf(t + rest, s) == TextOf(rest, u))
  {
    hide BlockText, Marks, FieldFor, SliceOf, TextOf;
    MarksSplit(b, rest, f);
    BlockLayout(b, rest);
    ShiftedValue(BlockText(b), rest, n, f);
  }

  lemma LastAtHead(b: Block, rest: string, f: Name)
    requires Plain(b) && FieldFor(b.name) == Some(f) && (rest == "" || IsMarker(rest, 0))
    requires forall k: nat :: !Marks(rest, k, f)
    ensures var body := BlockText(b) + rest;
            && LastMarker(body, f, 0)
            && (var s := SliceOf(body, 0); s.start + s.len <= |body| && TextOf(body, s) == b.value)
  {
    hide BlockText, Marks, FieldFor, SliceOf, TextOf, IsMarker;
    MarksSplit(b, rest, f);
    BlockLayout(b, rest);
    HeadValue(b, rest);
  }

  lemma NoMarks(f: Name)
    ensures forall k: nat :: !Marks("", k, f)
  {
  }

  /** A block contributes its own marker; behind it come those of the rest. */
  lemma MarksSplit(b: Block, rest: string, f: Name)
    requires Plain(b)
    ensures forall k: nat ::
              Marks(BlockText(b) + rest, k, f) <==>
              if k < |BlockText(b)| then k == 0 && FieldFor(b.name) == Some(f) else Marks(rest, k - |BlockText(b)|, f)
  {
    hide BlockText, Marks, FieldFor;
    var t := BlockText(b);
    BlockLayout(b, rest);
    forall k: nat
      ensures Marks(t + rest, k, f) <==>
              if k < |t| then k == 0 && FieldFor(b.name) == Some(f) else Marks(rest, k - |t|, f)
    {
      if k >= |t| {
        MarksShift(t, rest, k, f);
      } else {
        MarksHead(b, rest, k, f);
      }
    }
  }

  lemma MarksHead(b: Block, rest: string, k: nat, f: Name)
    requires Plain(b) && k < |BlockText(b)|
    ensures Marks(BlockText(b) + rest, k, f) <==> k == 0 && FieldFor(b.name) == Some(f)
  {
    HeadName(b, rest);
    BlockLayout(b, rest);
    BlockMarkers(b, k);
    hide BlockText, FieldFor, MarkerName;
    MarkersShift(BlockText(b), rest, k);
  }

  lemma ShiftedValue(t: string, rest: string, n: nat, f: Name)
    requires t != "" && t[|t| - 1] == '\n' && Marks(rest, n, f)
    ensures n <= |rest| && |t| + n <= |t + rest|
    ensures var s, u := SliceOf(t + rest, |t| + n), SliceOf(rest, n);
            s.start + s.len <= |t + rest| && u.start + u.len <= |rest| && TextOf(t + rest, s) == TextOf(rest, u)
  {
    ValueShift(t, rest, n);
  }

  /** Parsing what was printed returns every field's last value verbatim, and only the fields that were
      printed; blocks with unknown names, wherever they stand, change nothing. */
  lemma ResponseRoundTrip(blocks: seq<Block>, fields: map<Name, Slice>, f: Name)
    requires (forall b :: b in blocks ==> Plain(b)) && Agrees(Printed(blocks), fields)
    ensures f in fields <==> LastValue(blocks, f).Some?
    ensures f in fields ==>
              && fields[f].start + fields[f].len <= |Printed(blocks)|
              && TextOf(Printed(blocks), fields[f]) == LastValue(blocks, f).value
  {
    var body := Printed(blocks);
    var m := PrintedMarkers(blocks, f);
    hide Printed, LastValue, Marks, SliceOf;
    if f in fields {
      var n: nat :| LastMarker(body, f, n) && fields[f] == SliceOf(body, n);
      assert LastValue(blocks, f).Some? ==> m == n;
    }
  }

  /** The printed identity is accepted exactly if all required values are nonempty. */
  lemma ValidExactly(blocks: seq<Block>, fields: map<Name, Slice>)
    requires (forall b :: b in blocks ==> Plain(b)) && Agrees(Printed(blocks), fields)
    ensures AllRequired(fields) <==>
            forall f :: f in {TlsCa, TlsCert, TlsKey, MqttHost} ==>
                          LastValue(blocks, f).Some? && LastValue(blocks, f).value != ""
  {
    hide Printed, LastValue, Agrees;
    ResponseRoundTrip(blocks, fields, TlsCa);
    ResponseRoundTrip(blocks, fields, TlsCert);
    ResponseRoundTrip(blocks, fields, TlsKey);
    ResponseRoundTrip(blocks, fields, MqttHost);
  }

  // ----- By the literal marker texts -----

  /** The value of the last block printed under a name. */
  function LastNamed(blocks: seq<Block>, name: string): Option<string>
    decreases blocks
  {
    if blocks == [] then None
    else
      match LastNamed(blocks[1..], name)
      case Some(v) => Some(v)
      case None => if blocks[0].name == name then Some(blocks[0].value) else None
  }

  /** The field was printed under the name, and holds what was printed there last. */
  ghost predicate Holds(blocks: seq<Block>, fields: map<Name, Slice>, f: Name, name: string) {
    && (f in fields <==> LastNamed(blocks, name).Some?)
    && (f in fields ==>
          && fields[f].start + fields[f].len <= |Printed(blocks)|
          && TextOf(Printed(blocks), fields[f]) == LastNamed(blocks, name).value)
  }

  lemma {:induction false} NamedIsLast(blocks: seq<Block>, f: Name, name: string)
    requires StandsFor(name, f)
    ensures LastValue(blocks, f) == LastNamed(blocks, name)
    decreases blocks
  {
    hide FieldFor;
    if blocks != [] {
      NamedIsLast(blocks[1..], f, name);
    }
  }

  /** Parsing a printed response puts under each of the six fields what was printed under its own text,
      whatever else was printed around it. */
  lemma IdentityRoundTrip(blocks: seq<Block>, fields: map<Name, Slice>)
    requires (forall b :: b in blocks ==> Plain(b)) && Agrees(Printed(blocks), fields)
    ensures Holds(blocks, fields, DeviceId, "device_id") && Holds(blocks, fields, MqttHost, "mqtt_host")
    ensures Holds(blocks, fields, MqttRoot, "mqtt_root") && Holds(blocks, fields, TlsCa, "tls_ca")
    ensures Holds(blocks, fields, TlsCert, "tls_cert") && Holds(blocks, fields, TlsKey, "tls_key")
  {
    FieldTexts();
    hide FieldFor, Holds, Agrees;
    HoldsUnder(blocks, fields, DeviceId, "device_id");
    HoldsUnder(blocks, fields, MqttHost, "mqtt_host");
    HoldsUnder(blocks, fields, MqttRoot, "mqtt_root");
    HoldsUnder(blocks, fields, TlsCa, "tls_ca");
    HoldsUnder(blocks, fields, TlsCert, "tls_cert");
    HoldsUnder(blocks, fields, TlsKey, "tls_key");
  }

  ghost predicate StandsFor(name: string, f: Name) { forall n :: FieldFor(n) == Some(f) <==> n == name }

  lemma FieldTexts()
    ensures StandsFor("device_id", DeviceId) && StandsFor("mqtt_host", MqttHost) && StandsFor("mqtt_root", MqttRoot)
    ensures StandsFor("tls_ca", TlsCa) && StandsFor("tls_cert", TlsCert) && StandsFor("tls_key", TlsKey)
  {
  }

  lemma HoldsUnder(blocks: seq<Block>, fields: map<Name, Slice>, f: Name, name: string)
    requires (forall b :: b in blocks ==> Plain(b)) && Agrees(Printed(blocks), fields) && StandsFor(name, f)
    ensures Holds(blocks, fields, f, name)
  {
    NamedIsLast(blocks, f, name);
    hide FieldFor, Printed, Agrees, Plain, LastNamed, LastValue;
    ResponseRoundTrip(blocks, fields, f);
  }

  predicate NamedNonempty(blocks: seq<Block>, name: string) {
    LastNamed(blocks, name).Some? && LastNamed(blocks, name).value != ""
  }

  /** A response is accepted exactly if a nonempty value was printed last under each of these four texts. */
  lemma AcceptedExactly(blocks: seq<Block>, fields: map<Name, Slice>)
    requires (forall b :: b in blocks ==> Plain(b)) && Agrees(Printed(blocks), fields)
    ensures AllRequired(fields) <==>
            && NamedNonempty(blocks, "tls_ca") && NamedNonempty(blocks, "tls_cert")
            && NamedNonempty(blocks, "tls_key") && NamedNonempty(blocks, "mqtt_host")
  {
    hide Holds, Present, NamedNonempty, Agrees;
    IdentityRoundTrip(blocks, fields);
    PresentIsNonempty(blocks, fields, TlsCa, "tls_ca");
    PresentIsNonempty(blocks, fields, TlsCert, "tls_cert");
    PresentIsNonempty(blocks, fields, TlsKey, "tls_key");
    PresentIsNonempty(blocks, fields, MqttHost, "mqtt_host");
  }

  lemma PresentIsNonempty(blocks: seq<Block>, fields: map<Name, Slice>, f: Name, name: string)
    requires Holds(blocks, fields, f, name)
    ensures Present(fields, f) <==> NamedNonempty(blocks, name)
  {
    hide Printed, LastNamed;
  }

  /** A marker line may end with a carriage return before its line feed. */
  lemma CarriageReturnDropped(name: string, rest: string)
    requires '\n' !in name
    ensures var body := "@@" + (name + ("\r\n" + rest)); IsMarker(body, 0) && MarkerName(body, 0) == name
  {
    var body := "@@" + (name + ("\r\n" + rest));
    var e := |name| + 3;
    assert body[0] == '@' && body[1] == '@' && body[e] == '\n' && body[e - 1] == '\r';
    forall k | 0 <= k < e ensures body[k] != '\n' {
      if 2 <= k < e - 1 {
        assert body[k] == name[k - 2];
      }
    }
    LineEndIs(body, 0, e);
    assert body[2..e - 1] == name;
  }
}
