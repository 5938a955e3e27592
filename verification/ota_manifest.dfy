/** The OTA manifest codec: key=value tokens between separators, each field bounded. */
module OtaManifests {
  import opened Wrappers
  import opened Numbers
  import opened Text
  import opened OtaTypes

  // ----- Numbers -----

  /** One to ten digits, and nothing else: the numeral modulo 2^32. */
  function U32Of(v: string): Option<nat> {
    if 1 <= |v| <= 10 && AllDigits(v) then Some(Numeral(v) % WRAP) else None
  }

  method ParseU32(v: string) returns (r: Option<nat>)
    ensures r == U32Of(v)
  {
    if |v| == 0 || |v| > 10 {
      return None;
    }
    var acc := 0;
    assert v[..0] == "";
    for i := 0 to |v|
      invariant AllDigits(v[..i]) && acc == Numeral(v[..i]) % WRAP
    {
      if !IsDigit(v[i]) {
        return None;
      }
      assert v[..i + 1][..i] == v[..i];
      AccumulatorWraps(Numeral(v[..i]), DigitValue(v[i]));
      acc := (acc * 10 + DigitValue(v[i])) % WRAP;
    }
    assert v[..|v|] == v;
    return Some(acc);
  }

  /** The accepted numeral is read exactly if and only if it is below 2^32. */
  lemma U32ExactBelowWrap(v: string)
    requires 1 <= |v| <= 10 && AllDigits(v)
    ensures U32Of(v) == Some(Numeral(v)) <==> Numeral(v) < WRAP
  {
  }

  /** A ten-digit numeral can be too large: 2^32 itself reads as zero. */
  lemma U32Wraps()
    ensures AllDigits(Dec(WRAP)) && Numeral(Dec(WRAP)) == WRAP && U32Of(Dec(WRAP)) == Some(0)
  {
    NumeralOfDec(WRAP);
    assert Pow10(10) == 10_000_000_000;
    DecLength(WRAP, 10);
  }

  function U8Of(v: string): Option<nat> {
    match U32Of(v)
    case Some(r) => if r > 255 then None else Some(r)
    case None => None
  }

  /** A nonempty numeral of at most 65535. */
  predicate Small(p: string) { p != "" && AllDigits(p) && Numeral(p) <= 65535 }

  /** Exactly three such numerals between dots. */
  function VersionOf(v: string): Option<FwVersion> {
    var parts := Split(v, {'.'});
    if |parts| == 3 && Small(parts[0]) && Small(parts[1]) && Small(parts[2])
    then Some(FwVersion(Numeral(parts[0]), Numeral(parts[1]), Numeral(parts[2])))
    else None
  }

  lemma {:induction false} LongerNumeral(a: string, b: string)
    requires AllDigits(a + b)
    ensures AllDigits(a) && Numeral(a) <= Numeral(a + b)
  {
    assert a == (a + b)[..|a|];
    forall i | 0 <= i < |a| ensures IsDigit(a[i]) {
      assert (a + b)[i] == a[i];
    }
    if b == "" {
      assert a + b == a;
    } else {
      assert (a + b)[..|a + b| - 1] == a + b[..|b| - 1];
      LongerNumeral(a, b[..|b| - 1]);
    }
  }

  /** A piece that is already beyond repair rules the version out. */
  lemma NotAVersion(v: string, done: seq<string>, seg: string, rest: string)
    requires Split(v, {'.'}) == done + Split(seg + rest, {'.'}) && |done| <= 2 && Free(seg, {'.'})
    requires || (exists i :: 0 <= i < |seg| && !IsDigit(seg[i]))
             || (AllDigits(seg) && Numeral(seg) > 65535)
             || (seg == "" && rest != "" && rest[0] == '.')
             || (seg == "" && rest == "")
    ensures VersionOf(v) == None
  {
    FirstPieceExtends(seg, rest, {'.'});
    var piece := Split(seg + rest, {'.'})[0];
    assert Split(v, {'.'})[|done|] == piece;
    if Small(piece) {
      assert forall i :: 0 <= i < |seg| ==> piece[i] == seg[i];
      LongerNumeral(seg, Split(rest, {'.'})[0]);
    }
  }

  /** The state of the version reader before character i: the pieces completed so far with their
      values, and the one under way. */
  ghost predicate Reading(v: string, i: nat, done: seq<string>, parts: seq<nat>, seg: string, cur: nat) {
    && i <= |v|
    && Split(v, {'.'}) == done + Split(seg + v[i..], {'.'})
    && |done| == |parts| <= 2
    && (forall k :: 0 <= k < |done| ==> Small(done[k]) && parts[k] == Numeral(done[k]))
    && Free(seg, {'.'}) && AllDigits(seg) && cur == Numeral(seg) <= 65535
  }

  lemma ReadDot(v: string, i: nat, done: seq<string>, parts: seq<nat>, seg: string, cur: nat)
    requires Reading(v, i, done, parts, seg, cur) && i < |v| && v[i] == '.'
    ensures seg == "" || |parts| == 2 ==> VersionOf(v) == None
    ensures seg != "" && |parts| < 2 ==> Reading(v, i + 1, done + [seg], parts + [cur], "", 0)
  {
    hide Split, Numeral;
    if seg == "" {
      NotAVersion(v, done, seg, v[i..]);
    }
    SplitStep(seg, '.', v[i + 1..], {'.'});
    assert seg + v[i..] == seg + ['.'] + v[i + 1..];
    assert "" + v[i + 1..] == v[i + 1..];
    if seg != "" && |parts| < 2 {
      assert Small(seg);
      EmptyNumeral();
    }
  }

  lemma EmptyNumeral()
    ensures Numeral("") == 0
  {
  }

  lemma ReadOther(v: string, i: nat, done: seq<string>, parts: seq<nat>, seg: string, cur: nat)
    requires Reading(v, i, done, parts, seg, cur) && i < |v| && v[i] != '.'
    ensures !IsDigit(v[i]) || cur * 10 + DigitValue(v[i]) > 65535 ==> VersionOf(v) == None
    ensures IsDigit(v[i]) && cur * 10 + DigitValue(v[i]) <= 65535 ==>
              Reading(v, i + 1, done, parts, seg + [v[i]], cur * 10 + DigitValue(v[i]))
  {
    var more := seg + [v[i]];
    assert more + v[i + 1..] == seg + v[i..];
    assert more[..|seg|] == seg && more[|seg|] == v[i];
    if !IsDigit(v[i]) || Numeral(more) > 65535 {
      NotAVersion(v, done, more, v[i + 1..]);
    }
  }

  lemma ReadEnd(v: string, done: seq<string>, parts: seq<nat>, seg: string, cur: nat)
    requires Reading(v, |v|, done, parts, seg, cur)
    ensures VersionOf(v) == if seg != "" && |parts| == 2 then Some(FwVersion(parts[0], parts[1], cur)) else None
  {
    assert seg + v[|v|..] == seg;
    SplitLast(seg, {'.'});
  }

  method ParseVer(v: string) returns (r: Option<FwVersion>)
    ensures r == VersionOf(v)
  {
    var parts: seq<nat> := [];
    var cur: nat := 0;
    var any := false;
    ghost var done: seq<string> := [];
    ghost var seg := "";
    assert "" + v == v;
    for i := 0 to |v|
      invariant Reading(v, i, done, parts, seg, cur) && any == (seg != "")
    {
      if v[i] == '.' {
        ReadDot(v, i, done, parts, seg, cur);
        if !any || |parts| >= 2 {
          return None;
        }
        parts, done := parts + [cur], done + [seg];
        cur, any, seg := 0, false, "";
      } else if IsDigit(v[i]) {
        ReadOther(v, i, done, parts, seg, cur);
        cur, any, seg := cur * 10 + DigitValue(v[i]), true, seg + [v[i]];
        if cur > 65535 {
          return None;
        }
      } else {
        ReadOther(v, i, done, parts, seg, cur);
        return None;
      }
    }
    ReadEnd(v, done, parts, seg, cur);
    if !any || |parts| != 2 {
      return None;
    }
    return Some(FwVersion(parts[0], parts[1], cur));
  }

  // ----- The manifest -----

  const SEPARATORS: set<char> := {';', '&', '\n', '\r'}
  const MAX_MANIFEST: nat := 1024
  const URL_CAP: nat := 160
  const SIG_CAP: nat := 120
  const HW_CAP: nat := 40
  const MAX_CHANNELS: nat := 4

  const EMPTY := OtaManifest("", FwVersion(0, 0, 0), "", "", 0, 0, false, false)

  /** A manifest under construction, and which required fields have been read. */
  datatype Draft = Draft(m: OtaManifest, url: bool, ver: bool, sig: bool, hw: bool, ch: bool, size: bool)

  const NOTHING := Draft(EMPTY, false, false, false, false, false, false)

  datatype Key = Url | Ver | Sig | Hw | Ch | Size | Dg | Other

  function Named(k: string): Key {
    if k == "url" then Url
    else if k == "sig" then Sig
    else if k == "hw" then Hw
    else if k == "ver" then Ver
    else if k == "ch" then Ch
    else if k == "size" then Size
    else if k == "dg" then Dg
    else Other
  }

  function KeyText(key: Key): string {
    match key
    case Url => "url"
    case Sig => "sig"
    case Hw => "hw"
    case Ver => "ver"
    case Ch => "ch"
    case Size => "size"
    case Dg => "dg"
    case Other => "x"
  }

  /** The key and value of a token: split at the first '=', both sides nonempty. */
  function Pair(token: string): (r: Option<(Key, string)>)
    ensures r.Some? ==> r.value.1 != ""
  {
    var eq := PieceEnd(token, {'='});
    if 0 < eq && eq + 1 < |token| then Some((Named(token[..eq]), token[eq + 1..])) else None
  }

  /** The keys given by a list of tokens. */
  function Given(tokens: seq<string>): set<Key>
    decreases tokens
  {
    if tokens == [] then {}
    else (match Pair(tokens[0]) case Some((key, _)) => {key} case None => {}) + Given(tokens[1..])
  }

  /** What a key=value pair does to the draft. A value that does not fit or does not parse withdraws
      the field's flag again; an unknown key does nothing. */
  function ApplyPair(d: Draft, key: Key, v: string): Draft
    requires v != ""
  {
    match key
    case Url => if |v| < URL_CAP then d.(m := d.m.(url := v), url := true) else d.(url := false)
    case Sig => if |v| < SIG_CAP then d.(m := d.m.(sig := v), sig := true) else d.(sig := false)
    case Hw => if |v| < HW_CAP then d.(m := d.m.(hwFamily := v), hw := true) else d.(hw := false)
    case Ver =>
      (match VersionOf(v)
       case Some(x) => d.(m := d.m.(version := x), ver := true)
       case None => d.(ver := false))
    case Ch =>
      (match U8Of(v)
       case Some(x) => d.(m := d.m.(hwChannels := x), ch := true)
       case None => d.(ch := false))
    case Size =>
      (match U32Of(v)
       case Some(x) => d.(m := d.m.(sizeBytes := x), size := true)
       case None => d.(size := false))
    case Dg => d.(m := d.m.(allowDowngrade := v[0] == '1'))
    case Other => d
  }

  function ApplyToken(d: Draft, token: string): Draft {
    match Pair(token)
    case Some((key, v)) => ApplyPair(d, key, v)
    case None => d
  }

  function ApplyTokens(d: Draft, tokens: seq<string>): Draft
    decreases tokens
  {
    if tokens == [] then d else ApplyTokens(ApplyToken(d, tokens[0]), tokens[1..])
  }

  function Finished(d: Draft): OtaManifest {
    d.m.(valid := d.url && d.ver && d.sig && d.hw && d.ch && d.size && 1 <= d.m.hwChannels <= MAX_CHANNELS)
  }

  function ManifestOf(payload: string): OtaManifest {
    if payload == "" || |payload| > MAX_MANIFEST then EMPTY
    else Finished(ApplyTokens(NOTHING, Split(payload, SEPARATORS)))
  }

  /** Scans the payload token by token and each token for its '='. */
  method Parse(payload: string) returns (m: OtaManifest)
    ensures m == ManifestOf(payload)
  {
    hide ApplyToken, ApplyTokens, Split;
    if payload == "" || |payload| > MAX_MANIFEST {
      return EMPTY;
    }
    var d := NOTHING;
    assert payload[0..] == payload;
    var i := 0;
    while i < |payload|
      invariant i <= |payload| + 1
      invariant ApplyTokens(NOTHING, Split(payload, SEPARATORS))
             == if i <= |payload| then ApplyTokens(d, Split(payload[i..], SEPARATORS)) else d
    {
      var rest := payload[i..];
      var j := i;
      while j < |payload| && payload[j] != ';' && payload[j] != '&' && payload[j] != '\n' && payload[j] != '\r'
        invariant i <= j <= |payload|
        invariant forall k :: i <= k < j ==> payload[k] !in SEPARATORS
      {
        j := j + 1;
      }
      PieceEndIs(rest, SEPARATORS, j - i);
      var token := payload[i..j];
      assert token == rest[..j - i];
      assert j < |payload| ==> payload[j + 1..] == rest[j - i + 1..];
      assert j == |payload| ==> rest == token;
      SplitHead(rest, d);
      d := Token(d, token);
      i := j + 1;
    }
    if i == |payload| {
      assert payload[i..] == "";
      EmptyTail(d);
    }
    return Finished(d);
  }

  lemma EmptyTail(d: Draft)
    ensures ApplyTokens(d, Split("", SEPARATORS)) == d
  {
    SplitLast("", SEPARATORS);
  }

  lemma SplitHead(rest: string, d: Draft)
    ensures var j := PieceEnd(rest, SEPARATORS);
            ApplyTokens(d, Split(rest, SEPARATORS))
            == if j == |rest| then ApplyToken(d, rest)
               else ApplyTokens(ApplyToken(d, rest[..j]), Split(rest[j + 1..], SEPARATORS))
  {
    hide ApplyToken;
    var j := PieceEnd(rest, SEPARATORS);
    var parts := Split(rest, SEPARATORS);
    if j < |rest| {
      assert parts[0] == rest[..j] && parts[1..] == Split(rest[j + 1..], SEPARATORS);
    }
  }

  method Token(d: Draft, token: string) returns (r: Draft)
    ensures r == ApplyToken(d, token)
  {
    r := d;
    var eq := 0;
    while eq < |token| && token[eq] != '='
      invariant 0 <= eq <= |token| && forall k :: 0 <= k < eq ==> token[k] !in {'='}
    {
      eq := eq + 1;
    }
    PieceEndIs(token, {'='}, eq);
    if eq == 0 || eq >= |token| {
      return;
    }
    var k, v := token[..eq], token[eq + 1..];
    if v == "" {
      return;
    }
    assert Pair(token) == Some((Named(k), v));
    hide Pair, ApplyPair;
    r := SetField(d, k, v);
  }

  method SetField(d: Draft, k: string, v: string) returns (r: Draft)
    requires v != ""
    ensures r == ApplyPair(d, Named(k), v)
  {
    hide VersionOf, U32Of;
    r := d;
    if k == "url" {
      r := if |v| + 1 > URL_CAP then r.(url := false) else r.(m := r.m.(url := v), url := true);
    } else if k == "sig" {
      r := if |v| + 1 > SIG_CAP then r.(sig := false) else r.(m := r.m.(sig := v), sig := true);
    } else if k == "hw" {
      r := if |v| + 1 > HW_CAP then r.(hw := false) else r.(m := r.m.(hwFamily := v), hw := true);
    } else if k == "ver" {
      var x := ParseVer(v);
      r := if x.Some? then r.(m := r.m.(version := x.value), ver := true) else r.(ver := false);
    } else if k == "ch" {
      var x := ParseU32(v);
      r := if x.Some? && x.value <= 255 then r.(m := r.m.(hwChannels := x.value), ch := true) else r.(ch := false);
    } else if k == "size" {
      var x := ParseU32(v);
      r := if x.Some? then r.(m := r.m.(sizeBytes := x.value), size := true) else r.(size := false);
    } else if k == "dg" {
      r := r.(m := r.m.(allowDowngrade := v[0] == '1'));
    }
  }

  // ----- Printing and reading back -----

  function VersionText(v: FwVersion): string { Join([Dec(v.major), Dec(v.minor), Dec(v.patch)], '.') }

  /** The value printed for a known key. */
  function FieldText(m: OtaManifest, key: Key): string {
    match key
    case Url => m.url
    case Ver => VersionText(m.version)
    case Sig => m.sig
    case Hw => m.hwFamily
    case Ch => Dec(m.hwChannels)
    case Size => Dec(m.sizeBytes)
    case Dg => if m.allowDowngrade then "1" else "0"
    case Other => ""
  }

  /** A valid manifest whose values fit their buffers and hold no separator; '=' may occur in them. */
  ghost predicate Printable(m: OtaManifest) {
    && m.valid
    && 1 <= |m.url| < URL_CAP && 1 <= |m.sig| < SIG_CAP && 1 <= |m.hwFamily| < HW_CAP
    && 1 <= m.hwChannels <= MAX_CHANNELS && m.sizeBytes < WRAP
  }

  /** A token that fits a description: no known key, or that key's value. */
  ghost predicate Fitting(token: string, m: OtaManifest) {
    Pair(token).Some? && !Pair(token).value.0.Other? ==> Pair(token).value.1 == FieldText(m, Pair(token).value.0)
  }

  /** A list of tokens describing a manifest: every required key occurs, "dg" too if downgrades are
      allowed, always with its value; any other tokens may be anywhere. */
  ghost predicate Describes(tokens: seq<string>, m: OtaManifest) {
    && (forall t :: t in tokens ==> Fitting(t, m))
    && {Url, Ver, Sig, Hw, Ch, Size} <= Given(tokens)
    && (m.allowDowngrade ==> Dg in Given(tokens))
  }

  lemma VersionRoundTrip(v: FwVersion)
    ensures VersionOf(VersionText(v)) == Some(v)
  {
    NumeralOfDec(v.major);
    NumeralOfDec(v.minor);
    NumeralOfDec(v.patch);
    SplitJoin([Dec(v.major), Dec(v.minor), Dec(v.patch)], '.', {'.'});
  }

  lemma U32RoundTrip(n: nat)
    requires n < WRAP
    ensures U32Of(Dec(n)) == Some(n)
  {
    hide Dec, Numeral;
    NumeralOfDec(n);
    TenDigits(n);
  }

  lemma TenDigits(n: nat)
    requires n < WRAP
    ensures |Dec(n)| <= 10
  {
    hide Dec;
    assert Pow10(10) == 10_000_000_000;
    DecLength(n, 10);
  }

  /** A draft with exactly the given fields, and their values. */
  ghost predicate Drafted(d: Draft, given: set<Key>, m: OtaManifest) {
    && d.url == (Url in given) && (d.url ==> d.m.url == m.url)
    && d.ver == (Ver in given) && (d.ver ==> d.m.version == m.version)
    && d.sig == (Sig in given) && (d.sig ==> d.m.sig == m.sig)
    && d.hw == (Hw in given) && (d.hw ==> d.m.hwFamily == m.hwFamily)
    && d.ch == (Ch in given) && (d.ch ==> d.m.hwChannels == m.hwChannels)
    && d.size == (Size in given) && (d.size ==> d.m.sizeBytes == m.sizeBytes)
    && d.m.allowDowngrade == (Dg in given && m.allowDowngrade)
  }

  lemma DraftPair(d: Draft, given: set<Key>, key: Key, m: OtaManifest)
    requires Drafted(d, given, m) && Printable(m)
    ensures !key.Other? ==> FieldText(m, key) != "" && Drafted(ApplyPair(d, key, FieldText(m, key)), given + {key}, m)
  {
    VersionRoundTrip(m.version);
    U32RoundTrip(m.hwChannels);
    U32RoundTrip(m.sizeBytes);
    hide VersionOf, U32Of, Dec, Join;
  }

  lemma {:induction false} DraftAll(d: Draft, given: set<Key>, tokens: seq<string>, m: OtaManifest)
    requires Drafted(d, given, m) && Printable(m) && forall t :: t in tokens ==> Fitting(t, m)
    ensures Drafted(ApplyTokens(d, tokens), given + Given(tokens), m)
    decreases tokens
  {
    hide Drafted, FieldText, Pair;
    if tokens == [] {
      assert given + Given(tokens) == given;
    } else {
      assert Fitting(tokens[0], m);
      match Pair(tokens[0])
      case None =>
        DraftAll(d, given, tokens[1..], m);
        assert given + Given(tokens) == given + Given(tokens[1..]);
      case Some((key, v)) =>
        if key.Other? {
          OtherIsNothing(d, given, m);
        }
        DraftPair(d, given, key, m);
        DraftAll(ApplyPair(d, key, v), given + {key}, tokens[1..], m);
        assert given + Given(tokens) == given + {key} + Given(tokens[1..]);
    }
  }

  lemma OtherIsNothing(d: Draft, given: set<Key>, m: OtaManifest)
    ensures Drafted(d, given, m) ==> Drafted(d, given + {Other}, m)
  {
  }

  /** Printing a manifest as tokens in any order, with repetitions and unknown tokens anywhere between
      them and any separator, and parsing the text, gives back exactly that manifest. */
  lemma ManifestRoundTrip(m: OtaManifest, tokens: seq<string>, sep: char)
    requires Printable(m) && Describes(tokens, m) && tokens != [] && sep in SEPARATORS
    requires (forall t :: t in tokens ==> Free(t, SEPARATORS)) && 1 <= |Join(tokens, sep)| <= MAX_MANIFEST
    ensures ManifestOf(Join(tokens, sep)) == m
  {
    hide Fitting, Given, Join, Split;
    SplitJoin(tokens, sep, SEPARATORS);
    DraftAll(NOTHING, {}, tokens, m);
    assert {} + Given(tokens) == Given(tokens);
  }

  /** The token printed for a key is read back as that key and value, '=' in the value included. */
  lemma FieldRoundTrip(key: Key, value: string)
    requires value != "" && !key.Other?
    ensures Pair(KeyText(key) + ['='] + value) == Some((key, value))
  {
    var name := KeyText(key);
    var t := name + ['='] + value;
    PieceEndIs(t, {'='}, |name|);
    assert t[..|name|] == name && t[|name| + 1..] == value;
  }

  // ----- By the literal keys -----

  /** The token gives a key a value. */
  predicate Says(token: string, key: string) {
    |token| > |key| + 1 && token[..|key|] == key && token[|key|] == '='
  }

  /** The value a key was given last. */
  function LastValue(tokens: seq<string>, key: string): (v: Option<string>)
    ensures v.Some? ==> v.value != ""
  {
    if tokens == [] then None
    else if Says(tokens[|tokens| - 1], key) then Some(tokens[|tokens| - 1][|key| + 1..])
    else LastValue(tokens[..|tokens| - 1], key)
  }

  lemma SaidExactly(token: string, key: string)
    requires key != "" && Free(key, {'='})
    ensures Says(token, key) <==>
            var eq := PieceEnd(token, {'='}); eq + 1 < |token| && token[..eq] == key
  {
    if Says(token, key) {
      forall k | 0 <= k < |key| ensures token[k] !in {'='} {
        assert token[k] == token[..|key|][k];
      }
      PieceEndIs(token, {'='}, |key|);
    }
  }

  /** Which texts name which key. */
  lemma TokenMeans(token: string)
    ensures Says(token, "url") <==> Pair(token).Some? && Pair(token).value.0 == Url
    ensures Says(token, "sig") <==> Pair(token).Some? && Pair(token).value.0 == Sig
    ensures Says(token, "hw") <==> Pair(token).Some? && Pair(token).value.0 == Hw
    ensures Says(token, "ver") <==> Pair(token).Some? && Pair(token).value.0 == Ver
    ensures Says(token, "ch") <==> Pair(token).Some? && Pair(token).value.0 == Ch
    ensures Says(token, "size") <==> Pair(token).Some? && Pair(token).value.0 == Size
    ensures Says(token, "dg") <==> Pair(token).Some? && Pair(token).value.0 == Dg
  {
    SaidExactly(token, "url");
    SaidExactly(token, "sig");
    SaidExactly(token, "hw");
    SaidExactly(token, "ver");
    SaidExactly(token, "ch");
    SaidExactly(token, "size");
    SaidExactly(token, "dg");
    hide Says, PieceEnd;
  }

  lemma ValueSaid(token: string, key: string)
    requires key != "" && Free(key, {'='}) && Says(token, key) && Pair(token).Some?
    ensures Pair(token).value.1 == token[|key| + 1..]
  {
    SaidExactly(token, key);
    hide Says, PieceEnd;
  }

  /** What each key was given last. */
  datatype Last = Last(url: Option<string>, sig: Option<string>, hw: Option<string>, ver: Option<string>,
                       ch: Option<string>, size: Option<string>, dg: Option<string>)

  function Said(tokens: seq<string>): Last {
    Last(LastValue(tokens, "url"), LastValue(tokens, "sig"), LastValue(tokens, "hw"), LastValue(tokens, "ver"),
         LastValue(tokens, "ch"), LastValue(tokens, "size"), LastValue(tokens, "dg"))
  }

  lemma LastSaid(tokens: seq<string>, token: string, key: string)
    ensures LastValue(tokens + [token], key)
         == if Says(token, key) then Some(token[|key| + 1..]) else LastValue(tokens, key)
  {
    assert (tokens + [token])[..|tokens|] == tokens;
  }

  lemma SaidOf(tokens: seq<string>, token: string, key: string)
    requires key != "" && Free(key, {'='})
    ensures LastValue(tokens + [token], key)
         == if Says(token, key) && Pair(token).Some? then Some(Pair(token).value.1) else LastValue(tokens, key)
  {
    LastSaid(tokens, token, key);
    SaidExactly(token, key);
    if Says(token, key) {
      ValueSaid(token, key);
    }
    hide LastValue, PieceEnd;
  }

  /** A token changes what was said last about its own key only. */
  lemma SaidNext(tokens: seq<string>, token: string)
    ensures var l, more := Said(tokens), Said(tokens + [token]);
            match Pair(token)
            case None => more == l
            case Some((Url, v)) => more == l.(url := Some(v))
            case Some((Sig, v)) => more == l.(sig := Some(v))
            case Some((Hw, v)) => more == l.(hw := Some(v))
            case Some((Ver, v)) => more == l.(ver := Some(v))
            case Some((Ch, v)) => more == l.(ch := Some(v))
            case Some((Size, v)) => more == l.(size := Some(v))
            case Some((Dg, v)) => more == l.(dg := Some(v))
            case Some((Other, _)) => more == l
  {
    TokenMeans(token);
    SaidOf(tokens, token, "url");
    SaidOf(tokens, token, "sig");
    SaidOf(tokens, token, "hw");
    SaidOf(tokens, token, "ver");
    SaidOf(tokens, token, "ch");
    SaidOf(tokens, token, "size");
    SaidOf(tokens, token, "dg");
    hide Says, LastValue, Pair;
  }

  ghost predicate TextHeld(read: bool, text: string, last: Option<string>, cap: nat) {
    (read <==> last.Some? && |last.value| < cap) && (read ==> text == last.value)
  }

  ghost predicate VersionHeld(read: bool, x: FwVersion, last: Option<string>) {
    (read <==> last.Some? && VersionOf(last.value).Some?) && (read ==> Some(x) == VersionOf(last.value))
  }

  ghost predicate NumberHeld(read: bool, n: nat, last: Option<string>, bound: nat) {
    && (read <==> last.Some? && U32Of(last.value).Some? && U32Of(last.value).value < bound)
    && (read ==> Some(n) == U32Of(last.value))
  }

  ghost predicate FlagHeld(allowed: bool, last: Option<string>) {
    allowed <==> last.Some? && last.value != "" && last.value[0] == '1'
  }

  /** The draft holds what each key was given last, if that is acceptable. */
  ghost predicate Holds(d: Draft, l: Last) {
    && TextHeld(d.url, d.m.url, l.url, 160)
    && TextHeld(d.sig, d.m.sig, l.sig, 120)
    && TextHeld(d.hw, d.m.hwFamily, l.hw, 40)
    && VersionHeld(d.ver, d.m.version, l.ver)
    && NumberHeld(d.ch, d.m.hwChannels, l.ch, 256)
    && NumberHeld(d.size, d.m.sizeBytes, l.size, WRAP)
    && FlagHeld(d.m.allowDowngrade, l.dg)
  }

  lemma NumberBounded(v: string)
    ensures U32Of(v).Some? ==> U32Of(v).value < WRAP
  {
  }

  lemma HoldsMore(d: Draft, tokens: seq<string>, token: string)
    requires Holds(d, Said(tokens))
    ensures Holds(ApplyToken(d, token), Said(tokens + [token]))
  {
    SaidNext(tokens, token);
    var l := Said(tokens);
    hide ApplyPair, Said, Holds, Pair;
    match Pair(token)
    case None =>
    case Some((Other, v)) => OtherApplied(d, v);
    case Some((key, v)) =>
      KeyApplied(d, l, key, v);
  }

  lemma OtherApplied(d: Draft, v: string)
    requires v != ""
    ensures ApplyPair(d, Other, v) == d
  {
  }

  lemma KeyApplied(d: Draft, l: Last, key: Key, v: string)
    requires Holds(d, l) && v != ""
    ensures key.Url? ==> Holds(ApplyPair(d, key, v), l.(url := Some(v)))
    ensures key.Sig? ==> Holds(ApplyPair(d, key, v), l.(sig := Some(v)))
    ensures key.Hw? ==> Holds(ApplyPair(d, key, v), l.(hw := Some(v)))
    ensures key.Ver? ==> Holds(ApplyPair(d, key, v), l.(ver := Some(v)))
    ensures key.Ch? ==> Holds(ApplyPair(d, key, v), l.(ch := Some(v)))
    ensures key.Size? ==> Holds(ApplyPair(d, key, v), l.(size := Some(v)))
    ensures key.Dg? ==> Holds(ApplyPair(d, key, v), l.(dg := Some(v)))
  {
    hide ApplyPair, Holds;
    match key
    case Url => UrlApplied(d, l, v);
    case Sig => SigApplied(d, l, v);
    case Hw => HwApplied(d, l, v);
    case Ver => VerApplied(d, l, v);
    case Ch => ChApplied(d, l, v);
    case Size => SizeApplied(d, l, v);
    case Dg => DgApplied(d, l, v);
    case Other =>
  }

  lemma UrlApplied(d: Draft, l: Last, v: string)
    requires Holds(d, l) && v != ""
    ensures Holds(ApplyPair(d, Url, v), l.(url := Some(v)))
  {
    hide ApplyPair, TextHeld, VersionHeld, NumberHeld, FlagHeld;
    UrlHeld(d, v);
  }

  lemma SigApplied(d: Draft, l: Last, v: string)
    requires Holds(d, l) && v != ""
    ensures Holds(ApplyPair(d, Sig, v), l.(sig := Some(v)))
  {
    hide ApplyPair, TextHeld, VersionHeld, NumberHeld, FlagHeld;
    SigHeld(d, v);
  }

  lemma HwApplied(d: Draft, l: Last, v: string)
    requires Holds(d, l) && v != ""
    ensures Holds(ApplyPair(d, Hw, v), l.(hw := Some(v)))
  {
    hide ApplyPair, TextHeld, VersionHeld, NumberHeld, FlagHeld;
    HwHeld(d, v);
  }

  lemma VerApplied(d: Draft, l: Last, v: string)
    requires Holds(d, l) && v != ""
    ensures Holds(ApplyPair(d, Ver, v), l.(ver := Some(v)))
  {
    hide ApplyPair, TextHeld, VersionHeld, NumberHeld, FlagHeld;
    VerHeld(d, v);
  }

  lemma ChApplied(d: Draft, l: Last, v: string)
    requires Holds(d, l) && v != ""
    ensures Holds(ApplyPair(d, Ch, v), l.(ch := Some(v)))
  {
    hide ApplyPair, TextHeld, VersionHeld, NumberHeld, FlagHeld;
    ChHeld(d, v);
  }

  lemma SizeApplied(d: Draft, l: Last, v: string)
    requires Holds(d, l) && v != ""
    ensures Holds(ApplyPair(d, Size, v), l.(size := Some(v)))
  {
    hide ApplyPair, TextHeld, VersionHeld, NumberHeld, FlagHeld;
    SizeHeld(d, v);
  }

  lemma DgApplied(d: Draft, l: Last, v: string)
    requires Holds(d, l) && v != ""
    ensures Holds(ApplyPair(d, Dg, v), l.(dg := Some(v)))
  {
    hide ApplyPair, TextHeld, VersionHeld, NumberHeld, FlagHeld;
    DgHeld(d, v);
  }

  // A value that is read is held as said, and every other field is left alone.

  lemma UrlHeld(d: Draft, v: string)
    requires v != ""
    ensures var e := ApplyPair(d, Url, v);
            TextHeld(e.url, e.m.url, Some(v), 160) && e == d.(url := e.url, m := d.m.(url := e.m.url))
  {
  }

  lemma SigHeld(d: Draft, v: string)
    requires v != ""
    ensures var e := ApplyPair(d, Sig, v);
            TextHeld(e.sig, e.m.sig, Some(v), 120) && e == d.(sig := e.sig, m := d.m.(sig := e.m.sig))
  {
  }

  lemma HwHeld(d: Draft, v: string)
    requires v != ""
    ensures var e := ApplyPair(d, Hw, v);
            TextHeld(e.hw, e.m.hwFamily, Some(v), 40) && e == d.(hw := e.hw, m := d.m.(hwFamily := e.m.hwFamily))
  {
  }

  lemma VerHeld(d: Draft, v: string)
    requires v != ""
    ensures var e := ApplyPair(d, Ver, v);
            VersionHeld(e.ver, e.m.version, Some(v)) && e == d.(ver := e.ver, m := d.m.(version := e.m.version))
  {
    hide VersionOf, U32Of;
  }

  lemma ChHeld(d: Draft, v: string)
    requires v != ""
    ensures var e := ApplyPair(d, Ch, v);
            && NumberHeld(e.ch, e.m.hwChannels, Some(v), 256)
            && e == d.(ch := e.ch, m := d.m.(hwChannels := e.m.hwChannels))
  {
    hide VersionOf, U32Of;
  }

  lemma SizeHeld(d: Draft, v: string)
    requires v != ""
    ensures var e := ApplyPair(d, Size, v);
            && NumberHeld(e.size, e.m.sizeBytes, Some(v), WRAP)
            && e == d.(size := e.size, m := d.m.(sizeBytes := e.m.sizeBytes))
  {
    NumberBounded(v);
    hide VersionOf, U32Of;
  }

  lemma DgHeld(d: Draft, v: string)
    requires v != ""
    ensures var e := ApplyPair(d, Dg, v);
            FlagHeld(e.m.allowDowngrade, Some(v)) && e == d.(m := d.m.(allowDowngrade := e.m.allowDowngrade))
  {
  }

  lemma {:induction false} TokensHold(tokens: seq<string>, n: nat, d: Draft)
    requires n <= |tokens| && Holds(d, Said(tokens[..n]))
    ensures Holds(ApplyTokens(d, tokens[n..]), Said(tokens))
    decreases |tokens| - n
  {
    hide Holds, ApplyToken, Said;
    if n == |tokens| {
      assert tokens[..n] == tokens;
    } else {
      HoldsMore(d, tokens[..n], tokens[n]);
      assert tokens[..n] + [tokens[n]] == tokens[..n + 1];
      assert tokens[n..][1..] == tokens[n + 1..];
      TokensHold(tokens, n + 1, ApplyToken(d, tokens[n]));
    }
  }

  /** The last value given to each of the six required keys is acceptable. */
  predicate Acceptable(tokens: seq<string>) {
    && LastValue(tokens, "url").Some? && |LastValue(tokens, "url").value| < 160
    && LastValue(tokens, "sig").Some? && |LastValue(tokens, "sig").value| < 120
    && LastValue(tokens, "hw").Some? && |LastValue(tokens, "hw").value| < 40
    && LastValue(tokens, "ver").Some? && VersionOf(LastValue(tokens, "ver").value).Some?
    && LastValue(tokens, "ch").Some? && U32Of(LastValue(tokens, "ch").value).Some?
    && 1 <= U32Of(LastValue(tokens, "ch").value).value <= 4
    && LastValue(tokens, "size").Some? && U32Of(LastValue(tokens, "size").value).Some?
  }

  /** Every field is what its key was given last; downgrades are allowed by a "dg" beginning with 1. */
  predicate ReadsAs(m: OtaManifest, tokens: seq<string>) {
    && Some(m.url) == LastValue(tokens, "url") && Some(m.sig) == LastValue(tokens, "sig")
    && Some(m.hwFamily) == LastValue(tokens, "hw")
    && LastValue(tokens, "ver").Some? && Some(m.version) == VersionOf(LastValue(tokens, "ver").value)
    && LastValue(tokens, "ch").Some? && Some(m.hwChannels) == U32Of(LastValue(tokens, "ch").value)
    && LastValue(tokens, "size").Some? && Some(m.sizeBytes) == U32Of(LastValue(tokens, "size").value)
    && (m.allowDowngrade <==> LastValue(tokens, "dg").Some? && LastValue(tokens, "dg").value[0] == '1')
  }

  /** Exactly which payloads are valid manifests, and what they say. */
  lemma ManifestExactly(payload: string)
    ensures var tokens, m := Split(payload, {';', '&', '\n', '\r'}), ManifestOf(payload);
            && (m.valid <==> 1 <= |payload| <= 1024 && Acceptable(tokens))
            && (m.valid ==> ReadsAs(m, tokens))
  {
    hide Acceptable, ReadsAs, Split, ApplyTokens;
    if 1 <= |payload| <= 1024 {
      var tokens := Split(payload, SEPARATORS);
      NothingHolds(tokens[..0]);
      TokensHold(tokens, 0, NOTHING);
      assert tokens[0..] == tokens;
      FinishedExactly(ApplyTokens(NOTHING, tokens), tokens);
    }
  }

  lemma FinishedExactly(d: Draft, tokens: seq<string>)
    requires Holds(d, Said(tokens))
    ensures Finished(d).valid <==> Acceptable(tokens)
    ensures Finished(d).valid ==> ReadsAs(Finished(d), tokens)
  {
    if LastValue(tokens, "size").Some? {
      NumberBounded(LastValue(tokens, "size").value);
    }
    hide VersionOf, U32Of, LastValue;
  }

  lemma NothingHolds(tokens: seq<string>)
    requires tokens == []
    ensures Holds(NOTHING, Said(tokens))
  {
    hide VersionOf, U32Of;
  }

  /** A version is printed major first. */
  lemma VersionLooksLike()
    ensures VersionOf("1.2.3") == Some(FwVersion(1, 2, 3))
  {
    assert Dec(1) == "1" && Dec(2) == "2" && Dec(3) == "3";
    VersionRoundTrip(FwVersion(1, 2, 3));
    var t := ["1", "2", "3"];
    assert t[1..] == ["2", "3"] && t[1..][1..] == ["3"];
    hide VersionOf, Dec;
    assert Join(["3"], '.') == "3";
    assert Join(["2", "3"], '.') == "2.3";
    assert VersionText(FwVersion(1, 2, 3)) == "1.2.3";
  }
}
