/** The captive portal's form: URL decoding into bounded buffers, field lookup, credentials. */
module UrlForms {
  import opened Wrappers
  import opened Text

  // ----- Percent encoding -----

  predicate IsHex(c: char) { '0' <= c <= '9' || 'a' <= c <= 'f' || 'A' <= c <= 'F' }

  function HexVal(c: char): (v: nat)
    requires IsHex(c)
    ensures v < 16
  {
    if '0' <= c <= '9' then c as int - '0' as int
    else if 'a' <= c <= 'f' then c as int - 'a' as int + 10
    else c as int - 'A' as int + 10
  }

  /** An escape at the start of s: '%' and two hexadecimal digits. */
  predicate Escape(s: string) { |s| > 2 && s[0] == '%' && IsHex(s[1]) && IsHex(s[2]) }

  function EscapedChar(s: string): char
    requires Escape(s)
  {
    (16 * HexVal(s[1]) + HexVal(s[2])) as char
  }

  /** The whole decoded value, with no buffer in the way. */
  function Decoded(s: string): string {
    if s == "" then ""
    else if s[0] == '+' then " " + Decoded(s[1..])
    else if Escape(s) then [EscapedChar(s)] + Decoded(s[3..])
    else [s[0]] + Decoded(s[1..])
  }

  function Take(s: string, n: nat): string { if |s| <= n then s else s[..n] }

  /** The first decoded character of the input from i on, and how much input it takes. */
  function Head(input: string, i: nat): (char, nat)
    requires i < |input|
  {
    if input[i] == '+' then (' ', 1)
    else if Escape(input[i..]) then (EscapedChar(input[i..]), 3)
    else (input[i], 1)
  }

  lemma DecodeHead(input: string, i: nat)
    requires i < |input|
    ensures var (c, n) := Head(input, i);
            i + n <= |input| && Decoded(input[i..]) == [c] + Decoded(input[i + n..])
  {
    var rest := input[i..];
    assert rest[1..] == input[i + 1..];
    if |rest| > 2 {
      assert rest[3..] == input[i + 3..];
    }
  }

  /** Decodes into a buffer: as much of the decoded value as fits, and a terminator. */
  method UrlDecode(input: string, out: array<char>) returns (o: nat)
    requires out.Length > 0
    modifies out
    ensures o < out.Length && out[o] == '\0'
    ensures out[..o] == Take(Decoded(input), out.Length - 1)
  {
    hide Decoded;
    o := 0;
    var i := 0;
    assert input[0..] == input;
    while i < |input| && o + 1 < out.Length
      invariant i <= |input| && o < out.Length
      invariant Decoded(input) == out[..o] + Decoded(input[i..])
    {
      DecodeHead(input, i);
      ghost var done := out[..o];
      if input[i] == '+' {
        out[o] := ' ';
        i := i + 1;
      } else if input[i] == '%' && i + 2 < |input| && IsHex(input[i + 1]) && IsHex(input[i + 2]) {
        out[o] := (16 * HexVal(input[i + 1]) + HexVal(input[i + 2])) as char;
        i := i + 3;
      } else {
        out[o] := input[i];
        i := i + 1;
      }
      assert out[..o + 1] == done + [out[o]];
      o := o + 1;
    }
    if i == |input| {
      NothingDecoded(input[i..]);
    }
    out[o] := '\0';
  }

  lemma NothingDecoded(s: string)
    requires s == ""
    ensures Decoded(s) == ""
  {
  }

  function HexChar(v: nat): (c: char)
    requires v < 16
    ensures IsHex(c) && HexVal(c) == v
  {
    if v < 10 then ('0' as int + v) as char else ('A' as int + v - 10) as char
  }

  predicate Unreserved(c: char) {
    'a' <= c <= 'z' || 'A' <= c <= 'Z' || '0' <= c <= '9' || c == '*' || c == '-' || c == '.' || c == '_'
  }

  predicate Bytes(s: string) { forall i :: 0 <= i < |s| ==> s[i] as int < 0x100 }

  function EncodedChar(c: char): string
    requires c as int < 0x100
  {
    if c == ' ' then "+"
    else if Unreserved(c) then [c]
    else ['%', HexChar(c as int / 16), HexChar(c as int % 16)]
  }

  lemma DecodeOne(c: char, tail: string)
    requires c as int < 0x100
    ensures Decoded(EncodedChar(c) + tail) == [c] + Decoded(tail) && Free(EncodedChar(c), {'=', '&'})
  {
    var e := EncodedChar(c) + tail;
    if c == ' ' || Unreserved(c) {
      assert e[1..] == tail;
    } else {
      assert e[3..] == tail && EscapedChar(e) == c;
    }
  }

  /** The form serialiser's percent-encoding. */
  function Encoded(s: string): string
    requires Bytes(s)
  {
    if s == "" then "" else EncodedChar(s[0]) + Encoded(s[1..])
  }

  /** Decoding undoes encoding, and encoded text holds none of the form's own separators. */
  lemma {:induction false} DecodeEncode(s: string)
    requires Bytes(s)
    ensures Decoded(Encoded(s)) == s && Free(Encoded(s), {'=', '&'})
  {
    if s != "" {
      hide Decoded, EncodedChar;
      DecodeEncode(s[1..]);
      DecodeOne(s[0], Encoded(s[1..]));
    }
  }

  // ----- Field lookup -----

  /** The raw value of a field: of the first name=value pair with that name, where a name reaches to
      the next '=' and a value to the next '&'. */
  function FieldOf(body: string, key: string): Option<string>
    decreases |body|
  {
    var eq := PieceEnd(body, {'='});
    if eq == |body| then None
    else
      var val := body[eq + 1..];
      var amp := PieceEnd(val, {'&'});
      if body[..eq] == key then Some(val[..amp])
      else if amp == |val| then None
      else FieldOf(val[amp + 1..], key)
  }

  /** Decodes the field into the buffer, or leaves it empty if the field is absent. */
  method Field(body: string, key: string, out: array<char>) returns (found: bool, o: nat)
    requires out.Length > 0
    modifies out
    ensures o < out.Length && out[o] == '\0'
    ensures found == FieldOf(body, key).Some?
    ensures out[..o] == match FieldOf(body, key)
                        case Some(raw) => Take(Decoded(raw), out.Length - 1)
                        case None => ""
  {
    hide Decoded, FieldOf;
    var p := 0;
    var more := true;
    assert body[0..] == body;
    while more && p < |body|
      invariant p <= |body|
      invariant FieldOf(body, key) == if more then FieldOf(body[p..], key) else None
      decreases |body| - p, more
    {
      var rest := body[p..];
      FieldFirst(rest, key);
      var eq := PieceEnd(rest, {'='});
      if eq == |rest| {
        more := false;
        break;
      }
      var val := rest[eq + 1..];
      var amp := PieceEnd(val, {'&'});
      if rest[..eq] == key {
        o := UrlDecode(val[..amp], out);
        return true, o;
      }
      if amp < |val| {
        p := p + eq + 1 + amp + 1;
        assert body[p..] == val[amp + 1..];
      } else {
        more := false;
      }
    }
    if p == |body| {
      assert body[p..] == "";
      FieldFirst("", key);
    }
    out[0] := '\0';
    return false, 0;
  }

  lemma FieldFirst(body: string, key: string)
    ensures var eq := PieceEnd(body, {'='});
            FieldOf(body, key)
            == if eq == |body| then None
               else
                 var val := body[eq + 1..];
                 var amp := PieceEnd(val, {'&'});
                 if body[..eq] == key then Some(val[..amp])
                 else if amp == |val| then None
                 else FieldOf(val[amp + 1..], key)
  {
  }

  // ----- Credentials -----

  const SSID_CAP: nat := 33
  const PASS_CAP: nat := 64
  const TOKEN_CAP: nat := 65

  /** Credentials as the C strings their buffers hold. */
  datatype Credentials = Credentials(ssid: string, pass: string, token: string, valid: bool)

  function FieldText(body: string, key: string, cap: nat): string
    requires cap > 0
  {
    match FieldOf(body, key)
    case Some(raw) => CString(Take(Decoded(raw), cap - 1))
    case None => ""
  }

  function CredentialsOf(body: string): Credentials {
    var ssid := FieldText(body, "ssid", SSID_CAP);
    Credentials(ssid, FieldText(body, "pass", PASS_CAP), FieldText(body, "token", TOKEN_CAP), ssid != "")
  }

  method Parse(body: string) returns (c: Credentials)
    ensures c == CredentialsOf(body)
  {
    var ssid := ReadField(body, "ssid", SSID_CAP);
    var pass := ReadField(body, "pass", PASS_CAP);
    var token := ReadField(body, "token", TOKEN_CAP);
    return Credentials(ssid, pass, token, ssid != "");
  }

  method ReadField(body: string, key: string, cap: nat) returns (text: string)
    requires cap > 0
    ensures text == FieldText(body, key, cap)
  {
    var buf := new char[cap](_ => '\0');
    var found, o := Field(body, key, buf);
    text := CString(buf[..o]);
  }

  // ----- Serialising and reading back -----

  datatype Pair = Pair(name: string, value: string)

  predicate PlainName(name: string) { Free(name, {'=', '&'}) }

  /** The text of a form: names with their encoded values. */
  function Form(pairs: seq<Pair>): string
    requires forall p :: p in pairs ==> Bytes(p.value)
    decreases pairs
  {
    if pairs == [] then ""
    else
      pairs[0].name + "=" + Encoded(pairs[0].value)
        + if |pairs| == 1 then "" else "&" + Form(pairs[1..])
  }

  /** The value of the first pair with a name. */
  function Lookup(pairs: seq<Pair>, key: string): Option<string>
    decreases pairs
  {
    if pairs == [] then None
    else if pairs[0].name == key then Some(pairs[0].value)
    else Lookup(pairs[1..], key)
  }

  /** Looking a field up in a serialised form and decoding it gives the value of the first pair with
      that name, whatever bytes the values hold. */
  lemma {:induction false} FormRoundTrip(pairs: seq<Pair>, key: string)
    requires forall p :: p in pairs ==> Bytes(p.value) && PlainName(p.name)
    ensures match Lookup(pairs, key)
            case Some(v) => FieldOf(Form(pairs), key).Some? && Decoded(FieldOf(Form(pairs), key).value) == v
            case None => FieldOf(Form(pairs), key) == None
    decreases pairs
  {
    hide Decoded, Encoded, FieldOf;
    if pairs == [] {
      FieldFirst("", key);
    } else {
      var p := pairs[0];
      DecodeEncode(p.value);
      var tail := if |pairs| == 1 then "" else "&" + Form(pairs[1..]);
      FirstPair(p.name, Encoded(p.value), tail, key);
      assert Form(pairs) == p.name + "=" + Encoded(p.value) + tail;
      if |pairs| > 1 {
        assert tail[1..] == Form(pairs[1..]);
        FormRoundTrip(pairs[1..], key);
      } else {
        assert Lookup(pairs[1..], key) == None;
      }
    }
  }

  lemma FirstPair(name: string, raw: string, tail: string, key: string)
    requires PlainName(name) && Free(raw, {'=', '&'}) && (tail != "" ==> tail[0] == '&')
    ensures FieldOf(name + "=" + raw + tail, key)
         == if name == key then Some(raw) else if tail == "" then None else FieldOf(tail[1..], key)
  {
    var body, val := name + "=" + raw + tail, raw + tail;
    PieceThenRest(name, '=', raw + tail);
    assert body == name + "=" + val;
    if tail == "" {
      PieceEndIs(val, {'&'}, |raw|);
      assert val == raw;
    } else {
      PieceThenRest(raw, '&', tail[1..]);
      assert val == raw + "&" + tail[1..];
    }
    FieldFirst(body, key);
    hide FieldOf;
  }

  lemma PieceThenRest(piece: string, sep: char, rest: string)
    requires Free(piece, {sep})
    ensures var s := piece + [sep] + rest;
            PieceEnd(s, {sep}) == |piece| && s[..|piece|] == piece && s[|piece| + 1..] == rest
  {
    PieceEndIs(piece + [sep] + rest, {sep}, |piece|);
  }

  /** The form of any credentials that fit their buffers is read back as those credentials, with any
      further pairs after them, repeated names included: the first match wins. */
  lemma CredentialsRoundTrip(ssid: string, pass: string, token: string, extra: seq<Pair>)
    requires 0 < |ssid| < SSID_CAP && |pass| < PASS_CAP && |token| < TOKEN_CAP
    requires Bytes(ssid) && Bytes(pass) && Bytes(token)
    requires Free(ssid, {'\0'}) && Free(pass, {'\0'}) && Free(token, {'\0'})
    requires forall p :: p in extra ==> Bytes(p.value) && PlainName(p.name)
    ensures var pairs := [Pair("ssid", ssid), Pair("pass", pass), Pair("token", token)] + extra;
            CredentialsOf(Form(pairs)) == Credentials(ssid, pass, token, true)
  {
    hide Form, FieldOf, Decoded;
    var pairs := [Pair("ssid", ssid), Pair("pass", pass), Pair("token", token)] + extra;
    FormRoundTrip(pairs, "ssid");
    FormRoundTrip(pairs, "pass");
    FormRoundTrip(pairs, "token");
    var two, one := pairs[1..], pairs[2..];
    assert two[1..] == one && one[0] == Pair("token", token) && two[0] == Pair("pass", pass);
    assert Lookup(pairs, "ssid") == Some(ssid);
    assert "ssid"[0] == 's' && "pass"[0] == 'p' && "token"[0] == 't';
    assert Lookup(one, "token") == Some(token) && Lookup(two, "token") == Lookup(one, "token");
    assert Lookup(two, "pass") == Some(pass);
    PieceEndIs(ssid, {'\0'}, |ssid|);
    PieceEndIs(pass, {'\0'}, |pass|);
    PieceEndIs(token, {'\0'}, |token|);
  }

  // ----- Written out -----

  /** The value of a hexadecimal digit is its place among the sixteen, in either case. */
  lemma HexDigits(v: nat)
    requires v < 16
    ensures IsHex("0123456789abcdef"[v]) && HexVal("0123456789abcdef"[v]) == v
    ensures IsHex("0123456789ABCDEF"[v]) && HexVal("0123456789ABCDEF"[v]) == v
  {
  }

  lemma IsHexDigit(c: char)
    ensures IsHex(c) <==> c in "0123456789abcdefABCDEF"
  {
    var all := "0123456789abcdefABCDEF";
    if IsHex(c) {
      var at := if c <= '9' then c as int - '0' as int else if c <= 'F' then c as int - 'A' as int + 16
                else c as int - 'a' as int + 10;
      assert all[at] == c;
    }
  }

  /** A plus is a space, '%' and two digits in either case are their byte, and anything else stays. */
  lemma DecodedExactly(c: char, rest: string)
    ensures var s, digits := [c] + rest, "0123456789abcdefABCDEF";
            && (c == '+' ==> Decoded(s) == " " + Decoded(rest))
            && (c != '+' && !(c == '%' && |rest| >= 2 && rest[0] in digits && rest[1] in digits) ==>
                  Decoded(s) == [c] + Decoded(rest))
  {
    if |rest| >= 2 {
      IsHexDigit(rest[0]);
      IsHexDigit(rest[1]);
    }
    assert ([c] + rest)[1..] == rest;
  }

  lemma EscapeDecoded(v: nat, w: nat, digits: string, rest: string)
    requires v < 16 && w < 16 && (digits == "0123456789abcdef" || digits == "0123456789ABCDEF")
    ensures Decoded("%" + [digits[v]] + [digits[w]] + rest) == [(16 * v + w) as char] + Decoded(rest)
  {
    HexDigits(v);
    HexDigits(w);
    var s := "%" + [digits[v]] + [digits[w]] + rest;
    assert s[0] == '%' && s[1] == digits[v] && s[2] == digits[w] && s[3..] == rest;
  }
}
