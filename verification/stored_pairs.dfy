/** The station credentials in the key-value store: what a boot reads back, over any power-ons and power
    failures. */
module StoredPairs {
  import opened Wrappers
  import opened Bytes
  import opened Persistence
  import Text
  import UrlForms

  type Credentials = UrlForms.Credentials

  /** An SSID and passphrase. */
  datatype Pair = Pair(ssid: string, pass: string)

  // ----- Strings in the key-value store -----

  function StringBytes(s: string): (b: seq<byte>)
    requires UrlForms.Bytes(s)
    ensures |b| == |s|
  {
    seq(|s|, i requires 0 <= i < |s| => s[i] as int as byte)
  }

  function BytesString(b: seq<byte>): (s: string)
    ensures |s| == |b|
  {
    seq(|b|, i requires 0 <= i < |b| => b[i] as int as char)
  }

  /** A stored string as its reader sees it: at most `cap` bytes, up to the terminator. */
  function StoredText(blobs: Blobs, key: string, cap: nat): string {
    Text.CString(BytesString(ReadBlob(if key in blobs then Some(blobs[key]) else None, cap)))
  }

  predicate HasSsid(blobs: Blobs) { "sta_ssid" in blobs && blobs["sta_ssid"] != [] }

  /** The stored credentials, if an SSID is stored. */
  function StoredPair(blobs: Blobs): Option<Pair> {
    if HasSsid(blobs)
    then Some(Pair(StoredText(blobs, "sta_ssid", UrlForms.SSID_CAP), StoredText(blobs, "sta_pass", UrlForms.PASS_CAP)))
    else None
  }

  /** Credentials as the form parser delivers them: terminated strings that fit their buffers. */
  predicate Fits(c: Credentials) {
    && UrlForms.Bytes(c.ssid) && UrlForms.Bytes(c.pass)
    && Text.Free(c.ssid, {'\0'}) && Text.Free(c.pass, {'\0'})
    && |c.ssid| < UrlForms.SSID_CAP && |c.pass| < UrlForms.PASS_CAP
  }

  function WithPair(blobs: Blobs, c: Credentials): Blobs
    requires Fits(c)
  {
    blobs["sta_ssid" := StringBytes(c.ssid) + [0]]["sta_pass" := StringBytes(c.pass) + [0]]
  }

  lemma TerminatedRoundTrip(s: string, cap: nat, blobs: Blobs, key: string)
    requires UrlForms.Bytes(s) && Text.Free(s, {'\0'}) && |s| < cap
    requires key in blobs && blobs[key] == StringBytes(s) + [0]
    ensures StoredText(blobs, key, cap) == s
  {
    var text := BytesString(StringBytes(s) + [0]);
    assert text[..|s|] == s && text[|s|] == '\0';
    Text.PieceEndIs(text, {'\0'}, |s|);
  }

  /** Persisting credentials and reading them at the next boot gives the same pair. */
  lemma StoredPairRoundTrip(blobs: Blobs, c: Credentials)
    requires Fits(c)
    ensures StoredPair(WithPair(blobs, c)) == Some(Pair(c.ssid, c.pass))
  {
    TerminatedRoundTrip(c.ssid, UrlForms.SSID_CAP, WithPair(blobs, c), "sta_ssid");
    TerminatedRoundTrip(c.pass, UrlForms.PASS_CAP, WithPair(blobs, c), "sta_pass");
  }

  /** What a power cut between the two writes leaves: the new SSID beside the old passphrase. */
  function HalfWritten(blobs: Blobs, c: Credentials): Blobs
    requires Fits(c)
  {
    blobs["sta_ssid" := StringBytes(c.ssid) + [0]]
  }

  function StoredPass(blobs: Blobs): string { StoredText(blobs, "sta_pass", UrlForms.PASS_CAP) }

  /** A cut between the writes is harmless if the SSID or the passphrase stays what it was. */
  predicate Harmless(blobs: Blobs, c: Credentials) {
    (HasSsid(blobs) && StoredText(blobs, "sta_ssid", UrlForms.SSID_CAP) == c.ssid) || StoredPass(blobs) == c.pass
  }

  /** A power cut between the two writes leaves the old pair or the new one exactly when the SSID is
      unchanged or the passphrase is; otherwise the next boot tries a mixture that never joined. */
  lemma CutIsSafeExactly(blobs: Blobs, c: Credentials)
    requires Fits(c)
    ensures StoredPair(HalfWritten(blobs, c)) in {StoredPair(blobs), StoredPair(WithPair(blobs, c))}
            <==> Harmless(blobs, c)
  {
    TerminatedRoundTrip(c.ssid, UrlForms.SSID_CAP, HalfWritten(blobs, c), "sta_ssid");
    assert StoredPair(HalfWritten(blobs, c)) == Some(Pair(c.ssid, StoredPass(blobs)));
    StoredPairRoundTrip(blobs, c);
  }

  /** Two different networks, cut between the writes: the next boot tries the new SSID with the old
      passphrase, a pair that was neither stored nor joined. */
  lemma TornPair()
    ensures var home := UrlForms.Credentials("home", "secret", "", true);
            var office := UrlForms.Credentials("office", "public", "", true);
            && Fits(home) && Fits(office)
            && StoredPair(HalfWritten(WithPair(map[], home), office)) == Some(Pair("office", "secret"))
  {
    var home := UrlForms.Credentials("home", "secret", "", true);
    var office := UrlForms.Credentials("office", "public", "", true);
    PlainText("home");
    PlainText("secret");
    PlainText("office");
    PlainText("public");
    var blobs := HalfWritten(WithPair(map[], home), office);
    TerminatedRoundTrip("office", UrlForms.SSID_CAP, blobs, "sta_ssid");
    TerminatedRoundTrip("secret", UrlForms.PASS_CAP, blobs, "sta_pass");
  }

  lemma PlainText(s: string)
    requires forall c :: c in s ==> 'a' <= c <= 'z'
    ensures UrlForms.Bytes(s) && Text.Free(s, {'\0'})
  {
    forall i | 0 <= i < |s| ensures s[i] as int < 0x100 && s[i] != '\0' {
      assert s[i] in s;
    }
  }

  // ----- Power-ons, cut or not -----

  /** One power-on as the store sees it: the submissions it stored in full, all of which had joined, and
      one, if any, whose writes were cut in between by a power failure. */
  datatype Life = Life(stored: seq<Credentials>, torn: Option<Credentials>)

  predicate AllFit(cs: seq<Credentials>) { forall i :: 0 <= i < |cs| ==> Fits(cs[i]) }

  predicate LifeFits(l: Life) { AllFit(l.stored) && (l.torn.Some? ==> Fits(l.torn.value)) }

  predicate LivesFit(ls: seq<Life>) { forall i :: 0 <= i < |ls| ==> LifeFits(ls[i]) }

  function StoredAll(blobs: Blobs, cs: seq<Credentials>): Blobs
    requires AllFit(cs)
  {
    if cs == [] then blobs else WithPair(StoredAll(blobs, cs[..|cs| - 1]), cs[|cs| - 1])
  }

  /** What the store is written while submissions are stored. */
  function Written(blobs: Blobs, cs: seq<Credentials>): seq<Blobs>
    requires AllFit(cs)
  {
    if cs == [] then []
    else
      var c, before := cs[|cs| - 1], StoredAll(blobs, cs[..|cs| - 1]);
      Written(blobs, cs[..|cs| - 1]) + [HalfWritten(before, c), WithPair(before, c)]
  }

  /** Every content it has, to begin with included. */
  function Contents(blobs: Blobs, cs: seq<Credentials>): seq<Blobs>
    requires AllFit(cs)
  {
    [blobs] + Written(blobs, cs)
  }

  lemma OneMoreStored(blobs: Blobs, cs: seq<Credentials>, c: Credentials)
    requires AllFit(cs) && Fits(c)
    ensures AllFit(cs + [c]) && StoredAll(blobs, cs + [c]) == WithPair(StoredAll(blobs, cs), c)
    ensures Written(blobs, cs + [c])
         == Written(blobs, cs) + [HalfWritten(StoredAll(blobs, cs), c), WithPair(StoredAll(blobs, cs), c)]
  {
    assert (cs + [c])[..|cs|] == cs;
    hide HalfWritten, WithPair;
  }

  lemma LastIsStored(blobs: Blobs, cs: seq<Credentials>)
    requires AllFit(cs)
    ensures StoredPair(StoredAll(blobs, cs))
         == if cs == [] then StoredPair(blobs) else Some(PairOf(cs[|cs| - 1]))
  {
    if cs != [] {
      StoredPairRoundTrip(StoredAll(blobs, cs[..|cs| - 1]), cs[|cs| - 1]);
    }
  }

  function AfterLife(blobs: Blobs, l: Life): Blobs
    requires LifeFits(l)
  {
    var full := StoredAll(blobs, l.stored);
    if l.torn.Some? then HalfWritten(full, l.torn.value) else full
  }

  /** A power cut during a session leaves what some life leaves: of the submissions stored until then, and
      the one being stored. */
  lemma {:induction false} CutIsALife(blobs: Blobs, cs: seq<Credentials>, i: nat) returns (l: Life, k: nat)
    requires AllFit(cs) && i < |Contents(blobs, cs)|
    ensures k <= |cs| && l.stored == cs[..k] && (l.torn.Some? ==> k < |cs| && l.torn.value == cs[k])
    ensures LifeFits(l) && Contents(blobs, cs)[i] == AfterLife(blobs, l)
  {
    var n := |cs|;
    if n == 0 {
      l, k := Life([], None), 0;
    } else if i < |Contents(blobs, cs[..n - 1])| {
      l, k := CutIsALife(blobs, cs[..n - 1], i);
    } else if i == |Contents(blobs, cs[..n - 1])| {
      l, k := Life(cs[..n - 1], Some(cs[n - 1])), n - 1;
    } else {
      l, k := Life(cs, None), n;
    }
  }

  function AfterLives(blobs: Blobs, ls: seq<Life>, n: nat): Blobs
    requires n <= |ls| && LivesFit(ls)
  {
    if n == 0 then blobs else AfterLife(AfterLives(blobs, ls, n - 1), ls[n - 1])
  }

  function PairOf(c: Credentials): Pair { Pair(c.ssid, c.pass) }

  /** The credentials joined in a life. */
  predicate Joined(l: Life, p: Pair) {
    (exists i :: 0 <= i < |l.stored| && PairOf(l.stored[i]) == p) || (l.torn.Some? && PairOf(l.torn.value) == p)
  }

  /** The pair stored at the beginning, if any, or one that joined in the first n lives. */
  ghost predicate Known(blobs: Blobs, ls: seq<Life>, n: nat, p: Option<Pair>)
    requires n <= |ls|
  {
    p == StoredPair(blobs) || (p.Some? && exists i :: 0 <= i < n && Joined(ls[i], p.value))
  }

  /** What a boot after the cut life i would try: the new SSID with the passphrase stored before. */
  function Mixed(blobs: Blobs, ls: seq<Life>, i: nat): Pair
    requires i < |ls| && LivesFit(ls) && ls[i].torn.Some?
  {
    Pair(ls[i].torn.value.ssid, StoredPass(StoredAll(AfterLives(blobs, ls, i), ls[i].stored)))
  }

  lemma MixedIsTried(blobs: Blobs, ls: seq<Life>, i: nat)
    requires i < |ls| && LivesFit(ls) && ls[i].torn.Some?
    ensures StoredPair(AfterLives(blobs, ls, i + 1)) == Some(Mixed(blobs, ls, i))
  {
    var c, before := ls[i].torn.value, StoredAll(AfterLives(blobs, ls, i), ls[i].stored);
    TerminatedRoundTrip(c.ssid, UrlForms.SSID_CAP, HalfWritten(before, c), "sta_ssid");
  }

  lemma WholeLife(blobs: Blobs, ls: seq<Life>, i: nat)
    requires i < |ls| && LivesFit(ls) && ls[i].torn.None?
    ensures var p := StoredPair(AfterLives(blobs, ls, i + 1));
            if ls[i].stored == [] then p == StoredPair(AfterLives(blobs, ls, i)) else p.Some? && Joined(ls[i], p.value)
  {
    var cs := ls[i].stored;
    if cs != [] {
      var c := cs[|cs| - 1];
      StoredPairRoundTrip(StoredAll(AfterLives(blobs, ls, i), cs[..|cs| - 1]), c);
      hide StoredPair;
      assert PairOf(cs[|cs| - 1]) == Pair(c.ssid, c.pass);
    }
  }

  lemma KnownStays(blobs: Blobs, ls: seq<Life>, n: nat, p: Option<Pair>)
    requires n < |ls| && Known(blobs, ls, n, p)
    ensures Known(blobs, ls, n + 1, p)
  {
    hide Joined, StoredPair;
  }

  /** Over every sequence of power-ons, with power failures at any content the store goes through: the pair
      a boot would try was always stored at the beginning or joined, exactly if every mixture that a cut
      left was such a pair. */
  lemma {:induction false} StoredPairsKnown(blobs: Blobs, ls: seq<Life>, n: nat)
    requires n <= |ls| && LivesFit(ls)
    ensures (forall k :: 0 <= k <= n ==> Known(blobs, ls, k, StoredPair(AfterLives(blobs, ls, k))))
            <==> forall i :: 0 <= i < n && ls[i].torn.Some? ==> Known(blobs, ls, i + 1, Some(Mixed(blobs, ls, i)))
  {
    hide StoredPair, Mixed, AfterLives, Joined, LifeFits;
    if n > 0 {
      StoredPairsKnown(blobs, ls, n - 1);
      if ls[n - 1].torn.Some? {
        MixedIsTried(blobs, ls, n - 1);
      } else {
        WholeLife(blobs, ls, n - 1);
        if Known(blobs, ls, n - 1, StoredPair(AfterLives(blobs, ls, n - 1))) {
          KnownStays(blobs, ls, n - 1, StoredPair(AfterLives(blobs, ls, n - 1)));
        }
      }
    } else {
      NothingLived(blobs, ls);
    }
  }

  lemma NothingLived(blobs: Blobs, ls: seq<Life>)
    requires LivesFit(ls)
    ensures AfterLives(blobs, ls, 0) == blobs
  {
  }

  /** While every cut is harmless, a boot only ever tries a pair stored at the beginning or joined. */
  lemma {:induction false} HarmlessCutsStayKnown(blobs: Blobs, ls: seq<Life>, n: nat)
    requires n <= |ls| && LivesFit(ls)
    requires forall i :: 0 <= i < n && ls[i].torn.Some? ==>
               Harmless(StoredAll(AfterLives(blobs, ls, i), ls[i].stored), ls[i].torn.value)
    ensures Known(blobs, ls, n, StoredPair(AfterLives(blobs, ls, n)))
  {
    if n == 0 {
      NothingLived(blobs, ls);
    } else {
      hide Known, StoredPair, Harmless, StoredAll, AfterLives, LifeFits;
      HarmlessCutsStayKnown(blobs, ls, n - 1);
      HarmlessLife(blobs, ls, n - 1);
    }
  }

  lemma HarmlessLife(blobs: Blobs, ls: seq<Life>, i: nat)
    requires i < |ls| && LivesFit(ls) && Known(blobs, ls, i, StoredPair(AfterLives(blobs, ls, i)))
    requires ls[i].torn.Some? ==> Harmless(StoredAll(AfterLives(blobs, ls, i), ls[i].stored), ls[i].torn.value)
    ensures Known(blobs, ls, i + 1, StoredPair(AfterLives(blobs, ls, i + 1)))
  {
    KnownStays(blobs, ls, i, StoredPair(AfterLives(blobs, ls, i)));
    var l := ls[i];
    var whole := l.(torn := None);
    var full := StoredAll(AfterLives(blobs, ls, i), l.stored);
    FullPair(blobs, ls, i);
    if l.torn.Some? {
      CutIsSafeExactly(full, l.torn.value);
      StoredPairRoundTrip(full, l.torn.value);
      assert AfterLives(blobs, ls, i + 1) == HalfWritten(full, l.torn.value);
      hide StoredPair, AfterLives, HalfWritten, WithPair;
      assert Joined(l, PairOf(l.torn.value));
    }
  }

  /** Before its cut, if any, a life leaves a known pair. */
  lemma FullPair(blobs: Blobs, ls: seq<Life>, i: nat)
    requires i < |ls| && LivesFit(ls) && Known(blobs, ls, i, StoredPair(AfterLives(blobs, ls, i)))
    ensures Known(blobs, ls, i + 1, StoredPair(StoredAll(AfterLives(blobs, ls, i), ls[i].stored)))
  {
    KnownStays(blobs, ls, i, StoredPair(AfterLives(blobs, ls, i)));
    var cs := ls[i].stored;
    if cs != [] {
      var c := cs[|cs| - 1];
      StoredPairRoundTrip(StoredAll(AfterLives(blobs, ls, i), cs[..|cs| - 1]), c);
      hide StoredPair;
      assert PairOf(ls[i].stored[|cs| - 1]) == PairOf(c);
      assert Joined(ls[i], PairOf(c));
    }
  }
}
