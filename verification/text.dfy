/** Text as the parsers see it: a sequence of bytes, written as characters. */
module Text {
  import opened Wrappers

  // ----- Numerals -----

  predicate IsDigit(c: char) { '0' <= c <= '9' }

  predicate AllDigits(s: string) { forall i :: 0 <= i < |s| ==> IsDigit(s[i]) }

  function DigitValue(c: char): (d: nat)
    requires IsDigit(c)
    ensures d < 10
  {
    c as int - '0' as int
  }

  function DigitChar(d: nat): (c: char)
    requires d < 10
    ensures IsDigit(c) && DigitValue(c) == d
  {
    ('0' as int + d) as char
  }

  /** The number a string of digits stands for. */
  function Numeral(s: string): nat
    requires AllDigits(s)
  {
    if s == "" then 0 else 10 * Numeral(s[..|s| - 1]) + DigitValue(s[|s| - 1])
  }

  lemma OneMoreDigit(s: string, p: nat, n: nat)
    requires p + n < |s| && AllDigits(s[p..p + n]) && IsDigit(s[p + n])
    ensures AllDigits(s[p..p + n + 1])
    ensures Numeral(s[p..p + n + 1]) == 10 * Numeral(s[p..p + n]) + DigitValue(s[p + n])
  {
    assert s[p..p + n + 1] == s[p..p + n] + [s[p + n]];
    assert s[p..p + n + 1][..n] == s[p..p + n];
  }

  /** The decimal numeral of a number, without leading zeros. */
  function Dec(n: nat): (s: string)
    ensures |s| >= 1
  {
    if n < 10 then [DigitChar(n)] else Dec(n / 10) + [DigitChar(n % 10)]
  }

  lemma {:induction false} NumeralOfDec(n: nat)
    ensures AllDigits(Dec(n)) && Numeral(Dec(n)) == n
  {
    if n >= 10 {
      NumeralOfDec(n / 10);
      assert Dec(n)[..|Dec(n)| - 1] == Dec(n / 10);
    } else {
      assert Dec(n)[..0] == "";
    }
  }

  function Pow10(k: nat): nat { if k == 0 then 1 else 10 * Pow10(k - 1) }

  lemma {:induction false} DecLength(n: nat, k: nat)
    requires k >= 1 && n < Pow10(k)
    ensures |Dec(n)| <= k
  {
    if n >= 10 {
      assert k > 1;
      DecLength(n / 10, k - 1);
    }
  }

  // ----- Prefixes, suffixes, first occurrences -----

  predicate StartsWith(s: string, p: string) { |p| <= |s| && s[..|p|] == p }

  predicate EndsWith(s: string, p: string) { |p| <= |s| && s[|s| - |p|..] == p }

  predicate OccursAt(s: string, p: string, i: nat) { i + |p| <= |s| && s[i..i + |p|] == p }

  /** The first occurrence at or after a position, as strstr finds it. */
  function FindFrom(s: string, p: string, from: nat): (r: Option<nat>)
    requires from <= |s|
    ensures r.Some? ==> from <= r.value && OccursAt(s, p, r.value)
    ensures forall i :: from <= i && (r.None? || i < r.value) ==> !OccursAt(s, p, i)
    decreases |s| - from
  {
    if OccursAt(s, p, from) then Some(from)
    else if from == |s| then None
    else FindFrom(s, p, from + 1)
  }

  function Find(s: string, p: string): Option<nat> { FindFrom(s, p, 0) }

  lemma FoundAt(s: string, p: string, at: nat)
    requires OccursAt(s, p, at) && forall i :: 0 <= i < at ==> !OccursAt(s, p, i)
    ensures Find(s, p) == Some(at)
  {
  }

  lemma OccursChar(s: string, p: string, i: nat, k: nat)
    requires OccursAt(s, p, i) && k < |p|
    ensures s[i + k] == p[k]
  {
    assert s[i..i + |p|][k] == s[i + k];
  }

  /** The longest run of digits at the start. */
  function LeadingDigits(s: string): (d: string)
    ensures StartsWith(s, d) && AllDigits(d)
    ensures |d| < |s| ==> !IsDigit(s[|d|])
  {
    if s == "" || !IsDigit(s[0]) then "" else [s[0]] + LeadingDigits(s[1..])
  }

  lemma {:induction false} LeadingDigitsOf(d: string, rest: string)
    requires AllDigits(d) && (rest == "" || !IsDigit(rest[0]))
    ensures LeadingDigits(d + rest) == d
  {
    if d == "" {
      assert d + rest == rest;
    } else {
      assert (d + rest)[1..] == d[1..] + rest;
      LeadingDigitsOf(d[1..], rest);
    }
  }

  // ----- Splitting -----

  /** The pieces between separators; one more than there are separators. */
  function Split(s: string, seps: set<char>): (parts: seq<string>)
    ensures |parts| >= 1
  {
    var j := PieceEnd(s, seps);
    if j == |s| then [s] else [s[..j]] + Split(s[j + 1..], seps)
  }

  /** Where the first piece ends. */
  function PieceEnd(s: string, seps: set<char>): (j: nat)
    ensures j <= |s| && (forall i :: 0 <= i < j ==> s[i] !in seps) && (j < |s| ==> s[j] in seps)
  {
    if s == "" || s[0] in seps then 0 else 1 + PieceEnd(s[1..], seps)
  }

  /** A byte buffer as a C string: up to its first NUL. */
  function CString(s: string): (r: string)
    ensures StartsWith(s, r) && (|r| < |s| ==> s[|r|] == '\0') && '\0' !in r
  {
    s[..PieceEnd(s, {'\0'})]
  }

  lemma NoTerminator(s: string)
    requires '\0' !in s
    ensures CString(s) == s
  {
  }

  predicate Free(s: string, seps: set<char>) { forall i :: 0 <= i < |s| ==> s[i] !in seps }

  lemma {:induction false} PieceEndIs(s: string, seps: set<char>, j: nat)
    requires j <= |s| && (forall i :: 0 <= i < j ==> s[i] !in seps) && (j < |s| ==> s[j] in seps)
    ensures PieceEnd(s, seps) == j
  {
    if j > 0 {
      PieceEndIs(s[1..], seps, j - 1);
    }
  }

  lemma SplitStep(piece: string, sep: char, rest: string, seps: set<char>)
    requires Free(piece, seps) && sep in seps
    ensures Split(piece + [sep] + rest, seps) == [piece] + Split(rest, seps)
  {
    var s := piece + [sep] + rest;
    PieceEndIs(s, seps, |piece|);
    assert s[..|piece|] == piece && s[|piece| + 1..] == rest;
  }

  lemma SplitLast(piece: string, seps: set<char>)
    requires Free(piece, seps)
    ensures Split(piece, seps) == [piece]
  {
    PieceEndIs(piece, seps, |piece|);
  }

  function Join(parts: seq<string>, sep: char): string
    requires parts != []
  {
    if |parts| == 1 then parts[0] else parts[0] + [sep] + Join(parts[1..], sep)
  }

  lemma {:induction false} SplitJoin(parts: seq<string>, sep: char, seps: set<char>)
    requires parts != [] && sep in seps && forall p :: p in parts ==> Free(p, seps)
    ensures Split(Join(parts, sep), seps) == parts
  {
    if |parts| == 1 {
      SplitLast(parts[0], seps);
    } else {
      SplitJoin(parts[1..], sep, seps);
      SplitStep(parts[0], sep, Join(parts[1..], sep), seps);
    }
  }

  /** A piece that is under way is the start of the first piece of what is left. */
  lemma {:induction false} FirstPieceExtends(seg: string, rest: string, seps: set<char>)
    requires Free(seg, seps)
    ensures Split(seg + rest, seps)[0] == seg + Split(rest, seps)[0]
    ensures Split(seg + rest, seps)[1..] == Split(rest, seps)[1..]
  {
    var j := PieceEnd(rest, seps);
    PieceEndIs(seg + rest, seps, |seg| + j);
    if j < |rest| {
      assert (seg + rest)[|seg| + j + 1..] == rest[j + 1..];
      assert (seg + rest)[..|seg| + j] == seg + rest[..j];
    }
  }
}
