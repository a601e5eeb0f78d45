/** The URL check of the shortener's POST handler: the case-insensitive
    regular expression  ^https?://[\w.-]+\.[a-z]{2,}(/.*)?$  written out as a
    recogniser over strings (IsValidUrl), together with a reference
    definition of the language the expression denotes (MatchesUrlPattern)
    and a proof that the two agree on every string.

    The expression has the `i` flag but not the `u` flag, so case folding
    only relates ASCII letters: no non-ASCII character matches an ASCII one. */
module UrlValidator {
  import opened Wrappers

  // ---------------------------------------------------------------------
  // Character classes
  // ---------------------------------------------------------------------

  predicate IsLetter(c: char) {
    ('a' <= c <= 'z') || ('A' <= c <= 'Z')
  }

  predicate IsDigit(c: char) {
    '0' <= c <= '9'
  }

  /** The class \w: ASCII letters, digits and the underscore. */
  predicate IsWordChar(c: char) {
    IsLetter(c) || IsDigit(c) || c == '_'
  }

  /** The class [\w.-] that host characters are drawn from. */
  predicate IsHostChar(c: char) {
    IsWordChar(c) || c == '.' || c == '-'
  }

  /** The characters `.` refuses to match: the four line terminators. */
  predicate IsLineTerminator(c: char) {
    c == '\n' || c == '\r' || c == '\U{2028}' || c == '\U{2029}'
  }

  /** ASCII lower-casing; every other character is left as it is. */
  function ToLower(c: char): (r: char)
    ensures IsLetter(c) ==> 'a' <= r <= 'z'
    ensures !('A' <= c <= 'Z') ==> r == c
  {
    if 'A' <= c <= 'Z' then (c as int - 'A' as int + 'a' as int) as char else c
  }

  /** `s` spells the lower-case word `lower`, ignoring the case of letters. */
  predicate EqualsIgnoreCase(s: string, lower: string) {
    |s| == |lower| && forall i :: 0 <= i < |s| ==> ToLower(s[i]) == lower[i]
  }

  // ---------------------------------------------------------------------
  // The pieces of the expression, each on its own
  // ---------------------------------------------------------------------

  /** https?://  (case-insensitive) */
  predicate IsScheme(p: string) {
    || (|p| == 7 && EqualsIgnoreCase(p[..4], "http") && p[4..] == "://")
    || (|p| == 8 && EqualsIgnoreCase(p[..5], "https") && p[5..] == "://")
  }

  /** [\w.-]+ */
  predicate IsHostText(h: string) {
    |h| >= 1 && forall i :: 0 <= i < |h| ==> IsHostChar(h[i])
  }

  /** [a-z]{2,}  (case-insensitive) */
  predicate IsTld(t: string) {
    |t| >= 2 && forall i :: 0 <= i < |t| ==> IsLetter(t[i])
  }

  /** (/.*)?  followed by the end of the input */
  predicate IsPathText(p: string) {
    p == [] || (p[0] == '/' && forall i :: 1 <= i < |p| ==> !IsLineTerminator(p[i]))
  }

  /** Reference definition: the strings the regular expression matches are
      exactly those that split into the four pieces above, with a literal dot
      between the host and the top-level label. */
  ghost predicate MatchesUrlPattern(s: string) {
    exists scheme, host, tld, path ::
      && IsScheme(scheme) && IsHostText(host) && IsTld(tld) && IsPathText(path)
      && s == scheme + host + "." + tld + path
  }

  // ---------------------------------------------------------------------
  // The recogniser
  // ---------------------------------------------------------------------

  /** Length of the leading "http://" or "https://" (in any case), or 0. */
  function SchemeLength(s: string): (n: nat)
    ensures n == 0 || n == 7 || n == 8
    ensures n > 0 ==> n <= |s| && IsScheme(s[..n])
    ensures n == 0 ==> forall k :: 0 <= k <= |s| ==> !IsScheme(s[..k])
  {
    if |s| >= 7 && EqualsIgnoreCase(s[..4], "http") && s[4..7] == "://" then 7
    else if |s| >= 8 && EqualsIgnoreCase(s[..5], "https") && s[5..8] == "://" then 8
    else 0
  }

  /** Position of the first '/', or the length when there is none. */
  function FirstSlash(r: string): (n: nat)
    ensures n <= |r|
    ensures forall i :: 0 <= i < n ==> r[i] != '/'
    ensures n < |r| ==> r[n] == '/'
  {
    if r == [] || r[0] == '/' then 0 else 1 + FirstSlash(r[1..])
  }

  /** Position of the last '.', if any. */
  function LastDot(a: string): (r: Option<nat>)
    ensures r.Some? ==> r.value < |a| && a[r.value] == '.'
    ensures r.Some? ==> forall j :: r.value < j < |a| ==> a[j] != '.'
    ensures r.None? ==> forall j :: 0 <= j < |a| ==> a[j] != '.'
  {
    if a == [] then None
    else if a[|a| - 1] == '.' then Some(|a| - 1)
    else LastDot(a[..|a| - 1])
  }

  /** The part between the scheme and the first '/': host characters only,
      and the text after its last dot is a label of at least two letters with
      something before that dot. */
  predicate IsAuthority(a: string) {
    && (forall i :: 0 <= i < |a| ==> IsHostChar(a[i]))
    && match LastDot(a)
       case None => false
       case Some(p) => p >= 1 && IsTld(a[p + 1..])
  }

  /** The validator of the POST /api/shorturl handler. */
  predicate IsValidUrl(s: string) {
    var k := SchemeLength(s);
    k > 0 &&
    var rest := s[k..];
    var n := FirstSlash(rest);
    IsAuthority(rest[..n]) && IsPathText(rest[n..])
  }

  // ---------------------------------------------------------------------
  // The recogniser accepts exactly the language of the expression
  // ---------------------------------------------------------------------

  /** A string split into four pieces that fit their parts of the expression
      matches it, however the concatenation is grouped. */
  lemma PiecesMatchPattern(s: string, scheme: string, a: string, path: string, host: string, tld: string)
    requires IsScheme(scheme) && IsHostText(host) && IsTld(tld) && IsPathText(path)
    requires a == host + "." + tld && s == scheme + (a + path)
    ensures MatchesUrlPattern(s)
  {
    assert s == scheme + host + "." + tld + path;
  }

  /** An accepted authority splits at its last dot into a host and a label. */
  lemma AuthorityPieces(a: string)
    requires IsAuthority(a)
    ensures var p := LastDot(a).value;
            && IsHostText(a[..p]) && IsTld(a[p + 1..])
            && a == a[..p] + "." + a[p + 1..]
  {
    var p := LastDot(a).value;
    assert forall i :: 0 <= i < p ==> a[..p][i] == a[i];
    assert a == a[..p] + [a[p]] + a[p + 1..];
  }

  /** Every string the recogniser accepts matches the expression. */
  lemma ValidUrlMatchesPattern(s: string)
    requires IsValidUrl(s)
    ensures MatchesUrlPattern(s)
  {
    var k := SchemeLength(s);
    var rest := s[k..];
    var n := FirstSlash(rest);
    var a, path := rest[..n], rest[n..];
    AuthorityPieces(a);
    var p := LastDot(a).value;
    assert s == s[..k] + (a + path) by {
      assert s == s[..k] + rest;
      assert rest == a + path;
    }
    PiecesMatchPattern(s, s[..k], a, path, a[..p], a[p + 1..]);
  }

  /** The scheme prefix is recognised with its own length, whatever follows. */
  lemma SchemeLengthOfScheme(scheme: string, rest: string)
    requires IsScheme(scheme)
    ensures SchemeLength(scheme + rest) == |scheme|
  {
    var s := scheme + rest;
    if |scheme| == 7 {
      assert s[..4] == scheme[..4] && s[4..7] == scheme[4..];
    } else {
      assert s[..5] == scheme[..5] && s[5..8] == scheme[5..];
      assert ToLower(s[4]) == 's';
      assert s[4..7] != "://" by { assert s[4..7][0] == s[4]; }
    }
  }

  /** A host, a dot and a top-level label hold no '/'. */
  lemma AuthorityHasNoSlash(host: string, tld: string)
    requires IsHostText(host) && IsTld(tld)
    ensures forall i :: 0 <= i < |host + "." + tld| ==> IsHostChar((host + "." + tld)[i])
    ensures forall i :: 0 <= i < |host + "." + tld| ==> (host + "." + tld)[i] != '/'
  {
  }

  /** The first '/' is where the prefix free of '/' stops. */
  lemma FirstSlashAt(r: string, n: nat)
    requires n <= |r|
    requires forall i :: 0 <= i < n ==> r[i] != '/'
    requires n < |r| ==> r[n] == '/'
    ensures FirstSlash(r) == n
  {
  }

  /** When the path is empty or starts with '/', the first '/' ends the authority. */
  lemma FirstSlashEndsAuthority(a: string, path: string)
    requires forall i :: 0 <= i < |a| ==> a[i] != '/'
    requires IsPathText(path)
    ensures FirstSlash(a + path) == |a|
  {
    var rest := a + path;
    assert forall i :: 0 <= i < |a| ==> rest[i] == a[i];
    FirstSlashAt(rest, |a|);
  }

  /** A dot with no dot after it is the last dot. */
  lemma LastDotAt(a: string, p: nat)
    requires p < |a| && a[p] == '.'
    requires forall j :: p < j < |a| ==> a[j] != '.'
    ensures LastDot(a) == Some(p)
  {
  }

  /** The dot in front of an all-letter label is the last dot. */
  lemma LastDotBeforeTld(host: string, tld: string)
    requires IsTld(tld)
    ensures LastDot(host + "." + tld) == Some(|host|)
  {
    var a := host + "." + tld;
    assert a[|host|] == '.';
    assert forall j :: |host| < j < |a| ==> a[j] == tld[j - |host| - 1];
    assert forall j :: |host| < j < |a| ==> a[j] != '.';
    LastDotAt(a, |host|);
  }

  /** Every string that matches the expression is accepted by the recogniser. */
  lemma PatternMatchIsValidUrl(s: string)
    requires MatchesUrlPattern(s)
    ensures IsValidUrl(s)
  {
    var scheme, host, tld, path :|
      && IsScheme(scheme) && IsHostText(host) && IsTld(tld) && IsPathText(path)
      && s == scheme + host + "." + tld + path;
    var a := host + "." + tld;
    var rest := a + path;
    assert s == scheme + rest;
    SchemeLengthOfScheme(scheme, rest);
    assert s[|scheme|..] == rest;
    AuthorityHasNoSlash(host, tld);
    FirstSlashEndsAuthority(a, path);
    assert rest[..|a|] == a && rest[|a|..] == path;
    LastDotBeforeTld(host, tld);
    assert a[|host| + 1..] == tld;
  }

  /** The recogniser and the reference definition agree on every string. */
  lemma ValidUrlIffPattern(s: string)
    ensures IsValidUrl(s) <==> MatchesUrlPattern(s)
  {
    if IsValidUrl(s) {
      ValidUrlMatchesPattern(s);
    }
    if MatchesUrlPattern(s) {
      PatternMatchIsValidUrl(s);
    }
  }

  // ---------------------------------------------------------------------
  // Examples: the expression is loose on some inputs and strict on others
  // ---------------------------------------------------------------------

  /** A string split into four pieces that fit their parts of the expression
      is accepted. */
  lemma PiecesAreValidUrl(s: string, scheme: string, host: string, tld: string, path: string)
    requires IsScheme(scheme) && IsHostText(host) && IsTld(tld) && IsPathText(path)
    requires s == scheme + (host + "." + tld + path)
    ensures IsValidUrl(s)
  {
    PiecesMatchPattern(s, scheme, host + "." + tld, path, host, tld);
    PatternMatchIsValidUrl(s);
  }

  lemma AcceptsPlainUrl(s: string)
    requires s == "https://www.freecodecamp.org"
    ensures IsValidUrl(s)
  {
    var scheme, host, tld, path := "https://", "www.freecodecamp", "org", "";
    assert IsScheme(scheme) by {
      assert EqualsIgnoreCase(scheme[..5], "https");
    }
    assert IsHostText(host) && IsTld(tld) && IsPathText(path);
    PiecesAreValidUrl(s, scheme, host, tld, path);
  }

  /** An upper-case scheme, a host that is a single dash and a path with a
      space are all accepted. */
  lemma AcceptsLooseUrl(s: string)
    requires s == "HTTP://-.Co/a b"
    ensures IsValidUrl(s)
  {
    var scheme, host, tld, path := "HTTP://", "-", "Co", "/a b";
    assert EqualsIgnoreCase(scheme[..4], "http");
    assert IsScheme(scheme) && IsHostText(host) && IsTld(tld) && IsPathText(path);
    assert s == scheme + host + "." + tld + path;
    PatternMatchIsValidUrl(s);
  }

  /** Only the http and https schemes are accepted. */
  lemma RejectsOtherScheme(s: string)
    requires s == "ftp://example.com"
    ensures !IsValidUrl(s)
  {
    assert SchemeLength(s) == 0 by {
      assert ToLower(s[..4][0]) != 'h' && ToLower(s[..5][0]) != 'h';
    }
  }

  /** A port is not a host character, and a host needs a dot. */
  lemma RejectsPort(s: string)
    requires s == "http://localhost:3000"
    ensures !IsValidUrl(s)
  {
    assert EqualsIgnoreCase(s[..4], "http");
    assert SchemeLength(s) == 7;
    var rest := s[7..];
    FirstSlashAt(rest, |rest|);
    assert !IsHostChar(rest[9]);
  }

  /** The label after the last dot needs at least two letters. */
  lemma RejectsOneLetterTld(s: string)
    requires s == "http://example.c"
    ensures !IsValidUrl(s)
  {
    assert EqualsIgnoreCase(s[..4], "http");
    assert SchemeLength(s) == 7;
    var rest := s[7..];
    FirstSlashAt(rest, |rest|);
    LastDotAt(rest, 7);
  }
}
