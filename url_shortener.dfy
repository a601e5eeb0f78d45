/** The URL shortener service: a table of (original URL, short code) records,
    the POST /api/shorturl handler that validates a URL and returns its code
    (reusing the code of an identical URL, otherwise allocating one more than
    the largest code in the table), and the GET /api/shorturl/:short_url
    handler that resolves a code back to its URL.

    The document store is a sequence of records held by the class UrlStore;
    a handler's response is a datatype value instead of a JSON body or a
    redirect. Calls are sequential. */
module UrlShortener {
  import opened Wrappers
  import opened UrlValidator

  /** A stored document: the submitted URL and the code assigned to it. */
  datatype UrlRecord = UrlRecord(original: string, short: int)

  /** Body of the POST handler: {error: 'invalid url'} or
      {original_url, short_url}. */
  datatype ShortenResponse =
    | InvalidUrl
    | Shortened(originalUrl: string, shortUrl: int)

  /** Answer of the GET handler: {error: 'No short URL found'}, a redirect
      to the stored URL, or {error: 'Server error'} when the lookup itself
      fails. */
  datatype ResolveResponse =
    | NoShortUrlFound
    | Redirect(target: string)
    | ServerError

  /** What shortening returns, together with the table afterwards. */
  datatype ShortenOutcome = ShortenOutcome(response: ShortenResponse, table: seq<UrlRecord>)

  // ---------------------------------------------------------------------
  // The table invariant
  // ---------------------------------------------------------------------

  /** Codes are positive and increase in insertion order, so no two are equal. */
  ghost predicate CodesIncreasing(t: seq<UrlRecord>) {
    && (forall i :: 0 <= i < |t| ==> t[i].short >= 1)
    && (forall i, j :: 0 <= i < j < |t| ==> t[i].short < t[j].short)
  }

  /** No URL is stored twice. */
  ghost predicate OriginalsDistinct(t: seq<UrlRecord>) {
    forall i, j :: 0 <= i < j < |t| ==> t[i].original != t[j].original
  }

  ghost predicate WellFormed(t: seq<UrlRecord>) {
    CodesIncreasing(t) && OriginalsDistinct(t)
  }

  /** Some record holds `url`. */
  ghost predicate IsStored(t: seq<UrlRecord>, url: string) {
    exists i :: 0 <= i < |t| && t[i].original == url
  }

  /** Some record holds `code`. */
  ghost predicate IsAssigned(t: seq<UrlRecord>, code: int) {
    exists i :: 0 <= i < |t| && t[i].short == code
  }

  // ---------------------------------------------------------------------
  // Queries against the table
  // ---------------------------------------------------------------------

  /** findOne({original: url}): the first record holding `url`, if any. */
  function FindByOriginal(t: seq<UrlRecord>, url: string): (r: Option<UrlRecord>)
    ensures r.Some? ==> r.value in t && r.value.original == url
    ensures r.None? <==> !IsStored(t, url)
  {
    if t == [] then None
    else if t[0].original == url then Some(t[0])
    else
      var r := FindByOriginal(t[1..], url);
      assert r.None? ==> forall i :: 1 <= i < |t| ==> t[i] == t[1..][i - 1];
      r
  }

  /** findOne({short: code}): the first record holding `code`, if any. */
  function FindByShort(t: seq<UrlRecord>, code: int): (r: Option<UrlRecord>)
    ensures r.Some? ==> r.value in t && r.value.short == code
    ensures r.None? <==> !IsAssigned(t, code)
  {
    if t == [] then None
    else if t[0].short == code then Some(t[0])
    else
      var r := FindByShort(t[1..], code);
      assert r.None? ==> forall i :: 1 <= i < |t| ==> t[i] == t[1..][i - 1];
      r
  }

  /** findOne().sort({short: -1}).short: the largest code in a non-empty table. */
  function MaxCode(t: seq<UrlRecord>): (m: int)
    requires |t| > 0
    ensures forall i :: 0 <= i < |t| ==> t[i].short <= m
    ensures IsAssigned(t, m)
  {
    if |t| == 1 then t[0].short
    else
      var m := MaxCode(t[1..]);
      assert forall i :: 1 <= i < |t| ==> t[i] == t[1..][i - 1];
      if t[0].short >= m then t[0].short else m
  }

  /** The code a new URL receives: 1 in an empty table, otherwise one more
      than the largest code. */
  function NextCode(t: seq<UrlRecord>): (c: int)
    ensures forall i :: 0 <= i < |t| ==> t[i].short < c
    ensures t == [] ==> c == 1
    ensures t != [] ==> IsAssigned(t, c - 1)
  {
    if t == [] then 1 else MaxCode(t) + 1
  }

  // ---------------------------------------------------------------------
  // The two handlers on a table value
  // ---------------------------------------------------------------------

  /** POST /api/shorturl on table `t` with body url `url`. */
  function ShortenOn(t: seq<UrlRecord>, url: string): (out: ShortenOutcome)
    // A URL the validator rejects yields the error body and changes nothing.
    ensures out.response == InvalidUrl <==> !IsValidUrl(url)
    ensures !IsValidUrl(url) ==> out.table == t
    // An accepted URL is echoed with a code under which it is now stored.
    ensures out.response.Shortened? ==>
              out.response.originalUrl == url && UrlRecord(url, out.response.shortUrl) in out.table
    // A URL already stored keeps its record and its code; nothing is added.
    ensures IsStored(t, url) ==> out.table == t
    // A new URL gets one more than every existing code (1 in an empty
    // table) and is appended as exactly one record.
    ensures IsValidUrl(url) && !IsStored(t, url) ==>
              && (t == [] ==> out.response.shortUrl == 1)
              && (t != [] ==> IsAssigned(t, out.response.shortUrl - 1))
              && (forall i :: 0 <= i < |t| ==> t[i].short < out.response.shortUrl)
              && out.table == t + [UrlRecord(url, out.response.shortUrl)]
  {
    if !IsValidUrl(url) then ShortenOutcome(InvalidUrl, t)
    else match FindByOriginal(t, url)
      case Some(found) => ShortenOutcome(Shortened(found.original, found.short), t)
      case None =>
        var next := NextCode(t);
        ShortenOutcome(Shortened(url, next), t + [UrlRecord(url, next)])
  }

  /** GET /api/shorturl/:short_url on table `t`; the code is None when the
      path segment does not parse as an integer. A NaN code fails the store's
      Number cast of the query filter, so the lookup throws and the handler
      answers a server error. */
  function Resolve(t: seq<UrlRecord>, code: Option<int>): (r: ResolveResponse)
    ensures r == ServerError <==> code.None?
    ensures r.Redirect? <==> code.Some? && IsAssigned(t, code.value)
    ensures r.Redirect? ==> UrlRecord(r.target, code.value) in t
  {
    if code.None? then ServerError
    else match FindByShort(t, code.value)
      case None => NoShortUrlFound
      case Some(found) => Redirect(found.original)
  }

  // ---------------------------------------------------------------------
  // Properties of sequential calls
  // ---------------------------------------------------------------------

  /** Shortening keeps codes increasing and originals distinct. */
  lemma ShortenPreservesWellFormed(t: seq<UrlRecord>, url: string)
    requires WellFormed(t)
    ensures WellFormed(ShortenOn(t, url).table)
  {
  }

  /** In a well-formed table a stored URL has exactly one record. */
  lemma StoredRecordIsUnique(t: seq<UrlRecord>, a: UrlRecord, b: UrlRecord)
    requires WellFormed(t)
    requires a in t && b in t
    ensures a.original == b.original <==> a == b
    ensures a.short == b.short <==> a == b
  {
  }

  /** Shortening the same URL twice returns the same response and leaves the
      table as the first call left it. */
  lemma ShortenIdempotent(t: seq<UrlRecord>, url: string)
    ensures var first := ShortenOn(t, url);
            ShortenOn(first.table, url) == first
  {
  }

  /** Round trip: resolving the code returned for a valid URL redirects to
      that URL. */
  lemma ResolveShortened(t: seq<UrlRecord>, url: string)
    requires WellFormed(t)
    requires IsValidUrl(url)
    ensures var out := ShortenOn(t, url);
            out.response.Shortened? &&
            Resolve(out.table, Some(out.response.shortUrl)) == Redirect(url)
  {
  }

  /** Two different valid URLs shortened one after the other, the second not
      yet stored, receive different codes, the second one larger. */
  lemma DistinctUrlsGetIncreasingCodes(t: seq<UrlRecord>, u1: string, u2: string)
    requires WellFormed(t)
    requires IsValidUrl(u1) && IsValidUrl(u2) && u1 != u2
    requires !IsStored(t, u2)
    ensures var first := ShortenOn(t, u1);
            var second := ShortenOn(first.table, u2);
            first.response.shortUrl < second.response.shortUrl
  {
  }

  /** findOne({short: code}) returns the first record holding the code, so
      records appended after it do not change the answer. */
  lemma {:induction false} FindByShortAppend(t: seq<UrlRecord>, extra: seq<UrlRecord>, code: int)
    requires IsAssigned(t, code)
    ensures FindByShort(t + extra, code) == FindByShort(t, code)
  {
    assert (t + extra)[0] == t[0];
    if t[0].short != code {
      assert (t + extra)[1..] == t[1..] + extra;
      var i :| 0 <= i < |t| && t[i].short == code;
      assert t[1..][i - 1].short == code;
      FindByShortAppend(t[1..], extra, code);
    }
  }

  /** Shortening never removes or alters a record and only appends, so a
      code that resolves keeps resolving to the same URL, even in a table
      that holds the code twice. */
  lemma ShortenKeepsResolution(t: seq<UrlRecord>, url: string, code: int)
    requires IsAssigned(t, code)
    ensures Resolve(ShortenOn(t, url).table, Some(code)) == Resolve(t, Some(code))
  {
    var out := ShortenOn(t, url);
    if out.table != t {
      FindByShortAppend(t, out.table[|t|..], code);
      assert out.table == t + out.table[|t|..];
    }
  }

  // ---------------------------------------------------------------------
  // The store
  // ---------------------------------------------------------------------

  /** The Url collection, updated in place by the POST handler. */
  class UrlStore {
    var records: seq<UrlRecord>

    ghost predicate Valid()
      reads this
    {
      WellFormed(records)
    }

    constructor ()
      ensures Valid() && records == []
    {
      records := [];
    }

    /** POST /api/shorturl: validate, look the URL up, otherwise allocate
        the next code and save a new record. */
    method Shorten(url: string) returns (res: ShortenResponse)
      requires Valid()
      modifies this
      ensures Valid()
      ensures res == ShortenOn(old(records), url).response
      ensures records == ShortenOn(old(records), url).table
    {
      ShortenPreservesWellFormed(records, url);
      if !IsValidUrl(url) {
        return InvalidUrl;
      }
      var found := FindByOriginal(records, url);
      if found.Some? {
        return Shortened(found.value.original, found.value.short);
      }
      var next := NextCode(records);
      records := records + [UrlRecord(url, next)];
      return Shortened(url, next);
    }
  }

  /** A client that shortens a URL twice and then follows the code: both
      calls return the same code, and the code leads back to the URL. */
  method ShortenTwiceThenResolve(store: UrlStore, url: string)
    returns (first: ShortenResponse, second: ShortenResponse, target: ResolveResponse)
    requires store.Valid()
    requires IsValidUrl(url)
    modifies store
    ensures store.Valid()
    ensures first == second && first.Shortened?
    ensures target == Redirect(url)
  {
    ghost var t0 := store.records;
    first := store.Shorten(url);
    ShortenIdempotent(t0, url);
    ResolveShortened(t0, url);
    second := store.Shorten(url);
    target := Resolve(store.records, Some(first.shortUrl));
  }
}
