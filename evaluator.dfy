/**
 * The evidence-URL evaluator: fetch the page through the cache, refuse
 * anti-bot pages, pick a metadata extractor by host name and run the rights
 * check on what it reads. Every path that cannot use the page ends in
 * UNKNOWN.
 */
module Evaluator {
  import opened Wrappers
  import opened Text
  import opened Cache
  import opened RightsEngine
  import opened UrlModels
  import opened UrlCommon
  import UrlGutenberg

  /** The metadata extractors: one per adapter domain, and the generic one. */
  datatype Extractor = Imslp | Cpdl | GutenbergPage | ArchivePage | LocPage | GenericPage

  /** `ADAPTERS`, in its order. */
  const Adapters: seq<(string, Extractor)> := [
    ("imslp.org", Imslp), ("cpdl.org", Cpdl), ("gutenberg.org", GutenbergPage),
    ("archive.org", ArchivePage), ("loc.gov", LocPage)]

  const CloudflareMarkers: seq<string> := ["cloudflare", "attention required", "captcha", "access denied"]

  /**
   * The library routines and extractors this model does not open up:
   * `urlparse(url).hostname`, the generic extractor's patterns, `html.unescape`,
   * the Gutenberg release-date pattern and the IMSLP, CPDL and LOC extractors.
   */
  datatype PageReaders = PageReaders(
    hostname: string -> Option<string>,
    scan: Scanner,
    unescape: string -> string,
    release: string -> Option<int>,
    imslp: string -> UrlMetadata,
    cpdl: string -> UrlMetadata,
    loc: string -> UrlMetadata)

  /** `_hostname`: the lower-cased host, or "" when the URL has none. */
  function Hostname(url: string, readers: PageReaders): (h: string)
    ensures readers.hostname(url).None? ==> h == ""
    ensures Lower(h) == h
  {
    var h := Lower(readers.hostname(url).GetOr(""));
    LowerIdempotent(readers.hostname(url).GetOr(""));
    h
  }

  /** A host belongs to a domain when it is the domain or one of its subdomains. */
  predicate DomainMatches(host: string, domain: string) {
    host == domain || EndsWith(host, "." + domain)
  }

  /** The index of the first entry whose domain the host matches. */
  function FirstMatch(host: string, adapters: seq<(string, Extractor)>): (r: Option<nat>)
    ensures r.Some? ==> r.value < |adapters| && DomainMatches(host, adapters[r.value].0)
    ensures r.Some? ==> forall k :: 0 <= k < r.value ==> !DomainMatches(host, adapters[k].0)
    ensures r.None? ==> forall k :: 0 <= k < |adapters| ==> !DomainMatches(host, adapters[k].0)
  {
    if adapters == [] then None
    else if DomainMatches(host, adapters[0].0) then Some(0)
    else match FirstMatch(host, adapters[1..])
      case None => None
      case Some(i) => Some(i + 1)
  }

  /** `_find_adapter`: the first matching adapter in `ADAPTERS` order, else the generic extractor. */
  function FindAdapter(url: string, readers: PageReaders): Extractor {
    match FirstMatch(Hostname(url, readers), Adapters)
    case None => GenericPage
    case Some(i) => Adapters[i].1
  }

  /** Running the chosen extractor on the raw page. */
  function ReadMetadata(extractor: Extractor, raw: string, readers: PageReaders): UrlMetadata {
    match extractor
    case Imslp => readers.imslp(raw)
    case Cpdl => readers.cpdl(raw)
    case GutenbergPage => UrlGutenberg.ExtractMetadata(raw, readers.scan, readers.unescape, readers.release)
    case ArchivePage => ExtractMetadataGeneric(raw, readers.scan, readers.unescape)
    case LocPage => readers.loc(raw)
    case GenericPage => ExtractMetadataGeneric(raw, readers.scan, readers.unescape)
  }

  /** `_is_antibot_page`: the lower-cased page contains one of the markers. */
  predicate IsAntibotPage(raw: string) {
    exists k :: 0 <= k < |CloudflareMarkers| && Contains(Lower(raw), CloudflareMarkers[k])
  }

  /** The status-code text of the generic HTTP-error warning: `code or 'unknown'`. */
  function CodeText(code: Option<int>): (t: string)
    ensures (code.None? || code.value == 0) <==> t == "unknown"
  {
    if code.None? || code.value == 0 then "unknown"
    else
      var t := IntToString(code.value);
      assert t[0] == '-' || IsDigit(t[0]);
      t
  }

  /** The warning for each way the fetch can fail. */
  function FetchWarning(e: FetchError): string {
    match e
    case Timeout => "Request timed out"
    case HttpError(code) =>
      if code == Some(403) then "Received HTTP 403 (possible anti-bot protection)"
      else "HTTP error while fetching evidence URL (" + CodeText(code) + ")"
    case RequestError(message) => "Network error: " + message
  }

  const AntibotWarning: string := "Blocked by anti-bot protection (Cloudflare/captcha)"

  /** The verdict given when the page cannot be used. */
  function NoEvidence(jurisdiction: string): RightsResult {
    CheckLyricsRights(jurisdiction, None, None, "unknown")
  }

  datatype Evaluation = Evaluation(rights: RightsResult, evaluation: UrlEvaluation)

  /** The decision chain of `evaluate_url`, once the cache has answered with a page or an error. */
  function Decide(url: string, jurisdiction: string, fetched: Result<string, FetchError>, readers: PageReaders): Evaluation {
    match fetched
    case Failure(e) =>
      Evaluation(NoEvidence(jurisdiction),
                 UrlEvaluation(ExtractMetadataGeneric("", readers.scan, readers.unescape), Some(FetchWarning(e))))
    case Success(raw) =>
      if IsAntibotPage(raw) then
        Evaluation(NoEvidence(jurisdiction),
                   UrlEvaluation(ExtractMetadataGeneric("", readers.scan, readers.unescape), Some(AntibotWarning)))
      else
        var metadata := ReadMetadata(FindAdapter(url, readers), raw, readers);
        if !HasSufficientMetadata(metadata) then
          Evaluation(NoEvidence(jurisdiction), UrlEvaluation(metadata))
        else
          Evaluation(CheckLyricsRights(jurisdiction, metadata.publicationYear, metadata.lyricistDeathYear,
                                       metadata.renewalStatus),
                     UrlEvaluation(metadata))
  }

  /** `evaluate_url`: one read through the cache, then the decision chain. */
  method EvaluateUrl(url: string, jurisdiction: string, cache: HttpCache, now: int, network: Network,
                     readers: PageReaders)
    returns (rights: RightsResult, evaluation: UrlEvaluation, ghost fetched: Result<string, FetchError>)
    modifies cache
    ensures fetched == if IsFresh(old(cache.rows), url, now, cache.ttlSeconds)
                       then Success(old(cache.rows)[url].body) else network(url)
    ensures cache.rows == RowsAfter(old(cache.rows), url, now, cache.ttlSeconds, network)
    ensures Evaluation(rights, evaluation) == Decide(url, jurisdiction, fetched, readers)
  {
    var page;
    ghost var usedNetwork;
    page, usedNetwork := cache.GetText(url, now, network);
    fetched := page;
    var decided := Decide(url, jurisdiction, page, readers);
    rights, evaluation := decided.rights, decided.evaluation;
  }

  // ---------------------------------------------------------------------
  // Adapter selection
  // ---------------------------------------------------------------------

  /** Matching a domain means ending with it, preceded by a dot unless the host is the domain itself. */
  lemma DomainMatchesSuffix(host: string, domain: string)
    requires DomainMatches(host, domain)
    ensures |host| >= |domain| && host[|host| - |domain|..] == domain
    ensures |host| > |domain| ==> host[|host| - |domain| - 1] == '.'
  {
    if host != domain {
      var d := "." + domain;
      assert host[|host| - |domain|..] == host[|host| - |d|..][1..];
      assert host[|host| - |domain| - 1] == host[|host| - |d|..][0];
    }
  }

  /**
   * No host matches two entries of `ADAPTERS`: the order of the table never
   * decides which extractor is used.
   */
  lemma AtMostOneAdapterMatches(host: string)
    ensures forall i, j :: 0 <= i < j < |Adapters| && DomainMatches(host, Adapters[i].0) ==>
              !DomainMatches(host, Adapters[j].0)
  {
    forall i, j | 0 <= i < j < |Adapters| && DomainMatches(host, Adapters[i].0)
      ensures !DomainMatches(host, Adapters[j].0)
    {
      var a := Adapters[i].0;
      var b := Adapters[j].0;
      DomainMatchesSuffix(host, a);
      if DomainMatches(host, b) {
        // Both domains end the host, so one would end the other.
        DomainMatchesSuffix(host, b);
      }
    }
  }

  /** The extractor chosen for a URL is the one whose domain its host matches; no match gives the generic one. */
  lemma AdapterByDomain(url: string, readers: PageReaders, k: nat)
    requires k < |Adapters|
    ensures DomainMatches(Hostname(url, readers), Adapters[k].0) ==> FindAdapter(url, readers) == Adapters[k].1
    ensures (forall i :: 0 <= i < |Adapters| ==> !DomainMatches(Hostname(url, readers), Adapters[i].0)) ==>
              FindAdapter(url, readers) == GenericPage
  {
    var host := Hostname(url, readers);
    AtMostOneAdapterMatches(host);
  }

  /** A URL without a host name, or with an empty one, gets the generic extractor. */
  lemma NoHostIsGeneric(url: string, readers: PageReaders)
    requires readers.hostname(url).None? || readers.hostname(url) == Some("")
    ensures FindAdapter(url, readers) == GenericPage
  {
    assert Hostname(url, readers) == "";
    forall i | 0 <= i < |Adapters| ensures !DomainMatches("", Adapters[i].0) {
    }
  }

  /** A host that merely ends with a domain's text, without the dot, is not on that domain. */
  lemma SuffixWithoutDotDoesNotMatch()
    ensures !DomainMatches("notimslp.org", "imslp.org")
    ensures DomainMatches("www.imslp.org", "imslp.org")
  {
    assert ("notimslp.org")[2] != ("." + "imslp.org")[0];
    assert ("www.imslp.org")[4..] == "imslp.org";
    assert ("www.imslp.org")[3..] == "." + "imslp.org";
  }

  // ---------------------------------------------------------------------
  // Anti-bot detection
  // ---------------------------------------------------------------------

  /** `sub in s` survives lower-casing both sides. */
  lemma {:induction false} ContainsLower(s: string, sub: string)
    requires Contains(s, sub)
    ensures Contains(Lower(s), Lower(sub))
    decreases |s|
  {
    if StartsWith(s, sub) {
      assert Lower(s)[..|sub|] == Lower(s[..|sub|]);
    } else {
      ContainsLower(s[1..], sub);
      assert Lower(s)[1..] == Lower(s[1..]);
    }
  }

  /** Marker detection ignores case: a page holding a marker in any ASCII case is blocked. */
  lemma AntibotIgnoresCase(raw: string, k: nat)
    requires k < |CloudflareMarkers|
    requires Contains(raw, CloudflareMarkers[k]) || Contains(Lower(raw), CloudflareMarkers[k])
    ensures IsAntibotPage(raw)
    ensures IsAntibotPage(Lower(raw))
  {
    LowerIdempotent(raw);
    if Contains(raw, CloudflareMarkers[k]) {
      ContainsLower(raw, CloudflareMarkers[k]);
      MarkerIsLower(k);
    }
  }

  /** The markers are written in lower case, so lower-casing leaves them unchanged. */
  lemma MarkerIsLower(k: nat)
    requires k < |CloudflareMarkers|
    ensures Lower(CloudflareMarkers[k]) == CloudflareMarkers[k]
  {
    var m := CloudflareMarkers[k];
    forall i | 0 <= i < |m| ensures LowerChar(m[i]) == m[i] {
      if k == 0 {
        assert m == "cloudflare";
      } else if k == 1 {
        assert m == "attention required";
      } else if k == 2 {
        assert m == "captcha";
      } else {
        assert m == "access denied";
      }
    }
  }

  // ---------------------------------------------------------------------
  // The decision chain
  // ---------------------------------------------------------------------

  /** Every fetch failure gives UNKNOWN, the metadata of an empty page and a warning naming the failure. */
  lemma FetchFailureIsUnknown(url: string, jurisdiction: string, e: FetchError, readers: PageReaders)
    ensures var d := Decide(url, jurisdiction, Failure(e), readers);
      && d.rights.status == UNKNOWN
      && d.evaluation.metadata == ExtractMetadataGeneric("", readers.scan, readers.unescape)
      && d.evaluation.warning == Some(FetchWarning(e))
  {
    NoMetadataIsUnknown(jurisdiction, "unknown");
  }

  /**
   * The warning texts: a 403 is reported as possible anti-bot protection,
   * any other HTTP error with its code, or "unknown" when the code is missing or 0.
   */
  lemma FetchWarningTexts(e: FetchError)
    ensures e == Timeout ==> FetchWarning(e) == "Request timed out"
    ensures e == HttpError(Some(403)) ==> FetchWarning(e) == "Received HTTP 403 (possible anti-bot protection)"
    ensures e.HttpError? && (e.statusCode.None? || e.statusCode == Some(0)) ==>
              FetchWarning(e) == "HTTP error while fetching evidence URL (unknown)"
    ensures e.HttpError? && e.statusCode.Some? && e.statusCode.value !in {0, 403} ==>
              FetchWarning(e) == "HTTP error while fetching evidence URL (" + IntToString(e.statusCode.value) + ")"
  {
    if e.HttpError? && (e.statusCode.None? || e.statusCode == Some(0)) {
      assert e.statusCode != Some(403);
      assert CodeText(e.statusCode) == "unknown";
    }
  }

  /** A blocked page gives UNKNOWN and the anti-bot warning, whatever the URL and the page's metadata. */
  lemma AntibotIsUnknown(url: string, jurisdiction: string, raw: string, readers: PageReaders)
    requires IsAntibotPage(raw)
    ensures var d := Decide(url, jurisdiction, Success(raw), readers);
      && d.rights.status == UNKNOWN
      && d.evaluation.metadata == ExtractMetadataGeneric("", readers.scan, readers.unescape)
      && d.evaluation.warning == Some(AntibotWarning)
  {
    NoMetadataIsUnknown(jurisdiction, "unknown");
  }

  /** A warning is given exactly when the page could not be fetched or was blocked. */
  lemma WarningIffUnusable(url: string, jurisdiction: string, fetched: Result<string, FetchError>, readers: PageReaders)
    ensures Decide(url, jurisdiction, fetched, readers).evaluation.warning.Some?
        <==> fetched.Failure? || IsAntibotPage(fetched.value)
  {
  }

  /**
   * On a usable page the extracted metadata is returned and the verdict is
   * the rights check on it; with insufficient metadata that check is UNKNOWN
   * anyway, so the guard never changes the verdict.
   */
  lemma UsablePageVerdict(url: string, jurisdiction: string, raw: string, readers: PageReaders)
    requires !IsAntibotPage(raw)
    ensures var d := Decide(url, jurisdiction, Success(raw), readers);
      var m := ReadMetadata(FindAdapter(url, readers), raw, readers);
      && d.evaluation == UrlEvaluation(m, None)
      && d.rights == CheckLyricsRights(jurisdiction, m.publicationYear, m.lyricistDeathYear, m.renewalStatus)
      && (!HasSufficientMetadata(m) ==> d.rights.status == UNKNOWN)
  {
    var m := ReadMetadata(FindAdapter(url, readers), raw, readers);
    InsufficientMeansDefault(m);
    NoMetadataIsUnknown(jurisdiction, "unknown");
  }

  /** Only a usable page with sufficient metadata can yield SAFE or NOT_SAFE. */
  lemma DecidedNeedsUsablePage(url: string, jurisdiction: string, fetched: Result<string, FetchError>, readers: PageReaders)
    requires Decide(url, jurisdiction, fetched, readers).rights.status != UNKNOWN
    ensures fetched.Success? && !IsAntibotPage(fetched.value)
    ensures HasSufficientMetadata(Decide(url, jurisdiction, fetched, readers).evaluation.metadata)
    ensures Decide(url, jurisdiction, fetched, readers).evaluation.warning.None?
  {
    NoMetadataIsUnknown(jurisdiction, "unknown");
  }

  /**
   * An IMSLP page whose extractor reads a 1920 publication marked "not
   * renewed" (and the death year 1807) is SAFE under US law.
   */
  lemma ImslpExample(url: string, raw: string, readers: PageReaders)
    requires readers.hostname(url) == Some("imslp.org")
    requires !IsAntibotPage(raw)
    requires readers.imslp(raw) == UrlMetadata(Some("Amazing Grace - IMSLP"), Some("John Newton"), Some(1920), Some(1807), "not_renewed")
    ensures Decide(url, "US", Success(raw), readers).rights.status == SAFE
    ensures Decide(url, "US", Success(raw), readers).evaluation.metadata.publicationYear == Some(1920)
  {
    assert Lower("imslp.org") == "imslp.org";
    assert DomainMatches("imslp.org", Adapters[0].0);
    assert Upper("US") == "US";
    assert Lower("not_renewed") == "not_renewed";
  }
}
