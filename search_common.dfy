/**
 * Helpers shared by the search sources: search URLs, title candidates, the
 * candidate list a search page yields, and in-place enrichment from a work page.
 *
 * Regular-expression results are inputs: `PageFacts` holds what the year,
 * death and renewal patterns found on a page; link and anchor lists are what
 * the per-source link pattern and the anchor-text pattern found.
 */
module SearchCommon {
  import opened Wrappers
  import opened Text
  import opened Cache
  import Renewal
  import opened SearchModels

  /** What the three patterns find in one page's text. */
  datatype PageFacts = PageFacts(
    years: seq<int>,           // every match of YEAR_RE, in page order
    deathYear: Option<int>,    // the first match of DEATH_RE
    renewal: Option<string>)   // the first match of RENEWAL_RE
  {
    /** What the patterns guarantee: four-digit years 1500-2099 and a renewal phrase. */
    predicate Plausible() {
      && (forall i :: 0 <= i < |years| ==> 1500 <= years[i] <= 2099)
      && (deathYear.Some? ==> 1500 <= deathYear.value <= 2099)
      && (renewal.Some? ==> Renewal.IsRenewalMatch(renewal.value))
    }
  }

  /** `build_search_url`: the base followed by the `quote_plus`-encoded query. */
  function BuildSearchUrl(base: string, query: string, quotePlus: string -> string): (r: string)
    ensures StartsWith(r, base) && r[|base|..] == quotePlus(query)
  {
    base + quotePlus(query)
  }

  /** Python's `min` of a non-empty list. */
  function MinOf(xs: seq<int>): (m: int)
    requires xs != []
    ensures m in xs
    ensures forall i :: 0 <= i < |xs| ==> m <= xs[i]
  {
    if |xs| == 1 then xs[0]
    else
      var rest := MinOf(xs[1..]);
      if xs[0] <= rest then xs[0] else rest
  }

  // ---------------------------------------------------------------------
  // Title candidates
  // ---------------------------------------------------------------------

  /** One anchor text unescaped, its whitespace runs collapsed, then stripped. */
  function CleanAnchor(anchor: string, unescape: string -> string): string {
    Strip(Collapse(unescape(anchor)))
  }

  /** Every anchor text, cleaned, in page order. */
  function CleanAll(anchors: seq<string>, unescape: string -> string): (r: seq<string>)
    ensures |r| == |anchors| && forall k :: 0 <= k < |r| ==> r[k] == CleanAnchor(anchors[k], unescape)
  {
    seq(|anchors|, k requires 0 <= k < |anchors| => CleanAnchor(anchors[k], unescape))
  }

  /** The texts that hold at least two words, in order. */
  function TwoWordTitles(texts: seq<string>): (r: seq<string>)
    ensures |r| <= |texts|
    ensures forall i :: 0 <= i < |r| ==> |Words(r[i])| >= 2 && r[i] in texts
    ensures forall t :: t in texts && |Words(t)| >= 2 ==> t in r
  {
    if texts == [] then []
    else
      var rest := TwoWordTitles(texts[1..]);
      if |Words(texts[0])| >= 2 then [texts[0]] + rest else rest
  }

  /**
   * `extract_title_candidates`: `anchors` are the texts of the anchor
   * pattern's matches; the result is at most ten cleaned texts of two or more
   * words, the first ones in page order, and with ten or fewer such texts all of them.
   */
  function ExtractTitleCandidates(anchors: seq<string>, unescape: string -> string): (r: seq<string>)
    ensures |r| <= 10
    ensures r <= TwoWordTitles(CleanAll(anchors, unescape))
    ensures |r| == 10 || r == TwoWordTitles(CleanAll(anchors, unescape))
  {
    var all := TwoWordTitles(CleanAll(anchors, unescape));
    if |all| <= 10 then all else all[..10]
  }

  /**
   * Every title candidate is a cleaned anchor text of at least two words, and
   * with fewer than ten candidates every such anchor text is among them.
   */
  lemma TitleCandidatesQualify(anchors: seq<string>, unescape: string -> string)
    ensures var r := ExtractTitleCandidates(anchors, unescape);
      && (forall i :: 0 <= i < |r| ==> |Words(r[i])| >= 2 && r[i] in CleanAll(anchors, unescape))
      && (|r| < 10 ==> forall k :: 0 <= k < |anchors| && |Words(CleanAnchor(anchors[k], unescape))| >= 2 ==>
            CleanAnchor(anchors[k], unescape) in r)
  {
    var clean := CleanAll(anchors, unescape);
    var all := TwoWordTitles(clean);
    var r := ExtractTitleCandidates(anchors, unescape);
    forall i | 0 <= i < |r| ensures |Words(r[i])| >= 2 && r[i] in clean {
      assert r[i] == all[i];
    }
    if |r| < 10 {
      forall k | 0 <= k < |anchors| && |Words(CleanAnchor(anchors[k], unescape))| >= 2
        ensures CleanAnchor(anchors[k], unescape) in r
      {
        assert clean[k] == CleanAnchor(anchors[k], unescape);
      }
    }
  }

  /** The filter keeps page order and duplicates: filtering a concatenation is concatenating the filtered parts. */
  lemma {:induction false} TwoWordTitlesAppend(a: seq<string>, b: seq<string>)
    ensures TwoWordTitles(a + b) == TwoWordTitles(a) + TwoWordTitles(b)
  {
    if a != [] {
      assert (a + b)[0] == a[0] && (a + b)[1..] == a[1..] + b;
      TwoWordTitlesAppend(a[1..], b);
    } else {
      assert a + b == b;
    }
  }

  lemma CleanAllAppend(a: seq<string>, b: seq<string>, unescape: string -> string)
    ensures CleanAll(a + b, unescape) == CleanAll(a, unescape) + CleanAll(b, unescape)
  {
  }

  /**
   * Anchors later on the page never displace or reorder earlier titles: the
   * titles of a page start with the titles of any leading part of it, and
   * once that part holds ten qualifying anchors the rest of the page is ignored.
   */
  lemma LaterAnchorsKeepOrder(a: seq<string>, b: seq<string>, unescape: string -> string)
    ensures ExtractTitleCandidates(a, unescape) <= ExtractTitleCandidates(a + b, unescape)
    ensures |TwoWordTitles(CleanAll(a, unescape))| >= 10 ==>
              ExtractTitleCandidates(a + b, unescape) == ExtractTitleCandidates(a, unescape)
  {
    CleanAllAppend(a, b, unescape);
    TwoWordTitlesAppend(CleanAll(a, unescape), CleanAll(b, unescape));
  }

  // ---------------------------------------------------------------------
  // Candidates from a search results page
  // ---------------------------------------------------------------------

  /** The title of the `idx`-th candidate: the `idx`-th title found, else "<query> (<idx+1>)". */
  function CandidateTitle(query: string, titles: seq<string>, idx: nat): (r: string)
    ensures idx < |titles| ==> r == titles[idx]
    ensures idx >= |titles| ==> r == query + " (" + NatToString(idx + 1) + ")"
  {
    if idx < |titles| then titles[idx] else query + " (" + NatToString(idx + 1) + ")"
  }

  /** The candidate a search source builds for its `idx`-th link. */
  function SeedData(query: string, source: string, searchUrl: string, workUrl: string,
                    titles: seq<string>, idx: nat): CandidateData
  {
    CandidateData(CandidateTitle(query, titles, idx), source, workUrl, evidenceUrls := [searchUrl, workUrl])
  }

  /** The candidates a search page yields: one per link among the first five, work URL `prefix + link`. */
  function Seeds(query: string, source: string, searchUrl: string, prefix: string,
                 links: seq<string>, titles: seq<string>): seq<CandidateData>
  {
    var n := if |links| < 5 then |links| else 5;
    seq(n, k requires 0 <= k < n => SeedData(query, source, searchUrl, prefix + links[k], titles, k))
  }

  /**
   * What a search page yields: at most five candidates, the k-th from the
   * k-th link, titled by the k-th title candidate or "<query> (k+1)", with the
   * search URL and work URL as evidence and no metadata yet.
   */
  lemma SeedsShape(query: string, source: string, searchUrl: string, prefix: string,
                   links: seq<string>, titles: seq<string>)
    ensures var s := Seeds(query, source, searchUrl, prefix, links, titles);
      && |s| <= 5 && |s| <= |links| && (|links| >= 5 ==> |s| == 5) && (|links| < 5 ==> |s| == |links|)
      && forall k :: 0 <= k < |s| ==>
           && s[k].source == source && s[k].workUrl == prefix + links[k]
           && s[k].evidenceUrls == [searchUrl, prefix + links[k]]
           && (k < |titles| ==> s[k].title == titles[k])
           && (k >= |titles| ==> s[k].title == query + " (" + NatToString(k + 1) + ")")
           && s[k].publicationYear.None? && s[k].lyricistDeathYear.None? && s[k].renewalStatus == "unknown"
           && s[k].lyricist.None? && s[k].composer.None?
  {
  }

  /** Distinct links give candidates with distinct work URLs. */
  lemma SeedsDistinct(query: string, source: string, searchUrl: string, prefix: string,
                      links: seq<string>, titles: seq<string>)
    requires forall i, j :: 0 <= i < j < |links| ==> links[i] != links[j]
    ensures var s := Seeds(query, source, searchUrl, prefix, links, titles);
      forall i, j :: 0 <= i < j < |s| ==> s[i].workUrl != s[j].workUrl
  {
    var s := Seeds(query, source, searchUrl, prefix, links, titles);
    forall i, j | 0 <= i < j < |s|
      ensures s[i].workUrl != s[j].workUrl
    {
      assert s[i].workUrl[|prefix|..] == links[i];
      assert s[j].workUrl[|prefix|..] == links[j];
    }
  }

  /** The loop every search source runs: one fresh Candidate per seed, in order. */
  method SeedCandidates(query: string, source: string, searchUrl: string, prefix: string,
                        links: seq<string>, titles: seq<string>) returns (candidates: seq<Candidate>)
    ensures |candidates| == |Seeds(query, source, searchUrl, prefix, links, titles)|
    ensures forall k :: 0 <= k < |candidates| ==>
              fresh(candidates[k]) && candidates[k].Data() == Seeds(query, source, searchUrl, prefix, links, titles)[k]
    ensures forall i, j :: 0 <= i < j < |candidates| ==> candidates[i] != candidates[j]
  {
    var first := if |links| < 5 then links else links[..5];
    ghost var seeds := Seeds(query, source, searchUrl, prefix, links, titles);
    candidates := [];
    var idx := 0;
    while idx < |first|
      invariant 0 <= idx <= |first| == |seeds| && |candidates| == idx
      invariant forall k :: 0 <= k < idx ==> fresh(candidates[k]) && candidates[k].Data() == seeds[k]
      invariant forall i, j :: 0 <= i < j < idx ==> candidates[i] != candidates[j]
    {
      var title := CandidateTitle(query, titles, idx);
      var workUrl := prefix + first[idx];
      var c := new Candidate(title, source, workUrl, evidenceUrls := [searchUrl, workUrl]);
      candidates := candidates + [c];
      idx := idx + 1;
    }
  }

  /**
   * The library routines a page goes through, none of which is modelled
   * here: `quote_plus`, `html.unescape`, the anchor-text pattern and the
   * year/death/renewal patterns.
   */
  datatype PageParser = PageParser(
    quotePlus: string -> string,
    unescape: string -> string,
    anchors: string -> seq<string>,
    scan: string -> PageFacts)

  /** The candidates a search results page `body` yields, given the source's link pattern. */
  function SeedsOfPage(query: string, source: string, searchUrl: string, prefix: string,
                       body: string, links: string -> seq<string>, parser: PageParser): seq<CandidateData>
  {
    Seeds(query, source, searchUrl, prefix, links(body), ExtractTitleCandidates(parser.anchors(body), parser.unescape))
  }

  /**
   * The outcome of one `search` call, between the state before and after it.
   * The search URL is read through the cache: `body` is the page `get_text`
   * serves (the fresh row, else the network's answer) and the table becomes
   * `RowsAfter`. A failed fetch (never served from the cache) is returned as
   * the failure with the table unchanged; otherwise the result is one fresh
   * Candidate per seed of that page.
   */
  twostate predicate SearchedPage(new r: Result<seq<Candidate>, FetchError>, body: string,
                                  query: string, source: string, base: string, prefix: string,
                                  cache: HttpCache, now: int, network: Network,
                                  links: string -> seq<string>, parser: PageParser)
    reads cache, if r.Success? then set k | 0 <= k < |r.value| :: r.value[k] else {}
  {
    var url := BuildSearchUrl(base, query, parser.quotePlus);
    var served := Served(old(cache.rows), url, now, cache.ttlSeconds, network);
    && cache.rows == RowsAfter(old(cache.rows), url, now, cache.ttlSeconds, network)
    && (r.Failure? <==> served.Failure?)
    && (r.Failure? ==>
          && !IsFresh(old(cache.rows), url, now, cache.ttlSeconds) && network(url) == Failure(r.error)
          && cache.rows == old(cache.rows))
    && (r.Success? ==>
          && body == served.value
          && url in cache.rows && cache.rows[url].body == body
          && |r.value| == |SeedsOfPage(query, source, url, prefix, body, links, parser)|
          && (forall k :: 0 <= k < |r.value| ==>
                fresh(r.value[k]) && r.value[k].Data() == SeedsOfPage(query, source, url, prefix, body, links, parser)[k])
          && (forall i, j :: 0 <= i < j < |r.value| ==> r.value[i] != r.value[j]))
  }

  /**
   * The body of every `search` function: fetch `base + quote_plus(query)`
   * through the cache, then build fresh candidates from the page. A failed
   * fetch raises and leaves the cache as it was; `body` is the page served.
   */
  method SearchSource(query: string, source: string, base: string, prefix: string,
                      cache: HttpCache, now: int, network: Network,
                      links: string -> seq<string>, parser: PageParser)
    returns (r: Result<seq<Candidate>, FetchError>, ghost body: string)
    modifies cache
    ensures SearchedPage(r, body, query, source, base, prefix, cache, now, network, links, parser)
  {
    var url := BuildSearchUrl(base, query, parser.quotePlus);
    var fetched;
    ghost var usedNetwork;
    fetched, usedNetwork := cache.GetText(url, now, network);
    if fetched.Failure? {
      return Failure(fetched.error), "";
    }
    var page := fetched.value;
    body := page;
    var titles := ExtractTitleCandidates(parser.anchors(page), parser.unescape);
    var candidates := SeedCandidates(query, source, url, prefix, links(page), titles);
    r := Success(candidates);
  }

  // ---------------------------------------------------------------------
  // Enrichment
  // ---------------------------------------------------------------------

  /** The contents `enrich_from_page` leaves: page URL added once, unset fields filled from the page. */
  function Enriched(c: CandidateData, facts: PageFacts, pageUrl: string): CandidateData {
    c.(evidenceUrls := if pageUrl in c.evidenceUrls then c.evidenceUrls else c.evidenceUrls + [pageUrl],
       publicationYear := if c.publicationYear.None? && facts.years != [] then Some(MinOf(facts.years)) else c.publicationYear,
       lyricistDeathYear := if c.lyricistDeathYear.None? then facts.deathYear else c.lyricistDeathYear,
       renewalStatus := if c.renewalStatus == "unknown" && facts.renewal.Some?
                        then Renewal.StatusOf(facts.renewal) else c.renewalStatus)
  }

  /** `enrich_from_page`: updates the candidate in place and returns the same object. */
  method EnrichFromPage(candidate: Candidate, facts: PageFacts, pageUrl: string) returns (r: Candidate)
    modifies candidate
    ensures r == candidate
    ensures candidate.Data() == Enriched(old(candidate.Data()), facts, pageUrl)
  {
    if pageUrl !in candidate.evidenceUrls {
      candidate.evidenceUrls := candidate.evidenceUrls + [pageUrl];
    }
    if candidate.publicationYear.None? {
      var years := facts.years;
      if years != [] {
        candidate.publicationYear := Some(MinOf(years));
      }
    }
    if candidate.lyricistDeathYear.None? {
      var death := facts.deathYear;
      if death.Some? {
        candidate.lyricistDeathYear := Some(death.value);
      }
    }
    if candidate.renewalStatus == "unknown" {
      var renewal := facts.renewal;
      if renewal.Some? {
        candidate.renewalStatus := if Lower(renewal.value) == "not renewed" then "not_renewed" else "renewed";
      }
    }
    r := candidate;
  }

  /** Only unset fields are filled: a known value is never overwritten, and identity fields never change. */
  lemma EnrichFillsOnlyUnset(c: CandidateData, facts: PageFacts, pageUrl: string)
    ensures var e := Enriched(c, facts, pageUrl);
      && e.title == c.title && e.source == c.source && e.workUrl == c.workUrl
      && e.lyricist == c.lyricist && e.composer == c.composer
      && (c.publicationYear.Some? ==> e.publicationYear == c.publicationYear)
      && (c.lyricistDeathYear.Some? ==> e.lyricistDeathYear == c.lyricistDeathYear)
      && (c.renewalStatus != "unknown" ==> e.renewalStatus == c.renewalStatus)
  {
  }

  /** An unset publication year becomes the earliest year on the page; with a plausible page it lies in 1500-2099. */
  lemma EnrichTakesEarliestYear(c: CandidateData, facts: PageFacts, pageUrl: string)
    requires c.publicationYear.None? && facts.years != []
    ensures var y := Enriched(c, facts, pageUrl).publicationYear;
      && y.Some? && y.value in facts.years
      && (forall i :: 0 <= i < |facts.years| ==> y.value <= facts.years[i])
      && (facts.Plausible() ==> 1500 <= y.value <= 2099)
  {
  }

  /** An unknown renewal status becomes "not_renewed" for a "not renewed" match in any case, "renewed" for any other match. */
  lemma EnrichRenewal(c: CandidateData, facts: PageFacts, pageUrl: string)
    requires c.renewalStatus == "unknown"
    ensures var s := Enriched(c, facts, pageUrl).renewalStatus;
      && (facts.renewal.None? ==> s == "unknown")
      && (facts.renewal.Some? && Lower(facts.renewal.value) == "not renewed" ==> s == "not_renewed")
      && (facts.renewal.Some? && Lower(facts.renewal.value) != "not renewed" ==> s == "renewed")
  {
  }

  /** Evidence only grows: the old list is kept, in order, and the page URL is in it afterwards exactly as often as needed. */
  lemma EnrichKeepsEvidence(c: CandidateData, facts: PageFacts, pageUrl: string)
    ensures var e := Enriched(c, facts, pageUrl).evidenceUrls;
      && c.evidenceUrls <= e
      && pageUrl in e
      && |e| <= |c.evidenceUrls| + 1
      && (pageUrl in c.evidenceUrls ==> e == c.evidenceUrls)
  {
  }

  /** Enriching twice with the same page and URL is the same as enriching once. */
  lemma EnrichIdempotent(c: CandidateData, facts: PageFacts, pageUrl: string)
    ensures Enriched(Enriched(c, facts, pageUrl), facts, pageUrl) == Enriched(c, facts, pageUrl)
  {
  }

  /** A seed already lists its work URL, so enriching it from its own work page leaves its evidence as it was. */
  lemma SeedEvidenceUnchanged(query: string, source: string, searchUrl: string, prefix: string,
                              links: seq<string>, titles: seq<string>, k: nat, facts: PageFacts)
    requires k < |Seeds(query, source, searchUrl, prefix, links, titles)|
    ensures var c := Seeds(query, source, searchUrl, prefix, links, titles)[k];
      Enriched(c, facts, c.workUrl).evidenceUrls == c.evidenceUrls == [searchUrl, c.workUrl]
  {
  }

  /**
   * The outcome of one `enrich` call of the gutenberg, archive and loc
   * sources. The work URL is read through the cache: `body` is the page
   * `get_text` serves and the table becomes `RowsAfter`. A failed fetch is
   * returned as the failure and leaves the candidate and the table as they
   * were; otherwise the same object is returned, enriched from that page
   * with the work URL as page URL.
   */
  twostate predicate EnrichedFromWorkPage(new r: Result<Candidate, FetchError>, body: string, candidate: Candidate,
                                          cache: HttpCache, now: int, network: Network, parser: PageParser)
    reads candidate, cache
  {
    var url := old(candidate.workUrl);
    var served := Served(old(cache.rows), url, now, cache.ttlSeconds, network);
    && cache.rows == RowsAfter(old(cache.rows), url, now, cache.ttlSeconds, network)
    && (r.Failure? <==> served.Failure?)
    && (r.Failure? ==>
          && r.error == served.error && candidate.Data() == old(candidate.Data()) && cache.rows == old(cache.rows))
    && (r.Success? ==>
          && r.value == candidate && body == served.value
          && url in cache.rows && cache.rows[url].body == body
          && candidate.Data() == Enriched(old(candidate.Data()), parser.scan(body), url))
  }

  /** `enrich` of the gutenberg, archive and loc sources: fetch the work page through the cache, then enrich from it. */
  method EnrichFromWorkPage(candidate: Candidate, cache: HttpCache, now: int, network: Network,
                            parser: PageParser)
    returns (r: Result<Candidate, FetchError>, ghost body: string)
    modifies candidate, cache
    ensures EnrichedFromWorkPage(r, body, candidate, cache, now, network, parser)
  {
    var fetched;
    ghost var usedNetwork;
    fetched, usedNetwork := cache.GetText(candidate.workUrl, now, network);
    if fetched.Failure? {
      return Failure(fetched.error), "";
    }
    var text := fetched.value;
    body := text;
    var enriched := EnrichFromPage(candidate, parser.scan(text), candidate.workUrl);
    r := Success(enriched);
  }
}
