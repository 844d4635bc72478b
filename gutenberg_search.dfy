/** The gutenberg search source: links under /ebooks/ on www.gutenberg.org. */
module GutenbergSearch {
  import opened Wrappers
  import opened Text
  import opened Cache
  import opened SearchModels
  import opened SearchCommon

  const Domain: string := "https://www.gutenberg.org"
  const Source: string := "gutenberg"
  const SearchBase: string := Domain + "/ebooks/search/?query="
  /** What goes in front of a matched link to make the work URL. */
  const LinkPrefix: string := Domain

  /** `search`: the seeds of the results page for `query`; `links` is the source's link pattern. */
  method Search(query: string, cache: HttpCache, now: int, network: Network,
                links: string -> seq<string>, parser: PageParser)
    returns (r: Result<seq<Candidate>, FetchError>, ghost body: string)
    modifies cache
    ensures SearchedPage(r, body, query, Source, SearchBase, LinkPrefix, cache, now, network, links, parser)
  {
    r, body := SearchSource(query, Source, SearchBase, LinkPrefix, cache, now, network, links, parser);
  }

  /** `enrich`: fetch the candidate's work page through the cache and enrich from it. */
  method Enrich(candidate: Candidate, cache: HttpCache, now: int, network: Network, parser: PageParser)
    returns (r: Result<Candidate, FetchError>, ghost body: string)
    modifies candidate, cache
    ensures EnrichedFromWorkPage(r, body, candidate, cache, now, network, parser)
  {
    r, body := EnrichFromWorkPage(candidate, cache, now, network, parser);
  }

  /** Every candidate's work URL is on the site. */
  lemma PagesOnDomain(query: string, body: string, links: string -> seq<string>, parser: PageParser)
    ensures var url := BuildSearchUrl(SearchBase, query, parser.quotePlus);
      var s := SeedsOfPage(query, Source, url, LinkPrefix, body, links, parser);
      forall k :: 0 <= k < |s| ==> StartsWith(s[k].workUrl, Domain) && s[k].source == "gutenberg"
  {
    var url := BuildSearchUrl(SearchBase, query, parser.quotePlus);
    SeedsShape(query, Source, url, LinkPrefix, links(body), ExtractTitleCandidates(parser.anchors(body), parser.unescape));
  }
}
