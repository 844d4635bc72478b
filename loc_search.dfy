/** The loc search source: absolute www.loc.gov links, used as they are. */
module LocSearch {
  import opened Wrappers
  import opened Text
  import opened Cache
  import opened SearchModels
  import opened SearchCommon

  const Domain: string := "https://www.loc.gov"
  const Source: string := "loc"
  const SearchBase: string := Domain + "/search/?q="
  /** What goes in front of a matched link to make the work URL. */
  const LinkPrefix: string := ""

  /** `search`: the seeds of the results page for `query`; `links` is the source's link pattern. */
  method Search(query: string, cache: HttpCache, now: int, network: Network,
                links: string -> seq<string>, parser: PageParser)
    returns (r: Result<seq<Candidate>, FetchError>, ghost body: string)
    modifies cache
    ensures SearchedPage(r, body, query, Source, SearchBase, LinkPrefix, cache, now, network, links, parser)
  {
    r, body := SearchSource(query, Source, SearchBase, LinkPrefix, cache, now, network, links, parser);
  }

  /** `enrich`: fetch the candidate's work page through the cache and enrich from it. */
  method Enrich(candidate: Candidate, cache: HttpCache, now: int, network: Network, parser: PageParser)
    returns (r: Result<Candidate, FetchError>, ghost body: string)
    modifies candidate, cache
    ensures EnrichedFromWorkPage(r, body, candidate, cache, now, network, parser)
  {
    r, body := EnrichFromWorkPage(candidate, cache, now, network, parser);
  }

  /**
   * Every work URL is the matched link itself, unchanged, so when the link
   * pattern only matches absolute www.loc.gov links every work URL is on the site.
   */
  lemma PagesAreMatchedLinks(query: string, body: string, links: string -> seq<string>, parser: PageParser)
    ensures var url := BuildSearchUrl(SearchBase, query, parser.quotePlus);
      var s := SeedsOfPage(query, Source, url, LinkPrefix, body, links, parser);
      && (forall k :: 0 <= k < |s| ==> s[k].workUrl == links(body)[k] && s[k].source == "loc")
      && ((forall l :: l in links(body) ==> StartsWith(l, Domain + "/")) ==>
            forall k :: 0 <= k < |s| ==> StartsWith(s[k].workUrl, "https://www.loc.gov/"))
  {
    var url := BuildSearchUrl(SearchBase, query, parser.quotePlus);
    var ls := links(body);
    var titles := ExtractTitleCandidates(parser.anchors(body), parser.unescape);
    var s := Seeds(query, Source, url, LinkPrefix, ls, titles);
    assert s == SeedsOfPage(query, Source, url, LinkPrefix, body, links, parser);
    SeedsShape(query, Source, url, LinkPrefix, ls, titles);
    forall k | 0 <= k < |s| ensures s[k].workUrl == ls[k] {
      EmptyPrefix(ls[k]);
    }
    assert Domain + "/" == "https://www.loc.gov/";
  }

}
