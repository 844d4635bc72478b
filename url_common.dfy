/**
 * The generic metadata extractor for evidence pages and the sufficiency
 * test. The regular-expression engine is not modelled: `PageMatches` holds
 * what each pattern found, `html.unescape` is a parameter.
 */
module UrlCommon {
  import opened Wrappers
  import opened Text
  import Renewal
  import opened UrlModels

  /**
   * The first match of each pattern: the `<title>` group on the raw page,
   * and the publication, death, renewal and "by" (byline) patterns on the page's
   * text (tags replaced by spaces, whitespace collapsed, unescaped, stripped).
   */
  datatype PageMatches = PageMatches(
    titleGroup: Option<string>,
    byline: Option<string>,
    publication: Option<int>,
    death: Option<int>,
    renewal: Option<string>)
  {
    /** What the year patterns guarantee: four-digit years from 1500 to 2099. */
    predicate Plausible() {
      && (publication.Some? ==> 1500 <= publication.value <= 2099)
      && (death.Some? ==> 1500 <= death.value <= 2099)
    }
  }

  const NoMatches: PageMatches := PageMatches(None, None, None, None, None)

  /** The patterns, applied to a raw page. */
  type Scanner = string -> PageMatches

  /**
   * `extract_title`: the `<title>` text with whitespace runs collapsed,
   * unescaped and stripped; no title when there is no `<title>` element or
   * its text comes out empty.
   */
  function ExtractTitle(titleGroup: Option<string>, unescape: string -> string): (r: Option<string>)
    ensures titleGroup.None? ==> r.None?
    ensures titleGroup.Some? ==> (r.None? <==> AllSpace(unescape(Collapse(titleGroup.value))))
    ensures r.Some? ==> Trimmed(r.value)
    ensures r.Some? ==> r.value == Strip(unescape(Collapse(titleGroup.value)))
  {
    match titleGroup
    case None => None
    case Some(g) =>
      var text := unescape(Collapse(g));
      var title := Strip(text);
      assert title == [] <==> AllSpace(text);
      if title == [] then None else Some(title)
  }

  /**
   * For a `<title>` text without character references (unescaping the
   * collapsed text changes nothing), the title is its words joined by single
   * spaces, and there is no title exactly when it has no words.
   */
  lemma TitleIsItsWords(g: string, unescape: string -> string)
    requires unescape(Collapse(g)) == Collapse(g)
    ensures ExtractTitle(Some(g), unescape) == if Words(g) == [] then None else Some(JoinSpace(Words(g)))
  {
    StripOfCollapse(g);
    if Words(g) != [] {
      JoinEnds(Words(g));
    }
  }

  /** `extract_metadata_generic`. */
  function ExtractMetadataGeneric(raw: string, scan: Scanner, unescape: string -> string): (m: UrlMetadata)
    ensures var found := scan(raw);
      && m.title == ExtractTitle(found.titleGroup, unescape)
      && (found.byline.None? <==> m.lyricistOrComposer.None?)
      && (found.byline.Some? ==> m.lyricistOrComposer.value == Strip(found.byline.value))
      && m.publicationYear == found.publication
      && m.lyricistDeathYear == found.death
      && m.renewalStatus == Renewal.StatusOf(found.renewal)
  {
    var found := scan(raw);
    UrlMetadata(
      title := ExtractTitle(found.titleGroup, unescape),
      lyricistOrComposer := if found.byline.Some? then Some(Strip(found.byline.value)) else None,
      publicationYear := found.publication,
      lyricistDeathYear := found.death,
      renewalStatus := Renewal.StatusOf(found.renewal))
  }

  /** `has_sufficient_metadata`: some field holds a value or the renewal status is known. */
  predicate HasSufficientMetadata(m: UrlMetadata) {
    || m.title.Some? || m.lyricistOrComposer.Some?
    || m.publicationYear.Some? || m.lyricistDeathYear.Some?
    || m.renewalStatus != "unknown"
  }

  /** Years in the metadata lie within 1500-2099, the range the year patterns admit. */
  predicate YearsPlausible(m: UrlMetadata) {
    && (m.publicationYear.Some? ==> 1500 <= m.publicationYear.value <= 2099)
    && (m.lyricistDeathYear.Some? ==> 1500 <= m.lyricistDeathYear.value <= 2099)
  }

  /** Metadata is insufficient exactly when every field still has its default. */
  lemma InsufficientMeansDefault(m: UrlMetadata)
    ensures !HasSufficientMetadata(m) <==> m == UrlMetadata()
  {
  }

  /** A page on which no pattern matches yields the default metadata, which is insufficient. */
  lemma NothingFoundIsInsufficient(raw: string, scan: Scanner, unescape: string -> string)
    requires scan(raw) == NoMatches
    ensures ExtractMetadataGeneric(raw, scan, unescape) == UrlMetadata()
    ensures !HasSufficientMetadata(ExtractMetadataGeneric(raw, scan, unescape))
  {
  }

  /** Any single match makes the metadata sufficient, except a `<title>` that is blank once cleaned. */
  lemma AnyMatchIsSufficient(raw: string, scan: Scanner, unescape: string -> string)
    ensures var found := scan(raw);
      HasSufficientMetadata(ExtractMetadataGeneric(raw, scan, unescape)) <==>
        || found.byline.Some? || found.publication.Some? || found.death.Some? || found.renewal.Some?
        || (found.titleGroup.Some? && !AllSpace(unescape(Collapse(found.titleGroup.value))))
  {
    var found := scan(raw);
    if found.renewal.Some? {
      assert Renewal.StatusOf(found.renewal) != "unknown";
    }
  }
}
