/** The Project Gutenberg page extractor: the generic one, with the ebook release year preferred. */
module UrlGutenberg {
  import opened Wrappers
  import opened UrlModels
  import opened UrlCommon

  /**
   * `extract_metadata`: the generic metadata, whose publication year is
   * replaced by the first "release date"/"published" year on the raw page
   * when there is one. `release` is that pattern's first match.
   */
  function ExtractMetadata(raw: string, scan: Scanner, unescape: string -> string,
                           release: string -> Option<int>): UrlMetadata
  {
    var metadata := ExtractMetadataGeneric(raw, scan, unescape);
    if release(raw).Some? then metadata.(publicationYear := release(raw)) else metadata
  }

  /** Only the publication year can differ from the generic extractor, and it does exactly when the release pattern matches. */
  lemma OnlyPublicationYearDiffers(raw: string, scan: Scanner, unescape: string -> string,
                                   release: string -> Option<int>)
    ensures var g := ExtractMetadataGeneric(raw, scan, unescape);
      var m := ExtractMetadata(raw, scan, unescape, release);
      && m.(publicationYear := g.publicationYear) == g
      && (release(raw).Some? ==> m.publicationYear == release(raw))
      && (release(raw).None? ==> m.publicationYear == scan(raw).publication)
  {
  }

  /** With the patterns' year range on both the generic scan and the release match, every extracted year is in 1500-2099. */
  lemma ExtractedYearsPlausible(raw: string, scan: Scanner, unescape: string -> string,
                                release: string -> Option<int>)
    requires scan(raw).Plausible()
    requires release(raw).Some? ==> 1500 <= release(raw).value <= 2099
    ensures YearsPlausible(ExtractMetadataGeneric(raw, scan, unescape))
    ensures YearsPlausible(ExtractMetadata(raw, scan, unescape, release))
  {
  }

  /** A release year alone is enough to make a Gutenberg page's metadata sufficient. */
  lemma ReleaseYearSuffices(raw: string, scan: Scanner, unescape: string -> string,
                            release: string -> Option<int>)
    requires release(raw).Some?
    ensures HasSufficientMetadata(ExtractMetadata(raw, scan, unescape, release))
  {
  }
}
