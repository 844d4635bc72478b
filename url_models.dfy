/** The records the URL evaluator returns. */
module UrlModels {
  import opened Wrappers

  /** What could be read from an evidence page; every field defaults to "not found". */
  datatype UrlMetadata = UrlMetadata(
    title: Option<string> := None,
    lyricistOrComposer: Option<string> := None,
    publicationYear: Option<int> := None,
    lyricistDeathYear: Option<int> := None,
    renewalStatus: string := "unknown")

  /** The metadata read and the warning, if the page could not be used. */
  datatype UrlEvaluation = UrlEvaluation(metadata: UrlMetadata, warning: Option<string> := None)
}
