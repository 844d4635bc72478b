/**
 * The record a search source produces: a mutable `Candidate` object and its
 * value snapshot `CandidateData`, plus the `Fact` record.
 */
module SearchModels {
  import opened Wrappers

  /** The contents of a Candidate at one moment, with the same defaults. */
  datatype CandidateData = CandidateData(
    title: string,
    source: string,
    workUrl: string,
    lyricist: Option<string> := None,
    composer: Option<string> := None,
    publicationYear: Option<int> := None,
    lyricistDeathYear: Option<int> := None,
    renewalStatus: string := "unknown",
    evidenceUrls: seq<string> := [])

  /** A value together with the URL it was read from. */
  datatype Fact = Fact(value: string, sourceUrl: string)

  /** One catalog entry found by a search; enrichment updates it in place. */
  class Candidate {
    var title: string
    var source: string
    var workUrl: string
    var lyricist: Option<string>
    var composer: Option<string>
    var publicationYear: Option<int>
    var lyricistDeathYear: Option<int>
    var renewalStatus: string
    /** A list value owned by this object: no other Candidate can share it. */
    var evidenceUrls: seq<string>

    /** `title`, `source` and `work_url` are required; every other field has its default. */
    constructor (title: string, source: string, workUrl: string,
                 lyricist: Option<string> := None, composer: Option<string> := None,
                 publicationYear: Option<int> := None, lyricistDeathYear: Option<int> := None,
                 renewalStatus: string := "unknown", evidenceUrls: seq<string> := [])
      ensures Data() == CandidateData(title, source, workUrl, lyricist, composer,
                                      publicationYear, lyricistDeathYear, renewalStatus, evidenceUrls)
    {
      this.title := title;
      this.source := source;
      this.workUrl := workUrl;
      this.lyricist := lyricist;
      this.composer := composer;
      this.publicationYear := publicationYear;
      this.lyricistDeathYear := lyricistDeathYear;
      this.renewalStatus := renewalStatus;
      this.evidenceUrls := evidenceUrls;
    }

    /** The current contents of this object. */
    function Data(): CandidateData
      reads this
    {
      CandidateData(title, source, workUrl, lyricist, composer,
                    publicationYear, lyricistDeathYear, renewalStatus, evidenceUrls)
    }
  }

  /** A candidate built from the required fields alone has no metadata, renewal "unknown" and no evidence. */
  lemma DefaultsAreUnset(title: string, source: string, workUrl: string)
    ensures var d := CandidateData(title, source, workUrl);
      && d.lyricist.None? && d.composer.None?
      && d.publicationYear.None? && d.lyricistDeathYear.None?
      && d.renewalStatus == "unknown" && d.evidenceUrls == []
  {
  }
}
