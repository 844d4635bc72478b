/**
 * The metadata-only rights decision table: (jurisdiction, first publication
 * year, lyricist death year, renewal status) to a tri-state verdict and an
 * explanation.
 */
module RightsEngine {
  import opened Wrappers
  import opened Text

  datatype RightsStatus = SAFE | NOT_SAFE | UNKNOWN

  /**
   * Which return of the decision chain was taken, with the values its
   * explanation quotes. `Explain` renders it to the exact text.
   */
  datatype Reason =
    | Unsupported
    | DeathYearRequired(code: string)
    | DiedBy1954(code: string, died: int)
    | DiedAfter1954(code: string, died: int)
    | PublicationYearRequired
    | PublishedBy1929(year: int)
    | NotRenewed
    | RenewalStatus(renewal: string)
    | InvalidRenewal
    | Published1964To1977
    | PostDeathYearRequired
    | PostDiedBy1954
    | PostDiedAfter1954

  /** The explanation text of each return. */
  function Explain(reason: Reason): string {
    match reason
    case Unsupported => "Unsupported jurisdiction; supported values are US, UK, AU."
    case DeathYearRequired(code) => code + ": lyricist death year is required for life+70 analysis."
    case DiedBy1954(code, died) =>
      code + ": lyricist died in " + IntToString(died) + " (<=1954), treated as public domain."
    case DiedAfter1954(code, died) =>
      code + ": lyricist died in " + IntToString(died) + " (>1954), conservatively treated as not public domain."
    case PublicationYearRequired => "US: publication year is required."
    case PublishedBy1929(year) => "US: first publication year " + IntToString(year) + " is <= 1929."
    case NotRenewed => "US: publication in 1930-1963 with renewal status not_renewed."
    case RenewalStatus(renewal) => "US: publication in 1930-1963 with renewal status " + renewal + "."
    case InvalidRenewal => "US: invalid renewal status; use unknown|renewed|not_renewed."
    case Published1964To1977 => "US: publication in 1964-1977 is conservatively not safe (95-year term)."
    case PostDeathYearRequired => "US: lyricist death year is required for post-1977 life+70 analysis."
    case PostDiedBy1954 => "US: publication >=1978 and lyricist death year <=1954 (conservative life+70 safe)."
    case PostDiedAfter1954 => "US: publication >=1978 and lyricist death year >1954 (conservative not safe)."
  }

  /** `RightsResult`: the verdict and the reason behind it; `Explanation()` is the `explanation` text. */
  datatype RightsResult = RightsResult(status: RightsStatus, reason: Reason) {
    function Explanation(): string {
      Explain(reason)
    }
  }

  const Supported: set<string> := {"US", "UK", "AU"}

  /** Last year of death treated as public domain under life+70. */
  const DeathCutoff := 1954

  // ---------------------------------------------------------------------
  // The table, stated declaratively (no precedence between rows)
  // ---------------------------------------------------------------------

  predicate InRange(y: Option<int>, lo: int, hi: int) {
    y.Some? && lo <= y.value <= hi
  }

  predicate AtMost(y: Option<int>, hi: int) {
    y.Some? && y.value <= hi
  }

  predicate Above(y: Option<int>, lo: int) {
    y.Some? && y.value > lo
  }

  /** The rows of the table whose verdict is SAFE. */
  predicate SafeRow(code: string, pub: Option<int>, death: Option<int>, renewal: string) {
    || (code in {"UK", "AU"} && AtMost(death, DeathCutoff))
    || (code == "US" && AtMost(pub, 1929))
    || (code == "US" && InRange(pub, 1930, 1963) && Lower(renewal) == "not_renewed")
    || (code == "US" && Above(pub, 1977) && AtMost(death, DeathCutoff))
  }

  /** The rows of the table whose verdict is NOT_SAFE. */
  predicate NotSafeRow(code: string, pub: Option<int>, death: Option<int>) {
    || (code in {"UK", "AU"} && Above(death, DeathCutoff))
    || (code == "US" && InRange(pub, 1964, 1977))
    || (code == "US" && Above(pub, 1977) && Above(death, DeathCutoff))
  }

  /** `check_lyrics_rights`: an ordered chain of early returns. */
  function CheckLyricsRights(jurisdiction: string, publicationYear: Option<int> := None,
                             lyricistDeathYear: Option<int> := None, renewalStatus: string := "unknown"): RightsResult
  {
    var code := Upper(jurisdiction);
    if code !in Supported then
      RightsResult(UNKNOWN, Unsupported)
    else if code in {"UK", "AU"} then
      match lyricistDeathYear
      case None => RightsResult(UNKNOWN, DeathYearRequired(code))
      case Some(died) =>
        if died <= DeathCutoff then RightsResult(SAFE, DiedBy1954(code, died))
        else RightsResult(NOT_SAFE, DiedAfter1954(code, died))
    else
      match publicationYear
      case None => RightsResult(UNKNOWN, PublicationYearRequired)
      case Some(year) =>
        if year <= 1929 then
          RightsResult(SAFE, PublishedBy1929(year))
        else if 1930 <= year <= 1963 then
          var renewal := Lower(renewalStatus);
          if renewal == "not_renewed" then RightsResult(SAFE, NotRenewed)
          else if renewal in {"unknown", "renewed"} then RightsResult(UNKNOWN, RenewalStatus(renewal))
          else RightsResult(UNKNOWN, InvalidRenewal)
        else if 1964 <= year <= 1977 then
          RightsResult(NOT_SAFE, Published1964To1977)
        else
          match lyricistDeathYear
          case None => RightsResult(UNKNOWN, PostDeathYearRequired)
          case Some(died) =>
            if died <= DeathCutoff then RightsResult(SAFE, PostDiedBy1954)
            else RightsResult(NOT_SAFE, PostDiedAfter1954)
  }

  // ---------------------------------------------------------------------
  // Properties of the table
  // ---------------------------------------------------------------------

  /**
   * The ordered chain decides exactly the rows of the declarative table;
   * every other input is UNKNOWN.
   */
  lemma DecisionTable(jurisdiction: string, pub: Option<int>, death: Option<int>, renewal: string)
    ensures CheckLyricsRights(jurisdiction, pub, death, renewal).status == SAFE
        <==> SafeRow(Upper(jurisdiction), pub, death, renewal)
    ensures CheckLyricsRights(jurisdiction, pub, death, renewal).status == NOT_SAFE
        <==> NotSafeRow(Upper(jurisdiction), pub, death)
  {
    var code := Upper(jurisdiction);
    if code == "US" {
      TableForUs(jurisdiction, pub, death, renewal);
    } else if code in {"UK", "AU"} {
      TableForUkAu(jurisdiction, pub, death, renewal);
    } else {
      assert code !in Supported;
    }
  }

  lemma TableForUs(jurisdiction: string, pub: Option<int>, death: Option<int>, renewal: string)
    requires Upper(jurisdiction) == "US"
    ensures CheckLyricsRights(jurisdiction, pub, death, renewal).status == SAFE
        <==> SafeRow(Upper(jurisdiction), pub, death, renewal)
    ensures CheckLyricsRights(jurisdiction, pub, death, renewal).status == NOT_SAFE
        <==> NotSafeRow(Upper(jurisdiction), pub, death)
  {
    CodesDistinct();
  }

  lemma TableForUkAu(jurisdiction: string, pub: Option<int>, death: Option<int>, renewal: string)
    requires Upper(jurisdiction) in {"UK", "AU"}
    ensures CheckLyricsRights(jurisdiction, pub, death, renewal).status == SAFE
        <==> SafeRow(Upper(jurisdiction), pub, death, renewal)
    ensures CheckLyricsRights(jurisdiction, pub, death, renewal).status == NOT_SAFE
        <==> NotSafeRow(Upper(jurisdiction), pub, death)
  {
  }

  /** Any jurisdiction other than US, UK, AU (after upper-casing) gets the fixed refusal. */
  lemma UnsupportedJurisdiction(jurisdiction: string, pub: Option<int>, death: Option<int>, renewal: string)
    requires Upper(jurisdiction) !in Supported
    ensures CheckLyricsRights(jurisdiction, pub, death, renewal) == RightsResult(UNKNOWN, Unsupported)
  {
  }

  /** Jurisdiction codes are compared case-insensitively. */
  lemma JurisdictionCaseInsensitive(a: string, b: string, pub: Option<int>, death: Option<int>, renewal: string)
    requires Upper(a) == Upper(b)
    ensures CheckLyricsRights(a, pub, death, renewal) == CheckLyricsRights(b, pub, death, renewal)
  {
  }

  /** UK and AU: the whole result depends on the death year alone. */
  lemma UkAuIgnorePublicationAndRenewal(jurisdiction: string, death: Option<int>,
                                        pub1: Option<int>, renewal1: string, pub2: Option<int>, renewal2: string)
    requires Upper(jurisdiction) in {"UK", "AU"}
    ensures CheckLyricsRights(jurisdiction, pub1, death, renewal1) == CheckLyricsRights(jurisdiction, pub2, death, renewal2)
    ensures death.None? ==> CheckLyricsRights(jurisdiction, pub1, death, renewal1).status == UNKNOWN
    ensures death.Some? ==> (CheckLyricsRights(jurisdiction, pub1, death, renewal1).status == SAFE <==> death.value <= 1954)
    ensures death.Some? ==> (CheckLyricsRights(jurisdiction, pub1, death, renewal1).status == NOT_SAFE <==> death.value > 1954)
  {
  }

  /** UK and AU: which return is taken, naming the upper-cased code and the death year. */
  lemma UkAuReasons(jurisdiction: string, pub: Option<int>, death: Option<int>, renewal: string)
    requires Upper(jurisdiction) in {"UK", "AU"}
    ensures var code, r := Upper(jurisdiction), CheckLyricsRights(jurisdiction, pub, death, renewal);
      && (death.None? ==> r.reason == DeathYearRequired(code))
      && (death.Some? && death.value <= 1954 ==> r.reason == DiedBy1954(code, death.value))
      && (death.Some? && death.value > 1954 ==> r.reason == DiedAfter1954(code, death.value))
  {
  }

  /** US without a publication year: UNKNOWN whatever else is known. */
  lemma UsWithoutPublicationYear(jurisdiction: string, death: Option<int>, renewal: string)
    requires Upper(jurisdiction) == "US"
    ensures CheckLyricsRights(jurisdiction, None, death, renewal) == RightsResult(UNKNOWN, PublicationYearRequired)
  {
  }

  /** US, published up to 1929: SAFE, naming the year. */
  lemma UsUpTo1929(jurisdiction: string, year: int, death: Option<int>, renewal: string)
    requires Upper(jurisdiction) == "US" && year <= 1929
    ensures CheckLyricsRights(jurisdiction, Some(year), death, renewal) == RightsResult(SAFE, PublishedBy1929(year))
  {
  }

  /** US, 1930-1963: decided by the lower-cased renewal status alone. */
  lemma Us1930To1963(jurisdiction: string, year: int, death: Option<int>, renewal: string)
    requires Upper(jurisdiction) == "US" && 1930 <= year <= 1963
    ensures var r := CheckLyricsRights(jurisdiction, Some(year), death, renewal);
      && (r.status == SAFE <==> Lower(renewal) == "not_renewed")
      && r.status != NOT_SAFE
      && (Lower(renewal) == "not_renewed" ==> r.reason == NotRenewed)
      && (Lower(renewal) in {"unknown", "renewed"} ==> r.reason == RenewalStatus(Lower(renewal)))
      && (Lower(renewal) !in {"not_renewed", "unknown", "renewed"} ==> r.reason == InvalidRenewal)
  {
  }

  /** US, 1964-1977: NOT_SAFE regardless of death year and renewal. */
  lemma Us1964To1977(jurisdiction: string, year: int, death: Option<int>, renewal: string)
    requires Upper(jurisdiction) == "US" && 1964 <= year <= 1977
    ensures CheckLyricsRights(jurisdiction, Some(year), death, renewal).status == NOT_SAFE
    ensures CheckLyricsRights(jurisdiction, Some(year), death, renewal)
         == CheckLyricsRights(jurisdiction, Some(year), None, "unknown")
    ensures CheckLyricsRights(jurisdiction, Some(year), death, renewal).reason == Published1964To1977
  {
  }

  /** US, 1978 onwards: the death year decides; missing gives UNKNOWN. */
  lemma UsFrom1978(jurisdiction: string, year: int, death: Option<int>, renewal: string)
    requires Upper(jurisdiction) == "US" && year >= 1978
    ensures var r := CheckLyricsRights(jurisdiction, Some(year), death, renewal);
      && (death.None? ==> r == RightsResult(UNKNOWN, PostDeathYearRequired))
      && (death.Some? && death.value <= 1954 ==> r == RightsResult(SAFE, PostDiedBy1954))
      && (death.Some? && death.value > 1954 ==> r == RightsResult(NOT_SAFE, PostDiedAfter1954))
  {
  }

  /** A decided verdict (SAFE or NOT_SAFE) is only ever reached with the metadata its rule needs. */
  lemma DecidedNeedsMetadata(jurisdiction: string, pub: Option<int>, death: Option<int>, renewal: string)
    requires CheckLyricsRights(jurisdiction, pub, death, renewal).status != UNKNOWN
    ensures Upper(jurisdiction) in Supported
    ensures Upper(jurisdiction) in {"UK", "AU"} ==> death.Some?
    ensures Upper(jurisdiction) == "US" ==> pub.Some?
    ensures Upper(jurisdiction) == "US" && pub.Some? && pub.value >= 1978 ==> death.Some?
  {
  }

  /** With no metadata at all the verdict is UNKNOWN in every jurisdiction. */
  lemma NoMetadataIsUnknown(jurisdiction: string, renewal: string)
    ensures CheckLyricsRights(jurisdiction, None, None, renewal).status == UNKNOWN
  {
  }

  // ---------------------------------------------------------------------
  // The explanation each branch of the chain returns
  // ---------------------------------------------------------------------

  /** An unsupported jurisdiction is refused with the list of supported codes. */
  lemma UnsupportedText(jurisdiction: string, pub: Option<int>, death: Option<int>, renewal: string)
    requires Upper(jurisdiction) !in Supported
    ensures CheckLyricsRights(jurisdiction, pub, death, renewal).Explanation()
         == "Unsupported jurisdiction; supported values are US, UK, AU."
  {
    UnsupportedJurisdiction(jurisdiction, pub, death, renewal);
  }

  /** UK and AU without a death year: the explanation names the upper-cased code and asks for it. */
  lemma LifePlusSeventyTextWithoutDeath(jurisdiction: string, pub: Option<int>, renewal: string)
    requires Upper(jurisdiction) in {"UK", "AU"}
    ensures CheckLyricsRights(jurisdiction, pub, None, renewal).Explanation()
         == Upper(jurisdiction) + ": lyricist death year is required for life+70 analysis."
  {
    UkAuReasons(jurisdiction, pub, None, renewal);
  }

  /** UK and AU with a death year: the explanation names the upper-cased code and the year in decimal. */
  lemma LifePlusSeventyTexts(jurisdiction: string, pub: Option<int>, death: Option<int>, renewal: string)
    requires Upper(jurisdiction) in {"UK", "AU"}
    ensures var code, e := Upper(jurisdiction), CheckLyricsRights(jurisdiction, pub, death, renewal).Explanation();
      && (death.Some? && death.value <= 1954 ==>
            e == code + ": lyricist died in " + IntToString(death.value) + " (<=1954), treated as public domain.")
      && (death.Some? && death.value > 1954 ==>
            e == code + ": lyricist died in " + IntToString(death.value)
                 + " (>1954), conservatively treated as not public domain.")
  {
    UkAuReasons(jurisdiction, pub, death, renewal);
    var r := CheckLyricsRights(jurisdiction, pub, death, renewal);
    if death.Some? && death.value <= 1954 {
      assert r.reason == DiedBy1954(Upper(jurisdiction), death.value);
    } else if death.Some? {
      assert r.reason == DiedAfter1954(Upper(jurisdiction), death.value);
    }
  }

  /** US up to 1929: a missing year is asked for, and an early year is quoted in decimal. */
  lemma UsTextsTo1929(jurisdiction: string, pub: Option<int>, death: Option<int>, renewal: string)
    requires Upper(jurisdiction) == "US"
    ensures var e := CheckLyricsRights(jurisdiction, pub, death, renewal).Explanation();
      && (pub.None? ==> e == "US: publication year is required.")
      && (AtMost(pub, 1929) ==> e == "US: first publication year " + IntToString(pub.value) + " is <= 1929.")
  {
    if pub.None? {
      UsWithoutPublicationYear(jurisdiction, death, renewal);
    } else if pub.value <= 1929 {
      UsUpTo1929(jurisdiction, pub.value, death, renewal);
    }
  }

  /** US, 1930-1963: the explanation quotes the lower-cased renewal status, or asks for a valid one. */
  lemma UsTexts1930To1963(jurisdiction: string, pub: Option<int>, death: Option<int>, renewal: string)
    requires Upper(jurisdiction) == "US" && InRange(pub, 1930, 1963)
    ensures var status, e := Lower(renewal), CheckLyricsRights(jurisdiction, pub, death, renewal).Explanation();
      && (status == "not_renewed" ==> e == "US: publication in 1930-1963 with renewal status not_renewed.")
      && (status in {"unknown", "renewed"} ==> e == "US: publication in 1930-1963 with renewal status " + status + ".")
      && (status !in {"not_renewed", "unknown", "renewed"} ==>
            e == "US: invalid renewal status; use unknown|renewed|not_renewed.")
  {
    Us1930To1963(jurisdiction, pub.value, death, renewal);
    var status, r := Lower(renewal), CheckLyricsRights(jurisdiction, pub, death, renewal);
    if status == "not_renewed" {
      assert r.reason == NotRenewed;
    } else if status in {"unknown", "renewed"} {
      assert r.reason == RenewalStatus(status);
    } else {
      assert r.reason == InvalidRenewal;
    }
  }

  /** US, 1964-1977: the fixed 95-year-term text. */
  lemma UsTexts1964To1977(jurisdiction: string, pub: Option<int>, death: Option<int>, renewal: string)
    requires Upper(jurisdiction) == "US" && InRange(pub, 1964, 1977)
    ensures CheckLyricsRights(jurisdiction, pub, death, renewal).Explanation()
         == "US: publication in 1964-1977 is conservatively not safe (95-year term)."
  {
    Us1964To1977(jurisdiction, pub.value, death, renewal);
  }

  /** US, 1978 onwards without a death year: the explanation asks for it. */
  lemma UsTextFrom1978WithoutDeath(jurisdiction: string, pub: Option<int>, renewal: string)
    requires Upper(jurisdiction) == "US" && Above(pub, 1977)
    ensures CheckLyricsRights(jurisdiction, pub, None, renewal).Explanation()
         == "US: lyricist death year is required for post-1977 life+70 analysis."
  {
    UsFrom1978(jurisdiction, pub.value, None, renewal);
  }

  /** US, 1978 onwards, lyricist died by 1954: the conservative life+70 safe text. */
  lemma UsTextFrom1978DiedBy1954(jurisdiction: string, pub: Option<int>, death: Option<int>, renewal: string)
    requires Upper(jurisdiction) == "US" && Above(pub, 1977) && AtMost(death, 1954)
    ensures CheckLyricsRights(jurisdiction, pub, death, renewal).Explanation()
         == "US: publication >=1978 and lyricist death year <=1954 (conservative life+70 safe)."
  {
    UsFrom1978(jurisdiction, pub.value, death, renewal);
  }

  /** US, 1978 onwards, lyricist died after 1954: the conservative not-safe text. */
  lemma UsTextFrom1978DiedAfter1954(jurisdiction: string, pub: Option<int>, death: Option<int>, renewal: string)
    requires Upper(jurisdiction) == "US" && Above(pub, 1977) && Above(death, 1954)
    ensures CheckLyricsRights(jurisdiction, pub, death, renewal).Explanation()
         == "US: publication >=1978 and lyricist death year >1954 (conservative not safe)."
  {
    UsFrom1978(jurisdiction, pub.value, death, renewal);
  }

  /** The supported codes are already upper case. */
  lemma CodesAreUpper()
    ensures Upper("US") == "US" && Upper("UK") == "UK" && Upper("AU") == "AU"
  {
    assert Upper("US") == "US";
    assert Upper("UK") == "UK";
    assert Upper("AU") == "AU";
  }

  lemma CodesDistinct()
    ensures "US" !in {"UK", "AU"} && "US" in Supported
  {
  }

  /** The US verdict changes across 1929/1930, 1963/1964 and 1977/1978. */
  lemma UsBoundaries()
    ensures CheckLyricsRights("US", Some(1929)).status == SAFE
    ensures CheckLyricsRights("US", Some(1930)).status == UNKNOWN
    ensures CheckLyricsRights("US", Some(1963), None, "renewed").status == UNKNOWN
    ensures CheckLyricsRights("US", Some(1964)).status == NOT_SAFE
    ensures CheckLyricsRights("US", Some(1977)).status == NOT_SAFE
    ensures CheckLyricsRights("US", Some(1978)).status == UNKNOWN
  {
    CodesAreUpper();
  }

  /** The UK and AU verdicts change across a death year of 1954/1955. */
  lemma LifePlusSeventyBoundaries()
    ensures CheckLyricsRights("UK", None, Some(1954)).status == SAFE
    ensures CheckLyricsRights("UK", None, Some(1955)).status == NOT_SAFE
    ensures CheckLyricsRights("AU", None, Some(1954)).status == SAFE
    ensures CheckLyricsRights("AU", None, Some(1955)).status == NOT_SAFE
  {
    CodesAreUpper();
  }

  /** The worked example: US, 1929 is SAFE with the exact explanation text. */
  lemma Us1929Example()
    ensures var r := CheckLyricsRights("US", Some(1929));
      r.status == SAFE && r.Explanation() == "US: first publication year 1929 is <= 1929."
  {
    CodesAreUpper();
    Format1929();
  }

  lemma Format1929()
    ensures IntToString(1929) == "1929"
  {
    assert NatToString(1) == "1";
    assert NatToString(19) == "19";
    assert NatToString(192) == "192";
  }
}
