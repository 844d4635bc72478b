/**
 * The renewal pattern `\b(not renewed|renewed)\b` (case-insensitive) and the
 * status a match maps to; both the search enrichment and the generic URL
 * extractor use it.
 */
module Renewal {
  import opened Wrappers
  import opened Text

  /** What the pattern's group can hold: either phrase, in any letter case. */
  predicate IsRenewalMatch(m: string) {
    Lower(m) in {"not renewed", "renewed"}
  }

  /** The status recorded for a match, if any: "not renewed" in any case, otherwise "renewed"; no match is "unknown". */
  function StatusOf(m: Option<string>): (r: string)
    ensures r in {"unknown", "renewed", "not_renewed"}
    ensures r == "unknown" <==> m.None?
    ensures r == "not_renewed" <==> m.Some? && Lower(m.value) == "not renewed"
  {
    match m
    case None => "unknown"
    case Some(text) => if Lower(text) == "not renewed" then "not_renewed" else "renewed"
  }
}
