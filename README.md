# safe-lyrics-checker, modelled in Dafny

This project models the decision logic of *safe-lyrics-checker*, a tool that
says whether song lyrics may be reused. It covers:

- **The rights engine.** A metadata-only decision table gives SAFE, NOT_SAFE or
  UNKNOWN for the US, UK and AU. It uses the publication year, the lyricist's
  death year and the renewal status.
- **The candidate search.** Catalog sources (Project Gutenberg, Internet
  Archive, Library of Congress and others) are queried in the caller's order.
  Candidates are de-duplicated by (source, work URL), enriched from their work
  page, and collected up to `max_results`.
- **The evidence-URL evaluator.** It fetches a page through the cache, rejects
  anti-bot pages, picks a metadata extractor by host name and runs the rights
  engine on what the extractor reads.
- **The quote heuristics.** An excerpt is flagged when it has too many words, too
  many non-blank lines, or equals a known lyric after whitespace and case are
  normalised.
- **The HTTP cache.** A URL-keyed table of (fetched_at, body) rows with a
  time-to-live.

Each source file becomes one Dafny module:

| module | file | form |
|---|---|---|
| `RightsEngine` | `rights_engine.dfy` | pure functions and lemmas |
| `Cache` | `http_cache.dfy` | `HttpCache` class; its `rows` map stands for the sqlite table |
| `SearchModels` | `search_models.dfy` | mutable `Candidate` class, plus its value snapshot `CandidateData` |
| `SearchCommon` | `search_common.dfy` | search URLs, title candidates, the candidate-building loop, in-place enrichment |
| `GutenbergSearch`, `ArchiveSearch`, `LocSearch` | one file each | the three sources whose code is available |
| `SearchEngine` | `search_engine.dfy` | `search_candidates` as nested loops, proved equal to a recursive specification |
| `UrlModels`, `UrlCommon`, `UrlGutenberg`, `Evaluator` | one file each | the URL evaluation flow |
| `QuoteSafety` | `quote_safety.dfy` | word and line counting, normalisation, the three rules |
| `Cli` | `cli.dfy` | exit codes |

`Text`, `Renewal` and `Wrappers` are shared helpers:

- `Text` holds Python's whitespace set, `split`/`join`/`strip`, ASCII case
  mapping and integer formatting.
- `Renewal` maps a renewal-pattern match to a status.
- `Wrappers` holds `Option` and `Result`.

Library calls the model does not open up are parameters:

- the network (`requests.get` followed by `raise_for_status`) is a function from
  URL to body or `FetchError`;
- the clock is the `now` argument;
- regular-expression results, `quote_plus`, `html.unescape` and
  `urlparse(...).hostname` are function-valued inputs.

## Model

| member | source | states |
|---|---|---|
| RightsEngine.DecisionTable | safe_lyrics_checker/rights_engine.py:22-123 | The verdict is SAFE exactly on the SAFE rows of the table and NOT_SAFE exactly on the NOT_SAFE rows; every other input is UNKNOWN |
| RightsEngine.TableForUs | safe_lyrics_checker/rights_engine.py:64-123 | The same equivalence, restricted to the US branch |
| RightsEngine.TableForUkAu | safe_lyrics_checker/rights_engine.py:41-61 | The same equivalence, restricted to the UK/AU branch |
| RightsEngine.UnsupportedJurisdiction | safe_lyrics_checker/rights_engine.py:34-39 | A code other than US/UK/AU after upper-casing gives UNKNOWN with the unsupported-jurisdiction explanation, whatever the years and renewal |
| RightsEngine.JurisdictionCaseInsensitive | safe_lyrics_checker/rights_engine.py:34 | Jurisdictions that upper-case alike give identical results |
| RightsEngine.UkAuIgnorePublicationAndRenewal | safe_lyrics_checker/rights_engine.py:41-61 | For UK/AU the result does not depend on publication year or renewal. No death year gives UNKNOWN, ≤1954 gives SAFE, >1954 gives NOT_SAFE |
| RightsEngine.UkAuReasons | safe_lyrics_checker/rights_engine.py:41-61 | For UK/AU the explanation is the death-year-required one, or the died-by-1954 or died-after-1954 one naming the upper-cased code and the year |
| RightsEngine.UsWithoutPublicationYear | safe_lyrics_checker/rights_engine.py:64-68 | For the US, no publication year gives UNKNOWN with the publication-year-required explanation, whatever the other inputs |
| RightsEngine.UsUpTo1929 | safe_lyrics_checker/rights_engine.py:70-74 | For the US, a year ≤1929 gives SAFE with the explanation naming that year |
| RightsEngine.Us1930To1963 | safe_lyrics_checker/rights_engine.py:76-95 | For 1930–1963 the lower-cased renewal status decides and the verdict is never NOT_SAFE. SAFE exactly for not_renewed. unknown/renewed give UNKNOWN with an explanation quoting the lower-cased status. Anything else gives UNKNOWN with the invalid-status explanation |
| RightsEngine.Us1964To1977 | safe_lyrics_checker/rights_engine.py:97-101 | 1964–1977 gives NOT_SAFE with the 95-year-term explanation, whatever the death year and renewal |
| RightsEngine.UsFrom1978 | safe_lyrics_checker/rights_engine.py:104-123 | From 1978: no death year gives UNKNOWN, ≤1954 gives SAFE, otherwise NOT_SAFE, each with its own explanation |
| RightsEngine.DecidedNeedsMetadata | safe_lyrics_checker/rights_engine.py:34-123 | A SAFE or NOT_SAFE verdict implies a supported jurisdiction and the years that jurisdiction's rule needs |
| RightsEngine.NoMetadataIsUnknown | safe_lyrics_checker/rights_engine.py:34-123 | Without years the verdict is UNKNOWN in every jurisdiction |
| RightsEngine.UsBoundaries | tests/test_rights_engine.py:4-22 | The US verdict changes across each of 1929/1930, 1963/1964 and 1977/1978 |
| RightsEngine.LifePlusSeventyBoundaries | tests/test_rights_engine.py:25-34 | The UK and AU verdicts change across a death year of 1954/1955 |
| RightsEngine.Us1929Example | safe_lyrics_checker/rights_engine.py:70-74 | US with 1929 gives SAFE with exactly the explanation "US: first publication year 1929 is <= 1929." |
| RightsEngine.UnsupportedText | safe_lyrics_checker/rights_engine.py:34-39 | Whenever the upper-cased jurisdiction is not US/UK/AU, the result's explanation is exactly "Unsupported jurisdiction; supported values are US, UK, AU." |
| RightsEngine.LifePlusSeventyTextWithoutDeath | safe_lyrics_checker/rights_engine.py:41-48 | For UK/AU with no death year, the explanation is exactly the upper-cased code followed by ": lyricist death year is required for life+70 analysis." |
| RightsEngine.LifePlusSeventyTexts | safe_lyrics_checker/rights_engine.py:41-61 | For UK/AU with a death year, the explanation is exactly the upper-cased code, ": lyricist died in ", the year in decimal, then " (<=1954), treated as public domain." when the year is ≤1954 and " (>1954), conservatively treated as not public domain." otherwise |
| RightsEngine.UsTextsTo1929 | safe_lyrics_checker/rights_engine.py:63-74 | For the US, no publication year gives exactly "US: publication year is required.", and a year ≤1929 gives exactly "US: first publication year <year> is <= 1929." with the year in decimal |
| RightsEngine.UsTexts1930To1963 | safe_lyrics_checker/rights_engine.py:76-95 | For a US year in 1930–1963, the lower-cased renewal status not_renewed gives exactly the not_renewed text, unknown/renewed give exactly "US: publication in 1930-1963 with renewal status <status>.", and anything else gives exactly the invalid-renewal text |
| RightsEngine.UsTexts1964To1977 | safe_lyrics_checker/rights_engine.py:97-101 | For a US year in 1964–1977, the explanation is exactly "US: publication in 1964-1977 is conservatively not safe (95-year term)." |
| RightsEngine.UsTextFrom1978WithoutDeath | safe_lyrics_checker/rights_engine.py:103-108 | For a US year from 1978 with no death year, the explanation is exactly the post-1977 death-year-required text |
| RightsEngine.UsTextFrom1978DiedBy1954 | safe_lyrics_checker/rights_engine.py:110-116 | For a US year from 1978 and a death year ≤1954, the explanation is exactly the conservative life+70 safe text |
| RightsEngine.UsTextFrom1978DiedAfter1954 | safe_lyrics_checker/rights_engine.py:118-123 | For a US year from 1978 and a death year >1954, the explanation is exactly the conservative not-safe text |
| Cache.DefaultTtlServesOneWeek | safe_lyrics_checker/http_cache.py:11-44 | The general freshness window instantiated with the default TTL of 7*24*60*60 seconds: a stored row is served for exactly one week after it was fetched, the last second included |
| Cache.HttpCache.constructor | safe_lyrics_checker/http_cache.py:15-19 | The path and TTL are stored, and the table keeps the rows it already held |
| Cache.HttpCache.GetText | safe_lyrics_checker/http_cache.py:36-57 | The answer is `Served`: the body of a fresh row (age ≤ TTL) without a fetch, otherwise the network's answer. The table becomes `RowsAfter`: a fetched body is stored stamped with `now`, a failure leaves it unchanged, and other rows are untouched |
| Cache.ServedIsStored | safe_lyrics_checker/http_cache.py:36-57 | A served body is what the table holds for the URL afterwards, and a second read at the same time serves it again whatever the network would say. A failure leaves the table as it was. Other rows never change |
| Cache.StoredBodyIsServedUntilExpiry | safe_lyrics_checker/http_cache.py:44 | A row stored at `now` is fresh at a later time exactly up to `now + ttl` inclusive |
| Cache.ReadTwice | tests/test_search.py:18-33 | After a successful read, a second read of the same URL returns the same body without using the network |
| SearchModels.Candidate.constructor | safe_lyrics_checker/search_sources/models.py:7-17 | title, source and work_url are required; the other fields take the given values or their defaults |
| SearchModels.DefaultsAreUnset | safe_lyrics_checker/search_sources/models.py:12-17 | A candidate built from the required fields has no authors, no years, renewal "unknown" and no evidence |
| Renewal.StatusOf | safe_lyrics_checker/url_sources/common.py:42 | No match gives "unknown". "not renewed" in any case gives "not_renewed". Any other match gives "renewed" |
| SearchCommon.BuildSearchUrl | safe_lyrics_checker/search_sources/common.py:15-16 | The base is a prefix of the URL and the rest is the encoded query |
| SearchCommon.MinOf | safe_lyrics_checker/search_sources/common.py:37 | `min` of a non-empty list is an element no greater than any other |
| SearchCommon.TwoWordTitles | safe_lyrics_checker/search_sources/common.py:27 | Exactly the texts of at least two words, taken from the input |
| SearchCommon.TwoWordTitlesAppend | safe_lyrics_checker/search_sources/common.py:27 | The filter keeps page order and duplicates: filtering a concatenation concatenates the filtered parts |
| SearchCommon.ExtractTitleCandidates | safe_lyrics_checker/search_sources/common.py:24-27 | The result is a prefix of the qualifying cleaned anchors in page order: all of them when there are at most ten, otherwise the first ten |
| SearchCommon.TitleCandidatesQualify | safe_lyrics_checker/search_sources/common.py:24-27 | Every title candidate is a cleaned anchor of at least two words; with fewer than ten candidates every qualifying cleaned anchor is among them |
| SearchCommon.LaterAnchorsKeepOrder | safe_lyrics_checker/search_sources/common.py:24-27 | The titles of a page start with the titles of any leading part of it, and once that part has ten qualifying anchors the rest of the page changes nothing |
| SearchCommon.CandidateTitle | safe_lyrics_checker/search_sources/gutenberg.py:21 | The idx-th title when there is one, else "<query> (<idx+1>)" |
| SearchCommon.SeedsShape | safe_lyrics_checker/search_sources/gutenberg.py:17-23 | At most five candidates, one per link in page order. Each has prefix + link as work URL, the fixed source, evidence [search URL, work URL], the indexed or fallback title and no metadata |
| SearchCommon.SeedsDistinct | safe_lyrics_checker/search_sources/gutenberg.py:20-22 | Distinct links give distinct work URLs |
| SearchCommon.SeedCandidates | safe_lyrics_checker/search_sources/gutenberg.py:19-24 | The loop builds one fresh, distinct Candidate per seed, whose contents equal that seed |
| SearchCommon.SearchSource | safe_lyrics_checker/search_sources/gutenberg.py:12-24 | The search URL is read through the cache: the table becomes `RowsAfter`, and the call fails exactly when `Served` is a failure (a fetch error, never a cached row), with that error. Otherwise the page is the served body and the result is one fresh, distinct Candidate per seed of that page |
| SearchCommon.EnrichFromPage | safe_lyrics_checker/search_sources/common.py:30-51 | The same object is returned and its new contents are `Enriched(old contents, page facts, page URL)` |
| SearchCommon.EnrichFillsOnlyUnset | safe_lyrics_checker/search_sources/common.py:34-49 | Set years and a known renewal status are never overwritten; title, source, work URL, lyricist and composer never change |
| SearchCommon.EnrichTakesEarliestYear | safe_lyrics_checker/search_sources/common.py:34-37 | An unset year becomes the minimum year on the page, which lies in 1500–2099 when the page facts come from the year pattern |
| SearchCommon.EnrichRenewal | safe_lyrics_checker/search_sources/common.py:44-49 | An "unknown" status becomes not_renewed for "not renewed" in any case, renewed for another match, and stays "unknown" with no match |
| SearchCommon.EnrichKeepsEvidence | safe_lyrics_checker/search_sources/common.py:31-32 | The old evidence list is a prefix of the new one, the page URL is present, at most one URL is added, and none when it was already there |
| SearchCommon.EnrichIdempotent | safe_lyrics_checker/search_sources/common.py:30-51 | Enriching twice with the same page and URL equals enriching once |
| SearchCommon.SeedEvidenceUnchanged | safe_lyrics_checker/search_sources/gutenberg.py:27-30 | Enriching a fresh candidate from its own work page keeps evidence [search URL, work URL] |
| SearchCommon.EnrichFromWorkPage | safe_lyrics_checker/search_sources/gutenberg.py:27-30 | The work URL is read through the cache: the table becomes `RowsAfter`, and the call fails exactly when `Served` fails, leaving the candidate unchanged. Otherwise the same object is returned, with contents `Enriched(old contents, facts of the served page, work URL)` |
| GutenbergSearch.Search | safe_lyrics_checker/search_sources/gutenberg.py:12-24 | The search-page contract of `SearchSource` (page served through the cache, table `RowsAfter`, one fresh Candidate per seed), with base "https://www.gutenberg.org/ebooks/search/?query=" and the domain as link prefix |
| GutenbergSearch.Enrich | safe_lyrics_checker/search_sources/gutenberg.py:27-30 | The contract of `EnrichFromWorkPage`: the work page served through the cache, the table `RowsAfter`, the same object enriched in place, and nothing changed on a failure |
| GutenbergSearch.PagesOnDomain | safe_lyrics_checker/search_sources/gutenberg.py:22-23 | Every work URL starts with https://www.gutenberg.org and every source is "gutenberg" |
| ArchiveSearch.Search | safe_lyrics_checker/search_sources/archive.py:12-23 | The search-page contract of `SearchSource` (page served through the cache, table `RowsAfter`, one fresh Candidate per seed), with base "https://archive.org/search?query=" and the domain as link prefix |
| ArchiveSearch.Enrich | safe_lyrics_checker/search_sources/archive.py:26-29 | The contract of `EnrichFromWorkPage`, as for GutenbergSearch.Enrich |
| ArchiveSearch.PagesOnDomain | safe_lyrics_checker/search_sources/archive.py:21-22 | Every work URL starts with https://archive.org and every source is "archive" |
| LocSearch.Search | safe_lyrics_checker/search_sources/loc.py:12-22 | The search-page contract of `SearchSource` (page served through the cache, table `RowsAfter`, one fresh Candidate per seed), with base "https://www.loc.gov/search/?q=" and no link prefix |
| LocSearch.Enrich | safe_lyrics_checker/search_sources/loc.py:25-28 | The contract of `EnrichFromWorkPage`, as for GutenbergSearch.Enrich |
| LocSearch.PagesAreMatchedLinks | safe_lyrics_checker/search_sources/loc.py:15-21 | Each work URL is the matched link itself and the source is "loc". When the link pattern only matches links under https://www.loc.gov/, every work URL starts with it |
| SearchEngine.Cap | safe_lyrics_checker/search_engine.py:44-45 | The stopping length is max_results when that is ≥1, and 1 otherwise (the test follows an append) |
| SearchEngine.SearchCandidates | safe_lyrics_checker/search_engine.py:25-48 | The nested loops with early returns compute `Outcome`, the recursive walk over sources and candidates |
| SearchEngine.ResultsWithinCap | safe_lyrics_checker/search_engine.py:44-46 | At most Cap(max_results) results; the walk stops early exactly when it reaches the cap |
| SearchEngine.VisitAppend | safe_lyrics_checker/search_engine.py:36-48 | Walking s1 + s2 is walking s1 and then s2 from where it stopped |
| SearchEngine.SourcesAfterTheCap | safe_lyrics_checker/search_engine.py:36-46 | An unknown source after the cap is reached is never looked up; one reached before the cap raises |
| SearchEngine.OfferAllWithinCap | safe_lyrics_checker/search_engine.py:38-46 | The inner loop keeps the results below the cap while walking, and exactly at the cap once stopped |
| SearchEngine.VisitWithinCap | safe_lyrics_checker/search_engine.py:36-46 | The same for the outer loop |
| SearchEngine.OfferAllCallsSound | safe_lyrics_checker/search_engine.py:38-43 | The inner loop calls enrich only on candidates the search returned, at most once per key, one result per call |
| SearchEngine.VisitCallsSound | safe_lyrics_checker/search_engine.py:36-43 | The same over any list of sources |
| SearchEngine.EnrichedOncePerKey | safe_lyrics_checker/search_engine.py:38-43 | Every result is enrich applied to a candidate a requested source returned, with no key enriched twice. If enrich keeps keys, no two results share a (source, work URL) pair |
| SearchEngine.FirstOccurrencesKeys | safe_lyrics_checker/search_engine.py:39-42 | The first occurrences cover every new key exactly once |
| SearchEngine.ResultWhenNothingFails | safe_lyrics_checker/search_engine.py:36-48 | With no unknown source and no error, the result is the enriched first occurrence of every key, in source-then-search order, cut at the cap. Every key found appears exactly once before the cut |
| SearchEngine.EvaluateCandidate | safe_lyrics_checker/search_engine.py:51-57 | SAFE/NOT_SAFE exactly on the table rows for the candidate's publication year, death year and renewal status |
| SearchEngine.EvaluationUsesOnlyRightsFields | safe_lyrics_checker/search_engine.py:51-57 | Candidates that agree on those three fields get the same result |
| UrlCommon.ExtractTitle | safe_lyrics_checker/url_sources/common.py:21-26 | No `<title>` gives None, and a blank one gives None. Otherwise the title is `Strip` of the unescaped, collapsed text, non-empty and without surrounding whitespace |
| UrlCommon.TitleIsItsWords | safe_lyrics_checker/url_sources/common.py:21-26 | For a title text without character references, the title is its words joined by single spaces, and None exactly when it has no words |
| UrlCommon.ExtractMetadataGeneric | safe_lyrics_checker/url_sources/common.py:29-43 | Each field comes from its own pattern's first match. The byline is stripped. Renewal goes through the shared mapping |
| UrlCommon.InsufficientMeansDefault | safe_lyrics_checker/url_sources/common.py:46-55 | Metadata is insufficient exactly when every field has its default |
| UrlCommon.NothingFoundIsInsufficient | safe_lyrics_checker/url_sources/common.py:29-55 | A page where no pattern matches yields the default, insufficient metadata |
| UrlCommon.AnyMatchIsSufficient | safe_lyrics_checker/url_sources/common.py:29-55 | The metadata is sufficient exactly when some pattern matched, counting a title only if it is non-blank after cleaning |
| UrlGutenberg.OnlyPublicationYearDiffers | safe_lyrics_checker/url_sources/gutenberg.py:11-16 | Only the publication year can differ from the generic result. It is the release year when that pattern matches and the generic year otherwise |
| UrlGutenberg.ExtractedYearsPlausible | safe_lyrics_checker/url_sources/gutenberg.py:8-15 | With the patterns' 1500–2099 range, every extracted year lies in that range |
| UrlGutenberg.ReleaseYearSuffices | safe_lyrics_checker/url_sources/gutenberg.py:13-15 | A release-year match alone makes the metadata sufficient |
| Evaluator.Hostname | safe_lyrics_checker/url_sources/evaluator.py:29-30 | A missing host gives ""; the host is lower-case |
| Evaluator.FirstMatch | safe_lyrics_checker/url_sources/evaluator.py:35-38 | The first adapter whose domain the host matches, with no earlier match; None when nothing matches |
| Evaluator.DomainMatchesSuffix | safe_lyrics_checker/url_sources/evaluator.py:36 | A matching host ends with the domain, preceded by "." unless it is the domain itself |
| Evaluator.AtMostOneAdapterMatches | safe_lyrics_checker/url_sources/evaluator.py:13-37 | No host matches two adapter domains |
| Evaluator.AdapterByDomain | safe_lyrics_checker/url_sources/evaluator.py:33-38 | A host on an adapter's domain gets that adapter; no match gives the generic extractor |
| Evaluator.NoHostIsGeneric | safe_lyrics_checker/url_sources/evaluator.py:29-38 | A URL without a host gets the generic extractor |
| Evaluator.SuffixWithoutDotDoesNotMatch | safe_lyrics_checker/url_sources/evaluator.py:36 | "notimslp.org" is not on imslp.org, and "www.imslp.org" is |
| Evaluator.ContainsLower | safe_lyrics_checker/url_sources/evaluator.py:42-43 | A substring survives lower-casing both strings |
| Evaluator.AntibotIgnoresCase | safe_lyrics_checker/url_sources/evaluator.py:41-43 | A page containing a marker in any case, as written or once lower-cased, is an anti-bot page |
| Evaluator.CodeText | safe_lyrics_checker/url_sources/evaluator.py:61 | The text is "unknown" exactly when the code is missing or 0 |
| Evaluator.Decide | safe_lyrics_checker/url_sources/evaluator.py:49-93 | The decision chain after the fetch (its properties are the lemmas below) |
| Evaluator.EvaluateUrl | safe_lyrics_checker/url_sources/evaluator.py:46-93 | The page comes from the cache when fresh and from the network otherwise, the table becomes `RowsAfter` (a fetched page is stored, a failure stores nothing), and the result is `Decide` on the page |
| Evaluator.FetchFailureIsUnknown | safe_lyrics_checker/url_sources/evaluator.py:51-70 | Every fetch failure gives UNKNOWN, the metadata of an empty page and the warning that names the failure |
| Evaluator.FetchWarningTexts | safe_lyrics_checker/url_sources/evaluator.py:51-65 | A timeout, a 403 and other HTTP codes each get their own warning text, with the code, or "unknown" when the code is missing or 0 |
| Evaluator.AntibotIsUnknown | safe_lyrics_checker/url_sources/evaluator.py:72-76 | A blocked page gives UNKNOWN, empty-page metadata and the anti-bot warning |
| Evaluator.WarningIffUnusable | safe_lyrics_checker/url_sources/evaluator.py:49-93 | There is a warning exactly when the fetch failed or the page was blocked |
| Evaluator.UsablePageVerdict | safe_lyrics_checker/url_sources/evaluator.py:78-93 | On a usable page the extracted metadata is returned with no warning and the verdict is the rights check on it; insufficient metadata gives UNKNOWN |
| Evaluator.DecidedNeedsUsablePage | safe_lyrics_checker/url_sources/evaluator.py:49-93 | SAFE or NOT_SAFE needs a fetched, unblocked page with sufficient metadata and gives no warning |
| Evaluator.ImslpExample | tests/test_evaluate_url.py:20-46 | An imslp.org page read as 1920, not renewed, is SAFE under US law and keeps the year |
| QuoteSafety.WordCountSplit | safe_lyrics_checker/quote_safety.py:26-27 | A non-word character splits the count: the words on each side of it add up |
| QuoteSafety.WordCountOfRun | safe_lyrics_checker/quote_safety.py:26-27 | A non-empty run of word characters counts as one word |
| QuoteSafety.WordCountOfJoin | safe_lyrics_checker/quote_safety.py:26-27 | Runs of word characters joined by single spaces count as that many words |
| QuoteSafety.WordCountOfRepeat | safe_lyrics_checker/quote_safety.py:26-27 | A word followed by a space, repeated n times, counts n words |
| QuoteSafety.TwentyWords | tests/test_rules_engine.py:10-14 | The test's `"word " * 20` counts 20 words, above its limit of 10 |
| QuoteSafety.Segments | safe_lyrics_checker/quote_safety.py:31 | The pieces between line breaks; never empty |
| QuoteSafety.NoLinesIffBlank | safe_lyrics_checker/quote_safety.py:30-31 | No counted line exactly when the excerpt is all whitespace |
| QuoteSafety.SegmentsOfJoin | safe_lyrics_checker/quote_safety.py:31 | Splitting lines joined by newlines gives back the lines |
| QuoteSafety.LineCountOfJoin | safe_lyrics_checker/quote_safety.py:30-31 | n non-blank lines joined by newlines count as n lines |
| QuoteSafety.FiveLines | tests/test_rules_engine.py:17-21 | Five one-letter lines count as five lines, above the default limit of four |
| QuoteSafety.NormalizeShape | safe_lyrics_checker/quote_safety.py:34-35 | The normal form is the lower-cased words joined by single spaces; it is empty exactly for a blank text |
| QuoteSafety.NormalizeIdempotent | safe_lyrics_checker/quote_safety.py:34-35 | Normalising twice equals normalising once |
| QuoteSafety.NormalizeIgnoresCase | safe_lyrics_checker/quote_safety.py:34-35 | Lower-casing first does not change the normal form |
| QuoteSafety.NotesFor | safe_lyrics_checker/quote_safety.py:58-77 | One note per hit in the same order, or the single no-violation note |
| QuoteSafety.HitsInOrder | safe_lyrics_checker/quote_safety.py:58-74 | Each rule's hit is present exactly when the rule fires. Hits appear in the order max_words, max_lines, known_lyric_match, each at most once |
| QuoteSafety.NotesOfHits | safe_lyrics_checker/quote_safety.py:58-74 | The notes appended rule by rule are the notes of the hits |
| QuoteSafety.CheckQuoteSafety | safe_lyrics_checker/quote_safety.py:38-79 | The hits are those of the rules that fire: words > max_words, non-blank lines > max_lines, a known-lyric match. The notes belong to those hits, and is_safe holds exactly when there are none |
| QuoteSafety.MatchesCorpus | safe_lyrics_checker/quote_safety.py:70-72 | The source's set-membership test equals: the excerpt is non-blank and equals, once normalised, some non-blank corpus entry |
| QuoteSafety.CorpusMatch | safe_lyrics_checker/quote_safety.py:70-72 | The same equivalence, for the values |
| QuoteSafety.SafeIffNoRuleFires | safe_lyrics_checker/quote_safety.py:58-79 | No hits exactly when the excerpt is within both limits and matches no known lyric |
| QuoteSafety.KnownMatchIgnoresCase | tests/test_rules_engine.py:24-30 | An excerpt differing from a corpus entry only in case matches it |
| Cli.RightsExitCode | safe_lyrics_checker/cli.py:81-85 | 0 exactly for SAFE, 1 exactly for NOT_SAFE, 2 exactly for UNKNOWN |
| Cli.QuoteExitCode | safe_lyrics_checker/cli.py:99 | 0 exactly when the excerpt is safe, 1 otherwise |
| Cli.NoYearsExitsUnknown | safe_lyrics_checker/cli.py:81-85 | The rights check without years exits with 2 |
| Text.Strip | safe_lyrics_checker/quote_safety.py:31 | `str.strip()` is empty exactly for a blank text and otherwise starts and ends with a non-space |
| Text.StripIsSlice | safe_lyrics_checker/quote_safety.py:31 | `str.strip()` only removes whitespace around the text: the result is a slice of the input with nothing but whitespace outside it |
| Text.WordsOfStrip | safe_lyrics_checker/quote_safety.py:31 | Stripping keeps the words |
| Text.Collapse | safe_lyrics_checker/search_sources/common.py:26 | `re.sub(r"\s+", " ", ...)` leaves single spaces and never two whitespace characters in a row |
| Text.CollapseKeepsWords | safe_lyrics_checker/search_sources/common.py:26 | Collapsing keeps every word, in order |
| Text.StripOfCollapse | safe_lyrics_checker/search_sources/common.py:26 | Collapsing and then stripping gives the words joined by single spaces |
| Text.WordsOfJoin | safe_lyrics_checker/quote_safety.py:35 | `" ".join` of words, split again, gives the words back |
| Text.WordsOfLower | safe_lyrics_checker/quote_safety.py:35 | Splitting a lower-cased text gives the lower-cased words |
| Text.NatToStringRoundTrip | safe_lyrics_checker/rights_engine.py:73 | The decimal text of a year reads back as that year |

## Left out

- **Network, sqlite, clock.** I/O and the database are not modelled. `requests.get` and `raise_for_status` are a `Network` function. The `http_cache` table is the `rows` map. `time.time()` is the `now` argument. Creating the cache directory is not modelled.
- **Exceptions.** Only the `requests` exceptions the evaluator separates are modelled (timeout, HTTP error with an optional status code, other request errors). Other exceptions, such as a sqlite failure, are not.
- **Cache default.** The `cache or HttpCache()` default is not modelled: every caller passes its cache.
- **Regular expressions.** They are inputs. Examples: the link and anchor patterns of each source, YEAR_RE/DEATH_RE/RENEWAL_RE (`PageFacts`), the URL extractor's patterns (`PageMatches`), the Gutenberg release-date pattern, and the `\w` of the word counter (`isWordChar`).
  - `text_from_html` and `html_to_text` only feed those patterns, so they are not modelled.
  - The 1500–2099 year range and the renewal phrases are stated as assumptions about pattern results (`PageFacts.Plausible`, `PageMatches.Plausible`).
- **Library helpers.** `quote_plus`, `html.unescape` and `urlparse(...).hostname` are function parameters.
- **Case mapping.** `str.lower`/`str.upper` are modelled for ASCII letters only.
- **Line splitting.** `str.splitlines` is modelled as splitting at every line-break character. It treats "\r\n" as one break and drops a trailing empty piece. Both differences only add empty pieces, and those are never counted.
- **Unavailable sources and extractors.** The imslp, cpdl, worldcat and copyright_office search sources are not part of this model. Nor are the imslp, cpdl and loc URL extractors. The extractors are opaque functions in `PageReaders`. In `SearchEngine` every source, including gutenberg, archive and loc, is an abstract `search`/`enrich` pair over candidate values.
- SearchEngine.SearchCandidates: works on candidate values, not the shared `Candidate` objects and the cache. It therefore does not capture aliasing between the objects a search returns and those `enrich` updates, and not the cache effects of each call. Each source call's own effect on the cache (`Served`, `RowsAfter`) and on its candidates is stated in `SearchCommon`, `GutenbergSearch`, `ArchiveSearch` and `LocSearch`.
- **Known-lyrics corpus.** Any iterable of strings in the source, including a one-shot generator. Here it is a sequence. `None` and an empty corpus behave alike, so `None` is the empty sequence.
- **Failure handling of the search.** `search_candidates` has no per-source failure isolation, no strict mode, no up-front rejection of unknown source ids and no aggregate verdict across candidates. An exception from a source aborts the whole call, and an unknown id fails only when its turn comes.
- **Command line.** Argument parsing, reading the excerpt and corpus files, and printing are not modelled. Only the exit codes are.
- **Unmodelled modules.** `rules_engine.py`, `url_sources/archive.py` and `__init__.py` re-export names or delegate in one line. `check_lyrics_excerpt` passes its arguments to `check_quote_safety`, modelled as `QuoteSafety.CheckQuoteSafety`. The archive `extract_metadata` returns `extract_metadata_generic`, modelled as `UrlCommon.ExtractMetadataGeneric` and used for archive pages in `Evaluator.ReadMetadata`.
- **`Fact`.** The record is declared (`SearchModels.Fact`), but nothing in the core uses it.
- RightsEngine.CheckLyricsRights: the result holds a `Reason` value naming the return taken, with the values its text quotes. `RightsResult.Explanation()` renders the source's `explanation` string from it, character for character. Lemmas that compare whole results (`JurisdictionCaseInsensitive`, `UkAuIgnorePublicationAndRenewal`, `Us1964To1977`) compare reasons, and equal reasons give equal explanations.
- QuoteSafety.CheckQuoteSafety: the rule hits are the `Rule` values whose `Name()` is the string the source appends ("max_words", "max_lines", "known_lyric_match"). The result holds the values, not the strings.
