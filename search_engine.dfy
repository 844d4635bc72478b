/**
 * The multi-source candidate search: walk the requested sources in order,
 * skip candidates whose (source, work URL) pair was already seen, enrich the
 * rest, and stop as soon as `max_results` candidates have been collected.
 *
 * The search and enrich functions of each source are parameters: `search`
 * maps a source id and a query to the candidates found or the error the
 * source raised, `enrich` maps a source id and a candidate to the enriched
 * candidate or the error raised. An error aborts the whole search.
 */
module SearchEngine {
  import opened Wrappers
  import opened Cache
  import opened SearchModels
  import opened RightsEngine
  import Text

  /** The ids of the `SOURCES` registry. */
  const Registry: set<string> := {"gutenberg", "imslp", "cpdl", "loc", "archive", "worldcat", "copyright"}

  type Key = (string, string)

  /** The de-duplication key of a candidate: its source and work URL. */
  function KeyOf(c: CandidateData): Key {
    (c.source, c.workUrl)
  }

  type SearchFn = (string, string) -> Result<seq<CandidateData>, FetchError>
  type EnrichFn = (string, CandidateData) -> Result<CandidateData, FetchError>

  /** Why a search stopped without a result: an id missing from the registry, or an error a source raised. */
  datatype SearchError =
    | UnknownSource(id: string)
    | Raised(source: string, error: FetchError)

  /** A candidate together with the id of the source whose loop met it. */
  type Found = (string, CandidateData)

  /**
   * The state of the walk: keys seen, the candidates handed to `enrich` so
   * far (a record of the calls, not a variable of the source), the results,
   * and whether the cap was reached.
   */
  datatype Progress = Progress(seen: set<Key>, calls: seq<Found>, results: seq<CandidateData>, done: bool)

  /** The number of results that stops the walk: the test comes after an append, so it is at least one. */
  function Cap(maxResults: int): (n: int)
    ensures n >= 1 && (maxResults >= 1 ==> n == maxResults)
  {
    if maxResults >= 1 then maxResults else 1
  }

  /** The inner loop over the candidates one source returned. */
  function OfferAll(p: Progress, source: string, cs: seq<CandidateData>, maxResults: int, enrich: EnrichFn)
    : Result<Progress, SearchError>
    decreases |cs|
  {
    if p.done || cs == [] then Success(p)
    else
      var key := KeyOf(cs[0]);
      if key in p.seen then OfferAll(p, source, cs[1..], maxResults, enrich)
      else
        match enrich(source, cs[0])
        case Failure(e) => Failure(Raised(source, e))
        case Success(c) => OfferAll(Accept(p, source, cs[0], c, maxResults), source, cs[1..], maxResults, enrich)
  }

  /** Record a new candidate's key and its enriched form; the walk stops once the results reach `max_results`. */
  function Accept(p: Progress, source: string, candidate: CandidateData, enriched: CandidateData, maxResults: int): Progress {
    Progress(p.seen + {KeyOf(candidate)}, p.calls + [(source, candidate)], p.results + [enriched],
             |p.results| + 1 >= maxResults)
  }

  /** The outer loop over the requested sources. */
  function Visit(p: Progress, sources: seq<string>, query: string, maxResults: int,
                 search: SearchFn, enrich: EnrichFn): Result<Progress, SearchError>
    decreases |sources|
  {
    if p.done || sources == [] then Success(p)
    else if sources[0] !in Registry then Failure(UnknownSource(sources[0]))
    else
      match search(sources[0], query)
      case Failure(e) => Failure(Raised(sources[0], e))
      case Success(cs) =>
        match OfferAll(p, sources[0], cs, maxResults, enrich)
        case Failure(e) => Failure(e)
        case Success(q) => Visit(q, sources[1..], query, maxResults, search, enrich)
  }

  const Start: Progress := Progress({}, [], [], false)

  /** What `search_candidates` returns or raises. */
  function Outcome(query: string, sources: seq<string>, maxResults: int, search: SearchFn, enrich: EnrichFn)
    : Result<seq<CandidateData>, SearchError>
  {
    match Visit(Start, sources, query, maxResults, search, enrich)
    case Failure(e) => Failure(e)
    case Success(p) => Success(p.results)
  }

  /** `search_candidates`, as written: two nested loops with early returns. */
  method SearchCandidates(query: string, sources: seq<string>, maxResults: int, search: SearchFn, enrich: EnrichFn)
    returns (r: Result<seq<CandidateData>, SearchError>)
    ensures r == Outcome(query, sources, maxResults, search, enrich)
  {
    var results: seq<CandidateData> := [];
    var seen: set<Key> := {};
    ghost var calls: seq<Found> := [];
    var i := 0;
    while i < |sources|
      invariant 0 <= i <= |sources|
      invariant Visit(Start, sources, query, maxResults, search, enrich)
             == Visit(Progress(seen, calls, results, false), sources[i..], query, maxResults, search, enrich)
    {
      var source := sources[i];
      assert sources[i..][0] == source && sources[i..][1..] == sources[i + 1..];
      if source !in Registry {
        return Failure(UnknownSource(source));
      }
      var found := search(source, query);
      if found.Failure? {
        return Failure(Raised(source, found.error));
      }
      var cs := found.value;
      ghost var before := Progress(seen, calls, results, false);
      var j := 0;
      while j < |cs|
        invariant 0 <= j <= |cs|
        invariant OfferAll(before, source, cs, maxResults, enrich)
               == OfferAll(Progress(seen, calls, results, false), source, cs[j..], maxResults, enrich)
      {
        assert cs[j..][0] == cs[j] && cs[j..][1..] == cs[j + 1..];
        var key := KeyOf(cs[j]);
        if key !in seen {
          seen := seen + {key};
          var enriched := enrich(source, cs[j]);
          if enriched.Failure? {
            return Failure(Raised(source, enriched.error));
          }
          results := results + [enriched.value];
          calls := calls + [(source, cs[j])];
          if |results| >= maxResults {
            return Success(results);
          }
        }
        j := j + 1;
      }
      i := i + 1;
    }
    return Success(results);
  }

  // ---------------------------------------------------------------------
  // The cap
  // ---------------------------------------------------------------------

  /** Below the cap while walking; exactly at the cap once stopped early. */
  predicate WithinCap(p: Progress, maxResults: int) {
    if p.done then |p.results| == Cap(maxResults) else |p.results| < Cap(maxResults)
  }

  lemma {:induction false} OfferAllWithinCap(p: Progress, source: string, cs: seq<CandidateData>,
                                             maxResults: int, enrich: EnrichFn)
    requires WithinCap(p, maxResults)
    ensures var r := OfferAll(p, source, cs, maxResults, enrich);
      r.Success? ==> WithinCap(r.value, maxResults) && p.results <= r.value.results
    decreases |cs|
  {
    if p.done || cs == [] {
    } else if KeyOf(cs[0]) in p.seen {
      OfferAllWithinCap(p, source, cs[1..], maxResults, enrich);
    } else if enrich(source, cs[0]).Success? {
      OfferAllWithinCap(Accept(p, source, cs[0], enrich(source, cs[0]).value, maxResults), source, cs[1..], maxResults, enrich);
    }
  }

  lemma {:induction false} VisitWithinCap(p: Progress, sources: seq<string>, query: string, maxResults: int,
                                          search: SearchFn, enrich: EnrichFn)
    requires WithinCap(p, maxResults)
    ensures var r := Visit(p, sources, query, maxResults, search, enrich);
      r.Success? ==> WithinCap(r.value, maxResults) && p.results <= r.value.results
    decreases |sources|
  {
    if p.done || sources == [] || sources[0] !in Registry || search(sources[0], query).Failure? {
    } else {
      var cs := search(sources[0], query).value;
      OfferAllWithinCap(p, sources[0], cs, maxResults, enrich);
      var q := OfferAll(p, sources[0], cs, maxResults, enrich);
      if q.Success? {
        VisitWithinCap(q.value, sources[1..], query, maxResults, search, enrich);
      }
    }
  }

  /**
   * At most `max_results` candidates (at least one may always be returned),
   * and a shorter list only when every source was searched to the end.
   */
  lemma ResultsWithinCap(query: string, sources: seq<string>, maxResults: int, search: SearchFn, enrich: EnrichFn)
    ensures var r := Outcome(query, sources, maxResults, search, enrich);
      r.Success? ==> |r.value| <= Cap(maxResults)
    ensures var v := Visit(Start, sources, query, maxResults, search, enrich);
      v.Success? ==> (v.value.done <==> |v.value.results| == Cap(maxResults))
  {
    VisitWithinCap(Start, sources, query, maxResults, search, enrich);
  }

  // ---------------------------------------------------------------------
  // Composition: what happens after the cap, and unknown sources
  // ---------------------------------------------------------------------

  /** Chaining the walk over two lists of sources is the walk over their concatenation. */
  lemma {:induction false} VisitAppend(p: Progress, s1: seq<string>, s2: seq<string>, query: string, maxResults: int,
                                       search: SearchFn, enrich: EnrichFn)
    ensures Visit(p, s1 + s2, query, maxResults, search, enrich)
         == match Visit(p, s1, query, maxResults, search, enrich)
            case Failure(e) => Failure(e)
            case Success(q) => Visit(q, s2, query, maxResults, search, enrich)
    decreases |s1|
  {
    if p.done {
    } else if s1 == [] {
      assert s1 + s2 == s2;
    } else {
      assert (s1 + s2)[0] == s1[0] && (s1 + s2)[1..] == s1[1..] + s2;
      if s1[0] in Registry && search(s1[0], query).Success? {
        var q := OfferAll(p, s1[0], search(s1[0], query).value, maxResults, enrich);
        if q.Success? {
          VisitAppend(q.value, s1[1..], s2, query, maxResults, search, enrich);
        }
      }
    }
  }

  /**
   * Once `max_results` candidates have been collected the remaining sources
   * are never looked at, not even to check that they exist; an unknown source
   * reached before that point raises.
   */
  lemma SourcesAfterTheCap(query: string, sources: seq<string>, unknown: string, rest: seq<string>,
                           maxResults: int, search: SearchFn, enrich: EnrichFn)
    requires unknown !in Registry
    requires Visit(Start, sources, query, maxResults, search, enrich).Success?
    ensures var q := Visit(Start, sources, query, maxResults, search, enrich).value;
      var r := Outcome(query, sources + [unknown] + rest, maxResults, search, enrich);
      && (q.done ==> r == Success(q.results))
      && (!q.done ==> r == Failure(UnknownSource(unknown)))
  {
    VisitAppend(Start, sources, [unknown] + rest, query, maxResults, search, enrich);
    assert sources + [unknown] + rest == sources + ([unknown] + rest);
    assert ([unknown] + rest)[0] == unknown;
  }

  // ---------------------------------------------------------------------
  // Enrich calls: once per key, only on candidates a source returned
  // ---------------------------------------------------------------------

  /**
   * What the record of enrich calls guarantees after any walk over sources
   * drawn from `all`: one result per call, each the enrichment of its call;
   * calls on pairwise different keys, all of them seen; and every call on a
   * candidate that its source's search returned.
   */
  ghost predicate CallsSound(p: Progress, all: seq<string>, query: string, search: SearchFn, enrich: EnrichFn) {
    && |p.calls| == |p.results|
    && (forall i :: 0 <= i < |p.calls| ==> enrich(p.calls[i].0, p.calls[i].1) == Success(p.results[i]))
    && (forall i, j :: 0 <= i < j < |p.calls| ==> KeyOf(p.calls[i].1) != KeyOf(p.calls[j].1))
    && (forall i :: 0 <= i < |p.calls| ==> KeyOf(p.calls[i].1) in p.seen)
    && (forall i :: 0 <= i < |p.calls| ==>
          && p.calls[i].0 in all && search(p.calls[i].0, query).Success?
          && p.calls[i].1 in search(p.calls[i].0, query).value)
  }

  lemma {:induction false} OfferAllCallsSound(p: Progress, source: string, cs: seq<CandidateData>, maxResults: int,
                                              all: seq<string>, query: string, search: SearchFn, enrich: EnrichFn)
    requires CallsSound(p, all, query, search, enrich)
    requires source in all && search(source, query).Success?
    requires forall c :: c in cs ==> c in search(source, query).value
    ensures var r := OfferAll(p, source, cs, maxResults, enrich);
      r.Success? ==> CallsSound(r.value, all, query, search, enrich)
    decreases |cs|
  {
    if p.done || cs == [] {
    } else {
      assert cs[0] in cs;
      assert forall c :: c in cs[1..] ==> c in cs;
      if KeyOf(cs[0]) in p.seen {
        OfferAllCallsSound(p, source, cs[1..], maxResults, all, query, search, enrich);
      } else if enrich(source, cs[0]).Success? {
        var q := Accept(p, source, cs[0], enrich(source, cs[0]).value, maxResults);
        assert q.calls[|p.calls|] == (source, cs[0]);
        assert CallsSound(q, all, query, search, enrich);
        OfferAllCallsSound(q, source, cs[1..], maxResults, all, query, search, enrich);
      }
    }
  }

  lemma {:induction false} VisitCallsSound(p: Progress, sources: seq<string>, query: string, maxResults: int,
                                           all: seq<string>, search: SearchFn, enrich: EnrichFn)
    requires CallsSound(p, all, query, search, enrich)
    requires forall s :: s in sources ==> s in all
    ensures var r := Visit(p, sources, query, maxResults, search, enrich);
      r.Success? ==> CallsSound(r.value, all, query, search, enrich)
    decreases |sources|
  {
    if p.done || sources == [] || sources[0] !in Registry || search(sources[0], query).Failure? {
    } else {
      assert sources[0] in sources;
      var cs := search(sources[0], query).value;
      OfferAllCallsSound(p, sources[0], cs, maxResults, all, query, search, enrich);
      var q := OfferAll(p, sources[0], cs, maxResults, enrich);
      if q.Success? {
        assert forall s :: s in sources[1..] ==> s in sources;
        VisitCallsSound(q.value, sources[1..], query, maxResults, all, search, enrich);
      }
    }
  }

  /**
   * Every result is `enrich` applied, by a requested source, to a candidate
   * that source's `search` returned, and no key is enriched twice; when
   * enrichment keeps keys, no two results share a (source, work URL) pair.
   */
  lemma EnrichedOncePerKey(query: string, sources: seq<string>, maxResults: int, search: SearchFn, enrich: EnrichFn)
    ensures var v := Visit(Start, sources, query, maxResults, search, enrich);
      v.Success? ==> CallsSound(v.value, sources, query, search, enrich)
    ensures var r := Outcome(query, sources, maxResults, search, enrich);
      KeepsKeys(enrich) && r.Success? ==>
        forall i, j :: 0 <= i < j < |r.value| ==> KeyOf(r.value[i]) != KeyOf(r.value[j])
  {
    VisitCallsSound(Start, sources, query, maxResults, sources, search, enrich);
  }

  /** Enrichment never changes a candidate's source or work URL (as `enrich_from_page` does not). */
  ghost predicate KeepsKeys(enrich: EnrichFn) {
    forall s, c :: enrich(s, c).Success? ==> KeyOf(enrich(s, c).value) == KeyOf(c)
  }

  // ---------------------------------------------------------------------
  // The result when nothing fails: a reference definition
  // ---------------------------------------------------------------------

  function Tag(source: string, cs: seq<CandidateData>): (r: seq<Found>)
    ensures |r| == |cs| && forall k :: 0 <= k < |cs| ==> r[k] == (source, cs[k])
  {
    seq(|cs|, k requires 0 <= k < |cs| => (source, cs[k]))
  }

  /** Every candidate every source returns, in the order they are met (failed searches contribute nothing). */
  function AllFound(sources: seq<string>, query: string, search: SearchFn): seq<Found>
    decreases |sources|
  {
    if sources == [] then []
    else
      var cs := if search(sources[0], query).Success? then search(sources[0], query).value else [];
      Tag(sources[0], cs) + AllFound(sources[1..], query, search)
  }

  function KeysOf(fs: seq<Found>): set<Key> {
    set k | 0 <= k < |fs| :: KeyOf(fs[k].1)
  }

  /** The first occurrence of each key not already in `seen`, in order. */
  function FirstOccurrences(fs: seq<Found>, seen: set<Key>): (r: seq<Found>)
    ensures forall f :: f in r ==> f in fs
    decreases |fs|
  {
    if fs == [] then []
    else if KeyOf(fs[0].1) in seen then FirstOccurrences(fs[1..], seen)
    else [fs[0]] + FirstOccurrences(fs[1..], seen + {KeyOf(fs[0].1)})
  }

  ghost predicate EnrichSucceeds(fs: seq<Found>, enrich: EnrichFn) {
    forall f :: f in fs ==> enrich(f.0, f.1).Success?
  }

  /** Each found candidate enriched by its source. */
  function EnrichEach(fs: seq<Found>, enrich: EnrichFn): (r: seq<CandidateData>)
    requires EnrichSucceeds(fs, enrich)
    ensures |r| == |fs|
    decreases |fs|
  {
    if fs == [] then [] else [enrich(fs[0].0, fs[0].1).value] + EnrichEach(fs[1..], enrich)
  }

  function Take(xs: seq<CandidateData>, n: nat): (r: seq<CandidateData>)
    ensures |r| <= n && r <= xs && (|xs| <= n ==> r == xs)
  {
    if |xs| <= n then xs else xs[..n]
  }

  lemma KeysOfCons(fs: seq<Found>)
    requires fs != []
    ensures KeysOf(fs) == {KeyOf(fs[0].1)} + KeysOf(fs[1..])
  {
    forall k | k in KeysOf(fs) ensures k in {KeyOf(fs[0].1)} + KeysOf(fs[1..]) {
      var i :| 0 <= i < |fs| && k == KeyOf(fs[i].1);
      if i > 0 { assert fs[1..][i - 1] == fs[i]; }
    }
    forall k | k in KeysOf(fs[1..]) ensures k in KeysOf(fs) {
      var i :| 0 <= i < |fs[1..]| && k == KeyOf(fs[1..][i].1);
      assert fs[1..][i] == fs[i + 1];
    }
  }

  lemma EnrichSucceedsTail(fs: seq<Found>, enrich: EnrichFn)
    requires fs != [] && EnrichSucceeds(fs, enrich)
    ensures enrich(fs[0].0, fs[0].1).Success? && EnrichSucceeds(fs[1..], enrich)
  {
    assert fs[0] in fs;
    forall f | f in fs[1..] ensures enrich(f.0, f.1).Success? {
      var i :| 0 <= i < |fs[1..]| && fs[1..][i] == f;
      assert fs[i + 1] == f;
    }
  }

  lemma {:induction false} FirstOccurrencesAppend(a: seq<Found>, b: seq<Found>, seen: set<Key>)
    ensures FirstOccurrences(a + b, seen) == FirstOccurrences(a, seen) + FirstOccurrences(b, seen + KeysOf(a))
    decreases |a|
  {
    if a == [] {
      assert a + b == b;
      assert KeysOf(a) == {};
      assert seen + KeysOf(a) == seen;
    } else {
      assert (a + b)[0] == a[0] && (a + b)[1..] == a[1..] + b;
      var key := KeyOf(a[0].1);
      KeysOfCons(a);
      if key in seen {
        FirstOccurrencesAppend(a[1..], b, seen);
        assert seen + KeysOf(a) == seen + KeysOf(a[1..]);
      } else {
        FirstOccurrencesAppend(a[1..], b, seen + {key});
        assert seen + {key} + KeysOf(a[1..]) == seen + KeysOf(a);
      }
    }
  }

  /** The first occurrences cover every key not already seen, each exactly once. */
  lemma {:induction false} FirstOccurrencesKeys(fs: seq<Found>, seen: set<Key>)
    ensures var r := FirstOccurrences(fs, seen);
      && KeysOf(r) == KeysOf(fs) - seen
      && forall i, j :: 0 <= i < j < |r| ==> KeyOf(r[i].1) != KeyOf(r[j].1)
    decreases |fs|
  {
    if fs == [] {
      assert KeysOf(fs) == {};
    } else {
      var key := KeyOf(fs[0].1);
      KeysOfCons(fs);
      if key in seen {
        FirstOccurrencesKeys(fs[1..], seen);
      } else {
        var tail := FirstOccurrences(fs[1..], seen + {key});
        FirstOccurrencesKeys(fs[1..], seen + {key});
        var r := [fs[0]] + tail;
        assert r[1..] == tail;
        KeysOfCons(r);
        forall i, j | 0 <= i < j < |r| ensures KeyOf(r[i].1) != KeyOf(r[j].1) {
          if i == 0 {
            assert r[j] == tail[j - 1];
            assert KeyOf(tail[j - 1].1) in KeysOf(tail);
          }
        }
      }
    }
  }

  lemma {:induction false} EnrichEachAppend(a: seq<Found>, b: seq<Found>, enrich: EnrichFn)
    requires EnrichSucceeds(a, enrich) && EnrichSucceeds(b, enrich)
    ensures EnrichSucceeds(a + b, enrich)
    ensures EnrichEach(a + b, enrich) == EnrichEach(a, enrich) + EnrichEach(b, enrich)
    decreases |a|
  {
    if a == [] {
      assert a + b == b;
    } else {
      assert (a + b)[0] == a[0] && (a + b)[1..] == a[1..] + b;
      EnrichEachAppend(a[1..], b, enrich);
    }
  }

  /** Nothing fails on the way: every found candidate is in the registry's sources, searched and enriched without error. */
  ghost predicate NothingFails(sources: seq<string>, query: string, search: SearchFn, enrich: EnrichFn) {
    && (forall s :: s in sources ==> s in Registry && search(s, query).Success?)
    && EnrichSucceeds(AllFound(sources, query, search), enrich)
  }

  /** The progress the inner loop reaches when nothing fails, stated without the loop. */
  lemma {:induction false} OfferAllReference(p: Progress, source: string, cs: seq<CandidateData>,
                                             maxResults: int, enrich: EnrichFn)
    requires !p.done && |p.results| < Cap(maxResults)
    requires EnrichSucceeds(Tag(source, cs), enrich)
    ensures EnrichSucceeds(FirstOccurrences(Tag(source, cs), p.seen), enrich)
    ensures var r := OfferAll(p, source, cs, maxResults, enrich);
      var all := p.results + EnrichEach(FirstOccurrences(Tag(source, cs), p.seen), enrich);
      && r.Success?
      && r.value.results == Take(all, Cap(maxResults))
      && (r.value.done <==> |all| >= Cap(maxResults))
      && (!r.value.done ==> r.value.seen == p.seen + KeysOf(Tag(source, cs)))
    decreases |cs|
  {
    var fs := Tag(source, cs);
    if cs == [] {
      assert KeysOf(fs) == {};
    } else {
      assert fs[1..] == Tag(source, cs[1..]);
      EnrichSucceedsTail(fs, enrich);
      KeysOfCons(fs);
      if KeyOf(cs[0]) in p.seen {
        OfferAllReference(p, source, cs[1..], maxResults, enrich);
        assert p.seen + KeysOf(fs) == p.seen + KeysOf(fs[1..]);
      } else {
        OfferAllReferenceNew(p, source, cs, maxResults, enrich);
      }
    }
  }

  /** The step of OfferAllReference where the first candidate's key is new. */
  lemma {:induction false} OfferAllReferenceNew(p: Progress, source: string, cs: seq<CandidateData>,
                                                maxResults: int, enrich: EnrichFn)
    requires !p.done && |p.results| < Cap(maxResults)
    requires cs != [] && KeyOf(cs[0]) !in p.seen
    requires EnrichSucceeds(Tag(source, cs), enrich)
    ensures EnrichSucceeds(FirstOccurrences(Tag(source, cs), p.seen), enrich)
    ensures var r := OfferAll(p, source, cs, maxResults, enrich);
      var all := p.results + EnrichEach(FirstOccurrences(Tag(source, cs), p.seen), enrich);
      && r.Success?
      && r.value.results == Take(all, Cap(maxResults))
      && (r.value.done <==> |all| >= Cap(maxResults))
      && (!r.value.done ==> r.value.seen == p.seen + KeysOf(Tag(source, cs)))
    decreases |cs|, 0
  {
    var fs := Tag(source, cs);
    assert fs[1..] == Tag(source, cs[1..]);
    EnrichSucceedsTail(fs, enrich);
    KeysOfCons(fs);
    var key := KeyOf(cs[0]);
    var c := enrich(source, cs[0]).value;
    var results := p.results + [c];
    var rest := FirstOccurrences(fs[1..], p.seen + {key});
    assert FirstOccurrences(fs, p.seen) == [fs[0]] + rest;
    assert EnrichSucceeds(rest, enrich);
    assert EnrichEach([fs[0]] + rest, enrich) == [c] + EnrichEach(rest, enrich) by {
      assert ([fs[0]] + rest)[1..] == rest;
    }
    var all := p.results + EnrichEach(FirstOccurrences(fs, p.seen), enrich);
    assert all == results + EnrichEach(rest, enrich);
    if |results| >= maxResults {
      assert |results| == Cap(maxResults);
      assert all[..Cap(maxResults)] == results;
    } else {
      OfferAllReference(Accept(p, source, cs[0], c, maxResults), source, cs[1..], maxResults, enrich);
      assert p.seen + {key} + KeysOf(fs[1..]) == p.seen + KeysOf(fs);
    }
  }

  /** The candidates found split into the first source's and the rest's, and nothing fails in either part. */
  lemma NothingFailsTail(sources: seq<string>, query: string, search: SearchFn, enrich: EnrichFn)
    requires sources != [] && NothingFails(sources, query, search, enrich)
    ensures search(sources[0], query).Success? && sources[0] in Registry
    ensures AllFound(sources, query, search)
         == Tag(sources[0], search(sources[0], query).value) + AllFound(sources[1..], query, search)
    ensures EnrichSucceeds(Tag(sources[0], search(sources[0], query).value), enrich)
    ensures NothingFails(sources[1..], query, search, enrich)
  {
    var fs := AllFound(sources, query, search);
    assert sources[0] in sources;
    var tagged := Tag(sources[0], search(sources[0], query).value);
    var later := AllFound(sources[1..], query, search);
    assert fs == tagged + later;
    forall f | f in tagged ensures f in fs { }
    forall f | f in later ensures f in fs { }
    forall s | s in sources[1..] ensures s in sources { }
  }

  /**
   * The reference result over several sources splits into the first
   * source's new candidates and those of the remaining sources.
   */
  lemma SplitAtFirstSource(results: seq<CandidateData>, seen: set<Key>, sources: seq<string>, query: string, search: SearchFn, enrich: EnrichFn)
    requires sources != [] && NothingFails(sources, query, search, enrich)
    ensures var tagged := Tag(sources[0], search(sources[0], query).value);
      var head := FirstOccurrences(tagged, seen);
      var tail := FirstOccurrences(AllFound(sources[1..], query, search), seen + KeysOf(tagged));
      && EnrichSucceeds(head, enrich) && EnrichSucceeds(tail, enrich)
      && EnrichSucceeds(FirstOccurrences(AllFound(sources, query, search), seen), enrich)
      && results + EnrichEach(FirstOccurrences(AllFound(sources, query, search), seen), enrich)
         == (results + EnrichEach(head, enrich)) + EnrichEach(tail, enrich)
  {
    var tagged := Tag(sources[0], search(sources[0], query).value);
    var later := AllFound(sources[1..], query, search);
    NothingFailsTail(sources, query, search, enrich);
    FirstOccurrencesAppend(tagged, later, seen);
    var head := FirstOccurrences(tagged, seen);
    var tail := FirstOccurrences(later, seen + KeysOf(tagged));
    assert EnrichSucceeds(head, enrich);
    assert EnrichSucceeds(tail, enrich);
    EnrichEachAppend(head, tail, enrich);
    Text.AppendAssoc(results, EnrichEach(head, enrich), EnrichEach(tail, enrich));
  }

  /** One step of the outer loop when the first source is searched and its candidates offered without error. */
  lemma VisitStep(p: Progress, sources: seq<string>, query: string, maxResults: int, search: SearchFn, enrich: EnrichFn)
    requires !p.done && sources != [] && sources[0] in Registry && search(sources[0], query).Success?
    requires OfferAll(p, sources[0], search(sources[0], query).value, maxResults, enrich).Success?
    ensures Visit(p, sources, query, maxResults, search, enrich)
         == Visit(OfferAll(p, sources[0], search(sources[0], query).value, maxResults, enrich).value,
                  sources[1..], query, maxResults, search, enrich)
  {
  }

  lemma {:induction false} VisitReference(p: Progress, sources: seq<string>, query: string, maxResults: int,
                                          search: SearchFn, enrich: EnrichFn)
    requires !p.done && |p.results| < Cap(maxResults)
    requires NothingFails(sources, query, search, enrich)
    ensures EnrichSucceeds(FirstOccurrences(AllFound(sources, query, search), p.seen), enrich)
    ensures var r := Visit(p, sources, query, maxResults, search, enrich);
      var all := p.results + EnrichEach(FirstOccurrences(AllFound(sources, query, search), p.seen), enrich);
      r.Success? && r.value.results == Take(all, Cap(maxResults))
    decreases |sources|
  {
    if sources == [] {
      assert FirstOccurrences(AllFound(sources, query, search), p.seen) == [];
    } else {
      var source := sources[0];
      var cs := search(source, query).value;
      var tagged := Tag(source, cs);
      NothingFailsTail(sources, query, search, enrich);
      SplitAtFirstSource(p.results, p.seen, sources, query, search, enrich);
      var head := FirstOccurrences(tagged, p.seen);
      var tail := FirstOccurrences(AllFound(sources[1..], query, search), p.seen + KeysOf(tagged));
      OfferAllReference(p, source, cs, maxResults, enrich);
      var q := OfferAll(p, source, cs, maxResults, enrich).value;
      VisitStep(p, sources, query, maxResults, search, enrich);
      var mid := p.results + EnrichEach(head, enrich);
      var all := mid + EnrichEach(tail, enrich);
      assert p.results + EnrichEach(FirstOccurrences(AllFound(sources, query, search), p.seen), enrich) == all;
      if q.done {
        assert Visit(q, sources[1..], query, maxResults, search, enrich) == Success(q);
        assert Take(all, Cap(maxResults)) == Take(mid, Cap(maxResults));
      } else {
        VisitReference(q, sources[1..], query, maxResults, search, enrich);
        assert q.results == mid && q.seen == p.seen + KeysOf(tagged);
      }
    }
  }

  /**
   * When no source is unknown and nothing raises, `search_candidates`
   * returns the enriched first occurrence of every (source, work URL) pair,
   * in the order the sources and their candidates come, cut at `max_results`;
   * below the cap every key found appears exactly once.
   */
  lemma ResultWhenNothingFails(query: string, sources: seq<string>, maxResults: int, search: SearchFn, enrich: EnrichFn)
    requires NothingFails(sources, query, search, enrich)
    ensures EnrichSucceeds(FirstOccurrences(AllFound(sources, query, search), {}), enrich)
    ensures Outcome(query, sources, maxResults, search, enrich)
         == Success(Take(EnrichEach(FirstOccurrences(AllFound(sources, query, search), {}), enrich), Cap(maxResults)))
    ensures var firsts := FirstOccurrences(AllFound(sources, query, search), {});
      && KeysOf(firsts) == KeysOf(AllFound(sources, query, search))
      && forall i, j :: 0 <= i < j < |firsts| ==> KeyOf(firsts[i].1) != KeyOf(firsts[j].1)
  {
    FirstOccurrencesKeys(AllFound(sources, query, search), {});
    VisitReference(Start, sources, query, maxResults, search, enrich);
    assert [] + EnrichEach(FirstOccurrences(AllFound(sources, query, search), {}), enrich)
        == EnrichEach(FirstOccurrences(AllFound(sources, query, search), {}), enrich);
  }

  // ---------------------------------------------------------------------
  // Evaluating a candidate
  // ---------------------------------------------------------------------

  /** `evaluate_candidate`: the rights check on the candidate's publication year, death year and renewal status. */
  function EvaluateCandidate(c: CandidateData, jurisdiction: string): (r: RightsResult)
    ensures r.status == SAFE <==> SafeRow(Text.Upper(jurisdiction), c.publicationYear, c.lyricistDeathYear, c.renewalStatus)
    ensures r.status == NOT_SAFE <==> NotSafeRow(Text.Upper(jurisdiction), c.publicationYear, c.lyricistDeathYear)
  {
    DecisionTable(jurisdiction, c.publicationYear, c.lyricistDeathYear, c.renewalStatus);
    CheckLyricsRights(jurisdiction, c.publicationYear, c.lyricistDeathYear, c.renewalStatus)
  }

  /** Title, source, work URL, authors and evidence play no part in the verdict. */
  lemma EvaluationUsesOnlyRightsFields(c: CandidateData, d: CandidateData, jurisdiction: string)
    requires c.publicationYear == d.publicationYear && c.lyricistDeathYear == d.lyricistDeathYear
    requires c.renewalStatus == d.renewalStatus
    ensures EvaluateCandidate(c, jurisdiction) == EvaluateCandidate(d, jurisdiction)
  {
  }
}
