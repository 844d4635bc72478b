/**
 * The on-disk HTTP cache: a table from URL to (fetched_at, body) with a
 * time-to-live. The sqlite table is a map, the clock reading `now` is a
 * parameter and the network (`requests.get` + `raise_for_status`) is a
 * function from URL to a body or a fetch error.
 */
module Cache {
  import opened Wrappers

  /** The errors `requests` raises, as the URL evaluator tells them apart. */
  datatype FetchError =
    | Timeout
    | HttpError(statusCode: Option<int>)
    | RequestError(message: string)

  /** One row of the `http_cache` table. */
  datatype Entry = Entry(fetchedAt: int, body: string)

  type Network = string -> Result<string, FetchError>

  const DefaultCacheDb: string := ".cache/safe_lyrics_checker.sqlite"

  /** Seven days, in seconds. */
  const DefaultTtlSeconds: int := 7 * 24 * 60 * 60

  /** A stored row may be served at time `now`: its age is at most the TTL (an age of exactly the TTL still counts). */
  predicate IsFresh(rows: map<string, Entry>, url: string, now: int, ttl: int) {
    url in rows && now - rows[url].fetchedAt <= ttl
  }

  /** What `get_text` answers: the body of a fresh row, otherwise whatever the network answers. */
  function Served(rows: map<string, Entry>, url: string, now: int, ttl: int, network: Network): Result<string, FetchError> {
    if IsFresh(rows, url, now, ttl) then Success(rows[url].body) else network(url)
  }

  /** The table after `get_text`: a body fetched from the network is stored stamped with `now`; nothing else changes. */
  function RowsAfter(rows: map<string, Entry>, url: string, now: int, ttl: int, network: Network): map<string, Entry> {
    if !IsFresh(rows, url, now, ttl) && network(url).Success? then rows[url := Entry(now, network(url).value)] else rows
  }

  /**
   * A served body is what the table holds for the URL afterwards, and a
   * second read at the same time, with the default one-week TTL or any
   * other non-negative one, serves it again without the network. Other
   * rows are never touched, and a failure leaves the table as it was.
   */
  lemma ServedIsStored(rows: map<string, Entry>, url: string, now: int, ttl: int, network: Network, network2: Network)
    requires ttl >= 0
    ensures var after := RowsAfter(rows, url, now, ttl, network);
      && (Served(rows, url, now, ttl, network).Success? ==>
            && url in after && after[url].body == Served(rows, url, now, ttl, network).value
            && IsFresh(after, url, now, ttl)
            && Served(after, url, now, ttl, network2) == Served(rows, url, now, ttl, network))
      && (Served(rows, url, now, ttl, network).Failure? ==> after == rows && !IsFresh(rows, url, now, ttl))
      && (forall u :: u != url ==> (u in after <==> u in rows) && (u in after ==> after[u] == rows[u]))
  {
  }

  /** With the default TTL a stored row is served for exactly one week (604800 seconds) after it was fetched. */
  lemma DefaultTtlServesOneWeek(rows: map<string, Entry>, url: string, body: string, now: int, later: int)
    requires now <= later
    ensures IsFresh(rows[url := Entry(now, body)], url, later, DefaultTtlSeconds) <==> later <= now + 604800
  {
    StoredBodyIsServedUntilExpiry(rows, url, body, now, later, DefaultTtlSeconds);
  }

  class HttpCache {
    const dbPath: string
    const ttlSeconds: int
    /** The rows of the `http_cache` table, keyed by the `url` primary key. */
    var rows: map<string, Entry>

    /** Opens the cache; `rows` is what the table already holds (CREATE TABLE IF NOT EXISTS keeps it). */
    constructor (dbPath: string := DefaultCacheDb, ttlSeconds: int := DefaultTtlSeconds,
                 rows: map<string, Entry> := map[])
      ensures this.dbPath == dbPath && this.ttlSeconds == ttlSeconds && this.rows == rows
    {
      this.dbPath := dbPath;
      this.ttlSeconds := ttlSeconds;
      this.rows := rows;
    }

    /**
     * `get_text`: serve a fresh row without touching the network; otherwise
     * fetch, and on success INSERT OR REPLACE the row stamped with `now`.
     * A failed fetch raises and leaves the table as it was. `fetched` records
     * whether the network was used.
     */
    method GetText(url: string, now: int, network: Network) returns (r: Result<string, FetchError>, ghost fetched: bool)
      modifies this
      ensures fetched <==> !IsFresh(old(rows), url, now, ttlSeconds)
      ensures !fetched ==> r == Success(old(rows)[url].body) && rows == old(rows)
      ensures fetched && network(url).Failure? ==> r == network(url) && rows == old(rows)
      ensures fetched && network(url).Success? ==>
                r == network(url) && rows == old(rows)[url := Entry(now, network(url).value)]
      ensures forall u :: u != url ==> (u in rows <==> u in old(rows)) && (u in rows ==> rows[u] == old(rows)[u])
      ensures r.Success? ==> url in rows && rows[url].body == r.value
      ensures r == Served(old(rows), url, now, ttlSeconds, network)
      ensures rows == RowsAfter(old(rows), url, now, ttlSeconds, network)
    {
      if url in rows {
        var entry := rows[url];
        if now - entry.fetchedAt <= ttlSeconds {
          return Success(entry.body), false;
        }
      }
      fetched := true;
      var response := network(url);
      if response.Failure? {
        return response, fetched;
      }
      var body := response.value;
      rows := rows[url := Entry(now, body)];
      r := Success(body);
    }
  }

  /**
   * Once a body has been stored at `now`, a read of the same URL at any time
   * up to `now + ttl` is served from the table (no second network call), and
   * at no later time.
   */
  lemma StoredBodyIsServedUntilExpiry(rows: map<string, Entry>, url: string, body: string, now: int, later: int, ttl: int)
    requires now <= later
    ensures IsFresh(rows[url := Entry(now, body)], url, later, ttl) <==> later <= now + ttl
  {
  }

  /** The test's scenario: two reads of one URL in a row use the network once and return the same body. */
  method ReadTwice(cache: HttpCache, url: string, now: int, network: Network)
    returns (first: Result<string, FetchError>, second: Result<string, FetchError>,
             ghost fetchedFirst: bool, ghost fetchedSecond: bool)
    requires cache.ttlSeconds >= 0
    modifies cache
    ensures first.Success? ==> second == first && !fetchedSecond
  {
    first, fetchedFirst := cache.GetText(url, now, network);
    second, fetchedSecond := cache.GetText(url, now, network);
  }
}
