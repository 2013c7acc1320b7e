/** The table-metadata cache: a table's column names are kept for an hour.
    The clock (`Date.now()`, in milliseconds) and the database query are
    parameters; the query's `None` is a thrown error. */
module MetadataCache {
  import opened Wrappers

  /** One hour, in milliseconds. */
  const Ttl: int := 1000 * 60 * 60

  datatype Entry = Entry(timestamp: int, columns: seq<string>)

  type Cache = map<string, Entry>

  /** The columns of a table as the database reports them, or `None` when
      the query throws. */
  type Query = string -> Option<seq<string>>

  /** The entry for `table` is young enough to be used at time `now`. */
  predicate Fresh(cache: Cache, table: string, now: int) {
    table in cache && now - cache[table].timestamp < Ttl
  }

  /** `getTableColumns`: the result and the cache afterwards. A fresh entry
      answers without a query; otherwise the query's answer, even an empty
      one, is stored with the time of the call, and a failed query yields
      no columns and leaves the cache as it was. */
  function GetTableColumns(cache: Cache, table: string, now: int, query: Query): (r: (seq<string>, Cache))
    ensures Fresh(cache, table, now) ==> r == (cache[table].columns, cache)
    ensures !Fresh(cache, table, now) && query(table).Some? ==>
      r == (query(table).value, cache[table := Entry(now, query(table).value)])
    ensures !Fresh(cache, table, now) && query(table).None? ==> r == ([], cache)
  {
    if table in cache && now - cache[table].timestamp < Ttl then (cache[table].columns, cache)
    else
      match query(table)
      case Some(columns) => (columns, cache[table := Entry(now, columns)])
      case None => ([], cache)
  }

  /** `tableExists`: the table has at least one column. */
  function TableExists(cache: Cache, table: string, now: int, query: Query): (r: (bool, Cache))
    ensures r.0 <==> |GetTableColumns(cache, table, now, query).0| > 0
    ensures r.1 == GetTableColumns(cache, table, now, query).1
  {
    var (columns, cache') := GetTableColumns(cache, table, now, query);
    (|columns| > 0, cache')
  }

  /** `clearMetadataCache`. */
  function Clear(cache: Cache): (r: Cache)
    ensures forall table :: table !in r
  {
    map[]
  }

  /** While an entry is fresh, what the database would say makes no
      difference: the call does not query. */
  lemma HitIgnoresQuery(cache: Cache, table: string, now: int, q1: Query, q2: Query)
    requires Fresh(cache, table, now)
    ensures GetTableColumns(cache, table, now, q1) == GetTableColumns(cache, table, now, q2)
  {
  }

  /** Columns fetched at time `t` are served from the cache for the next
      hour and fetched again after it. Only `table`'s entry changes. */
  lemma FetchedThenCached(cache: Cache, table: string, t: int, later: int, q1: Query, q2: Query)
    requires !Fresh(cache, table, t) && q1(table).Some?
    requires t <= later
    ensures var (columns, cache') := GetTableColumns(cache, table, t, q1);
      && (later < t + Ttl ==> GetTableColumns(cache', table, later, q2) == (columns, cache'))
      && (later >= t + Ttl ==> GetTableColumns(cache', table, later, q2).0 == q2(table).GetOr([]))
      && (forall other :: other != table ==>
            (other in cache' <==> other in cache) && (other in cache ==> cache'[other] == cache[other]))
  {
  }

  /** A failed query is not remembered: the next call queries again. */
  lemma FailureNotCached(cache: Cache, table: string, t: int, later: int, q1: Query, q2: Query)
    requires !Fresh(cache, table, t) && q1(table).None?
    requires t <= later
    ensures var (_, cache') := GetTableColumns(cache, table, t, q1);
      GetTableColumns(cache', table, later, q2).0 == q2(table).GetOr([])
  {
  }

  /** After clearing, every table is looked up in the database again. */
  lemma ClearedQueriesAgain(cache: Cache, table: string, now: int, query: Query)
    ensures GetTableColumns(Clear(cache), table, now, query).0 == query(table).GetOr([])
  {
  }
}
