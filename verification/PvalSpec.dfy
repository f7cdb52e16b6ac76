/** The write-back cache of persistent values over a database table, as values. */
module PvalSpec {
  import opened Options
  import opened PvalKey

  const MAX_KEY_LENGTH: nat := 64

  datatype Entry = Entry(value: string, needsSave: bool, needsDelete: bool)

  datatype Store = Store(cache: map<string, Entry>, table: map<Row, string>)

  /** A REPLACE or DELETE sent to the database. */
  datatype Query = Replace(row: Row, value: string) | Delete(row: Row)

  function FullKey(r: Row): string {
    MakeFullKey(r.ownerType, r.ownerId, r.key)
  }

  /** substr(0, MAX_KEY_LENGTH). */
  function Truncated(r: Row): Row {
    if |r.key| <= MAX_KEY_LENGTH then r else r.(key := r.key[..MAX_KEY_LENGTH])
  }

  function Apply(table: map<Row, string>, q: Query, ok: bool): map<Row, string> {
    if !ok then table
    else match q
         case Replace(row, value) => table[row := value]
         case Delete(row) => table - {row}
  }

  /** The row a cached key is parsed into at flush time. */
  function Parsed(fullKey: string): Row {
    match Split(fullKey)
    case Some(row) => row
    case None => Row("", "", "")
  }

  // ----- The operations -----

  function Get(s: Store, r: Row): string {
    var k := FullKey(r);
    if k in s.cache && !s.cache[k].needsDelete then s.cache[k].value else ""
  }

  function WithPval(s: Store, r: Row, value: string, instant: bool, ok: bool): Store {
    if instant && !ok then s
    else Store(s.cache[FullKey(r) := Entry(value, !instant, false)],
               if instant then s.table[Truncated(r) := value] else s.table)
  }

  function WithoutPval(s: Store, r: Row, instant: bool, ok: bool): Store {
    var k := FullKey(r);
    if k !in s.cache then s
    else if instant then Store(s.cache - {k}, Apply(s.table, Delete(Truncated(r)), ok))
    else s.(cache := s.cache[k := s.cache[k].(needsDelete := true)])
  }

  /** The query a cached entry makes a flush send, if any. */
  function QueryFor(k: string, e: Entry): Option<Query> {
    if e.needsDelete then Some(Delete(Parsed(k)))
    else if e.needsSave then Some(Replace(Truncated(Parsed(k)), e.value))
    else None
  }

  /** One turn of saveDirtyPvals' loop. */
  function FlushEntry(s: Store, k: string, ok: bool): Store {
    if k !in s.cache then s
    else match QueryFor(k, s.cache[k])
         case None => s
         case Some(q) =>
           Store(if s.cache[k].needsDelete then s.cache - {k} else s.cache[k := s.cache[k].(needsSave := false)],
                 Apply(s.table, q, ok))
  }

  /** saveDirtyPvals, visiting the cache in the order of the hash table; the queries for the
      keys in `failing` fail. */
  function Flush(s: Store, order: seq<string>, failing: set<string>): Store
    decreases |order|
  {
    if order == [] then s else Flush(FlushEntry(s, order[0], order[0] !in failing), order[1..], failing)
  }

  function FlushQueries(s: Store, order: seq<string>): seq<Query>
    decreases |order|
  {
    if order == [] then []
    else (if order[0] in s.cache && QueryFor(order[0], s.cache[order[0]]).Some?
          then [QueryFor(order[0], s.cache[order[0]]).value] else [])
         + FlushQueries(s, order[1..])
  }
}
