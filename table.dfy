/** The rows of the metadata database: the `dfs_entry` table (a tree of
    entries keyed by an INTEGER PRIMARY KEY), the single `dfs_token` record and
    the stored `dfs_version`, and the indexed queries the store runs on them. */
module Table {
  import opened Common

  /** `type` column values. */
  const DIR: int := 1
  const FILE: int := 2

  /** `sync` column values: created locally, taken from the remote, tombstoned. */
  const LOCAL: int := 0
  const REMOTE: int := 1
  const TOMBSTONED: int := -1

  /** Permission bits the store writes: 0700 and 0600. */
  const MODE_DIR: int := 0x1C0
  const MODE_FILE: int := 0x180

  /** A `struct timespec`; the store keeps it as an opaque value. */
  datatype Time = Time(sec: int, nsec: int)

  /** One `dfs_entry` row (without its id, which is the map key). The uuid
      and parent indexes are not unique, and nothing makes (parent, name)
      unique. */
  datatype Entry = Entry(
    uuid: Option<string>,
    name: string,
    kind: int,
    size: int,
    mode: int,
    atime: Time,
    mtime: Time,
    ctime: Time,
    sync: int,
    checksum: Option<string>,
    parent: Option<int>)

  /** The `dfs_token` record. */
  datatype Token = Token(tokenType: string, accessToken: string, refreshToken: string,
                         expiresIn: int32, ts: int32)

  /** The whole database: the entry rows, the largest rowid in use (SQLite
      gives a new row that plus one), the token record and the stored version. */
  datatype Db = Db(rows: map<int, Entry>, lastId: nat, token: Option<Token>, version: Option<int>)

  /** Rowids are positive, none exceeds lastId, and lastId is in use unless
      the table is empty: so the next rowid is fresh and is SQLite's max + 1. */
  ghost predicate WellFormed(db: Db) {
    && (forall id :: id in db.rows ==> 1 <= id <= db.lastId)
    && (db.lastId == 0 || db.lastId in db.rows)
  }

  /** The WHERE clauses the store's statements use. */
  datatype Query =
    | ByUuid(uuid: string)                      // uuid = ?
    | ByNameParent(name: string, parent: int)   // name = ? AND parent = ?
    | ByParent(parent: int)                     // parent = ?
    | Parentless                                // parent IS NULL

  /** SQL comparison with NULL is never true, so a NULL uuid or parent
      matches no `= ?` clause. */
  predicate Matches(e: Entry, q: Query) {
    match q
    case ByUuid(u) => e.uuid == Some(u)
    case ByNameParent(n, p) => e.name == n && e.parent == Some(p)
    case ByParent(p) => e.parent == Some(p)
    case Parentless => e.parent == None
  }

  /** The ids in [lo, hi] of the rows matching `q`, in ascending order. The
      statements have no ORDER BY; ascending id is the order this model
      chooses for the rows a SELECT yields. */
  function Select(rows: map<int, Entry>, q: Query, lo: int, hi: int): seq<int>
    decreases hi - lo
  {
    if lo > hi then []
    else (if lo in rows && Matches(rows[lo], q) then [lo] else []) + Select(rows, q, lo + 1, hi)
  }

  /** `r` holds exactly the ids in [lo, hi] of rows matching `q`, each once,
      in ascending order. */
  ghost predicate IsSelection(r: seq<int>, rows: map<int, Entry>, q: Query, lo: int, hi: int) {
    && (forall k :: 0 <= k < |r| ==> lo <= r[k] <= hi && r[k] in rows && Matches(rows[r[k]], q))
    && (forall id :: lo <= id <= hi && id in rows && Matches(rows[id], q) ==> id in r)
    && (forall a, b :: 0 <= a < b < |r| ==> r[a] < r[b])
  }

  /** Every id Select returns is a matching row in range. */
  lemma {:induction false} SelectSound(rows: map<int, Entry>, q: Query, lo: int, hi: int)
    ensures forall k :: 0 <= k < |Select(rows, q, lo, hi)| ==>
              var id := Select(rows, q, lo, hi)[k];
              lo <= id <= hi && id in rows && Matches(rows[id], q)
    decreases hi - lo
  {
    if lo <= hi {
      SelectSound(rows, q, lo + 1, hi);
    }
  }

  /** Select misses no matching row in range. */
  lemma {:induction false} SelectComplete(rows: map<int, Entry>, q: Query, lo: int, hi: int)
    ensures forall id :: lo <= id <= hi && id in rows && Matches(rows[id], q) ==> id in Select(rows, q, lo, hi)
    decreases hi - lo
  {
    if lo <= hi {
      SelectComplete(rows, q, lo + 1, hi);
    }
  }

  /** Select lists its ids in strictly ascending order. */
  lemma {:induction false} SelectAscending(rows: map<int, Entry>, q: Query, lo: int, hi: int)
    ensures forall a, b :: 0 <= a < b < |Select(rows, q, lo, hi)| ==>
              Select(rows, q, lo, hi)[a] < Select(rows, q, lo, hi)[b]
    decreases hi - lo
  {
    if lo <= hi {
      SelectAscending(rows, q, lo + 1, hi);
      SelectSound(rows, q, lo + 1, hi);
    }
  }

  /** Select computes exactly that selection. */
  lemma SelectSpec(rows: map<int, Entry>, q: Query, lo: int, hi: int)
    ensures IsSelection(Select(rows, q, lo, hi), rows, q, lo, hi)
  {
    SelectSound(rows, q, lo, hi);
    SelectComplete(rows, q, lo, hi);
    SelectAscending(rows, q, lo, hi);
  }

  /** The result of a query over the whole table. */
  function Rows(db: Db, q: Query): seq<int> {
    Select(db.rows, q, 1, db.lastId)
  }

  /** The row a single `sqlite3_step` returns in this model: the first, i.e.
      least, id. */
  function Lookup(db: Db, q: Query): (r: Option<int>)
    ensures r.Some? ==> r.value in db.rows && Matches(db.rows[r.value], q)
  {
    SelectSound(db.rows, q, 1, db.lastId);
    var r := Rows(db, q);
    if r == [] then None else Some(r[0])
  }

  /** A lookup finds a matching row exactly when one exists, and it finds
      the one with the least id. */
  lemma LookupSpec(db: Db, q: Query)
    requires WellFormed(db)
    ensures Lookup(db, q).Some? <==> exists id :: id in db.rows && Matches(db.rows[id], q)
    ensures Lookup(db, q).Some? ==>
              var id := Lookup(db, q).value;
              id in db.rows && Matches(db.rows[id], q) &&
              forall other :: other in db.rows && Matches(db.rows[other], q) ==> id <= other
  {
    var r := Rows(db, q);
    SelectSpec(db.rows, q, 1, db.lastId);
    if exists id :: id in db.rows && Matches(db.rows[id], q) {
      var id :| id in db.rows && Matches(db.rows[id], q);
      assert id in r;
    }
    if r != [] {
      forall other | other in db.rows && Matches(db.rows[other], q)
        ensures r[0] <= other
      {
        assert other in r;
        var k :| 0 <= k < |r| && r[k] == other;
        assert k == 0 || r[0] < r[k];
      }
    }
  }

  /** The next rowid SQLite hands out. */
  function NextId(db: Db): int { db.lastId + 1 }

  /** INSERT of a row: it gets the next rowid. */
  function Insert(db: Db, e: Entry): Db {
    db.(rows := db.rows[NextId(db) := e], lastId := NextId(db))
  }

  /** An insert adds exactly one row, under a fresh id greater than every
      id in use, and keeps the table well formed. */
  lemma InsertAddsOne(db: Db, e: Entry)
    requires WellFormed(db)
    ensures var db' := Insert(db, e);
      && WellFormed(db')
      && NextId(db) !in db.rows
      && (forall id :: id in db.rows ==> id < NextId(db))
      && db'.rows == db.rows[NextId(db) := e]
      && |db'.rows| == |db.rows| + 1
      && db'.token == db.token && db'.version == db.version
  {
    assert NextId(db) !in db.rows;
  }

  /** Appending a row at the next id adds it at the end of every query result
      it matches, and leaves the results before it alone. */
  lemma {:induction false} SelectExtend(rows: map<int, Entry>, q: Query, lo: int, hi: int, e: Entry)
    requires lo <= hi + 1
    requires forall id :: id in rows ==> id <= hi
    ensures Select(rows[hi + 1 := e], q, lo, hi + 1)
         == Select(rows, q, lo, hi) + (if Matches(e, q) then [hi + 1] else [])
    decreases hi - lo
  {
    var rows' := rows[hi + 1 := e];
    if lo == hi + 1 {
      assert lo !in rows;
    } else {
      SelectExtend(rows, q, lo + 1, hi, e);
      assert lo in rows' <==> lo in rows;
      assert lo in rows ==> rows'[lo] == rows[lo];
    }
  }

  /** A query's result depends only on the rows matching it. */
  lemma {:induction false} SelectSameMatches(rows: map<int, Entry>, rows': map<int, Entry>, q: Query, lo: int, hi: int)
    requires forall id :: lo <= id <= hi ==>
               ((id in rows && Matches(rows[id], q)) <==> (id in rows' && Matches(rows'[id], q)))
    ensures Select(rows, q, lo, hi) == Select(rows', q, lo, hi)
    decreases hi - lo
  {
    if lo <= hi {
      SelectSameMatches(rows, rows', q, lo + 1, hi);
    }
  }
}
