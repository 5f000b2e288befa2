/** What each state-changing operation of the metadata store (src/dbcache.c)
    does to the database, as a function from the old database to the return
    code and the new database. The class in module DbCache runs these
    operations in place; module DbProps proves what they promise. */
module DbSpec {
  import opened Common
  import opened Table
  import opened Paths
  import Version

  /* ---------------- dbcache_setup_schema ---------------- */

  /** Setup either completes or ends the process with `exit(1)`. */
  datatype SetupResult = SetupOk | SetupAbort

  /** The root row: name "/", a directory of size 0, mode 0700, created
      locally, no uuid, no checksum, no parent, all three times the current
      second (`strftime('%s', 'now')`). */
  function RootEntry(nowSec: int): Entry {
    Entry(None, "/", DIR, 0, MODE_DIR, Time(nowSec, 0), Time(nowSec, 0), Time(nowSec, 0),
          LOCAL, None, None)
  }

  /** The placeholder token record. */
  const PLACEHOLDER: Token := Token("(invalid)", "(invalid)", "(invalid)", 0, 0)

  /** Version check, then the root row and the token row when missing.
      `versionReadFails`: the version SELECT reports an error. */
  function Setup(db: Db, nowSec: int, versionReadFails: bool): (SetupResult, Db) {
    var sv := Version.SchemaVersion();
    if versionReadFails || (db.version.Some? && db.version.value != sv) then (SetupAbort, db)
    else
      var withVersion := db.(version := Some(sv));
      var withRoot :=
        if Lookup(withVersion, Parentless).None? then Insert(withVersion, RootEntry(nowSec))
        else withVersion;
      var withToken :=
        if withRoot.token.None? then withRoot.(token := Some(PLACEHOLDER)) else withRoot;
      (SetupOk, withToken)
  }

  /* ---------------- dbcache_auth_store / dbcache_auth_load ---------------- */

  /** UPDATE of every token row (there is at most one); `expiration` is
      narrowed to `int`. An UPDATE that matches no row still succeeds. */
  function AuthStore(db: Db, tokenType: string, accessToken: string, refreshToken: string,
                     expiresIn: int32, expiration: int64, writeFails: bool): (int, Db)
  {
    if writeFails then (-1, db)
    else if db.token.None? then (0, db)
    else (0, db.(token := Some(Token(tokenType, accessToken, refreshToken, expiresIn, ToInt32(expiration)))))
  }

  /** What `dbcache_auth_load` writes to its out-parameters. */
  datatype Credentials = Credentials(tokenType: string, accessToken: string, refreshToken: string,
                                     expiresIn: int32, expirationTime: int64)

  /** The token record copied into caller buffers of the given lengths.
      `readFails` says the SELECT step reports an error rather than a row;
      like a missing row, that gives -1 with nothing copied. */
  function AuthLoad(db: Db, ttlen: nat, atlen: nat, rtlen: nat, readFails: bool): (int, Option<Credentials>) {
    if readFails then (-1, None)
    else match db.token
    case None => (-1, None)
    case Some(t) =>
      (0, Some(Credentials(StrNCopy(t.tokenType, ttlen), StrNCopy(t.accessToken, atlen),
                           StrNCopy(t.refreshToken, rtlen), t.expiresIn, t.ts as int64)))
  }

  /* ---------------- dbcache_update ---------------- */

  /** Statement failures `dbcache_update` reacts to: the uuid SELECT reports an
      error (rather than a row or the end), or the final UPDATE/INSERT fails.
      A failing parent SELECT behaves as a parent that is not found. */
  datatype UpdateFaults = UpdateFaults(uuidSelectFails: bool, writeFails: bool)

  /** The row inserted for a remote object seen for the first time: type and
      mode from `isDir`, atime equal to mtime, marked as from the remote. */
  function RemoteEntry(uuid: string, name: string, isDir: bool, size: int, mtime: Time, ctime: Time,
                       cksum: Option<string>, parentId: int): Entry
  {
    Entry(Some(uuid), name, if isDir then DIR else FILE, size, if isDir then MODE_DIR else MODE_FILE,
          mtime, mtime, ctime, REMOTE, cksum, Some(parentId))
  }

  /** Insert-or-relink by remote uuid; an empty parent uuid means the object
      is the remote root, which is attached to row 1. */
  function Update(db: Db, uuid: string, name: string, isDir: bool, size: int, mtime: Time, ctime: Time,
                  cksum: Option<string>, parent: string, f: UpdateFaults): (int, Db)
  {
    if parent != "" then
      if f.uuidSelectFails then (-1, db)
      else
        var self := Lookup(db, ByUuid(uuid));
        var parentId := Lookup(db, ByUuid(parent));
        if parentId.None? || f.writeFails then (-1, db)
        else if self.Some? then
          var e := db.rows[self.value];
          (0, db.(rows := db.rows[self.value := e.(uuid := Some(uuid), parent := Some(parentId.value))]))
        else
          (0, Insert(db, RemoteEntry(uuid, name, isDir, size, mtime, ctime, cksum, parentId.value)))
    else if f.writeFails then (-1, db)
    else if 1 in db.rows then (0, db.(rows := db.rows[1 := db.rows[1].(uuid := Some(uuid), parent := None)]))
    else (0, db)
  }

  /* ---------------- dbcache_mkdir / dbcache_rmdir on "/name" ---------------- */

  /** The row `dbcache_mkdir` inserts: a local directory under row 1, size 0,
      no uuid or checksum, all three times the current clock reading. */
  function LocalDirEntry(name: string, mode: int, now: Time): Entry {
    Entry(None, name, DIR, 0, mode, now, now, now, LOCAL, None, Some(1))
  }

  /** Return code, new database, and the id handed to the callback.
      `cb` gives the callback's return code for the id it receives. */
  function Mkdir(db: Db, cpath: string, mode: int, now: Time, insertFails: bool, cb: int -> int)
    : (int, Db, Option<int>)
    requires OneComponent(cpath)
  {
    if insertFails then (-EIO, db, None)
    else
      var id := NextId(db);
      (cb(id), Insert(db, LocalDirEntry(Name(cpath), mode, now)), Some(id))
  }

  /** Tombstoning removal of a child of the root. */
  function Rmdir(db: Db, cpath: string, cb: int -> int, writeFails: bool): (int, Db)
    requires OneComponent(cpath)
  {
    match Lookup(db, ByNameParent(Name(cpath), 1))
    case None => (-ENOENT, db)
    case Some(id) =>
      if db.rows[id].kind != DIR then (-ENOTDIR, db)
      else if cb(id) != 0 then (cb(id), db)
      else if writeFails then (-EIO, db)
      else (0, db.(rows := db.rows[id := db.rows[id].(sync := TOMBSTONED)]))
  }

  /* ---------------- dbcache_findbypath ---------------- */

  /** "/" is looked up by id 1, "/name" by its name under row 1. Return code
      and the id handed to the callback. */
  function FindByPath(db: Db, cpath: string, cb: int -> int): (int, Option<int>)
    requires OneComponent(cpath)
  {
    if cpath == "/" then
      if 1 in db.rows then (cb(1), Some(1)) else (-ENOENT, None)
    else
      match Lookup(db, ByNameParent(Name(cpath), 1))
      case None => (-ENOENT, None)
      case Some(id) => (cb(id), Some(id))
  }
}
