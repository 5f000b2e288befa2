/** Properties of the metadata store's operations, proved about the
    specification functions of module DbSpec. */
module DbProps {
  import opened Common
  import opened Table
  import opened Paths
  import opened DbSpec
  import Version

  ghost predicate NoRowWithUuid(db: Db, u: string) {
    forall id :: id in db.rows ==> db.rows[id].uuid != Some(u)
  }

  /** `id` is the row an indexed lookup of uuid `u` returns: the least id
      carrying that uuid. */
  ghost predicate IsLeastWithUuid(db: Db, u: string, id: int) {
    && id in db.rows && db.rows[id].uuid == Some(u)
    && forall other :: other in db.rows && db.rows[other].uuid == Some(u) ==> id <= other
  }

  /** `id` is the row a (name, parent = root) lookup returns. */
  ghost predicate IsLeastRootChild(db: Db, name: string, id: int) {
    && id in db.rows && db.rows[id].name == name && db.rows[id].parent == Some(1)
    && forall other :: other in db.rows && db.rows[other].name == name && db.rows[other].parent == Some(1) ==> id <= other
  }

  ghost predicate NoRootChild(db: Db, name: string) {
    forall id :: id in db.rows ==> !(db.rows[id].name == name && db.rows[id].parent == Some(1))
  }

  /** Lookup by uuid in terms of the rows. */
  lemma LookupUuid(db: Db, u: string)
    requires WellFormed(db)
    ensures Lookup(db, ByUuid(u)).None? <==> NoRowWithUuid(db, u)
    ensures Lookup(db, ByUuid(u)).Some? ==> IsLeastWithUuid(db, u, Lookup(db, ByUuid(u)).value)
  {
    LookupSpec(db, ByUuid(u));
  }

  /** Lookup by (name, root) in terms of the rows. */
  lemma LookupRootChild(db: Db, name: string)
    requires WellFormed(db)
    ensures Lookup(db, ByNameParent(name, 1)).None? <==> NoRootChild(db, name)
    ensures Lookup(db, ByNameParent(name, 1)).Some? ==>
              IsLeastRootChild(db, name, Lookup(db, ByNameParent(name, 1)).value)
  {
    LookupSpec(db, ByNameParent(name, 1));
  }

  /* ---------------- dbcache_update ---------------- */

  /** An unknown uuid under a known parent: exactly one row is added, with
      the given uuid, name, size and checksum, type and mode from `isDir`,
      atime equal to mtime, marked as from the remote, under the parent's row. */
  lemma UpdateInsertsUnknown(db: Db, uuid: string, name: string, isDir: bool, size: int, mtime: Time,
                             ctime: Time, cksum: Option<string>, parent: string, parentId: int)
    requires WellFormed(db)
    requires parent != ""
    requires NoRowWithUuid(db, uuid)
    requires IsLeastWithUuid(db, parent, parentId)
    ensures var r := Update(db, uuid, name, isDir, size, mtime, ctime, cksum, parent, UpdateFaults(false, false));
      var id := NextId(db);
      && r.0 == 0
      && WellFormed(r.1) && r.1.token == db.token && r.1.version == db.version
      && id !in db.rows
      && r.1.rows.Keys == db.rows.Keys + {id}
      && (forall other :: other in db.rows ==> r.1.rows[other] == db.rows[other])
      && var e := r.1.rows[id];
      && e.uuid == Some(uuid) && e.name == name && e.size == size && e.checksum == cksum
      && e.kind == (if isDir then DIR else FILE) && e.mode == (if isDir then MODE_DIR else MODE_FILE)
      && e.atime == mtime && e.mtime == mtime && e.ctime == ctime
      && e.sync == REMOTE && e.parent == Some(parentId)
  {
    LookupUuid(db, uuid);
    LookupUuid(db, parent);
    InsertAddsOne(db, RemoteEntry(uuid, name, isDir, size, mtime, ctime, cksum, parentId));
  }

  /** A known uuid under a known parent: no row is added, and the row found
      by the uuid gets the parent's id; every other column and row is kept. */
  lemma UpdateRelinksKnown(db: Db, uuid: string, name: string, isDir: bool, size: int, mtime: Time,
                           ctime: Time, cksum: Option<string>, parent: string, id: int, parentId: int)
    requires WellFormed(db)
    requires parent != ""
    requires IsLeastWithUuid(db, uuid, id)
    requires IsLeastWithUuid(db, parent, parentId)
    ensures var r := Update(db, uuid, name, isDir, size, mtime, ctime, cksum, parent, UpdateFaults(false, false));
      && r.0 == 0
      && WellFormed(r.1) && r.1.lastId == db.lastId && r.1.token == db.token && r.1.version == db.version
      && r.1.rows.Keys == db.rows.Keys
      && (forall other :: other in db.rows && other != id ==> r.1.rows[other] == db.rows[other])
      && r.1.rows[id] == db.rows[id].(parent := Some(parentId))
  {
    LookupUuid(db, uuid);
    LookupUuid(db, parent);
  }

  /** A failed lookup or write, or a parent uuid that no row carries, makes
      the call return -1 and change nothing. */
  lemma UpdateFailsUnchanged(db: Db, uuid: string, name: string, isDir: bool, size: int, mtime: Time,
                             ctime: Time, cksum: Option<string>, parent: string, f: UpdateFaults)
    requires WellFormed(db)
    requires parent != ""
    requires f.uuidSelectFails || f.writeFails || NoRowWithUuid(db, parent)
    ensures Update(db, uuid, name, isDir, size, mtime, ctime, cksum, parent, f) == (-1, db)
  {
    LookupUuid(db, parent);
  }

  /** An empty parent uuid: row 1 takes the uuid and loses its parent, and
      nothing else changes. */
  lemma UpdateRoot(db: Db, uuid: string, name: string, isDir: bool, size: int, mtime: Time,
                   ctime: Time, cksum: Option<string>, f: UpdateFaults)
    requires WellFormed(db)
    ensures var r := Update(db, uuid, name, isDir, size, mtime, ctime, cksum, "", f);
      && (r.0 == 0 <==> !f.writeFails)
      && (r.0 != 0 ==> r.0 == -1 && r.1 == db)
      && WellFormed(r.1) && r.1.lastId == db.lastId && r.1.token == db.token && r.1.version == db.version
      && r.1.rows.Keys == db.rows.Keys
      && (forall other :: other in db.rows && other != 1 ==> r.1.rows[other] == db.rows[other])
      && (r.0 == 0 && 1 in db.rows ==> r.1.rows[1] == db.rows[1].(uuid := Some(uuid), parent := None))
  {
  }

  /** Every outcome keeps the table well formed. */
  lemma UpdateKeepsWellFormed(db: Db, uuid: string, name: string, isDir: bool, size: int, mtime: Time,
                              ctime: Time, cksum: Option<string>, parent: string, f: UpdateFaults)
    requires WellFormed(db)
    ensures WellFormed(Update(db, uuid, name, isDir, size, mtime, ctime, cksum, parent, f).1)
  {
    var parentId := Lookup(db, ByUuid(parent));
    if parentId.Some? {
      InsertAddsOne(db, RemoteEntry(uuid, name, isDir, size, mtime, ctime, cksum, parentId.value));
    }
  }

  /** Applying the same update again changes nothing: after a successful call
      (or a call without statement failures) a repeat, whatever its statement
      failures, leaves the table as the first call left it. */
  lemma UpdateIdempotent(db: Db, uuid: string, name: string, isDir: bool, size: int, mtime: Time,
                         ctime: Time, cksum: Option<string>, parent: string, f1: UpdateFaults, f2: UpdateFaults)
    requires WellFormed(db)
    requires Update(db, uuid, name, isDir, size, mtime, ctime, cksum, parent, f1).0 == 0
             || f1 == UpdateFaults(false, false)
    ensures var once := Update(db, uuid, name, isDir, size, mtime, ctime, cksum, parent, f1).1;
            Update(once, uuid, name, isDir, size, mtime, ctime, cksum, parent, f2).1 == once
  {
    var once := Update(db, uuid, name, isDir, size, mtime, ctime, cksum, parent, f1).1;
    if parent != "" && !f1.uuidSelectFails {
      var self := Lookup(db, ByUuid(uuid));
      var parentId := Lookup(db, ByUuid(parent));
      if parentId.Some? && !f1.writeFails {
        if self.Some? {
          // The relink keeps every uuid, so every uuid lookup is unchanged.
          forall u ensures Rows(once, ByUuid(u)) == Rows(db, ByUuid(u)) {
            SelectSameMatches(db.rows, once.rows, ByUuid(u), 1, db.lastId);
          }
        } else {
          var e := RemoteEntry(uuid, name, isDir, size, mtime, ctime, cksum, parentId.value);
          // The new row comes last in every uuid lookup.
          SelectExtend(db.rows, ByUuid(uuid), 1, db.lastId, e);
          SelectExtend(db.rows, ByUuid(parent), 1, db.lastId, e);
          assert Rows(once, ByUuid(uuid)) == [NextId(db)];
          assert Rows(once, ByUuid(parent))[0] == parentId.value;
        }
      }
    }
  }

  /* ---------------- dbcache_setup_schema ---------------- */

  /** A stored version other than this build's ends the process and leaves
      the database alone; so does an error reading the version. */
  lemma SetupAbortsOnMismatch(db: Db, nowSec: int, versionReadFails: bool)
    requires versionReadFails || (db.version.Some? && db.version.value != Version.SchemaVersion())
    ensures Setup(db, nowSec, versionReadFails) == (SetupAbort, db)
  {
  }

  /** A completed setup stores this build's version, has a parentless row
      and a token row, adds the root row only when no parentless row
      existed and the placeholder token only when no token existed. */
  lemma SetupEnsures(db: Db, nowSec: int)
    requires WellFormed(db)
    requires db.version.None? || db.version == Some(Version.SchemaVersion())
    ensures var r := Setup(db, nowSec, false);
      && r.0 == SetupOk
      && WellFormed(r.1)
      && r.1.version == Some(Version.SchemaVersion())
      && (exists id :: id in r.1.rows && r.1.rows[id].parent == None)
      && (r.1.token == if db.token.None? then Some(PLACEHOLDER) else db.token)
      && ((exists id :: id in db.rows && db.rows[id].parent == None) ==> r.1.rows == db.rows)
      && ((forall id :: id in db.rows ==> db.rows[id].parent != None) ==>
            r.1.rows == db.rows[NextId(db) := RootEntry(nowSec)] && NextId(db) !in db.rows)
  {
    var withVersion := db.(version := Some(Version.SchemaVersion()));
    LookupSpec(withVersion, Parentless);
    InsertAddsOne(withVersion, RootEntry(nowSec));
    if Lookup(withVersion, Parentless).None? {
      var root := NextId(db);
      assert Setup(db, nowSec, false).1.rows[root] == RootEntry(nowSec);
    }
  }

  /** On a new, empty database the root row gets id 1. */
  lemma SetupFreshDatabase(nowSec: int)
    ensures Setup(Db(map[], 0, None, None), nowSec, false)
         == (SetupOk, Db(map[1 := RootEntry(nowSec)], 1, Some(PLACEHOLDER), Some(0)))
  {
    Version.SchemaVersionIsZero();
    var db := Db(map[], 0, None, None).(version := Some(0));
    assert Rows(db, Parentless) == [];
  }

  /** Running setup a second time adds nothing. */
  lemma SetupIdempotent(db: Db, nowSec: int, nowSec2: int)
    requires WellFormed(db)
    requires Setup(db, nowSec, false).0 == SetupOk
    ensures var once := Setup(db, nowSec, false).1;
            Setup(once, nowSec2, false) == (SetupOk, once)
  {
    var once := Setup(db, nowSec, false).1;
    SetupEnsures(db, nowSec);
    LookupSpec(once, Parentless);
  }

  /* ---------------- dbcache_auth_store / dbcache_auth_load ---------------- */

  /** After a successful store, a load gives back what was stored: the
      strings cut to the caller's buffer lengths (whole when they fit), the
      lifetime as is and the expiration time narrowed to `int`. The entry
      rows and the version are untouched. */
  lemma AuthRoundTrip(db: Db, tokenType: string, accessToken: string, refreshToken: string,
                      expiresIn: int32, expiration: int64, ttlen: nat, atlen: nat, rtlen: nat)
    requires db.token.Some?
    ensures var stored := AuthStore(db, tokenType, accessToken, refreshToken, expiresIn, expiration, false);
      var loaded := AuthLoad(stored.1, ttlen, atlen, rtlen, false);
      && stored.0 == 0 && stored.1.rows == db.rows && stored.1.version == db.version
      && loaded.0 == 0 && loaded.1.Some?
      && loaded.1.value.tokenType == StrNCopy(tokenType, ttlen)
      && loaded.1.value.accessToken == StrNCopy(accessToken, atlen)
      && loaded.1.value.refreshToken == StrNCopy(refreshToken, rtlen)
      && (|tokenType| < ttlen ==> loaded.1.value.tokenType == tokenType)
      && (|accessToken| < atlen ==> loaded.1.value.accessToken == accessToken)
      && (|refreshToken| < rtlen ==> loaded.1.value.refreshToken == refreshToken)
      && loaded.1.value.expiresIn == expiresIn
      && loaded.1.value.expirationTime as int == ToInt32(expiration) as int
      && (-0x8000_0000 <= expiration as int < 0x8000_0000 ==> loaded.1.value.expirationTime == expiration)
  {
  }

  /** Without a token row a load fails with -1 whether or not its step
      fails, and a store reports success while storing nothing. */
  lemma AuthWithoutRow(db: Db, tokenType: string, accessToken: string, refreshToken: string,
                       expiresIn: int32, expiration: int64, ttlen: nat, atlen: nat, rtlen: nat,
                       readFails: bool)
    requires db.token.None?
    ensures AuthLoad(db, ttlen, atlen, rtlen, readFails) == (-1, None)
    ensures AuthStore(db, tokenType, accessToken, refreshToken, expiresIn, expiration, false) == (0, db)
  {
  }

  /** A failed store returns -1 and keeps the old token. */
  lemma AuthStoreFails(db: Db, tokenType: string, accessToken: string, refreshToken: string,
                       expiresIn: int32, expiration: int64)
    ensures AuthStore(db, tokenType, accessToken, refreshToken, expiresIn, expiration, true) == (-1, db)
  {
  }

  /* ---------------- dbcache_mkdir ---------------- */

  /** mkdir of "/name" adds exactly one row: a local directory under the
      root with the requested mode, size 0, no uuid or checksum and one time
      for all three stamps; its fresh id goes to the callback, whose code is
      returned. A failed insert returns -EIO and changes nothing. */
  lemma MkdirInsertsDir(db: Db, cpath: string, mode: int, now: Time, insertFails: bool, cb: int -> int)
    requires WellFormed(db) && OneComponent(cpath)
    ensures var r := Mkdir(db, cpath, mode, now, insertFails, cb);
      && (insertFails ==> r == (-EIO, db, None))
      && (!insertFails ==>
            var id := NextId(db);
            && id !in db.rows && r.2 == Some(id) && r.0 == cb(id)
            && WellFormed(r.1) && r.1.token == db.token && r.1.version == db.version
            && r.1.rows.Keys == db.rows.Keys + {id}
            && (forall other :: other in db.rows ==> r.1.rows[other] == db.rows[other])
            && var e := r.1.rows[id];
            && e.name == Name(cpath) && e.parent == Some(1) && e.kind == DIR
            && e.mode == mode && e.size == 0 && e.sync == LOCAL
            && e.uuid == None && e.checksum == None
            && e.atime == now && e.mtime == now && e.ctime == now)
  {
    InsertAddsOne(db, LocalDirEntry(Name(cpath), mode, now));
  }

  /** After mkdir of "/name", looking "/name" up finds the new directory when
      the name was free; when it was taken, the lookup keeps finding the older
      row, since nothing makes names unique among siblings. */
  lemma MkdirThenLookup(db: Db, cpath: string, mode: int, now: Time, cb: int -> int)
    requires WellFormed(db) && OneComponent(cpath)
    ensures var r := Mkdir(db, cpath, mode, now, false, cb);
      var found := Lookup(r.1, ByNameParent(Name(cpath), 1));
      && (NoRootChild(db, Name(cpath)) ==>
            found == Some(NextId(db)) && r.1.rows[NextId(db)].kind == DIR && r.1.rows[NextId(db)].mode == mode)
      && (!NoRootChild(db, Name(cpath)) ==> found == Lookup(db, ByNameParent(Name(cpath), 1)))
  {
    var e := LocalDirEntry(Name(cpath), mode, now);
    SelectExtend(db.rows, ByNameParent(Name(cpath), 1), 1, db.lastId, e);
    LookupRootChild(db, Name(cpath));
  }

  /* ---------------- dbcache_rmdir ---------------- */

  /** rmdir of a missing "/name" returns -ENOENT and changes nothing. */
  lemma RmdirMissing(db: Db, cpath: string, cb: int -> int, writeFails: bool)
    requires WellFormed(db) && OneComponent(cpath)
    requires NoRootChild(db, Name(cpath))
    ensures Rmdir(db, cpath, cb, writeFails) == (-ENOENT, db)
  {
    LookupRootChild(db, Name(cpath));
  }

  /** rmdir of "/name" naming a non-directory returns -ENOTDIR and changes
      nothing; a callback that refuses (non-zero) has its code returned and
      nothing changes. */
  lemma RmdirRefused(db: Db, cpath: string, cb: int -> int, writeFails: bool, id: int)
    requires WellFormed(db) && OneComponent(cpath)
    requires IsLeastRootChild(db, Name(cpath), id)
    requires db.rows[id].kind != DIR || cb(id) != 0
    ensures Rmdir(db, cpath, cb, writeFails)
         == (if db.rows[id].kind != DIR then -ENOTDIR else cb(id), db)
  {
    LookupRootChild(db, Name(cpath));
  }

  /** rmdir of a directory "/name" the callback accepts tombstones the row:
      its sync becomes -1 and nothing else changes. No row is deleted, and the
      directory's children (if any) are neither checked nor touched. A failed
      UPDATE returns -EIO and changes nothing. */
  lemma RmdirTombstones(db: Db, cpath: string, cb: int -> int, writeFails: bool, id: int)
    requires WellFormed(db) && OneComponent(cpath)
    requires IsLeastRootChild(db, Name(cpath), id)
    requires db.rows[id].kind == DIR && cb(id) == 0
    ensures var r := Rmdir(db, cpath, cb, writeFails);
      && (writeFails ==> r == (-EIO, db))
      && (!writeFails ==>
            && r.0 == 0
            && WellFormed(r.1) && r.1.lastId == db.lastId && r.1.token == db.token && r.1.version == db.version
            && r.1.rows.Keys == db.rows.Keys
            && r.1.rows[id] == db.rows[id].(sync := TOMBSTONED)
            && (forall other :: other in db.rows && other != id ==> r.1.rows[other] == db.rows[other])
            && (forall child :: child in db.rows && db.rows[child].parent == Some(id) ==> child in r.1.rows))
  {
    LookupRootChild(db, Name(cpath));
  }

  /** A successful rmdir leaves the row visible: looking the path up again
      finds the tombstoned row, and a second rmdir tombstones it again. */
  lemma RmdirStillVisible(db: Db, cpath: string, cb: int -> int, id: int)
    requires WellFormed(db) && OneComponent(cpath) && cpath != "/"
    requires IsLeastRootChild(db, Name(cpath), id)
    requires db.rows[id].kind == DIR && cb(id) == 0
    ensures var once := Rmdir(db, cpath, cb, false).1;
      && FindByPath(once, cpath, cb) == (0, Some(id))
      && once.rows[id].sync == TOMBSTONED
      && Rmdir(once, cpath, cb, false) == (0, once)
  {
    RmdirTombstones(db, cpath, cb, false, id);
    var once := Rmdir(db, cpath, cb, false).1;
    forall other | 1 <= other <= db.lastId
      ensures (other in db.rows && Matches(db.rows[other], ByNameParent(Name(cpath), 1)))
          <==> (other in once.rows && Matches(once.rows[other], ByNameParent(Name(cpath), 1)))
    {
    }
    SelectSameMatches(db.rows, once.rows, ByNameParent(Name(cpath), 1), 1, db.lastId);
    LookupRootChild(db, Name(cpath));
    assert Lookup(once, ByNameParent(Name(cpath), 1)) == Some(id);
    assert once.rows[id := once.rows[id].(sync := TOMBSTONED)] == once.rows;
  }

  /* ---------------- dbcache_findbypath ---------------- */

  /** "/" finds row 1 when it exists; any other path finds the least child of
      the root with the path's component as name, or -ENOENT when there
      is none. A found row's id goes to the callback, whose code is returned. */
  lemma FindByPathSpec(db: Db, cpath: string, cb: int -> int)
    requires WellFormed(db) && OneComponent(cpath)
    ensures var r := FindByPath(db, cpath, cb);
      && (r.1.Some? ==> r.1.value in db.rows && r.0 == cb(r.1.value))
      && (r.1.None? ==> r.0 == -ENOENT)
      && (cpath == "/" ==> (r.1.Some? <==> 1 in db.rows) && (r.1.Some? ==> r.1.value == 1))
      && (cpath != "/" ==> (r.1.None? <==> NoRootChild(db, Name(cpath))))
      && (cpath != "/" && r.1.Some? ==> IsLeastRootChild(db, Name(cpath), r.1.value))
  {
    LookupRootChild(db, Name(cpath));
  }

  /** After mkdir of a fresh "/name", looking "/name" up hands the new
      directory's id to the callback. */
  lemma FindAfterMkdir(db: Db, cpath: string, mode: int, now: Time, cb: int -> int, cb2: int -> int)
    requires WellFormed(db) && OneComponent(cpath) && cpath != "/"
    requires NoRootChild(db, Name(cpath))
    ensures var made := Mkdir(db, cpath, mode, now, false, cb);
            FindByPath(made.1, cpath, cb2) == (cb2(NextId(db)), Some(NextId(db)))
  {
    MkdirThenLookup(db, cpath, mode, now, cb);
  }

  /* ---------------- dbcache_listdir ---------------- */

  /** The rows listed for a directory are exactly its children, each once,
      in ascending id order. */
  lemma ChildrenInIdOrder(db: Db, parent: int)
    requires WellFormed(db)
    ensures forall k :: 0 <= k < |Rows(db, ByParent(parent))| ==>
              var id := Rows(db, ByParent(parent))[k];
              id in db.rows && db.rows[id].parent == Some(parent)
    ensures forall id :: id in db.rows && db.rows[id].parent == Some(parent) ==> id in Rows(db, ByParent(parent))
    ensures forall a, b :: 0 <= a < b < |Rows(db, ByParent(parent))| ==>
              Rows(db, ByParent(parent))[a] < Rows(db, ByParent(parent))[b]
  {
    SelectSpec(db.rows, ByParent(parent), 1, db.lastId);
  }
}
