/** The metadata store of src/dbcache.c as an object: the open database's
    tables are its fields, and each exported operation updates them in place.
    Every method is proved to do what the matching function of DbSpec says;
    the properties of those functions are proved in DbProps. */
module DbCache {
  import opened Common
  import opened Table
  import opened Paths
  import opened DbSpec
  import Version
  import DbProps

  class Cache {
    var rows: map<int, Entry>
    var lastId: nat
    var token: Option<Token>
    var version: Option<int>

    /** The database the fields hold. */
    function State(): Db
      reads this
    {
      Db(rows, lastId, token, version)
    }

    ghost predicate Valid()
      reads this
    {
      WellFormed(State())
    }

    /** `dbcache_open`: the store over a database file's current contents. */
    constructor Open(stored: Db)
      requires WellFormed(stored)
      ensures State() == stored && Valid()
    {
      rows := stored.rows;
      lastId := stored.lastId;
      token := stored.token;
      version := stored.version;
    }

    /** INSERT into dfs_entry: the row takes the next rowid. */
    method InsertRow(e: Entry)
      requires Valid()
      modifies this
      ensures State() == Insert(old(State()), e)
      ensures Valid()
    {
      InsertAddsOne(State(), e);
      lastId := lastId + 1;
      rows := rows[lastId := e];
    }

    /** `dbcache_setup_schema`: check or store the schema version, then add
        the root row and the placeholder token when missing. */
    method SetupSchema(nowSec: int, versionReadFails: bool) returns (r: SetupResult)
      requires Valid()
      modifies this
      ensures (r, State()) == Setup(old(State()), nowSec, versionReadFails)
      ensures Valid()
    {
      var sv := Version.SchemaVersion();
      if versionReadFails {
        return SetupAbort;
      }
      if version.None? {
        version := Some(sv);
      } else if version.value != sv {
        return SetupAbort;
      }
      if Lookup(State(), Parentless).None? {
        InsertRow(RootEntry(nowSec));
      }
      if token.None? {
        token := Some(PLACEHOLDER);
      }
      r := SetupOk;
    }

    /** `dbcache_auth_load`: copy the token record into buffers of the given
        lengths; `readFails` says the SELECT step reports an error. */
    method AuthLoad(ttlen: nat, atlen: nat, rtlen: nat, readFails: bool) returns (rc: int, creds: Option<Credentials>)
      ensures (rc, creds) == DbSpec.AuthLoad(State(), ttlen, atlen, rtlen, readFails)
      ensures rc == 0 <==> !readFails && token.Some?
      ensures rc != 0 ==> rc == -1 && creds.None?
      ensures creds.Some? ==> |creds.value.tokenType| <= ttlen && |creds.value.accessToken| <= atlen
                              && |creds.value.refreshToken| <= rtlen
    {
      if !readFails && token.Some? {
        var t := token.value;
        rc := 0;
        creds := Some(Credentials(StrNCopy(t.tokenType, ttlen), StrNCopy(t.accessToken, atlen),
                                  StrNCopy(t.refreshToken, rtlen), t.expiresIn, t.ts as int64));
      } else {
        rc := -1;
        creds := None;
      }
    }

    /** `dbcache_auth_store`: overwrite the token record. */
    method AuthStore(tokenType: string, accessToken: string, refreshToken: string,
                     expiresIn: int32, expiration: int64, writeFails: bool) returns (rc: int)
      requires Valid()
      modifies this
      ensures (rc, State()) == DbSpec.AuthStore(old(State()), tokenType, accessToken, refreshToken,
                                                expiresIn, expiration, writeFails)
      ensures Valid()
    {
      if writeFails {
        return -1;
      }
      if token.Some? {
        token := Some(Token(tokenType, accessToken, refreshToken, expiresIn, ToInt32(expiration)));
      }
      rc := 0;
    }

    /** `dbcache_update`: record a remote object under its parent, or attach
        the remote root to row 1. */
    method Update(uuid: string, name: string, isDir: bool, size: int, mtime: Time, ctime: Time,
                  cksum: Option<string>, parent: string, f: UpdateFaults) returns (rc: int)
      requires Valid()
      modifies this
      ensures (rc, State()) == DbSpec.Update(old(State()), uuid, name, isDir, size, mtime, ctime,
                                             cksum, parent, f)
      ensures Valid()
    {
      DbProps.UpdateKeepsWellFormed(State(), uuid, name, isDir, size, mtime, ctime, cksum, parent, f);
      if parent != "" {
        if f.uuidSelectFails {
          return -1;
        }
        var self := Lookup(State(), ByUuid(uuid));
        var parentId := Lookup(State(), ByUuid(parent));
        if parentId.None? || f.writeFails {
          return -1;
        }
        if self.Some? {
          rows := rows[self.value := rows[self.value].(uuid := Some(uuid), parent := Some(parentId.value))];
        } else {
          InsertRow(RemoteEntry(uuid, name, isDir, size, mtime, ctime, cksum, parentId.value));
        }
        rc := 0;
      } else {
        if f.writeFails {
          return -1;
        }
        if 1 in rows {
          rows := rows[1 := rows[1].(uuid := Some(uuid), parent := None)];
        }
        rc := 0;
      }
    }

    /** `dbcache_mkdir` of "/name": insert the directory, then report its id
        to the callback. */
    method Mkdir(cpath: string, mode: int, now: Time, insertFails: bool, cb: int -> int)
      returns (rc: int, handed: Option<int>)
      requires Valid() && OneComponent(cpath)
      modifies this
      ensures (rc, State(), handed) == DbSpec.Mkdir(old(State()), cpath, mode, now, insertFails, cb)
      ensures Valid()
    {
      if insertFails {
        return -EIO, None;
      }
      var id := NextId(State());
      InsertRow(LocalDirEntry(Name(cpath), mode, now));
      rc := cb(id);
      handed := Some(id);
    }

    /** `dbcache_rmdir` of "/name": tombstone the directory if the callback
        agrees. */
    method Rmdir(cpath: string, cb: int -> int, writeFails: bool) returns (rc: int)
      requires Valid() && OneComponent(cpath)
      modifies this
      ensures (rc, State()) == DbSpec.Rmdir(old(State()), cpath, cb, writeFails)
      ensures Valid()
    {
      var found := Lookup(State(), ByNameParent(Name(cpath), 1));
      if found.None? {
        return -ENOENT;
      }
      var id := found.value;
      if rows[id].kind != DIR {
        return -ENOTDIR;
      }
      rc := cb(id);
      if rc == 0 {
        if writeFails {
          rc := -EIO;
        } else {
          rows := rows[id := rows[id].(sync := TOMBSTONED)];
        }
      }
    }

    /** `dbcache_findbypath`: find the entry for a path and report it to the
        callback. */
    method FindByPath(cpath: string, cb: int -> int) returns (rc: int, handed: Option<int>)
      requires Valid() && OneComponent(cpath)
      ensures (rc, handed) == DbSpec.FindByPath(State(), cpath, cb)
      ensures handed.Some? ==> handed.value in rows && rc == cb(handed.value)
      ensures handed.None? ==> rc == -ENOENT
    {
      if cpath == "/" {
        if 1 in rows {
          rc, handed := cb(1), Some(1);
        } else {
          rc, handed := -ENOENT, None;
        }
      } else {
        var found := Lookup(State(), ByNameParent(Name(cpath), 1));
        if found.Some? {
          rc, handed := cb(found.value), found;
        } else {
          rc, handed := -ENOENT, None;
        }
      }
    }

    /** `dbcache_listdir` of the root: step through the root's children in id
        order, handing each to the callback, until the callback returns
        non-zero, a step fails or the children run out. `stepFailsAt` is the
        number of the step (counting from 0) that reports an error, if any. */
    method ListDir(cpath: string, cb: int -> int, stepFailsAt: Option<nat>) returns (rc: int, visited: seq<int>)
      requires Valid() && Components(Buffer(cpath)) == [""]
      ensures var kids := Rows(State(), ByParent(1));
        && |visited| <= |kids| && visited == kids[..|visited|]
        && (stepFailsAt.Some? ==> stepFailsAt.value >= |visited|)
        && (forall k :: 0 <= k < |visited| - 1 ==> cb(visited[k]) == 0)
        && ((rc == 0 && visited == kids
             && (stepFailsAt.None? || stepFailsAt.value > |kids|)
             && (forall k :: 0 <= k < |visited| ==> cb(visited[k]) == 0))
            || (visited != [] && rc == cb(visited[|visited| - 1]) && rc != 0)
            || (stepFailsAt == Some(|visited|) && rc == -EIO
                && (forall k :: 0 <= k < |visited| ==> cb(visited[k]) == 0)))
    {
      var kids := Rows(State(), ByParent(1));
      var i := 0;
      visited := [];
      while i < |kids|
        invariant 0 <= i <= |kids| && visited == kids[..i]
        invariant forall k :: 0 <= k < i ==> cb(kids[k]) == 0
        invariant stepFailsAt.Some? ==> stepFailsAt.value >= i
      {
        if stepFailsAt == Some(i) {
          return -EIO, visited;
        }
        visited := visited + [kids[i]];
        rc := cb(kids[i]);
        if rc != 0 {
          return rc, visited;
        }
        i := i + 1;
      }
      if stepFailsAt == Some(i) {
        return -EIO, visited;
      }
      rc := 0;
    }
  }
}
