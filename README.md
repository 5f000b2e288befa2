# drive-fuse-sync: metadata store and file cache, modelled in Dafny

drive-fuse-sync mirrors a remote drive as a FUSE file system. Two parts of it
are modelled here.

- **The metadata store** (`src/dbcache.c`). An SQLite database holds three
  tables. `dfs_entry` is a tree of entries keyed by an integer id, with a
  remote uuid, a name, a type (1 = directory, 2 = file), size, mode, three
  times, a sync state (0 = local, 1 = from the remote, -1 = tombstoned), a
  checksum and a parent id. `dfs_token` holds one OAuth token record, and
  `dfs_version` holds the schema version. The store sets up the schema,
  loads and stores the token, records remote objects (`dbcache_update`),
  and handles mkdir, rmdir, lookup and listing for paths. Most of these
  operations hand the id they found or made to a callback.
- **The file cache** (`src/fscache.c`). Each cached object lives at the
  cache directory followed by a relative path derived from its id. Before
  touching such a path, the cache creates every intermediate directory. It
  walks a path buffer, cuts it at each `/` in turn, calls mkdir on what is
  left, and puts the `/` back. The read, write and close wrappers forward to
  the operating system with a fixed error structure.

Layout:

- `common.dfy` holds shared types and C conversions: `int` narrowing and
  `strncpy`.
- `version.dfy` holds the schema version parsed from `VERSION`.
- `table.dfy` holds the database as a value (`Db`) and the indexed queries.
  In this model a single `sqlite3_step` returns the matching row with the
  least id, and a listing runs in id order. A new row gets the largest id
  plus one.
- `paths.dfy` holds the path buffer and its split into components.
- `dbspec.dfy` says what each state-changing store operation does, as a
  function from the old database to the return code and the new one.
- `dbprops.dfy` proves the properties of those functions.
- `dbcache.dfy` holds the store as a class `Cache`. The class fields are the
  tables, and its methods update them in place. Each method other than
  `ListDir` is proved equal to its `DbSpec` function. `ListDir` has no such
  function: its contract states the visited children and the result
  directly, in terms of the rows a SELECT yields.
- `chain.dfy` holds the directory chain. `DirChain` is a pure function.
  `CreateChain` is the in-place loop over an `array<char>`. It is proved to
  produce `DirChain` and to leave the buffer as it found it.
- `fscache.dfy` holds the file cache. Calls into the operating system come
  out as a trace of `OsCall` values, and their outcomes are parameters.

The model proves these facts about the source's behaviour:

- `dbcache_rmdir` never deletes a row. It sets `sync` to -1 and ignores
  children. The tombstoned row stays visible to later lookups, and a second
  rmdir tombstones it again.
- `dbcache_mkdir` checks no name for uniqueness. A second directory of the
  same name is inserted, but lookups keep finding the older row.
- `dbcache_auth_store` returns 0 when no token row exists, and stores
  nothing.

## Model

The functions of `DbSpec` (`Setup`, `AuthStore`, `AuthLoad`, `Update`,
`Mkdir`, `Rmdir`, `FindByPath`) model the store operations as values. They
carry no contract of their own. The `DbCache.Cache` row of each operation
stands for its function, since that method is proved equal to it, and the
`DbProps` rows state the function's properties.

| member | source | states |
|---|---|---|
| `Common.ToInt32` | src/dbcache.c:288-289 | the `(int)` cast of the expiration time keeps its value modulo 2^32 and changes nothing that already fits in 32 bits |
| `Common.StrNCopy` | src/dbcache.c:254-259 | `strncpy` into an n-byte buffer keeps a prefix of at most n characters, and the whole string when it is shorter than n |
| `Version.MajorVersionOfRendered` | src/dbcache.c:81 | `%d.%*s` reads back the major number of any version string written as "<major>.<rest>" |
| `Version.SchemaVersionIsZero` | src/dbcache.c:13-17 | with the default VERSION "0.0" the schema version is 0 |
| `Paths.Buffer` | src/dbcache.c:402-403 | the working buffer is the first min(length, PATH_MAX) characters of the caller's path, so the whole path when it fits |
| `Paths.JoinSplit` | src/dbcache.c:405-410 | cutting a path at every '/' loses nothing: joining the components gives the path back |
| `Paths.SplitJoin` | src/dbcache.c:405-410 | components without '/' joined and cut again come back unchanged |
| `Paths.OneComponentIff` | src/dbcache.c:408-411 | a walk sees one component exactly when no '/' follows the first character, and that component is the rest of the path |
| `Table.LookupSpec` | src/dbcache.c:173-176 | one step of an indexed SELECT finds a row exactly when a matching row exists, and finds the one with the least id |
| `Table.SelectSpec` | src/dbcache.c:195-198 | stepping a SELECT to the end yields every matching row once, in ascending id order, and nothing else |
| `Table.InsertAddsOne` | src/dbcache.c:203-206 | an INSERT adds exactly one row under a fresh id above every id in use, and leaves the other tables alone |
| `DbProps.UpdateInsertsUnknown` | src/dbcache.c:336-365 | unknown uuid with a known parent: exactly one row is added, with the given uuid, name, size and checksum, type 1/2 and mode 0700/0600 from isdir, atime = mtime, sync 1, under the parent's id |
| `DbProps.UpdateRelinksKnown` | src/dbcache.c:316-332 | known uuid with a known parent: no row is added, and only that row's parent changes |
| `DbProps.UpdateFailsUnchanged` | src/dbcache.c:313-370 | a failing lookup or write, or a parent uuid no row carries, returns -1 and changes nothing |
| `DbProps.UpdateRoot` | src/dbcache.c:371-380 | an empty parent gives row 1 the uuid and clears its parent, touching nothing else, and returns -1 only on a failed write |
| `DbProps.UpdateKeepsWellFormed` | src/dbcache.c:297-386 | every outcome of an update keeps ids positive, bounded and fresh for the next insert |
| `DbProps.UpdateIdempotent` | src/dbcache.c:313-365 | repeating an update that succeeded (or ran without statement failures) leaves the table as the first call left it |
| `DbProps.SetupAbortsOnMismatch` | src/dbcache.c:84-101 | a version read error or a stored version other than this build's aborts and changes nothing |
| `DbProps.SetupEnsures` | src/dbcache.c:81-156 | a completed setup stores the version, has a parentless row and a token row, adds the root row only when no parentless row existed and the placeholder token only when no token existed |
| `DbProps.SetupFreshDatabase` | src/dbcache.c:134-144 | on an empty database the root row ("/", directory, size 0, mode 0700, sync 0, no parent) gets id 1 |
| `DbProps.SetupIdempotent` | src/dbcache.c:81-156 | a second setup after a completed one changes nothing |
| `DbProps.AuthRoundTrip` | src/dbcache.c:241-295 | after a successful store a load returns the same strings cut to the buffer lengths (whole when they fit), the same expires_in and the expiration time narrowed to int |
| `DbProps.AuthWithoutRow` | src/dbcache.c:249-294 | without a token row a load returns -1, whether or not its step fails, and a store returns 0 while storing nothing |
| `DbProps.AuthStoreFails` | src/dbcache.c:290-294 | a failed store returns -1 and keeps the old token |
| `DbProps.MkdirInsertsDir` | src/dbcache.c:411-438 | mkdir of "/name" adds exactly one row, a local directory under row 1 with the requested mode, size 0, no uuid or checksum and one time for all three stamps; the fresh id goes to the callback, whose code is returned; a failed insert returns -EIO and changes nothing |
| `DbProps.MkdirThenLookup` | src/dbcache.c:388-452 | after mkdir of a free name the name finds the new directory; for a taken name the lookup keeps finding the older row |
| `DbProps.RmdirMissing` | src/dbcache.c:481-487 | rmdir of a missing "/name" returns -ENOENT and changes nothing |
| `DbProps.RmdirRefused` | src/dbcache.c:503-510 | rmdir of a non-directory returns -ENOTDIR, and a refusing callback's code is returned; nothing changes |
| `DbProps.RmdirTombstones` | src/dbcache.c:508-520 | rmdir of a directory the callback accepts sets only its sync to -1, deletes no row and leaves children alone; a failed UPDATE returns -EIO and changes nothing |
| `DbProps.RmdirStillVisible` | src/dbcache.c:454-524 | after rmdir the tombstoned row is still found by its path, and a second rmdir tombstones it again |
| `DbProps.FindByPathSpec` | src/dbcache.c:633-691 | "/" finds row 1 when it exists; "/name" finds the least child of row 1 with that name, or -ENOENT when there is none; the found id goes to the callback, whose code is returned |
| `DbProps.FindAfterMkdir` | src/dbcache.c:614-702 | after mkdir of a free "/name", looking it up hands the new id to the callback |
| `DbProps.ChildrenInIdOrder` | src/dbcache.c:798-830 | the rows listed for a directory are exactly its children, each once, in ascending id order |
| `DbCache.Cache.Open` | src/dbcache.c:50-63 | opening gives a store over the database's current contents |
| `DbCache.Cache.SetupSchema` | src/dbcache.c:73-159 | the in-place setup does what `DbSpec.Setup` says and keeps the table well formed |
| `DbCache.Cache.AuthLoad` | src/dbcache.c:241-272 | the load returns 0 with the token fields (strings within the buffer lengths) exactly when a token row exists and the SELECT step does not fail, and -1 with nothing otherwise |
| `DbCache.Cache.AuthStore` | src/dbcache.c:274-295 | the in-place store does what `DbSpec.AuthStore` says |
| `DbCache.Cache.Update` | src/dbcache.c:297-386 | the in-place update does what `DbSpec.Update` says and keeps the table well formed |
| `DbCache.Cache.Mkdir` | src/dbcache.c:388-452 | the in-place mkdir does what `DbSpec.Mkdir` says and keeps the table well formed |
| `DbCache.Cache.Rmdir` | src/dbcache.c:454-524 | the in-place rmdir does what `DbSpec.Rmdir` says and keeps the table well formed |
| `DbCache.Cache.FindByPath` | src/dbcache.c:614-702 | a found id is a row and gets the callback's code; nothing found gives -ENOENT |
| `DbCache.Cache.ListDir` | src/dbcache.c:748-836 | listing "/" hands the root's children to the callback in id order, as a prefix of them; it stops at the first non-zero code and returns it, returns -EIO at the first failing step, with no callback after it, and returns 0 only when no step failed and every child was accepted |
| `Chain.CachePath` | src/fscache.c:50 | the full path is the cache directory followed by the relative path, cut to exactly min(length, PATH_MAX - 1) characters, with no NUL inside |
| `Chain.DirChainMember` | src/fscache.c:56-68 | a prefix is created exactly when a '/' at or after the start position ends it |
| `Chain.DirChainOrdered` | src/fscache.c:252-268 | each created directory is a proper prefix of every one created after it, so parents come before children |
| `Chain.IntermediateDirsOfRel` | src/fscache.c:50-68 | the intermediate directories are the cache directory followed by each prefix of the relative path that ends before one of its '/', the leading one excepted |
| `Chain.IntermediateDirsInsidePath` | src/fscache.c:56-70 | every intermediate directory lies strictly inside the final path, so the final mkdir is a different call |
| `Chain.IntermediateDirsExample` | src/fscache.c:252-268 | for cache directory "/c" and relative path "/a/b/f" the walk creates "/c/a", then "/c/a/b" |
| `Chain.CreateChain` | src/fscache.c:56-68 | the loop that cuts the buffer at each '/' and restores it creates exactly the directories of `DirChain`, in order, and leaves the buffer as it was |
| `FsCache.Cache.Start` | src/fscache.c:24-30 | the cache directory keeps at most PATH_MAX characters of the argument |
| `FsCache.Cache.MakeChain` | src/fscache.c:50-68 | after the walk the buffer still holds the full path, and the mkdir calls are those of the intermediate directories |
| `FsCache.Cache.Refresh` | src/fscache.c:243-275 | `fscache_update` creates the intermediate directories, then stats the full path |
| `FsCache.Cache.Mkdir` | src/fscache.c:38-77 | a failing path lookup is returned with no system call; otherwise the intermediate mkdirs, whose results are ignored, come before the final mkdir, which alone decides the result (0 or errno) |
| `FsCache.Cache.Rmdir` | src/fscache.c:79-98 | a failing path lookup is returned with no system call; otherwise one rmdir of the full path decides the result |
| `FsCache.Cache.Create` | src/fscache.c:100-120 | a failing path lookup is returned with no system call and fd untouched; otherwise the directories are prepared and the file is created with mode 0600; a failure returns errno with fd -1 |
| `FsCache.Cache.Open` | src/fscache.c:122-144 | as create, with open and the caller's flags |
| `FsCache.Cache.Remove` | src/fscache.c:204-223 | a failing path lookup is returned with no system call; otherwise one unlink of the full path decides the result |
| `FsCache.Close` | src/fscache.c:146-152 | negative descriptors are not closed; the result is always 0 |
| `FsCache.Read` | src/fscache.c:154-189 | the result is 0 exactly when allocation, the seek to `off`, the read and the callback all succeed, and -1 otherwise; the callback receives exactly the bytes read, at most `len`; no read follows a failed seek |
| `FsCache.Write` | src/fscache.c:191-202 | seek and write are issued whatever happens, the callback gets the caller's buffer and full length, and the result is always 0 |
| `FsCache.Size` | src/fscache.c:225-235 | the size fstat reports with 0, or fstat's -1 with no size |

## Left out

- DbCache.Cache.Mkdir: only "/" and "/name" paths. For a nested path the walk reads column 11 of a ten-column result, which SQLite leaves undefined, and never moves past the first component.
- DbCache.Cache.Rmdir: only "/" and "/name" paths, for the same reason.
- DbCache.Cache.FindByPath: only "/" and "/name" paths. For a nested path the walk never moves past the first component.
- DbCache.Cache.ListDir: only the root ("/", or a path of at most one character). For "/name" the walk reads column 10 of a ten-column result. For a missing name it has no `break` and loops forever.
- DbCache.Cache.SetupSchema: the CREATE statements and the version, root and token INSERTs are assumed to succeed, as the source ignores their results. The parentless and token SELECTs are assumed to step to a row or to the end: a step that fails skips the INSERT (src/dbcache.c:136-137, 149-150), and that outcome is not an input of the model.
- Table.LookupSpec and Table.SelectSpec: the SELECTs have no ORDER BY, so SQLite promises no row order. The model chooses ascending id: a lookup takes the least matching id, and a listing runs in id order. Every property stated about lookups and listings rests on that choice.
- DbCache.Cache.Rmdir: a failing SELECT step reports -ENOENT, like a missing row, and is not a separate input. The same holds for FindByPath.
- DbProps.UpdateIdempotent: stated for a first call that succeeded or ran without statement failures. After an injected write failure a retry can of course change the table.
- Callbacks are pure functions of the id they receive. The other columns they receive (some read from the wrong statement or column) and their side effects are not modelled.
- Times are opaque `(sec, nsec)` values. The REAL columns and the floating-point conversions `ts2r` and `r2ts` are not modelled.
- Sizes and modes are unbounded integers. The `size_t`, `mode_t` and `int64_t` conversions are not modelled. The `(int)` narrowing of the expiration time is modelled.
- `strncpy` leaves no terminator when the string fills the buffer. The model returns the copied characters only.
- The clock (`clock_gettime`, `strftime('%s','now')`) is a parameter.
- The SQLite engine itself, `dbcache_open` error exit, `dbcache_close` and the statement preparation in `dbcache_setup` are not modelled. Open is a constructor over the stored contents.
- The mutex and threads are not modelled, nor `fscache_start`'s thread, `fscache_stop` or `fscache_run`. `dbcache_mkdir` and `dbcache_rmdir` take no lock.
- The commented-out functions are not compiled, so they are not modelled: rename, chmod, resize, chatime, chmtime, delete, rm, lookup, addref, rmref and `dbcache_path`.
- `dbcache_path` is called by fscache.c but defined only inside a comment. It is an oracle from ids to answers.
- FsCache.Cache.Mkdir: requires a cache directory shorter than PATH_MAX. With exactly PATH_MAX characters the walk starts one past the buffer. The same holds for Create, Open, Refresh and MakeChain.
- FsCache.Cache.Start: requires a cache directory without NUL, as a C string has none.
- FsCache.Read: requires read to return at most `len` bytes, as read(2) guarantees.
- The effects of the POSIX calls on the file system are not modelled; the trace records the calls. The intermediate mkdir results, the stat result and the download stub are unused by the source.
- src/fuseapi.c, src/driveapi.c, src/main.c, src/log.c and the headers are not part of this model. They hold FUSE glue, the network stub, the command line, logging and stale prototypes.
