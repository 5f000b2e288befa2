/** The file cache of src/fscache.c. Each cached object lives at the cache
    directory followed by a relative path that `dbcache_path` computes from
    the object's id; the operations create, open, remove and stat files there
    and forward reads and writes to the descriptors they return.

    The calls into the operating system are recorded, in order, as a trace of
    OsCall values, and each call's outcome is a parameter. `dbcache_path` is
    not part of this model: it is an oracle from ids to answers. */
module FsCache {
  import opened Common
  import opened Table
  import opened Chain

  /** A call into the operating system, with the arguments that matter. */
  datatype OsCall =
    | MakeDir(path: string, mode: int)
    | RemoveDir(path: string)
    | CreateFile(path: string, mode: int)
    | OpenFile(path: string, flags: int)
    | Unlink(path: string)
    | StatPath(path: string)
    | Seek(fd: int, off: int)
    | ReadFd(fd: int, len: nat)
    | WriteFd(fd: int, len: nat)
    | CloseFd(fd: int)

  /** What `dbcache_path` answers for an id: a return code and, when that is
      0, the relative path it wrote. */
  datatype PathAnswer = PathAnswer(rc: int, rel: string)

  /** The outcome of mkdir, rmdir or unlink: success or the errno it set. */
  datatype Outcome = Done | Failed(errno: int)

  /** The outcome of creat or open: a descriptor, or -1 with errno set. */
  datatype FdOutcome = Opened(fd: nat) | OpenFailed(errno: int)

  /** What read(2) returns: an error, or the bytes read. */
  datatype ReadOutcome = ReadFailed | Bytes(data: seq<byte>)

  /** The mkdir calls for a chain of directories, all with mode 0700. */
  function MakeDirs(paths: seq<string>): (calls: seq<OsCall>)
    ensures |calls| == |paths|
    ensures forall k :: 0 <= k < |paths| ==> calls[k] == MakeDir(paths[k], MODE_DIR)
  {
    if paths == [] then [] else [MakeDir(paths[0], MODE_DIR)] + MakeDirs(paths[1..])
  }

  /** The calls `fscache_update` makes for a relative path: the intermediate
      directories, then a stat of the full path (whose result is unused). */
  function RefreshCalls(dir: string, rel: string): seq<OsCall> {
    MakeDirs(IntermediateDirs(dir, rel)) + [StatPath(CachePath(dir, rel))]
  }

  /** The zero-filled PATH_MAX + 1 buffer `snprintf` leaves holding `p`. */
  method PathBuffer(p: string) returns (buf: array<char>)
    requires '\0' !in p && |p| < PATH_MAX
    ensures fresh(buf) && buf.Length == PATH_MAX + 1 && Holds(buf[..], p)
  {
    buf := new char[PATH_MAX + 1](i => if 0 <= i < |p| then p[i] else '\0');
  }

  class Cache {
    /** `fscachedir`: set once by `fscache_start`. */
    const cacheDir: string

    /** `fscache_start`: keep at most PATH_MAX characters of the directory. */
    constructor Start(cachedir: string)
      requires '\0' !in cachedir
      ensures cacheDir == StrNCopy(cachedir, PATH_MAX)
    {
      cacheDir := StrNCopy(cachedir, PATH_MAX);
    }

    /** The walks start one character past the cache directory, which must
        leave that position inside the PATH_MAX + 1 buffer. */
    predicate CanWalk() {
      '\0' !in cacheDir && |cacheDir| < PATH_MAX
    }

    /** Snprintf the full path and walk it, creating the intermediate
        directories; returns the path the buffer holds afterwards. */
    method MakeChain(rel: string) returns (full: string, calls: seq<OsCall>)
      requires CanWalk()
      ensures full == CachePath(cacheDir, rel)
      ensures calls == MakeDirs(IntermediateDirs(cacheDir, rel))
    {
      var p := CachePath(cacheDir, rel);
      var buf := PathBuffer(p);
      CStrNoNul(cacheDir);
      var made := CreateChain(buf, |cacheDir| + 1, p);
      CStrAtNul(buf[..], |p|);
      full := CStr(buf[..]);
      calls := MakeDirs(made);
    }

    /** `fscache_update`: create the directories leading to a cached object,
        then stat it. */
    method Refresh(rel: string) returns (calls: seq<OsCall>)
      requires CanWalk()
      ensures calls == RefreshCalls(cacheDir, rel)
    {
      var full, made := MakeChain(rel);
      calls := made + [StatPath(full)];
    }

    /** `fscache_mkdir`: create the directory for an id and every directory
        leading to it. Only the last mkdir decides the result. */
    method Mkdir(id: int, pathOf: int -> PathAnswer, last: Outcome) returns (rc: int, calls: seq<OsCall>)
      requires CanWalk()
      ensures pathOf(id).rc != 0 ==> rc == pathOf(id).rc && calls == []
      ensures pathOf(id).rc == 0 ==>
                && calls == MakeDirs(IntermediateDirs(cacheDir, pathOf(id).rel))
                              + [MakeDir(CachePath(cacheDir, pathOf(id).rel), MODE_DIR)]
                && rc == (if last.Done? then 0 else last.errno)
    {
      var answer := pathOf(id);
      rc := answer.rc;
      calls := [];
      if rc == 0 {
        var full, made := MakeChain(answer.rel);
        calls := made + [MakeDir(full, MODE_DIR)];
        rc := if last.Done? then 0 else last.errno;
      }
    }

    /** `fscache_rmdir`: remove the directory for an id. */
    method Rmdir(id: int, pathOf: int -> PathAnswer, result: Outcome) returns (rc: int, calls: seq<OsCall>)
      ensures pathOf(id).rc != 0 ==> rc == pathOf(id).rc && calls == []
      ensures pathOf(id).rc == 0 ==>
                && calls == [RemoveDir(CachePath(cacheDir, pathOf(id).rel))]
                && rc == (if result.Done? then 0 else result.errno)
    {
      var answer := pathOf(id);
      rc := answer.rc;
      calls := [];
      if rc == 0 {
        calls := [RemoveDir(CachePath(cacheDir, answer.rel))];
        rc := if result.Done? then 0 else result.errno;
      }
    }

    /** `fscache_create`: prepare the directories, then creat the file with
        mode 0600. `fd` is None when the out-parameter is left unwritten. */
    method Create(id: int, pathOf: int -> PathAnswer, result: FdOutcome)
      returns (rc: int, fd: Option<int>, calls: seq<OsCall>)
      requires CanWalk()
      ensures pathOf(id).rc != 0 ==> rc == pathOf(id).rc && fd.None? && calls == []
      ensures pathOf(id).rc == 0 ==>
                && calls == RefreshCalls(cacheDir, pathOf(id).rel)
                              + [CreateFile(CachePath(cacheDir, pathOf(id).rel), MODE_FILE)]
                && (result.Opened? ==> rc == 0 && fd == Some(result.fd))
                && (result.OpenFailed? ==> rc == result.errno && fd == Some(-1))
    {
      var answer := pathOf(id);
      rc := answer.rc;
      fd := None;
      calls := [];
      if rc == 0 {
        calls := Refresh(answer.rel);
        calls := calls + [CreateFile(CachePath(cacheDir, answer.rel), MODE_FILE)];
        match result
        case Opened(n) => fd := Some(n);
        case OpenFailed(e) => fd, rc := Some(-1), e;
      }
    }

    /** `fscache_open`: prepare the directories, then open the file with
        the caller's flags. */
    method Open(id: int, flags: int, pathOf: int -> PathAnswer, result: FdOutcome)
      returns (rc: int, fd: Option<int>, calls: seq<OsCall>)
      requires CanWalk()
      ensures pathOf(id).rc != 0 ==> rc == pathOf(id).rc && fd.None? && calls == []
      ensures pathOf(id).rc == 0 ==>
                && calls == RefreshCalls(cacheDir, pathOf(id).rel)
                              + [OpenFile(CachePath(cacheDir, pathOf(id).rel), flags)]
                && (result.Opened? ==> rc == 0 && fd == Some(result.fd))
                && (result.OpenFailed? ==> rc == result.errno && fd == Some(-1))
    {
      var answer := pathOf(id);
      rc := answer.rc;
      fd := None;
      calls := [];
      if rc == 0 {
        calls := Refresh(answer.rel);
        calls := calls + [OpenFile(CachePath(cacheDir, answer.rel), flags)];
        match result
        case Opened(n) => fd := Some(n);
        case OpenFailed(e) => fd, rc := Some(-1), e;
      }
    }

    /** `fscache_rm`: unlink the file for an id. */
    method Remove(id: int, pathOf: int -> PathAnswer, result: Outcome) returns (rc: int, calls: seq<OsCall>)
      ensures pathOf(id).rc != 0 ==> rc == pathOf(id).rc && calls == []
      ensures pathOf(id).rc == 0 ==>
                && calls == [Unlink(CachePath(cacheDir, pathOf(id).rel))]
                && rc == (if result.Done? then 0 else result.errno)
    {
      var answer := pathOf(id);
      rc := answer.rc;
      calls := [];
      if rc == 0 {
        calls := [Unlink(CachePath(cacheDir, answer.rel))];
        rc := if result.Done? then 0 else result.errno;
      }
    }
  }

  /** `fscache_close`: close non-negative descriptors; always 0. */
  method Close(fd: int) returns (rc: int, calls: seq<OsCall>)
    ensures rc == 0
    ensures calls == if fd >= 0 then [CloseFd(fd)] else []
  {
    calls := [];
    if fd >= 0 {
      calls := [CloseFd(fd)];
    }
    rc := 0;
  }

  /** `fscache_read`: allocate `len` bytes, seek to `off`, read, and hand
      what was read to the callback. `allocates` says whether malloc
      succeeds, `landed` is the offset lseek returns, `got` what read
      returns (never more than asked), `cb` the callback's code for the bytes
      it receives. `delivered` is what the callback received, if called. */
  method Read(fd: int, off: int, len: nat, allocates: bool, landed: int, got: ReadOutcome,
              cb: seq<byte> -> int)
    returns (rc: int, delivered: Option<seq<byte>>, calls: seq<OsCall>)
    requires got.Bytes? ==> |got.data| <= len
    ensures rc == 0 || rc == -1
    ensures rc == 0 <==> allocates && landed == off && got.Bytes? && cb(got.data) == 0
    ensures delivered.Some? <==> allocates && landed == off && got.Bytes?
    ensures delivered.Some? ==> delivered.value == got.data && |delivered.value| <= len
    ensures calls == if !allocates then []
                     else if landed != off then [Seek(fd, off)]
                     else [Seek(fd, off), ReadFd(fd, len)]
  {
    delivered := None;
    calls := [];
    if !allocates {
      return -1, delivered, calls;
    }
    calls := [Seek(fd, off)];
    if landed != off {
      return -1, delivered, calls;
    }
    calls := calls + [ReadFd(fd, len)];
    if got.ReadFailed? {
      return -1, delivered, calls;
    }
    delivered := Some(got.data);
    var code := cb(got.data);
    rc := if code != 0 then -1 else 0;
  }

  /** `fscache_write`: seek, write and call back, ignoring every result;
      always 0. The callback receives the whole buffer and its full length. */
  method Write(fd: int, buf: seq<byte>, off: int, len: nat)
    returns (rc: int, handed: seq<byte>, handedLen: nat, calls: seq<OsCall>)
    ensures rc == 0 && handed == buf && handedLen == len
    ensures calls == [Seek(fd, off), WriteFd(fd, len)]
  {
    calls := [Seek(fd, off), WriteFd(fd, len)];
    handed, handedLen := buf, len;
    rc := 0;
  }

  /** `fscache_size`: the size fstat reports, or fstat's -1. */
  method Size(fd: int, stat: Option<nat>) returns (rc: int, size: Option<nat>)
    ensures stat.Some? ==> rc == 0 && size == stat
    ensures stat.None? ==> rc == -1 && size.None?
  {
    if stat.Some? {
      rc, size := 0, stat;
    } else {
      rc, size := -1, None;
    }
  }
}
