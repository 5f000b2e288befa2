/** The path handling shared by the metadata store's walks
    (`dbcache_mkdir`, `dbcache_rmdir`, `dbcache_findbypath`, `dbcache_listdir`):
    the caller's path is copied into a PATH_MAX + 1 buffer, the walk starts one
    character in, and each '/' ends a component. */
module Paths {
  import opened Common

  /** The working buffer after `strncpy(path, cpath, PATH_MAX)` into a
      zero-filled array, read as a C string. */
  function Buffer(cpath: string): (b: string)
    ensures b <= cpath && |b| == Min(|cpath|, PATH_MAX)
    ensures |cpath| <= PATH_MAX ==> b == cpath
  {
    StrNCopy(cpath, PATH_MAX)
  }

  /** Splits a string at every '/'; "a/b" gives ["a", "b"], "" gives [""]. */
  function Split(s: string): (r: seq<string>)
    ensures |r| >= 1
    decreases |s|
  {
    if s == [] then [""]
    else
      var rest := Split(s[1..]);
      if s[0] == '/' then [""] + rest else [[s[0]] + rest[0]] + rest[1..]
  }

  /** Joins components with '/', the inverse of Split. */
  function Join(parts: seq<string>): string
    requires |parts| >= 1
    decreases |parts|
  {
    if |parts| == 1 then parts[0] else parts[0] + "/" + Join(parts[1..])
  }

  /** The components a walk visits: the walk starts at `path + 1`, whatever the
      first character is (the zero fill makes that "" for an empty path). */
  function Components(buf: string): (cs: seq<string>)
    ensures |cs| >= 1
  {
    Split(if |buf| == 0 then "" else buf[1..])
  }

  /** The one-component paths ("/" and "/name") the walks handle correctly. */
  predicate OneComponent(cpath: string) {
    |Components(Buffer(cpath))| == 1
  }

  /** The component a walk looks up first: for a one-component path, its
      only one. */
  function Name(cpath: string): string {
    Components(Buffer(cpath))[0]
  }

  /** No component produced by Split contains a '/'. */
  lemma {:induction false} SplitHasNoSlash(s: string)
    ensures forall k :: 0 <= k < |Split(s)| ==> '/' !in Split(s)[k]
    decreases |s|
  {
    if s != [] {
      SplitHasNoSlash(s[1..]);
      var rest := Split(s[1..]);
      if s[0] != '/' {
        assert '/' !in rest[0];
        assert forall k :: 1 <= k < |rest| ==> '/' !in rest[k];
      }
    }
  }

  /** Joining the components gives back the string. */
  lemma {:induction false} JoinSplit(s: string)
    ensures Join(Split(s)) == s
    decreases |s|
  {
    if s != [] {
      JoinSplit(s[1..]);
      var rest := Split(s[1..]);
      if s[0] == '/' {
        assert Split(s) == [""] + rest;
        assert Split(s)[1..] == rest;
        assert [s[0]] + s[1..] == s;
      } else {
        var r := Split(s);
        assert r[0] == [s[0]] + rest[0];
        if |rest| == 1 {
          assert Join(r) == r[0];
        } else {
          assert r[1..] == rest[1..];
          assert Join(rest) == rest[0] + "/" + Join(rest[1..]);
        }
      }
    }
  }

  /** A leading component without '/' is split off whole. */
  lemma {:induction false} SplitCons(a: string, b: string)
    requires '/' !in a
    ensures Split(a + "/" + b) == [a] + Split(b)
    decreases |a|
  {
    if a == [] {
      assert a + "/" + b == "/" + b;
      assert ("/" + b)[1..] == b;
    } else {
      assert forall c :: c in a[1..] ==> c in a;
      SplitCons(a[1..], b);
      assert (a + "/" + b)[1..] == a[1..] + "/" + b;
      assert a[0] in a;
      assert [a[0]] + a[1..] == a;
    }
  }

  /** Splitting components that contain no '/' gives back the components. */
  lemma {:induction false} SplitJoin(parts: seq<string>)
    requires |parts| >= 1
    requires forall k :: 0 <= k < |parts| ==> '/' !in parts[k]
    ensures Split(Join(parts)) == parts
    decreases |parts|
  {
    if |parts| == 1 {
      SplitNoSlash(parts[0]);
    } else {
      SplitJoin(parts[1..]);
      SplitCons(parts[0], Join(parts[1..]));
      assert [parts[0]] + parts[1..] == parts;
    }
  }

  /** A string without '/' is a single component. */
  lemma {:induction false} SplitNoSlash(s: string)
    requires '/' !in s
    ensures Split(s) == [s]
    decreases |s|
  {
    if s != [] {
      assert forall c :: c in s[1..] ==> c in s;
      SplitNoSlash(s[1..]);
      assert s[0] in s;
      assert [s[0]] + s[1..] == s;
    }
  }

  /** A path has one component exactly when no '/' follows its first
      character (within the buffer), and that component is the rest of it. */
  lemma OneComponentIff(cpath: string)
    ensures OneComponent(cpath) <==> |Buffer(cpath)| == 0 || '/' !in Buffer(cpath)[1..]
    ensures OneComponent(cpath) ==> Name(cpath) == (if |Buffer(cpath)| == 0 then "" else Buffer(cpath)[1..])
  {
    var b := Buffer(cpath);
    var s := if |b| == 0 then "" else b[1..];
    if '/' in s {
      JoinSplit(s);
      SplitHasNoSlash(s);
    } else {
      SplitNoSlash(s);
    }
  }
}
