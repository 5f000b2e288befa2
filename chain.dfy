/** The cache-directory chain of src/fscache.c: before touching a cached
    path, `fscache_mkdir` and `fscache_update` create every intermediate
    directory below the cache directory by cutting the path buffer at each
    '/' in turn, calling mkdir on what is left, and putting the '/' back. */
module Chain {
  import opened Common

  /** A C string read out of a buffer: everything before the first NUL. */
  function CStr(b: seq<char>): (s: string)
    ensures s <= b && '\0' !in s
    ensures |s| < |b| ==> b[|s|] == '\0'
  {
    if b == [] || b[0] == '\0' then [] else [b[0]] + CStr(b[1..])
  }

  /** A buffer that ends in NUL right after `j` NUL-free characters holds the
      C string of those characters. */
  lemma {:induction false} CStrAtNul(b: seq<char>, j: nat)
    requires j < |b| && b[j] == '\0' && '\0' !in b[..j]
    ensures CStr(b) == b[..j]
  {
    if j > 0 {
      assert b[0] in b[..j];
      assert '\0' !in b[1..][..j - 1] by {
        assert b[1..][..j - 1] == b[1..j];
        forall c | c in b[1..j] ensures c in b[..j] { }
      }
      CStrAtNul(b[1..], j - 1);
      assert b[..j] == [b[0]] + b[1..][..j - 1];
    }
  }

  /** A string without NUL is its own C string. */
  lemma {:induction false} CStrNoNul(s: string)
    requires '\0' !in s
    ensures CStr(s) == s
  {
    if s != [] {
      assert s[0] in s;
      assert forall c :: c in s[1..] ==> c in s;
      CStrNoNul(s[1..]);
    }
  }

  /** `snprintf(path, PATH_MAX, "%s%s", dir, rel)`: both C strings joined,
      cut to PATH_MAX - 1 characters so that the NUL fits. */
  function CachePath(dir: string, rel: string): (p: string)
    ensures '\0' !in p && |p| < PATH_MAX
    ensures p <= CStr(dir) + CStr(rel) && |p| == Min(|CStr(dir) + CStr(rel)|, PATH_MAX - 1)
    ensures |CStr(dir) + CStr(rel)| < PATH_MAX ==> p == CStr(dir) + CStr(rel)
  {
    var whole := CStr(dir) + CStr(rel);
    assert '\0' !in whole by {
      forall c | c in whole ensures c != '\0' {
        assert c in CStr(dir) || c in CStr(rel);
      }
    }
    var p := whole[..Min(|whole|, PATH_MAX - 1)];
    assert forall c :: c in p ==> c in whole;
    p
  }

  /** The prefixes `s[..j]` for every '/' at a position j >= from, in
      ascending j: the directories the walk creates. */
  function DirChain(s: string, from: nat): seq<string>
    decreases |s| - from
  {
    if from >= |s| then []
    else (if s[from] == '/' then [s[..from]] else []) + DirChain(s, from + 1)
  }

  /** The intermediate directories for a cached object: the walk starts one
      character past the cache directory, so the '/' joining the two is
      skipped. */
  function IntermediateDirs(dir: string, rel: string): seq<string> {
    DirChain(CachePath(dir, rel), |CStr(dir)| + 1)
  }

  /** Every element of the chain is the prefix of `s` ending just before a
      '/' at or after `from`, so it is shorter than `s`. */
  lemma {:induction false} DirChainBounds(s: string, from: nat)
    ensures forall k :: 0 <= k < |DirChain(s, from)| ==>
              var p := DirChain(s, from)[k];
              from <= |p| < |s| && p == s[..|p|] && s[|p|] == '/'
    decreases |s| - from
  {
    if from < |s| {
      DirChainBounds(s, from + 1);
    }
  }

  /** A prefix is created exactly when a '/' at or after `from` ends it. */
  lemma {:induction false} DirChainMember(s: string, from: nat, p: string)
    ensures p in DirChain(s, from) <==> exists j :: from <= j < |s| && s[j] == '/' && p == s[..j]
    decreases |s| - from
  {
    if from < |s| {
      DirChainMember(s, from + 1, p);
      if p == s[..from] && s[from] == '/' {
        assert p in DirChain(s, from);
      }
      if exists j :: from <= j < |s| && s[j] == '/' && p == s[..j] {
        var j :| from <= j < |s| && s[j] == '/' && p == s[..j];
        if j > from {
          assert p in DirChain(s, from + 1);
        }
      }
    }
  }

  /** Parents come before children: each created directory is a proper
      prefix of every one created after it. */
  lemma {:induction false} DirChainOrdered(s: string, from: nat)
    ensures forall a, b :: 0 <= a < b < |DirChain(s, from)| ==>
              |DirChain(s, from)[a]| < |DirChain(s, from)[b]| && DirChain(s, from)[a] <= DirChain(s, from)[b]
    decreases |s| - from
  {
    if from < |s| {
      DirChainOrdered(s, from + 1);
      DirChainBounds(s, from + 1);
    }
  }

  /** Skipping a stretch without '/' skips nothing from the chain. */
  lemma {:induction false} DirChainSkip(s: string, a: nat, b: nat)
    requires a <= b <= |s|
    requires forall k :: a <= k < b ==> s[k] != '/'
    ensures DirChain(s, a) == DirChain(s, b)
    decreases b - a
  {
    if a < b {
      DirChainSkip(s, a + 1, b);
    }
  }

  /** `b` is a zero-filled buffer holding the C string `s`. */
  ghost predicate Holds(b: seq<char>, s: string) {
    && |s| < |b| && b[..|s|] == s && '\0' !in s
    && forall i :: |s| <= i < |b| ==> b[i] == '\0'
  }

  /** `strchr(b + from, '/')`: the first '/' at or after `from`, looking no
      further than the terminating NUL. */
  function FirstSlash(b: seq<char>, from: nat): (r: Option<nat>)
    ensures r.Some? ==> from <= r.value < |b| && b[r.value] == '/'
    decreases |b| - from
  {
    if from >= |b| || b[from] == '\0' then None
    else if b[from] == '/' then Some(from)
    else FirstSlash(b, from + 1)
  }

  /** On a buffer holding `s`, strchr finds the first '/' of `s` after
      `from`, and finds none exactly when `s` has none there. */
  lemma {:induction false} FirstSlashHolds(b: seq<char>, s: string, from: nat)
    requires Holds(b, s) && from <= |s|
    ensures FirstSlash(b, from).None? ==> forall k :: from <= k < |s| ==> s[k] != '/'
    ensures FirstSlash(b, from).Some? ==>
              FirstSlash(b, from).value < |s| && forall k :: from <= k < FirstSlash(b, from).value ==> s[k] != '/'
    decreases |s| - from
  {
    if from < |s| {
      assert b[from] == s[from];
      assert s[from] in s;
      if s[from] != '/' {
        FirstSlashHolds(b, s, from + 1);
      }
    }
  }

  /** The walk of src/fscache.c over a path buffer, starting at `from`: at
      each '/' the buffer is cut, the C string left is recorded as the
      directory to create, and the '/' is restored. The directories come
      out as DirChain says, and the buffer ends as it began. */
  method CreateChain(buf: array<char>, from: nat, ghost s: string) returns (made: seq<string>)
    requires Holds(buf[..], s) && from < buf.Length
    modifies buf
    ensures buf[..] == old(buf[..])
    ensures made == DirChain(s, from)
  {
    var tmp := from;
    made := [];
    while buf[tmp] != '\0'
      invariant from <= tmp < buf.Length
      invariant buf[..] == old(buf[..])
      invariant made + DirChain(s, tmp) == DirChain(s, from)
      decreases |s| - tmp
    {
      var slash := FirstSlash(buf[..], tmp);
      FirstSlashHolds(buf[..], s, tmp);
      if slash.None? {
        DirChainSkip(s, tmp, |s|);
        break;
      }
      var j := slash.value;
      DirChainSkip(s, tmp, j);
      assert DirChain(s, j) == [s[..j]] + DirChain(s, j + 1);
      buf[j] := '\0';
      assert buf[..][..j] == s[..j];
      assert '\0' !in s[..j] by {
        forall c | c in s[..j] ensures c in s { }
      }
      CStrAtNul(buf[..], j);
      made := made + [CStr(buf[..])];
      buf[j] := '/';
      assert buf[..] == old(buf[..]);
      tmp := j + 1;
    }
    assert DirChain(s, tmp) == [] by {
      if tmp < |s| {
        assert buf[..][tmp] == s[tmp];
        assert s[tmp] in s;
      }
    }
  }

  /** Below a cache directory, the directories created for `rel` are the
      cache directory followed by each prefix of `rel` that ends before one
      of its '/' (a leading '/' excepted). */
  lemma IntermediateDirsOfRel(dir: string, rel: string, p: string)
    requires '\0' !in dir && '\0' !in rel && |dir + rel| < PATH_MAX
    ensures p in IntermediateDirs(dir, rel) <==> exists j :: 0 < j < |rel| && rel[j] == '/' && p == dir + rel[..j]
  {
    CStrNoNul(dir);
    CStrNoNul(rel);
    var full := dir + rel;
    assert CachePath(dir, rel) == full;
    DirChainMember(full, |dir| + 1, p);
    if exists j :: |dir| + 1 <= j < |full| && full[j] == '/' && p == full[..j] {
      var j :| |dir| + 1 <= j < |full| && full[j] == '/' && p == full[..j];
      assert rel[j - |dir|] == '/' && p == dir + rel[..j - |dir|];
    }
    if exists j :: 0 < j < |rel| && rel[j] == '/' && p == dir + rel[..j] {
      var j :| 0 < j < |rel| && rel[j] == '/' && p == dir + rel[..j];
      assert full[|dir| + j] == '/' && p == full[..|dir| + j];
    }
  }

  /** Every intermediate directory lies strictly inside the final path: it
      is a proper prefix that a '/' follows, and longer than the cache
      directory, so the final mkdir is never one of them. */
  lemma IntermediateDirsInsidePath(dir: string, rel: string)
    ensures forall k :: 0 <= k < |IntermediateDirs(dir, rel)| ==>
              var p := IntermediateDirs(dir, rel)[k];
              |CStr(dir)| < |p| < |CachePath(dir, rel)| && p <= CachePath(dir, rel)
              && CachePath(dir, rel)[|p|] == '/'
    ensures CachePath(dir, rel) !in IntermediateDirs(dir, rel)
  {
    DirChainBounds(CachePath(dir, rel), |CStr(dir)| + 1);
  }

  /** For the cache directory "/c" and the relative path "/a/b/f", the walk
      creates "/c/a" and then "/c/a/b". */
  lemma IntermediateDirsExample()
    ensures IntermediateDirs("/c", "/a/b/f") == ["/c/a", "/c/a/b"]
  {
    CStrNoNul("/c");
    CStrNoNul("/a/b/f");
    var full := "/c/a/b/f";
    assert CachePath("/c", "/a/b/f") == full;
    assert DirChain(full, 7) == [];
    assert full[6] == '/' && full[..6] == "/c/a/b";
    assert DirChain(full, 6) == ["/c/a/b"];
    assert DirChain(full, 5) == ["/c/a/b"];
    assert full[4] == '/' && full[..4] == "/c/a";
    assert DirChain(full, 4) == ["/c/a", "/c/a/b"];
    assert DirChain(full, 3) == ["/c/a", "/c/a/b"];
  }
}
