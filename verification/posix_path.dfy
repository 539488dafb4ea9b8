/** The three `os.path` helpers the downloader uses, on POSIX path strings:
    `join`, `dirname` and `basename`. */
module PosixPath {

  predicate NoSlash(s: string) {
    forall i :: 0 <= i < |s| ==> s[i] != '/'
  }

  predicate AllSlashes(s: string) {
    forall i :: 0 <= i < |s| ==> s[i] == '/'
  }

  /** `os.path.join(a, b)`: an absolute `b` replaces `a`; otherwise a separator
      is inserted unless `a` is empty or already ends with one. */
  function Join(a: string, b: string): string {
    if |b| > 0 && b[0] == '/' then b
    else if |a| == 0 || a[|a| - 1] == '/' then a + b
    else a + "/" + b
  }

  /** `p.rfind('/') + 1`: the index just past the last separator, 0 if none. */
  function AfterLastSlash(p: string): (k: nat)
    ensures k <= |p|
    ensures k == 0 || p[k - 1] == '/'
    ensures NoSlash(p[k..])
  {
    if |p| == 0 then 0
    else if p[|p| - 1] == '/' then |p|
    else
      var k := AfterLastSlash(p[..|p| - 1]);
      assert p[k..] == p[..|p| - 1][k..] + [p[|p| - 1]];
      k
  }

  /** `head.rstrip('/')`. */
  function StripTrailingSlashes(s: string): (r: string)
    ensures |r| <= |s| && r == s[..|r|]
    ensures |r| == 0 || r[|r| - 1] != '/'
    ensures AllSlashes(s[|r|..])
  {
    if |s| > 0 && s[|s| - 1] == '/' then
      var r := StripTrailingSlashes(s[..|s| - 1]);
      assert s[|r|..] == s[..|s| - 1][|r|..] + ['/'];
      r
    else s
  }

  /** `os.path.basename(p)`. */
  function BaseName(p: string): string {
    p[AfterLastSlash(p)..]
  }

  /** `os.path.dirname(p)`: everything up to the last separator, with trailing
      separators removed unless the head is nothing but separators. */
  function DirName(p: string): string {
    var head := p[..AfterLastSlash(p)];
    if |head| > 0 && !AllSlashes(head) then StripTrailingSlashes(head) else head
  }

  /** The compressed artifact name `download_file` writes:
      `os.path.join(os.path.dirname(p), os.path.basename(p) + ".gz")`. */
  function CompressedPath(savePath: string): string {
    Join(DirName(savePath), BaseName(savePath) + ".gz")
  }

  /** `join` keeps its second part as the tail of the result; an absolute
      second part replaces the first, otherwise the first is kept as the head. */
  lemma JoinParts(a: string, b: string)
    ensures var r := Join(a, b);
            && |b| <= |r| && r[|r| - |b|..] == b
            && (|b| > 0 && b[0] == '/' ==> r == b)
            && ((|b| == 0 || b[0] != '/') ==> |a| <= |r| && r[..|a|] == a)
  {
  }

  /** `dirname` is a prefix of the path that ends at or before the last
      separator; only separators are dropped between it and the base name,
      and it ends in a separator only when it consists of nothing else. */
  lemma DirNamePrefix(p: string)
    ensures var r := DirName(p);
            && |r| <= AfterLastSlash(p) && r == p[..|r|]
            && AllSlashes(p[|r|..AfterLastSlash(p)])
            && (!AllSlashes(r) ==> r[|r| - 1] != '/')
  {
    var k := AfterLastSlash(p);
    var head := p[..k];
    if |head| > 0 && !AllSlashes(head) {
      var r := StripTrailingSlashes(head);
      assert DirName(p) == r;
      assert p[..|r|] == head[..|r|];
      assert p[|r|..k] == head[|r|..];
    } else {
      assert DirName(p) == head;
      assert p[k..k] == [];
    }
  }

  /** The compressed artifact name ends in the base name of the save path
      followed by ".gz", whatever the directory part looks like. */
  lemma CompressedPathTail(savePath: string)
    ensures var r := CompressedPath(savePath);
            var tail := BaseName(savePath) + ".gz";
            && |tail| <= |r| && r[|r| - |tail|..] == tail
            && |r| >= 3 && r[|r| - 3..] == ".gz"
  {
    var tail := BaseName(savePath) + ".gz";
    var r := CompressedPath(savePath);
    JoinParts(DirName(savePath), tail);
    assert r[|r| - 3..] == r[|r| - |tail|..][|tail| - 3..];
  }

  /** The compressed name is the save path with ".gz" appended whenever the
      separator before the base name is not doubled (a doubled one, as in
      "a//b", is collapsed by `dirname`). */
  lemma CompressedPathAppendsGz(p: string)
    requires var k := AfterLastSlash(p); k <= 1 || p[k - 2] != '/'
    ensures CompressedPath(p) == p + ".gz"
  {
    var d := DirNameCases(p);
    JoinAppendsGz(d, BaseName(p));
  }

  /** Joining a slash-free name plus ".gz" onto a directory. */
  lemma JoinAppendsGz(d: string, base: string)
    requires NoSlash(base)
    ensures Join(d, base + ".gz") ==
      (if |d| == 0 || d[|d| - 1] == '/' then d + base else d + "/" + base) + ".gz"
  {
    var b := base + ".gz";
    assert b[0] != '/' by {
      if |base| == 0 { assert b == ".gz"; }
    }
  }

  /** `dirname` of a path whose last separator is not doubled: the path is the
      directory and the base name, rejoined by `join`'s rule. */
  lemma DirNameCases(p: string) returns (d: string)
    requires var k := AfterLastSlash(p); k <= 1 || p[k - 2] != '/'
    ensures d == DirName(p)
    ensures NoSlash(BaseName(p))
    ensures p == if |d| == 0 || d[|d| - 1] == '/' then d + BaseName(p) else d + "/" + BaseName(p)
  {
    var k := AfterLastSlash(p);
    d := DirName(p);
    assert p == p[..k] + p[k..];
    if k == 0 {
      assert d == "";
    } else if k == 1 {
      assert p[..k] == "/";
      assert d == "/";
    } else {
      StripSingleTrailingSlash(p[..k]);
      assert d == p[..k - 1];
      assert p[..k] == p[..k - 1] + "/";
    }
  }

  lemma StripSingleTrailingSlash(head: string)
    requires |head| >= 2 && head[|head| - 1] == '/' && head[|head| - 2] != '/'
    ensures !AllSlashes(head)
    ensures StripTrailingSlashes(head) == head[..|head| - 1]
  {
    var init := head[..|head| - 1];
    assert init[|init| - 1] != '/';
  }

  /** Past the separator that joins `a` to a slash-free `b`, nothing but `b`. */
  lemma {:induction false} AfterLastSlashOfJoined(a: string, b: string)
    requires NoSlash(b)
    ensures AfterLastSlash(a + "/" + b) == |a| + 1
  {
    if |b| == 0 {
      assert a + "/" + b == a + "/";
    } else {
      var p := a + "/" + b;
      var b' := b[..|b| - 1];
      assert p[..|p| - 1] == a + "/" + b';
      AfterLastSlashOfJoined(a, b');
    }
  }

  /** A path `join(dir, name)` with a slash-free `name` and a non-empty `dir`
      that does not end in a separator has ".gz" appended by compression. */
  lemma CompressedJoinAppendsGz(dir: string, name: string)
    requires |dir| > 0 && dir[|dir| - 1] != '/'
    requires |name| > 0 && NoSlash(name)
    ensures Join(dir, name) == dir + "/" + name
    ensures CompressedPath(Join(dir, name)) == Join(dir, name) + ".gz"
  {
    var p := dir + "/" + name;
    AfterLastSlashOfJoined(dir, name);
    assert p[|dir| - 1] == dir[|dir| - 1];
    CompressedPathAppendsGz(p);
  }
}
