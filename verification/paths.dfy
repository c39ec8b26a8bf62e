/** The POSIX path-string functions used to relocate a `Filename` value next to
    the configuration file: `os.path.basename`, `os.path.dirname` and a two-argument
    `os.path.join`. They are pure string operations; nothing touches a file system. */
module Paths {

  predicate AllSlashes(s: string) {
    forall i :: 0 <= i < |s| ==> s[i] == '/'
  }

  /** `p.rfind('/') + 1`: where the last path component starts. */
  function ComponentStart(p: string): (i: nat)
    ensures i <= |p| && '/' !in p[i..]
    ensures i == 0 || p[i - 1] == '/'
  {
    if |p| == 0 || p[|p| - 1] == '/' then |p|
    else
      var i := ComponentStart(p[..|p| - 1]);
      assert p[i..] == p[..|p| - 1][i..] + [p[|p| - 1]];
      i
  }

  /** `os.path.basename(p)`: the text after the last slash. */
  function Basename(p: string): (r: string)
    ensures |r| <= |p| && '/' !in r && r == p[|p| - |r|..]
  {
    p[ComponentStart(p)..]
  }

  /** `s.rstrip('/')`. */
  function RStripSlashes(s: string): (r: string)
    ensures r <= s && AllSlashes(s[|r|..])
    ensures |r| == 0 || r[|r| - 1] != '/'
  {
    if |s| > 0 && s[|s| - 1] == '/' then
      var r := RStripSlashes(s[..|s| - 1]);
      assert s[|r|..] == s[..|s| - 1][|r|..] + "/";
      r
    else s
  }

  /** `os.path.dirname(p)`: everything before the last component, with trailing slashes
      removed unless the directory is made of slashes only (the root). */
  function Dirname(p: string): (r: string)
    ensures r <= p && |r| <= ComponentStart(p)
    ensures AllSlashes(p[|r|..ComponentStart(p)])
    ensures r == "" || AllSlashes(r) || r[|r| - 1] != '/'
  {
    var head := p[..ComponentStart(p)];
    if |head| > 0 && !AllSlashes(head) then
      var r := RStripSlashes(head);
      assert p[|r|..ComponentStart(p)] == head[|r|..];
      r
    else head
  }

  /** `os.path.join(a, b)`: an absolute `b` replaces `a`; otherwise the two are glued
      with one slash unless `a` is empty or already ends with a slash. */
  function Join(a: string, b: string): string {
    if |b| > 0 && b[0] == '/' then b
    else if |a| == 0 || a[|a| - 1] == '/' then a + b
    else a + "/" + b
  }

  /** After a slash (or at the start), a slash-free tail is the last component. */
  lemma {:induction false} ComponentStartOfTail(x: string, b: string)
    requires '/' !in b && (|x| == 0 || x[|x| - 1] == '/')
    ensures ComponentStart(x + b) == |x|
    decreases |b|
  {
    if |b| > 0 {
      var p := x + b;
      assert p[|p| - 1] == b[|b| - 1];
      assert p[..|p| - 1] == x + b[..|b| - 1];
      ComponentStartOfTail(x, b[..|b| - 1]);
    } else {
      assert x + b == x;
    }
  }

  /** The joined path's base name is the slash-free name that was joined on. */
  lemma BasenameOfJoin(d: string, b: string)
    requires '/' !in b
    ensures Basename(Join(d, b)) == b
  {
    if |d| == 0 || d[|d| - 1] == '/' {
      ComponentStartOfTail(d, b);
    } else {
      assert d + "/" + b == (d + "/") + b;
      ComponentStartOfTail(d + "/", b);
    }
  }

  /** Joining a slash-free name onto a directory keeps that directory: the joined
      path's directory is the one the name was joined onto. */
  lemma DirnameOfJoin(a: string, b: string)
    requires '/' !in b
    ensures Dirname(Join(Dirname(a), b)) == Dirname(a)
  {
    var d := Dirname(a);
    if |d| == 0 {
      ComponentStartOfTail(d, b);
      assert d + b == b;
    } else if AllSlashes(d) {
      ComponentStartOfTail(d, b);
      assert (d + b)[..|d|] == d;
    } else {
      var j := d + "/" + b;
      assert j == (d + "/") + b;
      ComponentStartOfTail(d + "/", b);
      var head := j[..|d| + 1];
      assert head == d + "/";
      assert head[|head| - 1] == '/' && head[..|head| - 1] == d;
      assert head[|d| - 1] != '/';
      assert RStripSlashes(head) == RStripSlashes(d);
    }
  }

  /** The document at `/a/b/conf.txt` with `Value: relative/other.img` relocates the
      value to `/a/b/other.img`. */
  lemma RelocationExample()
    ensures Join(Dirname("/a/b/conf.txt"), Basename("relative/other.img")) == "/a/b/other.img"
  {
    DirnameExample();
    BasenameExample();
    JoinExample();
  }

  lemma DirnameExample()
    ensures Dirname("/a/b/conf.txt") == "/a/b"
  {
    var p := "/a/b/conf.txt";
    assert p == "/a/b/" + "conf.txt";
    ComponentStartOfTail("/a/b/", "conf.txt");
    var head := p[..5];
    assert head == "/a/b/" && head[1] != '/';
    assert head[..4] == "/a/b";
    assert RStripSlashes(head) == RStripSlashes("/a/b") == "/a/b";
  }

  lemma BasenameExample()
    ensures Basename("relative/other.img") == "other.img"
  {
    var v := "relative/other.img";
    assert v == "relative/" + "other.img";
    ComponentStartOfTail("relative/", "other.img");
    assert v[9..] == "other.img";
  }

  lemma JoinExample()
    ensures Join("/a/b", "other.img") == "/a/b/other.img"
  {
    assert Join("/a/b", "other.img") == "/a/b" + "/" + "other.img";
  }
}
