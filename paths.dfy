/** POSIX path handling as Python's `os.path` does it (`posixpath`). */
module Paths {

  /** `os.path.join(a, b)`: an absolute `b` replaces `a`; otherwise one '/' separates them. */
  function Join(a: string, b: string): string
  {
    if |b| > 0 && b[0] == '/' then b
    else if a == [] || a[|a| - 1] == '/' then a + b
    else a + "/" + b
  }

  /** The index just after the last '/' of `p` (0 when there is none). */
  function SplitPoint(p: string): (k: nat)
    ensures k <= |p|
    ensures k > 0 ==> p[k - 1] == '/'
    ensures forall i :: k <= i < |p| ==> p[i] != '/'
  {
    if p == [] then 0
    else if p[|p| - 1] == '/' then |p|
    else SplitPoint(p[..|p| - 1])
  }

  /** `os.path.basename(p)`: what follows the last '/'. */
  function BaseName(p: string): string
  {
    p[SplitPoint(p)..]
  }

  predicate AllSlashes(s: string)
  {
    forall i :: 0 <= i < |s| ==> s[i] == '/'
  }

  /** `s.rstrip('/')`. */
  function StripTrailingSlashes(s: string): string
  {
    if s != [] && s[|s| - 1] == '/' then StripTrailingSlashes(s[..|s| - 1]) else s
  }

  /** What `rstrip('/')` leaves ends in another character, and is empty only for all slashes. */
  lemma {:induction false} StripTrailingSlashesShape(s: string)
    ensures var r := StripTrailingSlashes(s);
      && |r| <= |s| && s[..|r|] == r && AllSlashes(s[|r|..])
      && (r == [] || r[|r| - 1] != '/')
      && (r == [] ==> AllSlashes(s))
    decreases |s|
  {
    if s != [] && s[|s| - 1] == '/' {
      StripTrailingSlashesShape(s[..|s| - 1]);
    }
  }

  /**
   * `os.path.dirname(p)`: everything up to the last '/', with trailing slashes
   * removed unless the head consists of slashes only.
   */
  function DirName(p: string): string
  {
    var head := p[..SplitPoint(p)];
    if head != [] && !AllSlashes(head) then StripTrailingSlashes(head) else head
  }

  /**
   * Joining `dirname(p)` with p's own last component and a further path
   * leads back through p: what precedes `tail`, without its trailing '/',
   * is p itself or `dirname(p) + "/" + basename(p)`, the same directory
   * written with single slashes.
   */
  lemma JoinUnderLastComponent(p: string, tail: string)
    requires IsComponent(BaseName(p))
    ensures var out := Join(DirName(p), BaseName(p) + "/" + tail);
      && |tail| <= |out| && out[|out| - |tail|..] == tail
      && var q := StripTrailingSlashes(out[..|out| - |tail|]);
         q == p || q == DirName(p) + "/" + BaseName(p)
  {
    var b, d := BaseName(p), DirName(p);
    DirNameShape(p);
    if d != [] && d[|d| - 1] != '/' {
      JoinUnderParent(d, b, tail);
    } else {
      JoinUnderRoot(d, b, tail);
    }
  }

  /**
   * The dirname of `p` is either a non-empty path not ending in '/', or the
   * head of `p` up to its last '/' (empty or ending in '/'), which the
   * basename then completes to `p`.
   */
  lemma DirNameShape(p: string)
    ensures var b, d := BaseName(p), DirName(p);
      (d != [] && d[|d| - 1] != '/') || d + b == p
  {
    var k := SplitPoint(p);
    var head := p[..k];
    if head != [] && !AllSlashes(head) {
      StripTrailingSlashesShape(head);
    } else {
      assert head + p[k..] == p;
    }
  }

  /** `JoinUnderLastComponent` when p has a parent directory d. */
  lemma JoinUnderParent(d: string, b: string, tail: string)
    requires d != [] && d[|d| - 1] != '/' && IsComponent(b)
    ensures var out := Join(d, b + "/" + tail);
      && |tail| <= |out| && out[|out| - |tail|..] == tail
      && StripTrailingSlashes(out[..|out| - |tail|]) == d + "/" + b
  {
    var rest := b + "/" + tail;
    assert rest[0] == b[0];
    var out := d + "/" + rest;
    assert Join(d, rest) == out;
    assert out[..|out| - |tail|] == d + "/" + b + "/";
    assert (d + "/" + b + "/")[..|d + "/" + b + "/"| - 1] == d + "/" + b;
    assert (d + "/" + b)[|d + "/" + b| - 1] == b[|b| - 1];
  }

  /** `JoinUnderLastComponent` when p's dirname is p's head itself: empty or ending in '/'. */
  lemma JoinUnderRoot(head: string, b: string, tail: string)
    requires IsComponent(b) && (head == [] || head[|head| - 1] == '/')
    ensures var out := Join(head, b + "/" + tail);
      && |tail| <= |out| && out[|out| - |tail|..] == tail
      && StripTrailingSlashes(out[..|out| - |tail|]) == head + b
  {
    var p, rest := head + b, b + "/" + tail;
    assert rest[0] == b[0];
    var out := head + rest;
    assert Join(head, rest) == out;
    assert out[..|out| - |tail|] == p + "/";
    assert (p + "/")[..|p|] == p;
    assert p[|p| - 1] == b[|b| - 1] != '/';
  }

  /** A file name is a single path component. */
  predicate IsComponent(f: string)
  {
    f != [] && '/' !in f
  }

  lemma {:induction false} SplitPointAppend(x: string, f: string)
    requires x == [] || x[|x| - 1] == '/'
    requires '/' !in f
    ensures SplitPoint(x + f) == |x|
  {
    if f != [] {
      var f' := f[..|f| - 1];
      assert (x + f)[..|x + f| - 1] == x + f';
      SplitPointAppend(x, f');
    } else {
      assert x + f == x;
    }
  }

  /**
   * Joining a directory and a file name puts the file directly under the
   * directory: basename and dirname recover the two parts.
   */
  lemma JoinComponent(d: string, f: string)
    requires IsComponent(f)
    requires d != [] && d[|d| - 1] != '/'
    ensures Join(d, f) == d + "/" + f
    ensures BaseName(Join(d, f)) == f
    ensures DirName(Join(d, f)) == d
  {
    var x := d + "/";
    assert d + "/" + f == x + f;
    SplitPointAppend(x, f);
    assert (x + f)[..|x|] == x;
    assert x[|d| - 1] != '/';
    assert x[..|x| - 1] == d;
    assert StripTrailingSlashes(x) == d;
  }

  /** Whatever the directory, the basename of a joined file name is that name. */
  lemma BaseNameOfJoin(d: string, f: string)
    requires IsComponent(f)
    ensures BaseName(Join(d, f)) == f
  {
    if d == [] || d[|d| - 1] == '/' {
      SplitPointAppend(d, f);
    } else {
      JoinComponent(d, f);
    }
  }

  /** A relative `b` is kept whole at the end of the joined path. */
  lemma JoinEndsWith(a: string, b: string)
    requires b == [] || b[0] != '/'
    ensures |b| <= |Join(a, b)| && Join(a, b)[|Join(a, b)| - |b|..] == b
  {
  }

  /** The separator `Join` puts between a directory and a relative name depends only on the directory. */
  function Separator(a: string): string
  {
    if a == [] || a[|a| - 1] == '/' then "" else "/"
  }

  lemma JoinRelative(a: string, b: string)
    requires b == [] || b[0] != '/'
    ensures Join(a, b) == a + Separator(a) + b
  {
  }

  /** Joining one directory with two relative names gives equal paths only for equal names. */
  lemma JoinCancel(a: string, b: string, c: string)
    requires b == [] || b[0] != '/'
    requires c == [] || c[0] != '/'
    requires Join(a, b) == Join(a, c)
    ensures b == c
  {
    var p := a + Separator(a);
    assert Join(a, b) == p + b && Join(a, c) == p + c;
    assert b == (p + b)[|p|..];
    assert c == (p + c)[|p|..];
  }

  /** Appending to a relative name appends to the joined path. */
  lemma JoinAppend(a: string, b: string, ext: string)
    requires b != [] && b[0] != '/'
    ensures Join(a, b) + ext == Join(a, b + ext)
  {
    assert (b + ext)[0] == b[0];
  }
}
