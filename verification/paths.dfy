/**
 * The two `path/filepath` helpers the migration code relies on, `Base` and
 * `Ext`, with '/' as the only path separator (the Unix behaviour).
 */
module Paths {

  const Separator: char := '/'

  /** Every character of `s` differs from `c`. */
  predicate Free(s: string, c: char) {
    forall i :: 0 <= i < |s| ==> s[i] != c
  }

  /** `p` with its trailing separators removed. */
  function TrimTrailingSeparators(p: string): (t: string)
    ensures |t| <= |p| && t == p[..|t|]
    ensures t == "" || t[|t| - 1] != Separator
    ensures forall i :: |t| <= i < |p| ==> p[i] == Separator
  {
    if |p| > 0 && p[|p| - 1] == Separator then TrimTrailingSeparators(p[..|p| - 1]) else p
  }

  /** The index at which the last separator-free element of `p` starts. */
  function LastElementStart(p: string): (i: nat)
    ensures i <= |p|
    ensures Free(p[i..], Separator)
    ensures i == 0 || p[i - 1] == Separator
  {
    if |p| == 0 || p[|p| - 1] == Separator then |p| else LastElementStart(p[..|p| - 1])
  }

  /**
   * filepath.Base: the last element of the path after trailing separators
   * are dropped; "." for the empty path and "/" for a path of separators only.
   */
  function Base(path: string): (b: string)
    ensures b != ""
    ensures Free(b, Separator) || b == [Separator]
    ensures path == "" ==> b == "."
  {
    if path == "" then "."
    else
      var t := TrimTrailingSeparators(path);
      var e := t[LastElementStart(t)..];
      if e == "" then [Separator] else e
  }

  /**
   * filepath.Ext: the suffix of `path` starting at the last '.' of its final
   * element, or "" when that element has no '.'.
   */
  function Ext(path: string): (e: string)
    ensures e == "" || (e[0] == '.' && Free(e[1..], '.'))
    ensures Free(e, Separator)
    ensures |e| <= |path| && e == path[|path| - |e|..]
  {
    if |path| == 0 || path[|path| - 1] == Separator then ""
    else if path[|path| - 1] == '.' then "."
    else
      var e := Ext(path[..|path| - 1]);
      if e == "" then "" else e + [path[|path| - 1]]
  }

  /** strings.Index for a one-character needle: the first position of `c`, or -1. */
  function IndexOf(s: string, c: char): (i: int)
    ensures -1 <= i < |s|
    ensures i == -1 <==> Free(s, c)
    ensures i >= 0 ==> s[i] == c && Free(s[..i], c)
  {
    if |s| == 0 then -1
    else if s[0] == c then 0
    else
      var j := IndexOf(s[1..], c);
      if j == -1 then -1 else j + 1
  }

  /** The last element of a path that ends in a separator-free name is that name. */
  lemma {:induction false} LastElementOfJoin(dir: string, b: string)
    requires Free(b, Separator)
    ensures LastElementStart(dir + [Separator] + b) == |dir| + 1
    decreases |b|
  {
    var p := dir + [Separator] + b;
    if |b| > 0 {
      assert p[..|p| - 1] == dir + [Separator] + b[..|b| - 1];
      LastElementOfJoin(dir, b[..|b| - 1]);
    }
  }

  /** Base of a non-empty separator-free name is the name itself. */
  lemma BaseOfName(b: string)
    requires b != "" && Free(b, Separator)
    ensures Base(b) == b
  {
    LastElementOfJoin([], b[..|b| - 1]);
    assert [Separator] + b[..|b| - 1] + [b[|b| - 1]] == [Separator] + b;
  }

  /** The directory part of a path never reaches its base name. */
  lemma BaseOfJoin(dir: string, b: string)
    requires b != "" && Free(b, Separator)
    ensures Base(dir + [Separator] + b) == b
  {
    var p := dir + [Separator] + b;
    assert TrimTrailingSeparators(p) == p;
    LastElementOfJoin(dir, b);
    assert p[|dir| + 1..] == b;
  }

  /** Taking the base name twice changes nothing. */
  lemma BaseIdempotent(path: string)
    ensures Base(Base(path)) == Base(path)
  {
    var b := Base(path);
    if b != [Separator] {
      BaseOfName(b);
    } else {
      assert TrimTrailingSeparators(b) == "";
    }
  }

  /** An extension written at the end of a path is the one Ext reports. */
  lemma {:induction false} ExtOfSuffix(p: string, e: string)
    requires |e| > 0 && e[0] == '.'
    requires Free(e[1..], '.') && Free(e, Separator)
    ensures Ext(p + e) == e
    decreases |e|
  {
    var q := p + e;
    var last := e[|e| - 1];
    assert q[|q| - 1] == last && last != Separator;
    if |e| > 1 {
      var e' := e[..|e| - 1];
      assert last == e[1..][|e| - 2] && last != '.';
      assert e'[1..] == e[1..][..|e| - 2];
      assert q[..|q| - 1] == p + e';
      ExtOfSuffix(p, e');
      assert Ext(q) == e' + [last];
      assert e' + [last] == e;
    }
  }

  /** Ext is empty exactly when the last element of the path has no '.'. */
  lemma {:induction false} ExtEmpty(path: string)
    ensures Ext(path) == "" <==> Free(path[LastElementStart(path)..], '.')
    decreases |path|
  {
    if |path| > 0 && path[|path| - 1] != Separator {
      var init := path[..|path| - 1];
      ExtEmpty(init);
      var i := LastElementStart(path);
      assert i == LastElementStart(init);
      assert path[i..] == init[i..] + [path[|path| - 1]];
    }
  }

  /** The first `c` of `a + b` is the head of `b` when `a` holds no `c`. */
  lemma {:induction false} IndexOfAfterFree(a: string, b: string, c: char)
    requires Free(a, c) && |b| > 0 && b[0] == c
    ensures IndexOf(a + b, c) == |a|
    decreases |a|
  {
    if |a| > 0 {
      assert (a + b)[1..] == a[1..] + b;
      IndexOfAfterFree(a[1..], b, c);
    }
  }
}
