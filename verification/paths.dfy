/** The companion progress file's path, derived from the document's path (POSIX rules). */
module Paths {

  /** The index of the last occurrence of `c` in `s`, or -1 (Python's `str.rfind`). */
  function LastIndexOf(s: string, c: char): (r: int)
    ensures -1 <= r < |s|
    ensures r >= 0 ==> s[r] == c
    ensures forall i :: r < i < |s| ==> s[i] != c
  {
    if s == [] then -1
    else if s[|s| - 1] == c then |s| - 1
    else LastIndexOf(s[..|s| - 1], c)
  }

  /**
    `os.path.splitext(p)`: the extension starts at the last dot of the last path
    component, unless everything in that component before the dot is a dot.
  */
  function SplitExt(p: string): (r: (string, string))
    ensures r.0 + r.1 == p
    ensures r.1 != [] ==> r.1[0] == '.' && forall i :: 1 <= i < |r.1| ==> r.1[i] != '.' && r.1[i] != '/'
    ensures var sep := LastIndexOf(p, '/');
      r.1 != [] ==> exists i :: sep < i < |r.0| && p[i] != '.'
    ensures var sep := LastIndexOf(p, '/');
      r.1 == [] ==> forall d :: sep < d < |p| && p[d] == '.' ==> forall i :: sep < i < d ==> p[i] == '.'
  {
    var sep := LastIndexOf(p, '/');
    var dot := LastIndexOf(p, '.');
    if dot > sep && exists i :: sep < i < dot && p[i] != '.' then (p[..dot], p[dot..])
    else (p, "")
  }

  const ProgressSuffix: string := "_progress.json"

  /** The companion file of document `p`: its path without extension, plus `_progress.json`. */
  function ProgressPath(p: string): (r: string)
    ensures |ProgressSuffix| <= |r| && r[|r| - |ProgressSuffix|..] == ProgressSuffix
    ensures r[..|r| - |ProgressSuffix|] + SplitExt(p).1 == p
  {
    SplitExt(p).0 + ProgressSuffix
  }

  /** `os.path.basename(p)`: what follows the last separator. */
  function Basename(p: string): (r: string)
    ensures '/' !in r
    ensures |r| <= |p| && p == p[..|p| - |r|] + r
    ensures |r| < |p| ==> p[|p| - |r| - 1] == '/'
  {
    p[LastIndexOf(p, '/') + 1..]
  }

  /** Searching a concatenation from the right finds the match in the tail first. */
  lemma {:induction false} LastIndexOfAppend(a: string, b: string, c: char)
    ensures LastIndexOf(a + b, c) == if LastIndexOf(b, c) >= 0 then |a| + LastIndexOf(b, c) else LastIndexOf(a, c)
  {
    if b == [] {
      assert a + b == a;
    } else {
      assert (a + b)[..|a + b| - 1] == a + b[..|b| - 1];
      LastIndexOfAppend(a, b[..|b| - 1], c);
    }
  }

  /** Splitting a companion path again gives back the `.json` extension and the `_progress` stem. */
  lemma SplitExtOfProgressName(stem: string)
    ensures SplitExt(stem + ProgressSuffix) == (stem + "_progress", ".json")
  {
    var p := stem + ProgressSuffix;
    LastIndexOfAppend(stem, ProgressSuffix, '/');
    LastIndexOfAppend(stem, ProgressSuffix, '.');
    var d := LastIndexOf(ProgressSuffix, '.');
    assert ProgressSuffix[9] == '.';
    assert d == 9;
    assert LastIndexOf(ProgressSuffix, '/') == -1;
    var sep, dot := LastIndexOf(p, '/'), LastIndexOf(p, '.');
    assert sep == LastIndexOf(stem, '/') && sep < |stem|;
    assert dot == |stem| + 9;
    assert p[|stem|] == '_' && sep < |stem| < dot;
    assert p[..dot] == stem + "_progress";
    assert p[dot..] == ".json";
  }

  /** The companion path of `p` has the extension `.json` and the stem of `p` followed by `_progress`. */
  lemma ProgressPathSplits(p: string)
    ensures SplitExt(ProgressPath(p)) == (SplitExt(p).0 + "_progress", ".json")
  {
    SplitExtOfProgressName(SplitExt(p).0);
  }

  /** Saving progress never overwrites the document it belongs to. */
  lemma ProgressPathIsNotSource(p: string)
    ensures ProgressPath(p) != p
  {
  }
}
