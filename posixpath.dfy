/**
 * `os.path.splitext` on a POSIX host, which the upload pipeline uses to find a file's
 * extension. It is CPython's `genericpath._splitext` with `/` as the separator and no
 * alternative separator.
 */
module PosixPath {
  import opened PyStr

  /** Some index in `[lo, hi)` of `p` holds a character other than `.`. */
  predicate HasNonDot(p: string, lo: int, hi: int)
    requires 0 <= lo <= hi <= |p|
  {
    exists k :: lo <= k < hi && p[k] != '.'
  }

  /**
   * `os.path.splitext(p)`: `(root, ext)` with `root + ext == p`. The extension starts at
   * the last `.` of the last path component, provided that component has a character
   * other than `.` in front of it (so `.bashrc` and `..pdf` have no extension); it is
   * empty or a `.` followed by neither `.` nor `/`.
   */
  function SplitExt(p: string): (r: (string, string))
    ensures r.0 + r.1 == p
    ensures r.1 == "" || (r.1[0] == '.' && '.' !in r.1[1..] && '/' !in r.1)
  {
    var sepIndex := RFind(p, '/');
    var dotIndex := RFind(p, '.');
    if dotIndex > sepIndex && HasNonDot(p, sepIndex + 1, dotIndex) then
      assert forall k :: 0 <= k < |p| - dotIndex ==> p[dotIndex..][k] == p[dotIndex + k];
      (p[..dotIndex], p[dotIndex..])
    else
      (p, "")
  }

  /**
   * A name made of a stem without `/` that has some character other than `.`, a `.`,
   * and a suffix without `.` or `/` splits into exactly that stem and `.` plus that
   * suffix. This holds whatever dots the stem contains or starts with (`my.cv.PDF` and
   * `.cv.PDF` both have extension `.PDF`).
   */
  lemma SplitExtOfStemAndSuffix(stem: string, e: string)
    requires HasNonDot(stem, 0, |stem|) && '/' !in stem
    requires '.' !in e && '/' !in e
    ensures SplitExt(stem + "." + e) == (stem, "." + e)
  {
    var p := stem + "." + e;
    var dotIndex := RFind(p, '.');
    assert p[|stem|] == '.';
    assert forall k :: |stem| < k < |p| ==> p[k] == e[k - |stem| - 1];
    assert dotIndex == |stem|;
    assert forall k :: 0 <= k < |stem| ==> p[k] == stem[k];
    assert forall k :: 0 <= k < |p| ==> p[k] != '/';
    assert RFind(p, '/') == -1;
    var k :| 0 <= k < |stem| && stem[k] != '.';
    assert p[k] != '.';
    assert HasNonDot(p, 0, dotIndex);
    assert p[..dotIndex] == stem;
    assert p[dotIndex..] == "." + e;
  }

  /**
   * A name that is one or more `.` followed by a suffix without `.` or `/` (a "hidden"
   * file such as `.pdf`, or `..pdf`) has no extension at all.
   */
  lemma HiddenNameHasNoExtension(dots: string, e: string)
    requires dots != "" && forall k :: 0 <= k < |dots| ==> dots[k] == '.'
    requires '.' !in e && '/' !in e
    ensures SplitExt(dots + e) == (dots + e, "")
  {
    var p := dots + e;
    assert forall k :: 0 <= k < |dots| ==> p[k] == '.';
    assert forall k :: |dots| <= k < |p| ==> p[k] == e[k - |dots|];
    assert forall k :: |dots| <= k < |p| ==> p[k] != '.' && p[k] != '/';
    assert p[|dots| - 1] == '.';
    assert RFind(p, '.') == |dots| - 1;
    assert RFind(p, '/') == -1;
    assert !HasNonDot(p, 0, |dots| - 1);
  }

  /** A name without any `.` has no extension. */
  lemma NameWithoutDotHasNoExtension(p: string)
    requires '.' !in p
    ensures SplitExt(p) == (p, "")
  {
  }
}
