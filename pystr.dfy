/**
 * The Python string operations that the upload pipeline relies on, over strings of
 * Unicode scalar values (Dafny's `string`; a Python `str` may also hold surrogates, which
 * neither strict UTF-8 decoding nor a DOCX document can produce):
 * `str.isspace`, `str.strip()`, `"\n".join`, `str.lower()`, and the `str.rfind` that
 * `os.path.splitext` calls. `str.find`, `str.count` and `str.split("\n")` are not called
 * by the pipeline: they define the reference inverse of the join and the facts proved
 * about it.
 */
module PyStr {

  /** The characters for which `c.isspace()` holds: those `str.strip()` removes by default. */
  const Whitespace: set<char> := {
    '\U{0009}', '\U{000A}', '\U{000B}', '\U{000C}', '\U{000D}', '\U{001C}',
    '\U{001D}', '\U{001E}', '\U{001F}', '\U{0020}', '\U{0085}', '\U{00A0}',
    '\U{1680}', '\U{2000}', '\U{2001}', '\U{2002}', '\U{2003}', '\U{2004}',
    '\U{2005}', '\U{2006}', '\U{2007}', '\U{2008}', '\U{2009}', '\U{200A}',
    '\U{2028}', '\U{2029}', '\U{202F}', '\U{205F}', '\U{3000}'
  }

  /** `c.isspace()`. */
  predicate IsSpace(c: char) {
    c in Whitespace
  }

  /** The number of whitespace characters at the front of `s`. */
  function LeadingSpaces(s: string): (n: nat)
    ensures n <= |s|
    ensures forall k :: 0 <= k < n ==> IsSpace(s[k])
    ensures n < |s| ==> !IsSpace(s[n])
  {
    if s == "" || !IsSpace(s[0]) then 0 else 1 + LeadingSpaces(s[1..])
  }

  /** The number of whitespace characters at the end of `s`. */
  function TrailingSpaces(s: string): (n: nat)
    ensures n <= |s|
    ensures forall k :: |s| - n <= k < |s| ==> IsSpace(s[k])
    ensures n < |s| ==> !IsSpace(s[|s| - 1 - n])
  {
    if s == "" || !IsSpace(s[|s| - 1]) then 0 else 1 + TrailingSpaces(s[..|s| - 1])
  }

  /**
   * `s.strip()`: `s` without its longest whitespace prefix and its longest whitespace
   * suffix. The result is a contiguous piece of `s`; it is empty exactly when `s` is
   * all whitespace, and otherwise begins and ends with a non-whitespace character.
   */
  function Strip(s: string): (r: string)
    ensures |r| <= |s|
    ensures LeadingSpaces(s) + |r| <= |s| && r == s[LeadingSpaces(s)..LeadingSpaces(s) + |r|]
    ensures forall k :: LeadingSpaces(s) + |r| <= k < |s| ==> IsSpace(s[k])
    ensures r != "" ==> !IsSpace(r[0]) && !IsSpace(r[|r| - 1])
    ensures r == "" <==> forall k :: 0 <= k < |s| ==> IsSpace(s[k])
  {
    var lead := LeadingSpaces(s);
    var t := s[lead..];
    var r := t[..|t| - TrailingSpaces(t)];
    assert forall k :: lead + |r| <= k < |s| ==> s[k] == t[k - lead];
    r
  }

  /** `s.find(c)`: the index of the first `c` in `s`, or -1 when there is none. */
  function Find(s: string, c: char): (i: int)
    ensures -1 <= i < |s|
    ensures i >= 0 ==> s[i] == c
    ensures forall k :: 0 <= k < |s| && (i < 0 || k < i) ==> s[k] != c
  {
    if s == "" then -1
    else if s[0] == c then 0
    else
      var j := Find(s[1..], c);
      if j < 0 then -1 else j + 1
  }

  /** `s.rfind(c)`: the index of the last `c` in `s`, or -1 when there is none. */
  function RFind(s: string, c: char): (i: int)
    ensures -1 <= i < |s|
    ensures i >= 0 ==> s[i] == c
    ensures forall k :: i < k < |s| ==> s[k] != c
  {
    if s == "" then -1
    else if s[|s| - 1] == c then |s| - 1
    else RFind(s[..|s| - 1], c)
  }

  /**
   * `"\n".join(parts)`: no parts give the empty string, and otherwise the result begins
   * with the first part, followed by a newline when another part comes after it.
   */
  function JoinLines(parts: seq<string>): (r: string)
    ensures |parts| == 0 ==> r == ""
    ensures |parts| > 0 ==> parts[0] <= r
    ensures |parts| > 1 ==> |parts[0]| < |r| && r[|parts[0]|] == '\n'
  {
    if |parts| == 0 then ""
    else if |parts| == 1 then parts[0]
    else parts[0] + "\n" + JoinLines(parts[1..])
  }

  /** `s.split("\n")`: the pieces of `s` between its newlines, at least one of them. */
  function SplitLines(s: string): (r: seq<string>)
    ensures |r| >= 1
    ensures forall j :: 0 <= j < |r| ==> '\n' !in r[j]
    decreases |s|
  {
    var i := Find(s, '\n');
    if i < 0 then [s]
    else
      assert forall k :: 0 <= k < i ==> s[..i][k] != '\n';
      [s[..i]] + SplitLines(s[i + 1..])
  }

  /** The number of occurrences of `c` in `s` (`s.count(c)`). */
  function Count(c: char, s: string): nat {
    if s == "" then 0 else (if s[0] == c then 1 else 0) + Count(c, s[1..])
  }

  /**
   * `c.lower()` for ASCII letters; every other character is kept. The result is never
   * an upper-case ASCII letter, only an upper-case letter is changed, and it becomes
   * the lower-case letter in the same position of the alphabet.
   */
  function LowerChar(c: char): (d: char)
    ensures !('A' <= d <= 'Z')
    ensures d != c <==> 'A' <= c <= 'Z'
    ensures 'A' <= c <= 'Z' ==> d == "abcdefghijklmnopqrstuvwxyz"[c as int - 'A' as int]
  {
    if 'A' <= c <= 'Z' then (c as int - 'A' as int + 'a' as int) as char else c
  }

  /** `s.lower()`, folding ASCII letters: the same length, folded character by character. */
  function Lower(s: string): (r: string)
    ensures |r| == |s|
    ensures forall i :: 0 <= i < |s| ==> r[i] == LowerChar(s[i])
  {
    if s == "" then "" else [LowerChar(s[0])] + Lower(s[1..])
  }

  /** Lower-casing a string with a `.` in front puts the `.` in front of the lower-cased rest. */
  lemma LowerDotted(e: string)
    ensures Lower("." + e) == "." + Lower(e)
  {
    assert ("." + e)[1..] == e;
  }

  /** Lower-casing twice is lower-casing once. */
  lemma LowerIsIdempotent(s: string)
    ensures Lower(Lower(s)) == Lower(s)
  {
    assert forall i :: 0 <= i < |s| ==> Lower(Lower(s))[i] == LowerChar(LowerChar(s[i]));
  }

  /** A string without a newline splits into itself alone. */
  lemma SplitWithoutNewline(s: string)
    requires '\n' !in s
    ensures SplitLines(s) == [s]
  {
  }

  /** The first piece ends at the first newline. */
  lemma {:induction false} SplitAtFirstNewline(p: string, t: string)
    requires '\n' !in p
    ensures SplitLines(p + "\n" + t) == [p] + SplitLines(t)
  {
    var s := p + "\n" + t;
    var i := Find(s, '\n');
    assert s[|p|] == '\n';
    assert forall k :: 0 <= k < |p| ==> s[k] == p[k];
    assert i == |p|;
    assert s[..i] == p;
    assert s[i + 1..] == t;
  }

  /**
   * `"\n".join` is undone by `split("\n")`: a non-empty list of newline-free pieces is
   * recovered exactly, in order, from their join.
   */
  lemma {:induction false} SplitJoin(parts: seq<string>)
    requires |parts| > 0
    requires forall j :: 0 <= j < |parts| ==> '\n' !in parts[j]
    ensures SplitLines(JoinLines(parts)) == parts
  {
    if |parts| == 1 {
      SplitWithoutNewline(parts[0]);
    } else {
      SplitJoin(parts[1..]);
      SplitAtFirstNewline(parts[0], JoinLines(parts[1..]));
      assert [parts[0]] + parts[1..] == parts;
    }
  }

  /** Joining a piece in front of a non-empty list puts one newline after it. */
  lemma JoinCons(head: string, tail: seq<string>)
    requires |tail| >= 1
    ensures JoinLines([head] + tail) == head + "\n" + JoinLines(tail)
  {
    assert ([head] + tail)[1..] == tail;
  }

  /** A string is the part before a newline, the newline, and the part after it. */
  lemma SplitAround(s: string, i: int)
    requires 0 <= i < |s| && s[i] == '\n'
    ensures s == s[..i] + "\n" + s[i + 1..]
  {
    assert s == s[..i] + [s[i]] + s[i + 1..];
  }

  /** `split("\n")` is undone by `"\n".join`, for every string. */
  lemma {:induction false} JoinSplit(s: string)
    ensures JoinLines(SplitLines(s)) == s
    decreases |s|
  {
    var i := Find(s, '\n');
    if i < 0 {
      assert SplitLines(s) == [s];
    } else {
      var head, rest := s[..i], s[i + 1..];
      var tail := SplitLines(rest);
      assert SplitLines(s) == [head] + tail;
      JoinSplit(rest);
      JoinCons(head, tail);
      SplitAround(s, i);
    }
  }

  /** Counting distributes over concatenation. */
  lemma {:induction false} CountAppend(c: char, a: string, b: string)
    ensures Count(c, a + b) == Count(c, a) + Count(c, b)
  {
    if a == "" {
      assert a + b == b;
    } else {
      assert (a + b)[1..] == a[1..] + b;
      CountAppend(c, a[1..], b);
    }
  }

  /** A string holds one newline fewer than the pieces it splits into. */
  lemma {:induction false} NewlinesSeparatePieces(s: string)
    ensures Count('\n', s) == |SplitLines(s)| - 1
    decreases |s|
  {
    var i := Find(s, '\n');
    if i < 0 {
      NoOccurrenceCountsZero('\n', s);
    } else {
      var rest := s[i + 1..];
      NewlinesSeparatePieces(rest);
      assert s == s[..i] + ("\n" + rest);
      CountAppend('\n', s[..i], "\n" + rest);
      assert forall k :: 0 <= k < i ==> s[..i][k] != '\n';
      NoOccurrenceCountsZero('\n', s[..i]);
      assert ("\n" + rest)[1..] == rest;
    }
  }

  /** The newlines inside the parts themselves. */
  function NewlinesIn(parts: seq<string>): nat {
    if parts == [] then 0 else Count('\n', parts[0]) + NewlinesIn(parts[1..])
  }

  /**
   * `"\n".join` adds exactly one newline between consecutive parts, whatever newlines
   * the parts hold themselves.
   */
  lemma {:induction false} JoinedNewlines(parts: seq<string>)
    requires |parts| > 0
    ensures Count('\n', JoinLines(parts)) == NewlinesIn(parts) + |parts| - 1
  {
    if |parts| == 1 {
      assert parts[1..] == [];
    } else {
      var rest := JoinLines(parts[1..]);
      JoinedNewlines(parts[1..]);
      CountAppend('\n', parts[0] + "\n", rest);
      CountAppend('\n', parts[0], "\n");
      assert "\n"[1..] == "";
    }
  }

  /** A character that does not occur is counted zero times. */
  lemma {:induction false} NoOccurrenceCountsZero(c: char, s: string)
    requires forall k :: 0 <= k < |s| ==> s[k] != c
    ensures Count(c, s) == 0
  {
    if s != "" {
      NoOccurrenceCountsZero(c, s[1..]);
    }
  }

  /**
   * `strip()` removes exactly the maximal whitespace ends: a piece `x[i..j]` that
   * begins and ends with non-whitespace and has only whitespace around it is the
   * stripped string.
   */
  lemma StripIsUnique(x: string, i: int, j: int)
    requires 0 <= i < j <= |x|
    requires forall k :: 0 <= k < i ==> IsSpace(x[k])
    requires forall k :: j <= k < |x| ==> IsSpace(x[k])
    requires !IsSpace(x[i]) && !IsSpace(x[j - 1])
    ensures Strip(x) == x[i..j]
  {
  }

  /** The characters of a padded string, by position: the padding, then `s`, then more padding. */
  lemma PaddedAt(s: string, pre: string, post: string, k: int)
    requires 0 <= k < |pre + s + post|
    ensures k < |pre| ==> (pre + s + post)[k] == pre[k]
    ensures |pre| <= k < |pre| + |s| ==> (pre + s + post)[k] == s[k - |pre|]
    ensures |pre| + |s| <= k ==> (pre + s + post)[k] == post[k - |pre| - |s|]
  {
  }

  /** Whitespace added at either end does not change the stripped string. */
  lemma StripIgnoresPadding(s: string, pre: string, post: string)
    requires forall k :: 0 <= k < |pre| ==> IsSpace(pre[k])
    requires forall k :: 0 <= k < |post| ==> IsSpace(post[k])
    ensures Strip(pre + s + post) == Strip(s)
  {
    var x := pre + s + post;
    var r := Strip(s);
    var i := |pre| + LeadingSpaces(s);
    var j := i + |r|;
    forall k | 0 <= k < |x| && (k < i || j <= k || r == "") ensures IsSpace(x[k]) {
      PaddedAt(s, pre, post, k);
    }
    if r != "" {
      assert x[i..j] == r by {
        forall k | i <= k < j ensures x[k] == r[k - i] {
          PaddedAt(s, pre, post, k);
        }
      }
      PaddedAt(s, pre, post, i);
      PaddedAt(s, pre, post, j - 1);
      StripIsUnique(x, i, j);
    }
  }
}
