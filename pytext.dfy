/**
 * The Python string and path primitives that generate_index.py relies on:
 * `str.rfind`, `os.path.splitext` (POSIX flavour), `str.lower`,
 * `str.upper` and `str.replace(c, '')`. Case mapping covers ASCII letters.
 */
module PyText {

  /** `s.rfind(c)`: the last index holding `c`, or -1. */
  function RFind(s: string, c: char): (i: int)
    ensures -1 <= i < |s|
    ensures 0 <= i ==> s[i] == c
    ensures forall k :: i < k < |s| ==> s[k] != c
  {
    if |s| == 0 then -1
    else if s[|s| - 1] == c then |s| - 1
    else RFind(s[..|s| - 1], c)
  }

  /**
   * Whether some character strictly between the last separator and the last
   * dot is not a dot: leading dots of a file name do not start an extension.
   */
  predicate StemBeforeDot(p: string, sep: int, dot: int)
    requires -1 <= sep < dot <= |p|
  {
    exists k :: sep < k < dot && p[k] != '.'
  }

  /**
   * `os.path.splitext(p)`: the extension runs from the last dot to the end,
   * provided that dot follows the last '/' and something other than a dot
   * precedes it within the last path component; otherwise it is empty.
   */
  function SplitExt(p: string): (r: (string, string))
    ensures r.0 + r.1 == p
    ensures r.1 == "" || (r.1[0] == '.' && '.' !in r.1[1..] && '/' !in r.1)
    ensures r.1 != "" <==>
      (RFind(p, '/') < RFind(p, '.') && StemBeforeDot(p, RFind(p, '/'), RFind(p, '.')))
  {
    var sep := RFind(p, '/');
    var dot := RFind(p, '.');
    if sep < dot && StemBeforeDot(p, sep, dot) then
      assert forall k :: 0 <= k < |p| - dot ==> p[dot..][k] == p[dot + k];
      (p[..dot], p[dot..])
    else
      (p, "")
  }

  /** The extension `os.path.splitext` finds. */
  function Ext(p: string): (e: string)
    ensures |e| <= |p| && e == p[|p| - |e|..]
    ensures e == "" || (e[0] == '.' && '.' !in e[1..])
  {
    SplitExt(p).1
  }

  function LowerChar(c: char): char
  {
    if 'A' <= c <= 'Z' then (c as int + 32) as char else c
  }

  function UpperChar(c: char): char
  {
    if 'a' <= c <= 'z' then (c as int - 32) as char else c
  }

  /** `s.lower()` on ASCII letters. */
  function Lower(s: string): (r: string)
    ensures |r| == |s|
  {
    if s == [] then [] else Lower(s[..|s| - 1]) + [LowerChar(s[|s| - 1])]
  }

  /** `s.upper()` on ASCII letters. */
  function Upper(s: string): (r: string)
    ensures |r| == |s|
  {
    if s == [] then [] else Upper(s[..|s| - 1]) + [UpperChar(s[|s| - 1])]
  }

  /** Lower-casing works character by character. */
  lemma {:induction false} LowerPointwise(s: string)
    ensures forall k :: 0 <= k < |s| ==> Lower(s)[k] == LowerChar(s[k])
  {
    if s != [] {
      LowerPointwise(s[..|s| - 1]);
    }
  }

  /** Upper-casing works character by character. */
  lemma {:induction false} UpperPointwise(s: string)
    ensures forall k :: 0 <= k < |s| ==> Upper(s)[k] == UpperChar(s[k])
  {
    if s != [] {
      UpperPointwise(s[..|s| - 1]);
    }
  }

  /** `xs` is obtained from `ys` by deleting elements. */
  ghost predicate IsSubsequence<T>(xs: seq<T>, ys: seq<T>)
    decreases |ys|
  {
    xs == [] ||
    (ys != [] &&
     ((xs[0] == ys[0] && IsSubsequence(xs[1..], ys[1..])) || IsSubsequence(xs, ys[1..])))
  }

  /**
   * `s.replace(c, '')`: every occurrence of `c` removed, the rest in order.
   * No `c` left, kept in order, and one character fewer per `c` removed:
   * these three determine the result.
   */
  function Without(s: string, c: char): (r: string)
    ensures c !in r
    ensures IsSubsequence(r, s)
    ensures |r| + multiset(s)[c] == |s|
    ensures c !in s ==> r == s
  {
    if s == [] then []
    else
      var rest := Without(s[1..], c);
      assert s == [s[0]] + s[1..];
      assert multiset(s) == multiset{s[0]} + multiset(s[1..]);
      if s[0] == c then rest
      else
        var r := [s[0]] + rest;
        assert r[0] == s[0] && r[1..] == rest;
        r
  }

  /** Lower-casing keeps the last position of a character that is not an upper-case letter. */
  lemma {:induction false} RFindLower(s: string, c: char)
    requires !('A' <= c <= 'Z') && !('a' <= c <= 'z')
    ensures RFind(Lower(s), c) == RFind(s, c)
  {
    if |s| > 0 {
      RFindLower(s[..|s| - 1], c);
    }
  }

  /** Lower-casing commutes with taking a prefix. */
  lemma LowerPrefix(p: string, i: int)
    requires 0 <= i <= |p|
    ensures Lower(p)[..i] == Lower(p[..i])
  {
    var a, b := Lower(p)[..i], Lower(p[..i]);
    LowerPointwise(p);
    LowerPointwise(p[..i]);
    forall k | 0 <= k < i
      ensures a[k] == b[k]
    {
      assert a[k] == LowerChar(p[k]);
    }
  }

  /** Lower-casing commutes with dropping a prefix. */
  lemma LowerSuffix(p: string, i: int)
    requires 0 <= i <= |p|
    ensures Lower(p)[i..] == Lower(p[i..])
  {
    var a, b := Lower(p)[i..], Lower(p[i..]);
    LowerPointwise(p);
    LowerPointwise(p[i..]);
    forall k | 0 <= k < |p| - i
      ensures a[k] == b[k]
    {
      assert a[k] == LowerChar(p[i + k]);
    }
  }

  /** Lower-casing neither creates nor removes dots, so the stem test is unchanged. */
  lemma StemBeforeDotLower(p: string, sep: int, dot: int)
    requires -1 <= sep < dot <= |p|
    ensures StemBeforeDot(Lower(p), sep, dot) <==> StemBeforeDot(p, sep, dot)
  {
    LowerPointwise(p);
    forall k | sep < k < dot
      ensures (Lower(p)[k] != '.') <==> (p[k] != '.')
    {
    }
  }

  /** Lower-casing a path and then splitting it is splitting it and lower-casing both parts. */
  lemma SplitExtLower(p: string)
    ensures SplitExt(Lower(p)) == (Lower(SplitExt(p).0), Lower(SplitExt(p).1))
  {
    RFindLower(p, '/');
    RFindLower(p, '.');
    var sep, dot := RFind(p, '/'), RFind(p, '.');
    if sep < dot {
      StemBeforeDotLower(p, sep, dot);
      if StemBeforeDot(p, sep, dot) {
        LowerPrefix(p, dot);
        LowerSuffix(p, dot);
      }
    }
  }

  /** Two names that agree up to the case of ASCII letters have the same lower-cased extension. */
  lemma ExtCaseInsensitive(a: string, b: string)
    requires Lower(a) == Lower(b)
    ensures Lower(Ext(a)) == Lower(Ext(b))
  {
    SplitExtLower(a);
    SplitExtLower(b);
  }

  /** Upper-casing maps the first character on its own and the rest as a whole. */
  lemma UpperHeadTail(s: string)
    requires s != ""
    ensures Upper(s)[0] == UpperChar(s[0])
    ensures Upper(s)[1..] == Upper(s[1..])
  {
    UpperPointwise(s);
    UpperPointwise(s[1..]);
  }

  /** Upper-casing leaves dots where they were. */
  lemma {:induction false} UpperKeepsDots(s: string)
    ensures ('.' in Upper(s)) <==> ('.' in s)
  {
    UpperPointwise(s);
    if '.' in s {
      var k :| 0 <= k < |s| && s[k] == '.';
      assert Upper(s)[k] == '.';
    }
    if '.' in Upper(s) {
      var k :| 0 <= k < |s| && Upper(s)[k] == '.';
      assert s[k] == '.';
    }
  }
}
