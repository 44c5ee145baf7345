/**
  The parts of Python's `str` that the scripts use, on strings as sequences of
  code points: whitespace, `strip()`, `startswith`/`endswith`, `split(sep)`,
  `sep.join(...)`, slicing with negative indices, and left-justified padding as `str.format` does it.
 */
module Strings {
  import opened Wrappers

  /** `c.isspace()` in Python; the regular-expression class `\s` of a `str` pattern is the same set. */
  predicate IsSpace(c: char)
  {
    || ('\t' <= c <= '\r')
    || ('\U{1C}' <= c <= ' ')
    || c == '\U{85}' || c == '\U{A0}' || c == '\U{1680}'
    || ('\U{2000}' <= c <= '\U{200A}')
    || c == '\U{2028}' || c == '\U{2029}' || c == '\U{202F}' || c == '\U{205F}' || c == '\U{3000}'
  }

  predicate AllSpace(s: string)
  {
    forall k :: 0 <= k < |s| ==> IsSpace(s[k])
  }

  /** The number of whitespace characters at the start of `s`. */
  function LeadingSpaces(s: string): (n: nat)
    ensures n <= |s|
    ensures AllSpace(s[..n])
    ensures n < |s| ==> !IsSpace(s[n])
  {
    if s != [] && IsSpace(s[0]) then
      var m := LeadingSpaces(s[1..]);
      assert forall k :: 1 <= k < 1 + m ==> s[k] == s[1..][k - 1];
      1 + m
    else 0
  }

  /** The number of whitespace characters at the end of `s`. */
  function TrailingSpaces(s: string): (n: nat)
    ensures n <= |s|
    ensures AllSpace(s[|s| - n..])
    ensures n < |s| ==> !IsSpace(s[|s| - 1 - n])
  {
    if s != [] && IsSpace(s[|s| - 1]) then
      var m := TrailingSpaces(s[..|s| - 1]);
      assert forall k :: |s| - 1 - m <= k < |s| - 1 ==> s[k] == s[..|s| - 1][k];
      1 + m
    else 0
  }

  /** `s.strip()`: `s` without its leading and trailing whitespace. */
  function Strip(s: string): (r: string)
    ensures r == [] || (!IsSpace(r[0]) && !IsSpace(r[|r| - 1]))
  {
    var t := s[LeadingSpaces(s)..];
    t[..|t| - TrailingSpaces(t)]
  }

  /** Whitespace put in front of a string that starts with a non-space is exactly what is counted. */
  lemma {:induction false} LeadingSpacesOf(pre: string, t: string)
    requires AllSpace(pre) && (t == [] || !IsSpace(t[0]))
    ensures LeadingSpaces(pre + t) == |pre|
  {
    if pre != [] {
      assert (pre + t)[0] == pre[0];
      assert (pre + t)[1..] == pre[1..] + t;
      LeadingSpacesOf(pre[1..], t);
    } else {
      assert pre + t == t;
    }
  }

  /** Whitespace put after a string that ends with a non-space is exactly what is counted. */
  lemma {:induction false} TrailingSpacesOf(t: string, post: string)
    requires AllSpace(post) && t != [] && !IsSpace(t[|t| - 1])
    ensures TrailingSpaces(t + post) == |post|
  {
    var s := t + post;
    if post != [] {
      assert s[|s| - 1] == post[|post| - 1];
      assert s[..|s| - 1] == t + post[..|post| - 1];
      TrailingSpacesOf(t, post[..|post| - 1]);
    } else {
      assert s == t;
      assert s[|s| - 1] == t[|t| - 1];
    }
  }

  /** Strip removes exactly the surrounding whitespace: whatever whitespace
      surrounds a core that begins and ends with a non-space, the core is what is left. */
  lemma StripSurrounded(pre: string, core: string, post: string)
    requires AllSpace(pre) && AllSpace(post)
    requires core == [] || (!IsSpace(core[0]) && !IsSpace(core[|core| - 1]))
    ensures Strip(pre + core + post) == core
  {
    var s := pre + core + post;
    if core == [] {
      var blank := pre + post;
      assert s == blank;
      assert AllSpace(blank) by {
        forall k | 0 <= k < |blank| ensures IsSpace(blank[k]) {
          if k < |pre| { assert blank[k] == pre[k]; } else { assert blank[k] == post[k - |pre|]; }
        }
      }
      assert LeadingSpaces(blank) == |blank| by { LeadingSpacesOf(blank, ""); assert blank + "" == blank; }
    } else {
      assert s == pre + (core + post);
      LeadingSpacesOf(pre, core + post);
      var t := s[|pre|..];
      assert t == core + post;
      TrailingSpacesOf(core, post);
      assert t[..|t| - |post|] == core;
    }
  }

  /** A line made only of whitespace strips to the empty string. */
  lemma StripBlank(s: string)
    requires AllSpace(s)
    ensures Strip(s) == ""
  {
    StripSurrounded(s, "", "");
    assert s + "" + "" == s;
  }

  /** `s[i:i+|t|] == t`: `t` occurs in `s` at index `i`. */
  predicate OccursAt(s: string, i: int, t: string)
  {
    0 <= i && i + |t| <= |s| && s[i..i + |t|] == t
  }

  /** A slice of an occurrence of `t` is the same slice of `t`. */
  lemma SliceOfOccurrence(s: string, j: nat, t: string, a: nat, b: nat)
    requires OccursAt(s, j, t) && a <= b <= |t|
    ensures s[j + a..j + b] == t[a..b]
  {
    forall k | 0 <= k < b - a
      ensures s[j + a..j + b][k] == t[a..b][k]
    {
      assert s[j + a..j + b][k] == s[j + a + k] == s[j..j + |t|][a + k];
    }
  }

  /** An occurrence begins with the first character of what occurs. */
  lemma OccursAtFirst(s: string, j: int, t: string)
    requires t != [] && OccursAt(s, j, t)
    ensures s[j] == t[0]
  {
    assert s[j..j + |t|][0] == s[j];
  }

  /** A character other than the first of `t` does not begin an occurrence of `t`. */
  lemma NotOccursAt(s: string, j: nat, t: string)
    requires t != [] && j < |s| && s[j] != t[0]
    ensures !OccursAt(s, j, t)
  {
    if j + |t| <= |s| {
      assert s[j..j + |t|][0] == s[j];
    }
  }

  predicate StartsWith(s: string, prefix: string)
  {
    OccursAt(s, 0, prefix)
  }

  predicate EndsWith(s: string, suffix: string)
  {
    OccursAt(s, |s| - |suffix|, suffix)
  }

  /** The first index at or after `from` where `sep` occurs in `s` (what `str.find` returns). */
  function FindFrom(s: string, sep: string, from: nat): (r: Option<nat>)
    requires sep != []
    ensures r.Some? ==> from <= r.value && OccursAt(s, r.value, sep)
    ensures r.Some? ==> forall k :: from <= k < r.value ==> !OccursAt(s, k, sep)
    ensures r.None? ==> forall k :: from <= k ==> !OccursAt(s, k, sep)
    decreases |s| - from
  {
    if from + |sep| > |s| then None
    else if s[from..from + |sep|] == sep then Some(from)
    else FindFrom(s, sep, from + 1)
  }

  /** `s.split(sep)` for a non-empty separator: the pieces between the
      successive leftmost non-overlapping occurrences of `sep`. */
  function Split(s: string, sep: string): (parts: seq<string>)
    requires sep != []
    ensures |parts| >= 1
    decreases |s|
  {
    match FindFrom(s, sep, 0)
    case None => [s]
    case Some(i) => [s[..i]] + Split(s[i + |sep|..], sep)
  }

  /** `sep.join(parts)`. */
  function Join(parts: seq<string>, sep: string): string
  {
    if |parts| == 0 then ""
    else if |parts| == 1 then parts[0]
    else parts[0] + sep + Join(parts[1..], sep)
  }

  /** No occurrence of `sep` within `s`. */
  predicate Free(s: string, sep: string)
  {
    forall k :: 0 <= k < |s| ==> !OccursAt(s, k, sep)
  }

  /** A two-character separator whose characters differ, such as `", "` or `"; "`:
      two of its occurrences can never overlap. */
  predicate Unbordered(sep: string)
  {
    |sep| == 2 && sep[0] != sep[1]
  }

  /** FindFrom returns the first occurrence at or after `from`. */
  lemma {:induction false} FindFromFirst(s: string, sep: string, from: nat, i: nat)
    requires sep != [] && from <= i && OccursAt(s, i, sep)
    requires forall k :: from <= k < i ==> !OccursAt(s, k, sep)
    ensures FindFrom(s, sep, from) == Some(i)
    decreases i - from
  {
    if from < i {
      assert !OccursAt(s, from, sep);
      FindFromFirst(s, sep, from + 1, i);
    }
  }

  /** A separator put after a piece that does not contain it begins the first occurrence. */
  lemma FirstOccurrenceAfter(a: string, sep: string, b: string)
    requires Unbordered(sep) && Free(a, sep)
    ensures FindFrom(a + sep + b, sep, 0) == Some(|a|)
  {
    var s := a + sep + b;
    assert OccursAt(s, |a|, sep) by { assert s[|a|..|a| + 2] == sep; }
    forall k | 0 <= k < |a| ensures !OccursAt(s, k, sep) {
      if k + 2 <= |a| {
        assert a[k..k + 2] == s[k..k + 2];
        assert !OccursAt(a, k, sep);
      } else {
        assert s[k + 1] == sep[0];
        assert s[k..k + 2][1] == s[k + 1];
      }
    }
    FindFromFirst(s, sep, 0, |a|);
  }

  /** Splitting a join of separator-free pieces gives the pieces back. */
  lemma {:induction false} SplitJoin(parts: seq<string>, sep: string)
    requires Unbordered(sep) && |parts| >= 1
    requires forall k :: 0 <= k < |parts| ==> Free(parts[k], sep)
    ensures Split(Join(parts, sep), sep) == parts
  {
    if |parts| == 1 {
      assert Join(parts, sep) == parts[0];
      assert FindFrom(parts[0], sep, 0) == None;
    } else {
      var a, rest := parts[0], Join(parts[1..], sep);
      assert Join(parts, sep) == a + sep + rest;
      FirstOccurrenceAfter(a, sep, rest);
      var s := a + sep + rest;
      assert s[..|a|] == a && s[|a| + 2..] == rest;
      SplitJoin(parts[1..], sep);
    }
  }

  /** An occurrence of a two-character string is a matter of two characters. */
  lemma OccursAtTwo(s: string, k: int, sep: string)
    requires |sep| == 2
    ensures OccursAt(s, k, sep) <==> 0 <= k && k + 2 <= |s| && s[k] == sep[0] && s[k + 1] == sep[1]
  {
    if 0 <= k && k + 2 <= |s| {
      assert s[k..k + 2][0] == s[k] && s[k..k + 2][1] == s[k + 1];
      if s[k] == sep[0] && s[k + 1] == sep[1] { assert s[k..k + 2] == sep; }
    }
  }

  /** A two-character separator absent from `a` and `b` is absent from `a + b`
      unless it is made of the last character of `a` and the first of `b`. */
  lemma FreeConcat(a: string, b: string, sep: string)
    requires |sep| == 2 && Free(a, sep) && Free(b, sep)
    requires a != [] && b != [] ==> !(a[|a| - 1] == sep[0] && b[0] == sep[1])
    ensures Free(a + b, sep)
  {
    var s := a + b;
    forall k | 0 <= k < |s| ensures !OccursAt(s, k, sep) {
      OccursAtTwo(s, k, sep);
      if k + 2 <= |a| {
        OccursAtTwo(a, k, sep);
      } else if k >= |a| && k + 2 <= |s| {
        OccursAtTwo(b, k - |a|, sep);
      }
    }
  }

  /** `c not in s`, spelled out by position. */
  predicate Lacks(s: string, c: char)
  {
    forall k :: 0 <= k < |s| ==> s[k] != c
  }

  /** A one-character separator found in `s` is that character. */
  lemma FoundChar(s: string, c: char, i: nat)
    requires OccursAt(s, i, [c])
    ensures i < |s| && s[i] == c
  {
    assert s[i..i + 1][0] == s[i];
  }

  /** Nowhere a one-character separator occurs, that character is absent. */
  lemma NotFoundChar(s: string, c: char)
    requires FindFrom(s, [c], 0).None?
    ensures Lacks(s, c)
  {
    forall k | 0 <= k < |s| ensures s[k] != c {
      assert !OccursAt(s, k, [c]);
      assert s[k..k + 1] == [s[k]];
    }
  }

  /** The last piece of a split on a one-character separator is the separator-free end of
      the string; with more than one piece, a separator stands just before it, and with one
      piece it is the whole string. */
  lemma {:induction false} SplitLast(s: string, c: char, p: seq<string>)
    requires p == Split(s, [c])
    ensures |p[|p| - 1]| <= |s| && p[|p| - 1] == s[|s| - |p[|p| - 1]|..]
    ensures Lacks(p[|p| - 1], c)
    ensures |p| >= 2 ==> |p[|p| - 1]| < |s| && s[|s| - |p[|p| - 1]| - 1] == c
    ensures |p| == 1 ==> p[0] == s
    decreases |s|
  {
    match FindFrom(s, [c], 0)
    case None =>
      NotFoundChar(s, c);
    case Some(i) =>
      FoundChar(s, c, i);
      var rest := s[i + 1..];
      var q := Split(rest, [c]);
      SplitLast(rest, c, q);
      assert p == [s[..i]] + q;
      var l := q[|q| - 1];
      assert p[|p| - 1] == l;
      assert s[|s| - |l|..] == rest[|rest| - |l|..];
      if |q| >= 2 {
        assert s[|s| - |l| - 1] == rest[|rest| - |l| - 1];
      } else {
        assert l == rest;
      }
  }

  /** A suffix free of `c` starts after every `c` in the string. */
  lemma ShortTail(s: string, l: string, c: char, j: nat)
    requires |l| <= |s| && l == s[|s| - |l|..] && j < |s| && s[j] == c
    requires Lacks(l, c)
    ensures |l| < |s| - j
  {
  }

  /** `s.lstrip(c)`: `s` without its leading run of `c`. */
  function LStrip(s: string, c: char): (r: string)
    ensures |r| <= |s| && r == s[|s| - |r|..]
    ensures forall k :: 0 <= k < |s| - |r| ==> s[k] == c
    ensures r == [] || r[0] != c
  {
    if s != [] && s[0] == c then LStrip(s[1..], c) else s
  }

  /** How Python normalises one bound of a slice `s[i:j]` for a sequence of length `n`. */
  function SliceBound(i: int, n: nat): (b: nat)
    ensures b <= n
  {
    if i < 0 then (if i + n < 0 then 0 else i + n)
    else if i > n then n
    else i
  }

  /** Python's slice `s[i:j]`: negative bounds count from the end, bounds are clamped,
      and an empty range gives the empty string. */
  function PySlice(s: string, i: int, j: int): (r: string)
    ensures |r| <= |s|
  {
    var a, b := SliceBound(i, |s|), SliceBound(j, |s|);
    if a < b then s[a..b] else ""
  }

  /** `s[a:-1]` keeps everything from index `a` up to, not including, the last character. */
  lemma SliceDropLast(s: string, a: nat)
    requires a + 1 <= |s|
    ensures PySlice(s, a, -1) == s[a..|s| - 1]
  {
  }

  function Spaces(n: nat): (r: string)
    ensures |r| == n && AllSpace(r)
  {
    seq(n, _ => ' ')
  }

  /** Formatting a string `s` to width `w` with `str.format`: left-aligned, padded with spaces to width `w`, never cut. */
  function PadRight(s: string, w: int): (r: string)
    ensures |r| == if |s| < w then w else |s|
    ensures r[..|s|] == s && AllSpace(r[|s|..])
  {
    if |s| < w then s + Spaces(w - |s|) else s
  }
}
