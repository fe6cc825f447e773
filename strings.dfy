/**
 * The string operations of Rust's `str` that the core relies on:
 * `starts_with`, `ends_with`, `find`, `split(char)`, `join`, and
 * lowercasing. Strings are sequences of characters and every index is a
 * character index, where Rust's indices count bytes. For `find` followed by
 * slicing at the index found, the two agree: a match of a UTF-8 pattern
 * always starts on a character boundary. The one slice of the core that can
 * cut inside a character, the parameter name of a malformed segment, is
 * discussed with `RequestExt.ParamName`.
 */
module Strings {
  import opened Wrappers

  /** `s.starts_with(p)` */
  predicate StartsWith(s: string, p: string)
    ensures StartsWith(s, p) <==> |p| <= |s| && forall i :: 0 <= i < |p| ==> s[i] == p[i]
  {
    |p| <= |s| && s[..|p|] == p
  }

  /** `s.ends_with(suffix)` */
  predicate EndsWith(s: string, suffix: string)
    ensures EndsWith(s, suffix) <==> |suffix| <= |s| && forall i :: 0 <= i < |suffix| ==> s[|s| - |suffix| + i] == suffix[i]
  {
    |suffix| <= |s| && s[|s| - |suffix|..] == suffix
  }

  /** `pat` occurs in `s` starting at index `i`. */
  predicate OccursAt(s: string, pat: string, i: nat) {
    i + |pat| <= |s| && s[i..i + |pat|] == pat
  }

  /** The first occurrence of `pat` in `s` at an index no smaller than `i`. */
  function FindFrom(s: string, pat: string, i: nat): (r: Option<nat>)
    requires i <= |s|
    ensures r.Some? ==> i <= r.value && OccursAt(s, pat, r.value)
    ensures r.Some? ==> forall j :: i <= j < r.value ==> !OccursAt(s, pat, j)
    ensures r.None? ==> forall j :: i <= j <= |s| ==> !OccursAt(s, pat, j)
    decreases |s| - i
  {
    if OccursAt(s, pat, i) then Some(i)
    else if i == |s| then None
    else FindFrom(s, pat, i + 1)
  }

  /** `s.find(pat)`: the index of the first occurrence of `pat`, if any. */
  function Find(s: string, pat: string): (r: Option<nat>)
    ensures r.Some? ==> OccursAt(s, pat, r.value)
    ensures r.Some? ==> forall j :: 0 <= j < r.value ==> !OccursAt(s, pat, j)
    ensures r.None? <==> forall j :: 0 <= j <= |s| ==> !OccursAt(s, pat, j)
  {
    FindFrom(s, pat, 0)
  }

  /** `segments.join(sep)`: the segments with `sep` between neighbours; the result starts with the first segment. */
  function Join(segments: seq<string>, sep: char): (r: string)
    ensures segments == [] ==> r == []
    ensures segments != [] ==> |segments[0]| <= |r| && r[..|segments[0]|] == segments[0]
    decreases |segments|
  {
    if |segments| == 0 then []
    else if |segments| == 1 then segments[0]
    else
      var r := segments[0] + [sep] + Join(segments[1..], sep);
      assert r[..|segments[0]|] == segments[0];
      r
  }

  /**
   * `s.split(sep).collect()`: the maximal runs of `s` free of `sep`. As in
   * Rust there is always at least one segment, possibly empty, and joining
   * the segments again gives back `s`.
   */
  function Split(s: string, sep: char): (r: seq<string>)
    ensures |r| >= 1
    ensures forall i :: 0 <= i < |r| ==> sep !in r[i]
    ensures Join(r, sep) == s
    decreases |s|
  {
    if s == [] then [[]]
    else
      var rest := Split(s[1..], sep);
      if s[0] == sep then
        assert ([[]] + rest)[1..] == rest;
        [[]] + rest
      else
        var r := [[s[0]] + rest[0]] + rest[1..];
        assert r[1..] == rest[1..];
        assert forall i :: 1 <= i < |r| ==> r[i] == rest[i];
        r
  }

  /** Splitting a joined sequence of separator-free segments gives the segments back. */
  lemma {:induction false} SplitJoin(segments: seq<string>, sep: char)
    requires |segments| >= 1
    requires forall i :: 0 <= i < |segments| ==> sep !in segments[i]
    ensures Split(Join(segments, sep), sep) == segments
    decreases |segments|
  {
    if |segments| == 1 {
      SplitFree(segments[0], sep);
    } else {
      SplitJoin(segments[1..], sep);
      SplitAfter(segments[0], Join(segments[1..], sep), sep);
      assert segments == [segments[0]] + segments[1..];
    }
  }

  /** A separator-free string is a single segment. */
  lemma {:induction false} SplitFree(s: string, sep: char)
    requires sep !in s
    ensures Split(s, sep) == [s]
    decreases |s|
  {
    if s != [] {
      SplitFree(s[1..], sep);
      assert [s[0]] + s[1..] == s;
    }
  }

  /** Splitting `a + [sep] + t` with `a` separator-free puts `a` in front of the segments of `t`. */
  lemma {:induction false} SplitAfter(a: string, t: string, sep: char)
    requires sep !in a
    ensures Split(a + [sep] + t, sep) == [a] + Split(t, sep)
    decreases |a|
  {
    if a == [] {
      assert a + [sep] + t == [sep] + t;
      assert ([sep] + t)[1..] == t;
    } else {
      var s := a + [sep] + t;
      assert s[0] == a[0] && s[1..] == a[1..] + [sep] + t;
      SplitAfter(a[1..], t, sep);
      assert [a[0]] + a[1..] == a;
    }
  }

  /** Appending one more segment appends the separator and the segment. */
  lemma {:induction false} JoinAppend(segments: seq<string>, last: string, sep: char)
    requires |segments| >= 1
    ensures Join(segments + [last], sep) == Join(segments, sep) + [sep] + last
    decreases |segments|
  {
    if |segments| == 1 {
      assert (segments + [last])[1..] == [last];
    } else {
      assert (segments + [last])[1..] == segments[1..] + [last];
      JoinAppend(segments[1..], last, sep);
    }
  }

  /**
   * `split(sep).next()`: the first segment is the longest prefix free of
   * `sep`, followed by `sep` or by the end of the string.
   */
  lemma SplitFirst(s: string, sep: char)
    ensures StartsWith(s, Split(s, sep)[0]) && sep !in Split(s, sep)[0]
    ensures |Split(s, sep)[0]| == |s| || s[|Split(s, sep)[0]|] == sep
  {
    var segments := Split(s, sep);
    var first := segments[0];
    if |segments| > 1 {
      assert s == first + [sep] + Join(segments[1..], sep);
      assert s[..|first|] == first;
    }
  }

  /** ASCII lowercase of one character; every other character is left alone. */
  function LowerChar(c: char): (r: char)
    ensures 'A' <= c <= 'Z' ==> r as int == c as int + 32
    ensures !('A' <= c <= 'Z') ==> r == c
  {
    if 'A' <= c <= 'Z' then (c as int + 32) as char else c
  }

  /** `s.to_lowercase()`, on the ASCII letters. */
  function ToLower(s: string): (r: string)
    ensures |r| == |s|
    ensures forall i :: 0 <= i < |s| ==> r[i] == LowerChar(s[i])
  {
    seq(|s|, i requires 0 <= i < |s| => LowerChar(s[i]))
  }

  /** Lowercasing twice is lowercasing once. */
  lemma ToLowerIdempotent(s: string)
    ensures ToLower(ToLower(s)) == ToLower(s)
  {
  }
}
