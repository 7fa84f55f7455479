/** Python's `str.split(sep)` with an explicit one-character separator, and its
    inverse `sep.join(parts)`. Splitting never yields an empty list: a string
    without the separator splits into itself, and every occurrence of the
    separator adds one (possibly empty) segment. */
module PyStr {

  /** `s.split(sep)` */
  function Split(s: string, sep: char): (parts: seq<string>)
    ensures |parts| >= 1
    ensures forall i :: 0 <= i < |parts| ==> sep !in parts[i]
    decreases |s|
  {
    if s == [] then [[]]
    else
      var rest := Split(s[1..], sep);
      if s[0] == sep then [[]] + rest
      else [[s[0]] + rest[0]] + rest[1..]
  }

  /** `sep.join(parts)` for a non-empty list of parts */
  function Join(parts: seq<string>, sep: char): (s: string)
    requires |parts| >= 1
    ensures |s| >= |parts[0]| && s[..|parts[0]|] == parts[0]
    ensures |parts| >= 2 ==> |s| > |parts[0]| && s[|parts[0]|] == sep
    decreases |parts|
  {
    if |parts| == 1 then parts[0] else parts[0] + [sep] + Join(parts[1..], sep)
  }

  /** `parts[-1]` */
  function Last(parts: seq<string>): (last: string)
    requires |parts| >= 1
    ensures last in parts
  {
    parts[|parts| - 1]
  }

  /** Joining the segments back with the separator gives the original string. */
  lemma {:induction false} JoinSplit(s: string, sep: char)
    ensures Join(Split(s, sep), sep) == s
    decreases |s|
  {
    if s != [] {
      var rest := Split(s[1..], sep);
      JoinSplit(s[1..], sep);
      if s[0] == sep {
        assert ([[]] + rest)[1..] == rest;
      } else if |rest| > 1 {
        var parts := [[s[0]] + rest[0]] + rest[1..];
        assert parts[1..] == rest[1..];
        assert s == [s[0]] + s[1..];
      }
    }
  }

  /** A string without the separator is a single segment. */
  lemma {:induction false} SplitWithoutSep(s: string, sep: char)
    requires sep !in s
    ensures Split(s, sep) == [s]
    decreases |s|
  {
    if s != [] {
      SplitWithoutSep(s[1..], sep);
      assert s == [s[0]] + s[1..];
    }
  }

  /** The text before the first separator is the first segment, and the
      remainder splits on its own. */
  lemma {:induction false} SplitAtFirst(a: string, b: string, sep: char)
    requires sep !in a
    ensures Split(a + [sep] + b, sep) == [a] + Split(b, sep)
    decreases |a|
  {
    if a == [] {
      assert ([sep] + b)[1..] == b;
    } else {
      var s := a + [sep] + b;
      assert s[1..] == a[1..] + [sep] + b;
      SplitAtFirst(a[1..], b, sep);
      assert [a[0]] + a[1..] == a;
    }
  }

  /** A string splits into at least two segments exactly when it contains the
      separator. */
  lemma {:induction false} SplitCount(s: string, sep: char)
    ensures |Split(s, sep)| >= 2 <==> sep in s
    decreases |s|
  {
    if s != [] {
      SplitCount(s[1..], sep);
      assert sep in s <==> s[0] == sep || sep in s[1..];
    }
  }

  /** The text after the last separator is the last segment. */
  lemma {:induction false} SplitAtLast(a: string, b: string, sep: char)
    requires sep !in b
    ensures Last(Split(a + [sep] + b, sep)) == b
    decreases |a|
  {
    if a == [] {
      assert ([sep] + b)[1..] == b;
      SplitWithoutSep(b, sep);
    } else {
      var s := a + [sep] + b;
      assert s[1..] == a[1..] + [sep] + b;
      SplitAtLast(a[1..], b, sep);
      SplitCount(s[1..], sep);
      assert s[1..][|a| - 1] == sep;
    }
  }

  /** Splitting a join of separator-free parts gives the parts back. */
  lemma {:induction false} SplitJoin(parts: seq<string>, sep: char)
    requires |parts| >= 1
    requires forall i :: 0 <= i < |parts| ==> sep !in parts[i]
    ensures Split(Join(parts, sep), sep) == parts
    decreases |parts|
  {
    if |parts| == 1 {
      SplitWithoutSep(parts[0], sep);
    } else {
      SplitJoin(parts[1..], sep);
      SplitAtFirst(parts[0], Join(parts[1..], sep), sep);
    }
  }

  /** The first segment is the longest separator-free prefix and the last
      segment the longest separator-free suffix: when the separator occurs,
      the string is `first + sep + ... + sep + last`. */
  lemma SplitEnds(s: string, sep: char)
    requires sep in s
    ensures var parts := Split(s, sep);
      var first, last := parts[0], Last(parts);
      && |first| + 1 + |last| <= |s|
      && s[..|first|] == first && s[|first|] == sep
      && s[|s| - |last|..] == last && s[|s| - |last| - 1] == sep
  {
    var parts := Split(s, sep);
    SplitCount(s, sep);
    JoinSplit(s, sep);
    JoinLast(parts, sep);
    var init := Join(parts[..|parts| - 1], sep);
    assert s == init + [sep] + Last(parts);
    assert init == parts[0] || init[..|parts[0]|] == parts[0] by {
      if |parts| > 2 {
        assert parts[..|parts| - 1][1..] == parts[1..|parts| - 1];
        assert init == parts[0] + [sep] + Join(parts[1..|parts| - 1], sep);
      }
    }
  }

  /** A join of at least two parts ends with the separator and the last part. */
  lemma {:induction false} JoinLast(parts: seq<string>, sep: char)
    requires |parts| >= 2
    ensures Join(parts, sep) == Join(parts[..|parts| - 1], sep) + [sep] + Last(parts)
    decreases |parts|
  {
    if |parts| > 2 {
      JoinLast(parts[1..], sep);
      assert parts[1..][..|parts| - 2] == parts[..|parts| - 1][1..];
    }
  }
}
