/**
 * The Python `str` builtins the proxy relies on, written out over `seq<char>`:
 * `split` with a one-character separator, `strip()` with no argument,
 * `replace(pattern, "")` and `lower()` restricted to ASCII letters.
 */
module PyStr {

  /** Python's `str.isspace()` for one character: the whitespace `strip()` removes. */
  predicate IsSpace(c: char) {
    || c == ' '
    || ('\t' <= c <= '\r')
    || ('\U{1C}' <= c <= '\U{1F}')
    || c == '\U{85}' || c == '\U{A0}' || c == '\U{1680}'
    || ('\U{2000}' <= c <= '\U{200A}')
    || c == '\U{2028}' || c == '\U{2029}' || c == '\U{202F}' || c == '\U{205F}' || c == '\U{3000}'
  }

  // ---------------------------------------------------------------------------
  // s.split(sep)
  // ---------------------------------------------------------------------------

  /**
   * `s.split(sep)`: the pieces between separators, in order. Python never returns
   * an empty list (`"".split(",") == [""]`) and no piece holds the separator.
   */
  function Split(s: string, sep: char): (parts: seq<string>)
    ensures |parts| >= 1
    ensures forall i :: 0 <= i < |parts| ==> sep !in parts[i]
    decreases |s|
  {
    if |s| == 0 then [""]
    else
      var rest := Split(s[1..], sep);
      if s[0] == sep then [""] + rest
      else [[s[0]] + rest[0]] + rest[1..]
  }

  /** `sep.join(parts)`, the inverse of `Split`. */
  function Join(parts: seq<string>, sep: char): string
    decreases |parts|
  {
    if |parts| == 0 then ""
    else if |parts| == 1 then parts[0]
    else parts[0] + [sep] + Join(parts[1..], sep)
  }

  /** Joining the pieces of a split gives back the original string. */
  lemma {:induction false} SplitThenJoin(s: string, sep: char)
    ensures Join(Split(s, sep), sep) == s
    decreases |s|
  {
    if |s| > 0 {
      var rest := Split(s[1..], sep);
      SplitThenJoin(s[1..], sep);
      if s[0] == sep {
        assert Split(s, sep) == [""] + rest;
        assert ([""] + rest)[1..] == rest;
        assert s == [sep] + s[1..];
      } else {
        var head := [s[0]] + rest[0];
        assert Split(s, sep) == [head] + rest[1..];
        if |rest| == 1 {
          assert Join(rest, sep) == rest[0];
        } else {
          assert Join(rest, sep) == rest[0] + [sep] + Join(rest[1..], sep);
          assert ([head] + rest[1..])[1..] == rest[1..];
          assert Join([head] + rest[1..], sep) == head + [sep] + Join(rest[1..], sep);
        }
        assert s == [s[0]] + s[1..];
      }
    }
  }

  /** A string free of the separator splits into itself alone. */
  lemma {:induction false} SplitWithoutSeparator(a: string, sep: char)
    requires sep !in a
    ensures Split(a, sep) == [a]
    decreases |a|
  {
    if |a| > 0 {
      assert sep !in a[1..];
      SplitWithoutSeparator(a[1..], sep);
      assert [a[0]] + a[1..] == a;
    }
  }

  /** A separator-free piece followed by the separator is split off as one piece. */
  lemma {:induction false} SplitAfterPiece(a: string, sep: char, t: string)
    requires sep !in a
    ensures Split(a + [sep] + t, sep) == [a] + Split(t, sep)
    decreases |a|
  {
    var s := a + [sep] + t;
    if |a| == 0 {
      assert s[0] == sep && s[1..] == t;
    } else {
      assert s[0] == a[0] && s[0] != sep;
      assert s[1..] == a[1..] + [sep] + t;
      assert sep !in a[1..];
      SplitAfterPiece(a[1..], sep, t);
      assert [a[0]] + a[1..] == a;
    }
  }

  /** Splitting a join of separator-free pieces gives back the pieces. */
  lemma {:induction false} JoinThenSplit(parts: seq<string>, sep: char)
    requires |parts| >= 1
    requires forall i :: 0 <= i < |parts| ==> sep !in parts[i]
    ensures Split(Join(parts, sep), sep) == parts
    decreases |parts|
  {
    if |parts| == 1 {
      SplitWithoutSeparator(parts[0], sep);
    } else {
      JoinThenSplit(parts[1..], sep);
      SplitAfterPiece(parts[0], sep, Join(parts[1..], sep));
      assert [parts[0]] + parts[1..] == parts;
    }
  }

  // ---------------------------------------------------------------------------
  // s.strip()
  // ---------------------------------------------------------------------------

  /** Every character of `s` is whitespace. */
  predicate AllSpace(s: string) {
    forall i :: 0 <= i < |s| ==> IsSpace(s[i])
  }

  /** `s.lstrip()`: the suffix of `s` left after its leading whitespace. */
  function TrimStart(s: string): (r: string)
    ensures |r| <= |s| && r == s[|s| - |r|..]
    ensures AllSpace(s[..|s| - |r|])
    ensures r == [] || !IsSpace(r[0])
    decreases |s|
  {
    if |s| > 0 && IsSpace(s[0]) then
      var r := TrimStart(s[1..]);
      assert forall i :: 0 < i < |s| - |r| ==> s[i] == s[1..][i - 1];
      r
    else s
  }

  /** `s.rstrip()`: the prefix of `s` left before its trailing whitespace. */
  function TrimEnd(s: string): (r: string)
    ensures |r| <= |s| && r == s[..|r|]
    ensures AllSpace(s[|r|..])
    ensures r == [] || !IsSpace(r[|r| - 1])
    decreases |s|
  {
    if |s| > 0 && IsSpace(s[|s| - 1]) then
      var r := TrimEnd(s[..|s| - 1]);
      ghost var cut := s[..|s| - 1][|r|..];
      assert forall i :: |r| <= i < |s| - 1 ==> s[i] == cut[i - |r|];
      r
    else s
  }

  /**
   * `s.strip()`: `s.lstrip()` followed by `rstrip()`, so what it removes is
   * exactly the leading and the trailing whitespace (see their contracts).
   */
  function Strip(s: string): (r: string)
    ensures |r| <= |s|
    ensures r == [] || (!IsSpace(r[0]) && !IsSpace(r[|r| - 1]))
  {
    TrimEnd(TrimStart(s))
  }

  /** A string without whitespace at either end is left alone by `strip()`. */
  lemma StripUnchanged(s: string)
    requires s == [] || (!IsSpace(s[0]) && !IsSpace(s[|s| - 1]))
    ensures Strip(s) == s
  {
  }

  /** `strip()` is idempotent. */
  lemma StripIdempotent(s: string)
    ensures Strip(Strip(s)) == Strip(s)
  {
    StripUnchanged(Strip(s));
  }

  /** `lstrip()` removes exactly a whitespace run in front of a text that does not begin with whitespace. */
  lemma {:induction false} TrimStartPadded(w: string, s: string)
    requires AllSpace(w)
    requires s == [] || !IsSpace(s[0])
    ensures TrimStart(w + s) == s
    decreases |w|
  {
    if |w| > 0 {
      assert (w + s)[1..] == w[1..] + s;
      TrimStartPadded(w[1..], s);
    }
  }

  /** `rstrip()` removes exactly a whitespace run after a text that does not end with whitespace. */
  lemma {:induction false} TrimEndPadded(s: string, w: string)
    requires AllSpace(w)
    requires s == [] || !IsSpace(s[|s| - 1])
    ensures TrimEnd(s + w) == s
    decreases |w|
  {
    if |w| > 0 {
      assert (s + w)[..|s + w| - 1] == s + w[..|w| - 1];
      TrimEndPadded(s, w[..|w| - 1]);
    }
  }

  /** `strip()` removes exactly the whitespace around a non-empty text without whitespace at its ends. */
  lemma StripPadded(lead: string, s: string, trail: string)
    requires AllSpace(lead) && AllSpace(trail)
    requires s != [] && !IsSpace(s[0]) && !IsSpace(s[|s| - 1])
    ensures Strip(lead + s + trail) == s
  {
    assert lead + s + trail == lead + (s + trail);
    TrimStartPadded(lead, s + trail);
    TrimEndPadded(s, trail);
  }

  // ---------------------------------------------------------------------------
  // s.replace(pattern, "")
  // ---------------------------------------------------------------------------

  /** `pattern` occurs in `s` starting at index `i`. */
  predicate OccursAt(s: string, pattern: string, i: int) {
    0 <= i && i + |pattern| <= |s| && s[i..i + |pattern|] == pattern
  }

  /**
   * `s.replace(pattern, "")`: scanning left to right, every non-overlapping
   * occurrence of `pattern` is deleted; the scan resumes after a deleted
   * occurrence and never revisits what it produced.
   */
  function RemoveAll(s: string, pattern: string): (r: string)
    requires |pattern| > 0
    ensures |r| <= |s|
    decreases |s|
  {
    if |s| < |pattern| then s
    else if s[..|pattern|] == pattern then RemoveAll(s[|pattern|..], pattern)
    else [s[0]] + RemoveAll(s[1..], pattern)
  }

  /** Where the pattern never occurs, the removal changes nothing. */
  lemma {:induction false} RemoveAllAbsent(s: string, pattern: string)
    requires |pattern| > 0
    requires forall i :: !OccursAt(s, pattern, i)
    ensures RemoveAll(s, pattern) == s
    decreases |s|
  {
    if |s| >= |pattern| {
      assert !OccursAt(s, pattern, 0);
      forall i ensures !OccursAt(s[1..], pattern, i) {
        assert !OccursAt(s, pattern, i + 1);
      }
      RemoveAllAbsent(s[1..], pattern);
      assert [s[0]] + s[1..] == s;
    }
  }

  /** Where the pattern occurs, the removal makes the string strictly shorter. */
  lemma {:induction false} RemoveAllShrinks(s: string, pattern: string, i: int)
    requires |pattern| > 0
    requires OccursAt(s, pattern, i)
    ensures |RemoveAll(s, pattern)| < |s|
    decreases |s|
  {
    if s[..|pattern|] != pattern {
      assert i != 0;
      assert s[1..][i - 1..i - 1 + |pattern|] == s[i..i + |pattern|];
      RemoveAllShrinks(s[1..], pattern, i - 1);
    }
  }

  /** A leading occurrence is removed, and the scan carries on with the rest. */
  lemma RemoveAllLeading(pattern: string, t: string)
    requires |pattern| > 0
    ensures RemoveAll(pattern + t, pattern) == RemoveAll(t, pattern)
  {
    var s := pattern + t;
    assert s[..|pattern|] == pattern && s[|pattern|..] == t;
  }

  // ---------------------------------------------------------------------------
  // s.lower()
  // ---------------------------------------------------------------------------

  /** `c.lower()` on ASCII letters; every other character is kept. */
  function LowerChar(c: char): char {
    if 'A' <= c <= 'Z' then (c as int + 32) as char else c
  }

  /**
   * `s.lower()`, letter by letter: same length, each capital becomes its own
   * small letter, and every other character is kept.
   */
  function Lower(s: string): (r: string)
    ensures |r| == |s|
    ensures forall i :: 0 <= i < |s| && 'A' <= s[i] <= 'Z' ==>
      'a' <= r[i] <= 'z' && r[i] as int - 'a' as int == s[i] as int - 'A' as int
    ensures forall i :: 0 <= i < |s| && !('A' <= s[i] <= 'Z') ==> r[i] == s[i]
  {
    seq(|s|, i requires 0 <= i < |s| => LowerChar(s[i]))
  }

  /** Lower-casing twice is lower-casing once. */
  lemma LowerIdempotent(s: string)
    ensures Lower(Lower(s)) == Lower(s)
  {
    var r := Lower(s);
    assert forall i :: 0 <= i < |r| ==> !('A' <= r[i] <= 'Z');
  }
}
