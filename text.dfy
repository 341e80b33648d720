/** The string operations the script leans on: str.join, str.endswith, and the
    splitting of a command line into the words a subprocess receives. */
module Text {

  /** `sep.join(parts)` for a one-character separator. */
  function Join(sep: char, parts: seq<string>): string
  {
    if |parts| == 0 then ""
    else if |parts| == 1 then parts[0]
    else parts[0] + [sep] + Join(sep, parts[1..])
  }

  /** `s.split(sep)` for a one-character separator: the pieces between the
      separators, empty pieces included, and always at least one piece. */
  function Split(sep: char, s: string): (r: seq<string>)
    ensures |r| >= 1
    ensures forall k :: 0 <= k < |r| ==> sep !in r[k]
    decreases |s|
  {
    if |s| == 0 then [""]
    else
      var rest := Split(sep, s[1..]);
      if s[0] == sep then [""] + rest
      else [[s[0]] + rest[0]] + rest[1..]
  }

  /** `s.endswith(suffix)`. */
  predicate EndsWith(s: string, suffix: string)
  {
    |suffix| <= |s| && s[|s| - |suffix|..] == suffix
  }

  lemma EndsWithAppended(s: string, suffix: string)
    ensures EndsWith(s + suffix, suffix)
  {
    assert (s + suffix)[|s|..] == suffix;
  }

  /** A suffix stays a suffix when both are extended by the same text. */
  lemma EndsWithExtended(s: string, suffix: string, x: string)
    requires EndsWith(s, suffix)
    ensures EndsWith(s + x, suffix + x)
  {
    assert (s + x)[|s + x| - |suffix + x|..] == s[|s| - |suffix|..] + x;
  }

  /** Joining a non-empty head onto a non-empty tail puts one separator between them. */
  lemma JoinCons(sep: char, w: string, rest: seq<string>)
    requires |rest| > 0
    ensures Join(sep, [w] + rest) == w + [sep] + Join(sep, rest)
  {
    assert ([w] + rest)[1..] == rest;
  }

  /** Splitting text that starts with a separator-free prefix glues that prefix
      onto the first piece. */
  lemma {:induction false} SplitPrefix(sep: char, p: string, s: string)
    requires sep !in p
    ensures Split(sep, p + s) == [p + Split(sep, s)[0]] + Split(sep, s)[1..]
    decreases |p|
  {
    if |p| > 0 {
      assert (p + s)[1..] == p[1..] + s;
      assert (p + s)[0] == p[0];
      SplitPrefix(sep, p[1..], s);
      assert [p[0]] + (p[1..] + Split(sep, s)[0]) == p + Split(sep, s)[0];
    } else {
      var r := Split(sep, s);
      assert p + s == s && p + r[0] == r[0];
      assert [r[0]] + r[1..] == r;
    }
  }

  /** A separator-free word followed by a separator splits off as one piece. */
  lemma SplitWord(sep: char, w: string, rest: string)
    requires sep !in w
    ensures Split(sep, w + [sep] + rest) == [w] + Split(sep, rest)
  {
    assert w + [sep] + rest == w + ([sep] + rest);
    SplitPrefix(sep, w, [sep] + rest);
    assert ([sep] + rest)[1..] == rest;
    assert w + "" == w;
  }

  /** A separator-free string is a single piece. */
  lemma SplitWhole(sep: char, w: string)
    requires sep !in w
    ensures Split(sep, w) == [w]
  {
    SplitPrefix(sep, w, "");
    assert w + "" == w;
  }

  /** Splitting undoes joining, provided no part contains the separator. */
  lemma {:induction false} SplitJoin(sep: char, parts: seq<string>)
    requires |parts| >= 1
    requires forall k :: 0 <= k < |parts| ==> sep !in parts[k]
    ensures Split(sep, Join(sep, parts)) == parts
    decreases |parts|
  {
    if |parts| == 1 {
      SplitPrefix(sep, parts[0], "");
      assert parts[0] + "" == parts[0];
    } else {
      var rest := parts[1..];
      var tail := [sep] + Join(sep, rest);
      assert Join(sep, parts) == parts[0] + tail;
      SplitPrefix(sep, parts[0], tail);
      assert tail[1..] == Join(sep, rest);
      SplitJoin(sep, rest);
      assert Split(sep, tail) == [""] + rest;
      assert parts[0] + "" == parts[0];
      assert [parts[0]] + rest == parts;
    }
  }
}
