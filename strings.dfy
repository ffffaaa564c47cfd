/** The string operations the controller relies on: `String.prototype.split` on one
    separator character, joining back, and the rendering of a possibly absent value
    inside a template literal. */
module Strings {
  import opened Wrappers

  /** `s.split(sep)`: the maximal runs of `s` between occurrences of `sep`.
      There is always at least one part (`"".split("-")` is `[""]`). */
  function Split(s: string, sep: char): (parts: seq<string>)
    ensures |parts| >= 1
    ensures forall i :: 0 <= i < |parts| ==> sep !in parts[i]
    ensures |parts| > 1 <==> sep in s
    decreases |s|
  {
    if s == [] then [""]
    else
      var rest := Split(s[1..], sep);
      if s[0] == sep then [""] + rest
      else [[s[0]] + rest[0]] + rest[1..]
  }

  /** `parts.join(sep)`. */
  function Join(parts: seq<string>, sep: char): string
    requires |parts| >= 1
    decreases |parts|
  {
    if |parts| == 1 then parts[0] else parts[0] + [sep] + Join(parts[1..], sep)
  }

  /** Splitting loses nothing: joining the parts with the separator gives back the input. */
  lemma {:induction false} JoinSplit(s: string, sep: char)
    ensures Join(Split(s, sep), sep) == s
    decreases |s|
  {
    if s != [] {
      JoinSplit(s[1..], sep);
      var rest := Split(s[1..], sep);
      if s[0] == sep {
        assert s == [sep] + s[1..];
      } else if |rest| == 1 {
        assert s == [s[0]] + s[1..];
      } else {
        assert Join(rest, sep) == rest[0] + [sep] + Join(rest[1..], sep);
        assert s == [s[0]] + s[1..];
      }
    }
  }

  /** The first part is the longest prefix of `s` that does not contain `sep`. */
  lemma {:induction false} SplitHead(s: string, sep: char)
    ensures Split(s, sep)[0] <= s
    ensures sep !in s ==> Split(s, sep) == [s]
    ensures sep in s ==> |Split(s, sep)[0]| < |s| && s[|Split(s, sep)[0]|] == sep
    decreases |s|
  {
    if s != [] {
      SplitHead(s[1..], sep);
      assert s == [s[0]] + s[1..];
    }
  }

  /** A separator ends the first part: whatever precedes it is split off whole. */
  lemma {:induction false} SplitAtSeparator(a: string, sep: char, b: string)
    requires sep !in a
    ensures Split(a + [sep] + b, sep) == [a] + Split(b, sep)
    decreases |a|
  {
    if a == [] {
      assert a + [sep] + b == [sep] + b;
      assert ([sep] + b)[1..] == b;
    } else {
      assert (a + [sep] + b)[1..] == a[1..] + [sep] + b;
      SplitAtSeparator(a[1..], sep, b);
      assert [a[0]] + a[1..] == a;
    }
  }

  /** `${v}` in a template literal: an absent value is rendered as the text "undefined". */
  function Show(v: Option<string>): (r: string)
    ensures v.Some? ==> r == v.value
    ensures v.None? ==> r == "undefined"
  {
    match v
    case Some(s) => s
    case None => "undefined"
  }
}
