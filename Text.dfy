/** The string operations of the generator, over `seq<char>` and with ordinal comparison. */
module Text {

  /** `s.StartsWith(prefix)`: `s` is `prefix` followed by the rest of `s`. */
  predicate StartsWith(s: string, prefix: string)
  {
    |prefix| <= |s| && s[..|prefix|] == prefix
  }

  /**
   * A string built on a prefix starts with it, and a string that starts with
   * a longer prefix starts with every shorter prefix that one is built on
   * (`https://github.com/dotnet/runtime` is built on `https://github.com/`).
   */
  lemma StartsWithExtend(s: string, prefix: string, rest: string)
    ensures StartsWith(prefix + rest, prefix)
    ensures StartsWith(s, prefix + rest) ==> StartsWith(s, prefix)
    ensures StartsWith(s, prefix) ==> s == prefix + s[|prefix|..]
  {
    assert (prefix + rest)[..|prefix|] == prefix;
    if StartsWith(s, prefix + rest) {
      assert s[..|prefix|] == s[..|prefix + rest|][..|prefix|];
    }
  }

  /** `s.Count(z => z == '.')`, the rank that picks a group's representative. */
  function Dots(s: string): (n: nat)
    ensures n <= |s|
    ensures n == 0 <==> '.' !in s
  {
    if |s| == 0 then 0
    else
      assert s == s[..|s| - 1] + [s[|s| - 1]];
      Dots(s[..|s| - 1]) + (if s[|s| - 1] == '.' then 1 else 0)
  }

  /** Dot counts add up over concatenation. */
  lemma {:induction false} DotsAppend(a: string, b: string)
    ensures Dots(a + b) == Dots(a) + Dots(b)
    decreases |b|
  {
    if |b| > 0 {
      assert (a + b)[..|a + b| - 1] == a + b[..|b| - 1];
      DotsAppend(a, b[..|b| - 1]);
    } else {
      assert a + b == a;
    }
  }

  /** A dotted name has the dots of its two halves plus the one joining them. */
  lemma DotsJoin(a: string, b: string)
    ensures Dots(a + "." + b) == Dots(a) + 1 + Dots(b)
  {
    DotsAppend(a, ".");
    DotsAppend(a + ".", b);
    assert "."[..0] == "";
  }

  /** The characters `Split(['/', '?'])` cuts at. */
  predicate IsSeparator(c: char) {
    c == '/' || c == '?'
  }

  predicate SeparatorFree(s: string) {
    forall i :: 0 <= i < |s| ==> !IsSeparator(s[i])
  }

  /** Number of separators in `s`. */
  function Separators(s: string): nat {
    if |s| == 0 then 0 else (if IsSeparator(s[0]) then 1 else 0) + Separators(s[1..])
  }

  /**
   * `s.Split(['/', '?'])` with no options: empty segments are kept, so the
   * empty string gives one empty segment and every separator starts a new one.
   */
  function Split(s: string): (parts: seq<string>)
    ensures |parts| == Separators(s) + 1
    ensures forall i :: 0 <= i < |parts| ==> SeparatorFree(parts[i])
  {
    if |s| == 0 then [""]
    else if IsSeparator(s[0]) then [""] + Split(s[1..])
    else
      var rest := Split(s[1..]);
      [[s[0]] + rest[0]] + rest[1..]
  }

  /** Text without a separator is a single segment. */
  lemma {:induction false} SplitSeparatorFree(s: string)
    requires SeparatorFree(s)
    ensures Split(s) == [s]
  {
    if |s| > 0 {
      SplitSeparatorFree(s[1..]);
      assert [s[0]] + s[1..] == s;
    }
  }

  /** The first separator ends the first segment; the rest splits on its own. */
  lemma {:induction false} SplitAtSeparator(a: string, c: char, b: string)
    requires SeparatorFree(a) && IsSeparator(c)
    ensures Split(a + [c] + b) == [a] + Split(b)
  {
    if |a| == 0 {
      assert a + [c] + b == [c] + b;
      assert ([c] + b)[1..] == b;
    } else {
      var s := a + [c] + b;
      assert s[0] == a[0] && s[1..] == a[1..] + [c] + b;
      SplitAtSeparator(a[1..], c, b);
      assert [a[0]] + a[1..] == a;
    }
  }
}
