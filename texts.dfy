/** The string helpers of Go's `strings` and `path/filepath` packages that the core uses. */
module Texts {
  import opened Failures

  /** Number of occurrences of `c` in `s`. */
  function Count(s: string, c: char): nat {
    if s == [] then 0 else (if s[0] == c then 1 else 0) + Count(s[1..], c)
  }

  lemma {:induction false} CountZero(s: string, c: char)
    ensures Count(s, c) == 0 <==> c !in s
  {
    if s != [] {
      CountZero(s[1..], c);
      assert s == [s[0]] + s[1..];
    }
  }

  lemma {:induction false} CountAppend(a: string, b: string, c: char)
    ensures Count(a + b, c) == Count(a, c) + Count(b, c)
  {
    if a != [] {
      assert (a + b)[1..] == a[1..] + b;
      CountAppend(a[1..], b, c);
    } else {
      assert a + b == b;
    }
  }

  /** `strings.Split(s, string(sep))`: the pieces between the separators; always at least one. */
  function Split(s: string, sep: char): (parts: seq<string>)
    ensures |parts| == Count(s, sep) + 1
  {
    if s == [] then [[]]
    else
      var rest := Split(s[1..], sep);
      if s[0] == sep then [[]] + rest else [[s[0]] + rest[0]] + rest[1..]
  }

  lemma {:induction false} SplitWithoutSeparator(s: string, sep: char)
    requires sep !in s
    ensures Split(s, sep) == [s]
  {
    if s != [] {
      SplitWithoutSeparator(s[1..], sep);
      assert [s[0]] + s[1..] == s;
    }
  }

  /** A string with exactly one separator splits into the text before and the text after it. */
  lemma {:induction false} SplitAroundSeparator(a: string, b: string, sep: char)
    requires sep !in a && sep !in b
    ensures Split(a + [sep] + b, sep) == [a, b]
  {
    var s := a + [sep] + b;
    if a == [] {
      assert s[1..] == b;
      SplitWithoutSeparator(b, sep);
    } else {
      assert s[1..] == a[1..] + [sep] + b;
      SplitAroundSeparator(a[1..], b, sep);
      assert [a[0]] + a[1..] == a;
    }
  }

  /** Conversely, two pieces mean exactly one separator, and the pieces rebuild the string. */
  lemma {:induction false} SplitTwo(s: string, sep: char)
    requires |Split(s, sep)| == 2
    ensures s == Split(s, sep)[0] + [sep] + Split(s, sep)[1]
    ensures sep !in Split(s, sep)[0] && sep !in Split(s, sep)[1]
  {
    var parts := Split(s, sep);
    var rest := Split(s[1..], sep);
    if s[0] == sep {
      assert parts == [[]] + rest;
      assert Count(s[1..], sep) == 0;
      CountZero(s[1..], sep);
      SplitWithoutSeparator(s[1..], sep);
      assert [sep] + s[1..] == s;
    } else {
      SplitTwo(s[1..], sep);
      assert [s[0]] + s[1..] == s;
    }
  }

  /** Index of the last `c` in `s`. */
  function LastIndexOf(s: string, c: char): (r: Option<nat>)
    ensures r.Some? ==> r.value < |s| && s[r.value] == c && c !in s[r.value + 1..]
    ensures r.None? ==> c !in s
  {
    if s == [] then None
    else if s[|s| - 1] == c then Some(|s| - 1)
    else
      var r := LastIndexOf(s[..|s| - 1], c);
      assert s == s[..|s| - 1] + [s[|s| - 1]];
      r
  }

  lemma LastIndexOfAppended(a: string, b: string, c: char)
    requires c !in b
    ensures LastIndexOf(a + [c] + b, c) == Some(|a|)
  {
    var s := a + [c] + b;
    assert s[|a|] == c;
  }

  /** `strings.Contains(s, sub)`. */
  function Contains(s: string, sub: string): bool {
    sub <= s || (s != [] && Contains(s[1..], sub))
  }

  lemma {:induction false} ContainsSuffix(a: string, b: string)
    ensures Contains(a + b, b)
  {
    if a != [] {
      assert (a + b)[1..] == a[1..] + b;
      ContainsSuffix(a[1..], b);
    }
  }

  /** `strings.Join(parts, sep)`. */
  function Join(parts: seq<string>, sep: string): string {
    if parts == [] then ""
    else if |parts| == 1 then parts[0]
    else parts[0] + sep + Join(parts[1..], sep)
  }

  /** Decimal rendering of a count, as `%d` prints it. */
  function NatToString(n: nat): string {
    var digit := ['0' + (n % 10) as char];
    if n < 10 then digit else NatToString(n / 10) + digit
  }

  /** `filepath.Base` for a path without trailing separators: the text after the last '/'. */
  function Base(path: string): string {
    if path == [] then "."
    else match LastIndexOf(path, '/')
      case None => path
      case Some(i) => path[i + 1..]
  }

  /** `filepath.Dir` for a clean path: the text before the last '/'. */
  function Dir(path: string): string {
    match LastIndexOf(path, '/')
    case None => "."
    case Some(i) => if i == 0 then "/" else path[..i]
  }

  /** `filepath.Join(dir, name)` for a clean directory and a single name. */
  function PathJoin(dir: string, name: string): string {
    dir + "/" + name
  }
}
