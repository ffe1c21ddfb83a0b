/** How the request paths built by the services are read once they are resolved into
    URLs: a `#` starts the fragment, which is never sent; the query is the text between
    the first `?` and that fragment; its parameters are the pieces of the query between
    `&` separators. */
module Query {

  /** The text after the first occurrence of `c` in `s` (empty when there is none). */
  function After(s: string, c: char): (r: string)
    ensures |r| <= |s|
  {
    if s == [] then []
    else if s[0] == c then s[1..]
    else After(s[1..], c)
  }

  /** The text before the first occurrence of `c` in `s` (all of `s` when there is none). */
  function Before(s: string, c: char): (r: string)
    ensures |r| <= |s|
  {
    if s == [] || s[0] == c then []
    else [s[0]] + Before(s[1..], c)
  }

  /** The query of a URL or relative reference: after the first `?`, before any fragment. */
  function QueryOf(url: string): string {
    After(Before(url, '#'), '?')
  }

  /** The maximal pieces of `s` that do not contain `sep`, in order; `Split("", sep)` is `[""]`. */
  function Split(s: string, sep: char): (parts: seq<string>)
    ensures |parts| >= 1
  {
    if s == [] then [""]
    else
      var rest := Split(s[1..], sep);
      if s[0] == sep then [""] + rest else [[s[0]] + rest[0]] + rest[1..]
  }

  lemma {:induction false} AfterPrefix(a: string, c: char, b: string)
    requires c !in a
    ensures After(a + [c] + b, c) == b
  {
    if a != [] {
      assert (a + [c] + b)[1..] == a[1..] + [c] + b;
      AfterPrefix(a[1..], c, b);
    }
  }

  lemma {:induction false} BeforeAbsent(s: string, c: char)
    requires c !in s
    ensures Before(s, c) == s
  {
    if s != [] {
      BeforeAbsent(s[1..], c);
      assert [s[0]] + s[1..] == s;
    }
  }

  /** Without a fragment, the query is the text after the first `?`. */
  lemma QueryWithoutFragment(a: string, b: string)
    requires '?' !in a && '#' !in a && '#' !in b
    ensures QueryOf(a + ['?'] + b) == b
  {
    BeforeAbsent(a + ['?'] + b, '#');
    AfterPrefix(a, '?', b);
  }

  lemma {:induction false} SplitWithoutSeparator(s: string, sep: char)
    requires sep !in s
    ensures Split(s, sep) == [s]
  {
    if s != [] {
      SplitWithoutSeparator(s[1..], sep);
      assert [s[0]] + s[1..] == s;
    }
  }

  /** Splitting `a`, a separator and `b` splits `a` and `b` apart. */
  lemma {:induction false} SplitAround(a: string, sep: char, b: string)
    ensures Split(a + [sep] + b, sep) == Split(a, sep) + Split(b, sep)
  {
    if a == [] {
      assert a + [sep] + b == [sep] + b;
      assert ([sep] + b)[1..] == b;
    } else {
      assert (a + [sep] + b)[1..] == a[1..] + [sep] + b;
      SplitAround(a[1..], sep, b);
    }
  }
}
