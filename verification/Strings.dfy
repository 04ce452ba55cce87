/** Replacement in strings, as Python's `str.replace` does it. */
module Strings {

  /** `s.replace(c, with)` for a one-character pattern. */
  function Replace(s: string, c: char, with: string): string {
    if s == "" then "" else (if s[0] == c then with else [s[0]]) + Replace(s[1..], c, with)
  }

  /** `s.replace("\r\n", "\n")` */
  function JoinLineEnds(s: string): string {
    if s == "" then ""
    else if |s| >= 2 && s[0] == '\r' && s[1] == '\n' then "\n" + JoinLineEnds(s[2..])
    else [s[0]] + JoinLineEnds(s[1..])
  }

  /** Every line end becomes a single newline. */
  function Newlines(s: string): string {
    Replace(JoinLineEnds(s), '\r', "\n")
  }

  lemma {:induction false} ReplaceRemoves(s: string, c: char, with: string)
    requires c !in with
    ensures c !in Replace(s, c, with)
    ensures c !in s ==> Replace(s, c, with) == s
  {
    if s != "" {
      ReplaceRemoves(s[1..], c, with);
      assert s == [s[0]] + s[1..];
    }
  }

  lemma {:induction false} JoinLineEndsIdle(s: string)
    requires '\r' !in s
    ensures JoinLineEnds(s) == s
  {
    if s != "" {
      JoinLineEndsIdle(s[1..]);
      assert s == [s[0]] + s[1..];
    }
  }

  /** One pass over the text: each of "\r\n", "\r" and "\n" is one line end. */
  function OneLineEndEach(s: string): string {
    if s == "" then ""
    else if s[0] == '\r' then "\n" + OneLineEndEach(if |s| >= 2 && s[1] == '\n' then s[2..] else s[1..])
    else [s[0]] + OneLineEndEach(s[1..])
  }

  lemma {:induction false} ReplaceHead(x: char, s: string, c: char, with: string)
    ensures Replace([x] + s, c, with) == (if x == c then with else [x]) + Replace(s, c, with)
  {
    assert ([x] + s)[1..] == s;
  }

  /** The two replacements together turn every line end into a single newline, and nothing else. */
  lemma {:induction false} NewlinesInOnePass(s: string)
    ensures Newlines(s) == OneLineEndEach(s)
    decreases |s|
  {
    if s != "" {
      if |s| >= 2 && s[0] == '\r' && s[1] == '\n' {
        NewlinesInOnePass(s[2..]);
        ReplaceHead('\n', JoinLineEnds(s[2..]), '\r', "\n");
      } else {
        NewlinesInOnePass(s[1..]);
        ReplaceHead(s[0], JoinLineEnds(s[1..]), '\r', "\n");
      }
    }
  }

  lemma NewlinesIdempotent(s: string)
    ensures '\r' !in Newlines(s)
    ensures '\r' !in s ==> Newlines(s) == s
  {
    ReplaceRemoves(JoinLineEnds(s), '\r', "\n");
    if '\r' !in s {
      JoinLineEndsIdle(s);
    }
  }
}
