/** Double-quoted strings in a text, as the lexer and the client's scanner see them. */
module Quoting {
  /** The inside of a string: no quote but after a backslash, and no backslash at the end. */
  predicate StringBody(b: string) {
    b == [] || (b[0] == '\\' && |b| >= 2 && StringBody(b[2..])) || (b[0] != '\\' && b[0] != '"' && StringBody(b[1..]))
  }

  lemma Enclosed(a: char, b: string, c: char, d: string)
    ensures ([a] + (b + [c])) + d == [a] + (b + ([c] + d))
  {
  }

  lemma SplitAtQuote(rest: string, n: nat)
    requires n < |rest| && rest[n] == '"'
    ensures rest == rest[..n] + (['"'] + rest[n + 1..])
  {
  }
}
