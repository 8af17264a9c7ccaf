/** The regular-expression parsers of the reader. Each regular expression
    of the grammar has the form `^(c)\s*`: one character from a class,
    then any run of whitespace, so each is modelled by the character
    class alone. */
module Tokens {
  import opened Combinators

  /** The characters matched by `\s` in JavaScript regular expressions. */
  predicate IsSpace(c: char)
  {
    || c == ' ' || c == '\t' || c == '\n' || c == '\r'
    || c == '\U{000B}' || c == '\U{000C}' || c == '\U{00A0}' || c == '\U{1680}'
    || ('\U{2000}' <= c <= '\U{200A}')
    || c == '\U{2028}' || c == '\U{2029}' || c == '\U{202F}' || c == '\U{205F}'
    || c == '\U{3000}' || c == '\U{FEFF}'
  }

  predicate AllSpace(w: string)
  {
    forall i :: 0 <= i < |w| ==> IsSpace(w[i])
  }

  /** What `\s*` leaves: the input without its leading whitespace. */
  function SkipSpaces(s: string): (r: string)
    ensures IsSuffix(r, s)
    ensures r == [] || !IsSpace(r[0])
  {
    if s != [] && IsSpace(s[0]) then
      var r := SkipSpaces(s[1..]);
      assert s[|s| - |r|..] == s[1..][|s| - 1 - |r|..];
      r
    else s
  }

  /** Everything `\s*` drops is whitespace. */
  lemma {:induction false} SkipSpacesDropsSpaces(s: string)
    ensures AllSpace(s[..|s| - |SkipSpaces(s)|])
  {
    if s != [] && IsSpace(s[0]) {
      var r := SkipSpaces(s[1..]);
      SkipSpacesDropsSpaces(s[1..]);
      assert s[..|s| - |r|] == [s[0]] + s[1..][..|s| - 1 - |r|];
    }
  }

  /** Skipping whitespace in front of text that does not start with
      whitespace gives that text. */
  lemma {:induction false} SkipSpacesOver(w: string, s: string)
    requires AllSpace(w)
    requires s == [] || !IsSpace(s[0])
    ensures SkipSpaces(w + s) == s
  {
    if w != [] {
      assert (w + s)[1..] == w[1..] + s;
      SkipSpacesOver(w[1..], s);
    } else {
      assert w + s == s;
    }
  }

  /** The regular expression `^(c)\s*` applied to `source`, where `c` is
      any character `first` accepts: on a match, the matched character
      and the input after it with its leading whitespace dropped. */
  function MatchToken(first: char -> bool, source: string): (r: Option<(string, string)>)
    ensures r.Some? <==> |source| > 0 && first(source[0])
    ensures r.Some? ==> r.value.0 == [source[0]] && IsProperSuffix(r.value.1, source)
    ensures r.Some? ==> AllSpace(source[1..|source| - |r.value.1|])
    ensures r.Some? ==> r.value.1 == [] || !IsSpace(r.value.1[0])
    ensures r.Some? ==> r.value.1 == SkipSpaces(source[1..])
  {
    if |source| > 0 && first(source[0]) then
      var rest := SkipSpaces(source[1..]);
      SkipSpacesDropsSpaces(source[1..]);
      assert source[1..|source| - |rest|] == source[1..][..|source| - 1 - |rest|];
      Some(([source[0]], rest))
    else None
  }

  /** `parseRegExp`: the parser for `^(c)\s*`. */
  function ParseRegExp(first: char -> bool): (p: Parser<string>)
    ensures forall s :: p(s) == MatchToken(first, s)
    ensures Progressive(p)
  {
    s => MatchToken(first, s)
  }
}
