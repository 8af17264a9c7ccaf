/** Single steps of the grammar: what each rule reads when the rules it
    calls are known to succeed or fail. The round-trip proofs and the
    unit-test lemmas are assembled from these. */
module Steps {
  import opened Terms
  import opened Combinators
  import opened Tokens
  import opened Reader

  /** If a prim has been read and no further prim can start after it, the
      same text read as a term gives that prim alone. */
  lemma TermFromPrim(source: string, t: Term, rest: string)
    requires ParsePrim(source) == Some((t, rest))
    requires ParsePrim(rest).None?
    ensures ParseTerm(source) == Some((t, rest))
  {
    assert ManyPrim(rest) == Some(([], rest));
  }

  /** Text that starts with a letter is read as a prim by `var`. */
  lemma PrimOfVar(source: string)
    requires |source| > 0 && IsLetter(source[0])
    ensures ParsePrim(source) == ParseVar(source)
  {
    assert !IsOpen(source[0]) && !IsLambda(source[0]);
    assert ParseParen(source).None?;
    assert ParseAbs(source).None?;
  }

  /** One step of `paren = "(" term ")"`. */
  lemma ParenRule(input: string, inside: string, t: Term, close: string, rest: string)
    requires MatchToken(IsOpen, input).Some? && MatchToken(IsOpen, input).value.1 == inside
    requires ParseTerm(inside) == Some((t, close))
    requires MatchToken(IsClose, close).Some? && MatchToken(IsClose, close).value.1 == rest
    ensures ParseParen(input) == Some((t, rest))
  {
  }

  /** One step of `prim*`. */
  lemma ManyStep(source: string, t: Term, rest: string, ts: seq<Term>, last: string)
    requires ParsePrim(source) == Some((t, rest))
    requires ManyPrim(rest) == Some((ts, last))
    ensures ManyPrim(source) == Some(([t] + ts, last))
  {
  }

  /** A closing parenthesis ends a term: no prim starts with it, and it is
      read as a token that drops the whitespace after it. */
  lemma CloseEnds(after: string)
    ensures ParsePrim([')'] + after).None?
    ensures SkipSpaces([')'] + after) == [')'] + after
    ensures MatchToken(IsClose, [')'] + after) == Some((")", SkipSpaces(after)))
  {
    assert ([')'] + after)[1..] == after;
  }

  /** A one-character token followed by text that does not start with
      whitespace is read as that character, leaving that text. */
  lemma TokenStep(first: char -> bool, c: char, text: string)
    requires first(c)
    requires text == [] || !IsSpace(text[0])
    ensures MatchToken(first, [c] + text) == Some(([c], text))
  {
    assert ([c] + text)[1..] == text;
  }

  /** One step of `abs = lambda var "." term`. */
  lemma AbsRule(source: string, rest1: string, x: Term, rest2: string, rest3: string, body: Term, rest: string)
    requires MatchToken(IsLambda, source).Some? && MatchToken(IsLambda, source).value.1 == rest1
    requires ParseVar(rest1) == Some((x, rest2))
    requires MatchToken(IsDot, rest2).Some? && MatchToken(IsDot, rest2).value.1 == rest3
    requires ParseTerm(rest3) == Some((body, rest))
    ensures ParseAbs(source) == Some((Abs(x, body), rest))
  {
  }

  /** Text that starts with a lambda sign is read as a prim by `abs`. */
  lemma PrimOfAbs(source: string)
    requires |source| > 0 && IsLambda(source[0])
    ensures ParsePrim(source) == ParseAbs(source)
  {
  }

  /** `prim*` reads exactly one prim when a second one cannot follow. */
  lemma ManyOne(source: string, a: Term, rest: string)
    requires ParsePrim(source) == Some((a, rest))
    requires ParsePrim(rest).None?
    ensures ManyPrim(source) == Some(([a], rest))
  {
    var one := [a] + [];
    assert one == [a];
    assert ManyPrim(source) == Some((one, rest)) by {
      ManyEnd(rest);
      ManyStep(source, a, rest, [], rest);
    }
  }

  /** `prim*` reads nothing where no prim can start. */
  lemma ManyEnd(source: string)
    requires ParsePrim(source).None?
    ensures ManyPrim(source) == Some(([], source))
  {
  }

  /** One step of `app = prim prim*`. */
  lemma AppRule(source: string, f: Term, argText: string, args: seq<Term>, rest: string)
    requires ParsePrim(source) == Some((f, argText))
    requires ManyPrim(argText) == Some((args, rest))
    ensures ParseTerm(source) == Some((AppLeft(f, args), rest))
  {
  }

  /** Text that starts with an opening parenthesis is read as a prim by
      `paren`, or not at all. */
  lemma PrimOfParen(source: string)
    requires |source| > 0 && IsOpen(source[0])
    ensures ParsePrim(source) == ParseParen(source)
  {
    assert !IsLambda(source[0]) && !IsLetter(source[0]);
    assert ParseAbs(source).None?;
    assert ParseVar(source).None?;
  }

  /** A letter is read as a variable, dropping the whitespace after it. */
  lemma VarStep(c: char, text: string)
    requires IsLetter(c)
    ensures ParseVar([c] + text) == Some((Var([c]), SkipSpaces(text)))
    ensures ParsePrim([c] + text) == Some((Var([c]), SkipSpaces(text)))
  {
    assert ([c] + text)[1..] == text;
    PrimOfVar([c] + text);
  }

  /** A one-character token is read as that character, dropping the
      whitespace after it. */
  lemma TokenSkip(first: char -> bool, c: char, text: string)
    requires first(c)
    ensures MatchToken(first, [c] + text) == Some(([c], SkipSpaces(text)))
  {
    assert ([c] + text)[1..] == text;
  }

  /** `\s*` drops a blank and goes on. */
  lemma SpaceStep(text: string)
    ensures SkipSpaces([' '] + text) == SkipSpaces(text)
  {
    assert ([' '] + text)[1..] == text;
  }
}
