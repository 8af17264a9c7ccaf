/** Each grammar rule of the reader is the combinator expression that
    defines it: the rules are written with direct calls only so that
    their mutual recursion can be checked for termination. */
module Composition {
  import opened Terms
  import opened Combinators
  import opened Tokens
  import opened Reader

  lemma PrimProgressive()
    ensures Progressive(ParsePrim)
  {
  }

  /** `many(parsePrim)` as unfolded in the grammar is the library's `many`. */
  lemma {:induction false} ManyPrimIsMany(source: string)
    ensures Progressive(ParsePrim)
    ensures ManyPrim(source) == Many(ParsePrim)(source)
    decreases |source|
  {
    PrimProgressive();
    var r := ParsePrim(source);
    if r.Some? {
      ManyPrimIsMany(r.value.1);
    }
  }

  /** `term = app`. */
  lemma TermIsApp(source: string)
    ensures ParseTerm(source) == ParseApp(source)
  {
  }

  /** `parsePrim = orElse(parseParen, orElse(parseAbs, parseVar))`. */
  lemma PrimIsOrElse(source: string)
    ensures ParsePrim(source) == OrElse(ParseParen, OrElse(ParseAbs, ParseVar))(source)
  {
  }

  /** `parseVar` runs the regular expression `^([a-z])\s*` and wraps the
      letter in a variable node. */
  lemma VarIsRegExp(source: string)
    ensures ParseVar(source).Some? <==> ParseRegExp(IsLetter)(source).Some?
    ensures ParseVar(source).Some? ==>
      ParseVar(source).value == (Var(ParseRegExp(IsLetter)(source).value.0), ParseRegExp(IsLetter)(source).value.1)
  {
  }

  /** `parseApp = seq(parsePrim, many(parsePrim))` followed by
      `parseAppLeft` on the pair of results. */
  lemma AppIsSeq(source: string)
    ensures Progressive(ParsePrim)
    ensures ParseApp(source).Some? <==> Seq(ParsePrim, Many(ParsePrim))(source).Some?
    ensures ParseApp(source).Some? ==>
      var res := Seq(ParsePrim, Many(ParsePrim))(source).value;
      ParseApp(source).value == (AppLeft(res.0.0, res.0.1), res.1)
  {
    PrimProgressive();
    var r := ParsePrim(source);
    if r.Some? {
      ManyPrimIsMany(r.value.1);
    }
  }

  /** `parseParen = seq("(", seq(parseTerm, ")"))`, keeping the term. */
  lemma ParenIsSeq(source: string)
    ensures
      var res := Seq(ParseRegExp(IsOpen), Seq(ParseTerm, ParseRegExp(IsClose)))(source);
      && (ParseParen(source).Some? <==> res.Some?)
      && (res.Some? ==> ParseParen(source).value == (res.value.0.1.0, res.value.1))
  {
  }

  /** `parseAbs = seq(lambda, seq(parseVar, seq(".", parseTerm)))`, built
      into an abstraction of the variable node over the term. */
  lemma AbsIsSeq(source: string)
    ensures
      var res := Seq(ParseRegExp(IsLambda), Seq(ParseVar, Seq(ParseRegExp(IsDot), ParseTerm)))(source);
      && (ParseAbs(source).Some? <==> res.Some?)
      && (res.Some? ==> ParseAbs(source).value == (Abs(res.value.0.1.0, res.value.0.1.1.1), res.value.1))
  {
  }
}
