/** The printer and the reader are inverse: reading the text of a
    well-formed term gives that term back, whatever whitespace follows. */
module RoundTrip {
  import opened Terms
  import opened Combinators
  import opened Tokens
  import opened Reader
  import opened Printer
  import opened Steps

  /** The printed text of a well-formed term is non-empty and starts with
      a letter or an opening parenthesis, never with whitespace. */
  lemma ShowStart(t: Term)
    requires WellFormed(t)
    ensures |Show(t)| > 0
    ensures t.Var? ==> Show(t) == t.name && IsLetter(Show(t)[0])
    ensures !t.Var? ==> Show(t)[0] == '('
    ensures !IsSpace(Show(t)[0])
  {
  }

  /** Reading the printed text of a term as a prim, whatever text follows
      it, gives the term and leaves that text without its leading
      whitespace. */
  lemma {:induction false} PrimRoundTrip(t: Term, after: string)
    requires WellFormed(t)
    ensures ParsePrim(Show(t) + after) == Some((t, SkipSpaces(after)))
    decreases t, 1
  {
    match t
    case Var(name) => VarRoundTrip(t, after);
    case Abs(_, _) => AbsRoundTrip(t, after);
    case App(_, _) => AppRoundTrip(t, after);
  }

  lemma VarRoundTrip(t: Term, after: string)
    requires t.Var? && WellFormed(t)
    ensures ParsePrim(Show(t) + after) == Some((t, SkipSpaces(after)))
  {
    var input := Show(t) + after;
    assert t.name == [t.name[0]];
    assert input[0] == t.name[0] && input[1..] == after;
    assert ParseVar(input) == Some((t, SkipSpaces(after)));
    PrimOfVar(input);
  }

  lemma AbsText(t: Term, after: string)
    requires t.Abs? && t.param.Var? && |t.param.name| == 1
    ensures Show(t) + after
      == ['('] + (['λ'] + ([t.param.name[0]] + (['.'] + (Show(t.body) + ([')'] + after)))))
  {
    assert Show(t.param) == [t.param.name[0]];
  }

  lemma AppText(t: Term, after: string)
    requires t.App?
    ensures Show(t) + after == ['('] + (Show(t.fun) + ([' '] + (Show(t.arg) + ([')'] + after))))
  {
  }

  lemma {:induction false} AbsRoundTrip(t: Term, after: string)
    requires t.Abs? && WellFormed(t)
    ensures ParsePrim(Show(t) + after) == Some((t, SkipSpaces(after)))
    decreases t, 0
  {
    var x, body := t.param, t.body;
    var close := [')'] + after;
    var rest3 := Show(body) + close;
    var rest2 := ['.'] + rest3;
    var rest1 := [x.name[0]] + rest2;
    var inside := ['λ'] + rest1;
    var input := ['('] + inside;
    AbsText(t, after);

    assert MatchToken(IsOpen, input) == Some(("(", inside)) by {
      TokenStep(IsOpen, '(', inside);
    }
    assert MatchToken(IsLambda, inside) == Some(("λ", rest1)) by {
      TokenStep(IsLambda, 'λ', rest1);
    }
    assert ParseVar(rest1) == Some((x, rest2)) by {
      TokenStep(IsLetter, x.name[0], rest2);
      assert x.name == [x.name[0]];
    }
    assert MatchToken(IsDot, rest2) == Some((".", rest3)) by {
      ShowStart(body);
      TokenStep(IsDot, '.', rest3);
    }
    assert ParseTerm(rest3) == Some((body, close)) by {
      PrimRoundTrip(body, close);
      CloseEnds(after);
      TermFromPrim(rest3, body, close);
    }
    assert ParseTerm(inside) == Some((t, close)) by {
      AbsRule(inside, rest1, x, rest2, rest3, body, close);
      PrimOfAbs(inside);
      CloseEnds(after);
      TermFromPrim(inside, t, close);
    }
    CloseEnds(after);
    ParenRule(input, inside, t, close, SkipSpaces(after));
  }

  lemma {:induction false} AppRoundTrip(t: Term, after: string)
    requires t.App? && WellFormed(t)
    ensures ParsePrim(Show(t) + after) == Some((t, SkipSpaces(after)))
    decreases t, 0
  {
    var f, a := t.fun, t.arg;
    var close := [')'] + after;
    var argText := Show(a) + close;
    var inside := Show(f) + ([' '] + argText);
    var input := ['('] + inside;
    AppText(t, after);

    assert MatchToken(IsOpen, input) == Some(("(", inside)) by {
      ShowStart(f);
      TokenStep(IsOpen, '(', inside);
    }
    assert ParsePrim(inside) == Some((f, argText)) by {
      PrimRoundTrip(f, [' '] + argText);
      ShowStart(a);
      assert ([' '] + argText)[1..] == argText;
    }
    assert ParsePrim(argText) == Some((a, close)) by {
      PrimRoundTrip(a, close);
      CloseEnds(after);
    }
    CloseEnds(after);
    ManyOne(argText, a, close);
    AppRule(inside, f, argText, [a], close);
    assert AppLeft(f, [a]) == AppLeft(App(f, a), []) == t;
    ParenRule(input, inside, t, close, SkipSpaces(after));
  }

  /** Reading the printed text of a well-formed term gives the term back
      and consumes the whole text. */
  lemma ParseShow(t: Term)
    requires WellFormed(t)
    ensures ParseTerm(Show(t)) == Some((t, ""))
  {
    PrimRoundTrip(t, "");
    assert Show(t) + "" == Show(t);
    TermFromPrim(Show(t), t, "");
  }

  /** Distinct well-formed terms print differently. */
  lemma ShowInjective(t1: Term, t2: Term)
    requires WellFormed(t1) && WellFormed(t2)
    requires Show(t1) == Show(t2)
    ensures t1 == t2
  {
    ParseShow(t1);
    ParseShow(t2);
  }

  /** A term is read successfully from some text exactly when it is
      well-formed: reading only yields well-formed terms, and every
      well-formed term is read back from its printed text. */
  lemma ReadableIffWellFormed(t: Term)
    ensures WellFormed(t) <==> exists src :: ParseTerm(src).Some? && ParseTerm(src).value.0 == t
  {
    if WellFormed(t) {
      ParseShow(t);
    }
  }
}
