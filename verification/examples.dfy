/** The expectations of the reader's and the printer's unit tests, as
    lemmas. The reader's tests are stated for any letters in place of
    the test's letters and for any final character that is neither
    whitespace nor the start of a prim in place of its `!`. */
module Examples {
  import opened Terms
  import opened Combinators
  import opened Tokens
  import opened Reader
  import opened Printer
  import opened Steps

  /** A character the tests put after the text they read: `\s*` stops in
      front of it and no prim starts with it, as with `!`. */
  predicate IsStop(c: char)
  {
    !IsSpace(c) && !IsPrimStart(c)
  }

  /** What may follow a term in the tests: nothing, or a stop
      character. */
  predicate Ends(after: string)
  {
    after == [] || IsStop(after[0])
  }

  /** Text that is empty or starts with a stop character ends every prim
      sequence. */
  lemma StopEnds(after: string)
    requires Ends(after)
    ensures SkipSpaces(after) == after
    ensures ParsePrim(after).None?
    ensures ManyPrim(after) == Some(([], after))
  {
    ManyEnd(after);
  }

  /** `\s*` leaves text that does not start with whitespace alone. */
  lemma NoSpaceStart(text: string)
    requires text == [] || !IsSpace(text[0])
    ensures SkipSpaces(text) == text
  {
  }

  /** A letter followed by text that does not start with whitespace. */
  lemma LetterThen(x: char, text: string)
    requires IsLetter(x)
    requires text == [] || !IsSpace(text[0])
    ensures ParseVar([x] + text) == Some((Var([x]), text))
    ensures ParsePrim([x] + text) == Some((Var([x]), text))
  {
    VarStep(x, text);
    NoSpaceStart(text);
  }

  /** A letter and a blank, followed by text that does not start with
      whitespace. */
  lemma LetterSpaceThen(x: char, text: string)
    requires IsLetter(x)
    requires text != [] && !IsSpace(text[0])
    ensures ParsePrim([x, ' '] + text) == Some((Var([x]), text))
  {
    assert [x, ' '] + text == [x] + ([' '] + text);
    VarStep(x, [' '] + text);
    SpaceStep(text);
    NoSpaceStart(text);
  }

  /** Applying a term to a single argument. */
  lemma AppLeftOne(f: Term, a: Term)
    ensures AppLeft(f, [a]) == App(f, a)
  {
    assert [a][1..] == [];
  }

  /** The lambda sign of an abstraction. */
  lemma BinderSign(lam: char, x: char, body: string)
    requires IsLambda(lam) && IsLetter(x)
    ensures MatchToken(IsLambda, [lam, x, '.'] + body) == Some(([lam], [x] + (['.'] + body)))
  {
    assert [lam, x, '.'] + body == [lam] + ([x] + (['.'] + body));
    TokenStep(IsLambda, lam, [x] + (['.'] + body));
  }

  /** The bound variable of an abstraction. */
  lemma BinderVar(x: char, body: string)
    requires IsLetter(x)
    ensures ParseVar([x] + (['.'] + body)) == Some((Var([x]), ['.'] + body))
  {
    LetterThen(x, ['.'] + body);
  }

  /** An abstraction `λx.` (with any of the lambda signs) followed by
      the text of its body. */
  lemma BinderRule(lam: char, x: char, body: string, t: Term, rest: string)
    requires IsLambda(lam) && IsLetter(x)
    requires ParseTerm(SkipSpaces(body)) == Some((t, rest))
    ensures ParseAbs([lam, x, '.'] + body) == Some((Abs(Var([x]), t), rest))
  {
    BinderSign(lam, x, body);
    BinderVar(x, body);
    TokenSkip(IsDot, '.', body);
    AbsRule([lam, x, '.'] + body, [x] + (['.'] + body), Var([x]), ['.'] + body, SkipSpaces(body), t, rest);
  }

  /** `parseVar("a!")` and `parsePrim("a!")` read `a` and leave `!`. */
  lemma ReadVar(a: char, stop: char)
    requires IsLetter(a) && IsStop(stop)
    ensures ParseVar([a, stop]) == Some((Var([a]), [stop]))
    ensures ParsePrim([a, stop]) == Some((Var([a]), [stop]))
  {
    assert [a, stop] == [a] + [stop];
    LetterThen(a, [stop]);
  }

  /** Three variables read by `many(parseVar)` one after the other. */
  lemma ThreeVars(a: char, stop: char)
    requires IsLetter(a) && IsStop(stop)
    ensures ParseVar([a, a, a, stop]) == Some((Var([a]), [a, a, stop]))
    ensures ParseVar([a, a, stop]) == Some((Var([a]), [a, stop]))
    ensures ParseVar([a, stop]) == Some((Var([a]), [stop]))
    ensures ParseVar([stop]).None?
  {
    assert [a, a, a, stop] == [a] + [a, a, stop];
    assert [a, a, stop] == [a] + [a, stop];
    assert [a, stop] == [a] + [stop];
    LetterThen(a, [a, a, stop]);
    LetterThen(a, [a, stop]);
    LetterThen(a, [stop]);
  }

  /** `many(parseVar)("aaa!")` reads three variables and leaves `!`. */
  lemma ManyVars(a: char, stop: char)
    requires IsLetter(a) && IsStop(stop)
    ensures Progressive(ParseVar)
    ensures Many(ParseVar)([a, a, a, stop]) == Some(([Var([a]), Var([a]), Var([a])], [stop]))
  {
    ThreeVars(a, stop);
    assert Chain(ParseVar, [a, stop], [Var([a])], [stop]) by {
      assert Chain(ParseVar, [stop], [], [stop]);
      assert [Var([a])][1..] == [];
    }
    assert Chain(ParseVar, [a, a, stop], [Var([a]), Var([a])], [stop]) by {
      assert [Var([a]), Var([a])][1..] == [Var([a])];
    }
    assert Chain(ParseVar, [a, a, a, stop], [Var([a]), Var([a]), Var([a])], [stop]) by {
      assert [Var([a]), Var([a]), Var([a])][1..] == [Var([a]), Var([a])];
    }
    RepeatUnique(ParseVar, [a, a, a, stop], [Var([a]), Var([a]), Var([a])], [stop]);
  }

  /** `parseAppLeft(1, [2, 3, 4])` nests to the left. */
  lemma FoldLeft(t1: Term, t2: Term, t3: Term, t4: Term)
    ensures AppLeft(t1, [t2, t3, t4]) == App(App(App(t1, t2), t3), t4)
  {
    assert [t2, t3, t4][1..] == [t3, t4];
    assert [t3, t4][1..] == [t4];
    assert AppLeft(t1, [t2, t3, t4]) == AppLeft(App(App(t1, t2), t3), [t4]);
    AppLeftOne(App(App(t1, t2), t3), t4);
  }

  /** Two letters separated by a blank, then text that starts with a
      stop character, read as an application. */
  lemma ReadTwo(x: char, y: char, after: string)
    requires IsLetter(x) && IsLetter(y)
    requires Ends(after)
    ensures ParseTerm([x, ' ', y] + after) == Some((App(Var([x]), Var([y])), after))
  {
    assert [x, ' ', y] + after == [x, ' '] + ([y] + after);
    StopEnds(after);
    LetterThen(y, after);
    LetterSpaceThen(x, [y] + after);
    ManyOne([y] + after, Var([y]), after);
    AppRule([x, ' ', y] + after, Var([x]), [y] + after, [Var([y])], after);
    AppLeftOne(Var([x]), Var([y]));
  }

  /** `parseApp("x y!")` reads the application of `x` to `y`. */
  lemma ReadApp(x: char, y: char, stop: char)
    requires IsLetter(x) && IsLetter(y) && IsStop(stop)
    ensures ParseApp([x, ' ', y, stop]) == Some((App(Var([x]), Var([y])), [stop]))
  {
    assert [x, ' ', y, stop] == [x, ' ', y] + [stop];
    ReadTwo(x, y, [stop]);
  }

  /** A variable alone before a stop character, read as a term. */
  lemma ReadOne(y: char, after: string)
    requires IsLetter(y)
    requires Ends(after)
    ensures ParseTerm([y] + after) == Some((Var([y]), after))
  {
    StopEnds(after);
    LetterThen(y, after);
    TermFromPrim([y] + after, Var([y]), after);
  }

  /** Whitespace in front of a term is dropped. */
  lemma BlankThen(text: string)
    requires text != [] && !IsSpace(text[0])
    ensures SkipSpaces([' '] + text) == text
  {
    SpaceStep(text);
    NoSpaceStart(text);
  }

  /** `parseAbs("\\x. y!")` reads an abstraction over `x` with body `y`. */
  lemma ReadAbs(x: char, y: char, stop: char)
    requires IsLetter(x) && IsLetter(y) && IsStop(stop)
    ensures ParseAbs(['\\', x, '.', ' ', y, stop]) == Some((Abs(Var([x]), Var([y])), [stop]))
  {
    assert ['\\', x, '.', ' ', y, stop] == ['\\', x, '.'] + ([' '] + ([y] + [stop]));
    BlankThen([y] + [stop]);
    ReadOne(y, [stop]);
    BinderRule('\\', x, [' '] + ([y] + [stop]), Var([y]), [stop]);
  }

  /** The inner abstraction `\\y. y x` of the nested test, followed by
      text that starts with a stop character. */
  lemma ReadInnerAbs(x: char, y: char, after: string)
    requires IsLetter(x) && IsLetter(y)
    requires Ends(after)
    ensures ParseTerm(['\\', y, '.'] + ([' '] + ([y, ' ', x] + after)))
         == Some((Abs(Var([y]), App(Var([y]), Var([x]))), after))
  {
    BlankThen([y, ' ', x] + after);
    ReadTwo(y, x, after);
    BinderRule('\\', y, [' '] + ([y, ' ', x] + after), App(Var([y]), Var([x])), after);
    PrimOfAbs(['\\', y, '.'] + ([' '] + ([y, ' ', x] + after)));
    StopEnds(after);
    TermFromPrim(['\\', y, '.'] + ([' '] + ([y, ' ', x] + after)), Abs(Var([y]), App(Var([y]), Var([x]))), after);
  }

  /** `parseAbs("\\x.\\y. y x!")` reads two nested abstractions whose
      innermost body is the application `y x`. */
  lemma ReadNestedAbs(x: char, y: char, stop: char)
    requires IsLetter(x) && IsLetter(y) && IsStop(stop)
    ensures ParseAbs(['\\', x, '.', '\\', y, '.', ' ', y, ' ', x, stop])
         == Some((Abs(Var([x]), Abs(Var([y]), App(Var([y]), Var([x])))), [stop]))
  {
    assert ['\\', x, '.', '\\', y, '.', ' ', y, ' ', x, stop]
        == ['\\', x, '.'] + (['\\', y, '.'] + ([' '] + ([y, ' ', x] + [stop])));
    ReadInnerAbs(x, y, [stop]);
    NoSpaceStart(['\\', y, '.'] + ([' '] + ([y, ' ', x] + [stop])));
    BinderRule('\\', x, ['\\', y, '.'] + ([' '] + ([y, ' ', x] + [stop])),
      Abs(Var([y]), App(Var([y]), Var([x]))), [stop]);
  }

  /** A parenthesised term: the parentheses add no node, and the
      whitespace after the closing one is dropped. */
  lemma ParenPrim(inside: string, t: Term, after: string)
    requires ParseTerm(inside + ([')'] + after)) == Some((t, [')'] + after))
    ensures ParseParen(['('] + (inside + ([')'] + after))) == Some((t, SkipSpaces(after)))
    ensures ParsePrim(['('] + (inside + ([')'] + after))) == Some((t, SkipSpaces(after)))
  {
    var text := inside + ([')'] + after);
    assert text != [] && !IsSpace(text[0]) by {
      assert ParseTerm(text).Some?;
    }
    TokenStep(IsOpen, '(', text);
    CloseEnds(after);
    ParenRule(['('] + text, text, t, [')'] + after, SkipSpaces(after));
    PrimOfParen(['('] + text);
  }

  /** `parseParen("(a)!")` reads `a` itself, with no node for the
      parentheses. */
  lemma ReadParen(a: char, stop: char)
    requires IsLetter(a) && IsStop(stop)
    ensures ParseParen(['(', a, ')', stop]) == Some((Var([a]), [stop]))
  {
    assert ['(', a, ')', stop] == ['('] + ([a] + ([')'] + [stop]));
    ReadOne(a, [')'] + [stop]);
    ParenPrim([a], Var([a]), [stop]);
    StopEnds([stop]);
  }

  /** A letter applied to a parenthesised term, as in `f (f x)`. */
  lemma ApplyToParen(f: char, inside: string, t: Term, after: string)
    requires IsLetter(f) && Ends(after)
    requires ParseTerm(inside + ([')'] + after)) == Some((t, [')'] + after))
    ensures ParseTerm([f, ' '] + (['('] + (inside + ([')'] + after)))) == Some((App(Var([f]), t), after))
  {
    var paren := ['('] + (inside + ([')'] + after));
    ParenPrim(inside, t, after);
    StopEnds(after);
    LetterSpaceThen(f, paren);
    ManyOne(paren, t, after);
    AppRule([f, ' '] + paren, Var([f]), paren, [t], after);
    AppLeftOne(Var([f]), t);
  }

  /** `parseApp("a (b c)!")` reads `a` applied to the application `b c`. */
  lemma ReadAppOfParen(a: char, b: char, c: char, stop: char)
    requires IsLetter(a) && IsLetter(b) && IsLetter(c) && IsStop(stop)
    ensures ParseApp([a, ' ', '(', b, ' ', c, ')', stop])
         == Some((App(Var([a]), App(Var([b]), Var([c]))), [stop]))
  {
    assert [a, ' ', '(', b, ' ', c, ')', stop]
        == [a, ' '] + (['('] + ([b, ' ', c] + ([')'] + [stop])));
    ReadTwo(b, c, [')'] + [stop]);
    ApplyToParen(a, [b, ' ', c], App(Var([b]), Var([c])), [stop]);
  }

  /** An abstraction read as a term, when what follows it ends the term. */
  lemma AbsTerm(lam: char, x: char, body: string, t: Term, after: string)
    requires IsLambda(lam) && IsLetter(x) && Ends(after)
    requires ParseTerm(SkipSpaces(body)) == Some((t, after))
    ensures ParseTerm([lam, x, '.'] + body) == Some((Abs(Var([x]), t), after))
  {
    BinderRule(lam, x, body, t, after);
    PrimOfAbs([lam, x, '.'] + body);
    StopEnds(after);
    TermFromPrim([lam, x, '.'] + body, Abs(Var([x]), t), after);
  }

  /** `parseTerm("λf.λx.x")` reads two nested abstractions: the body of
      each one extends to the end of the text. */
  lemma ReadIdentity(f: char, x: char)
    requires IsLetter(f) && IsLetter(x)
    ensures ParseTerm(['λ', f, '.', 'λ', x, '.', x]) == Some((Abs(Var([f]), Abs(Var([x]), Var([x]))), []))
  {
    assert ['λ', f, '.', 'λ', x, '.', x] == ['λ', f, '.'] + (['λ', x, '.'] + [x]);
    assert [x] == [x] + [];
    ReadOne(x, []);
    NoSpaceStart([x]);
    AbsTerm('λ', x, [x], Var([x]), []);
    NoSpaceStart(['λ', x, '.'] + [x]);
    AbsTerm('λ', f, ['λ', x, '.'] + [x], Abs(Var([x]), Var([x])), []);
  }

  /** `show(parseTerm("λf.λx.x")[1])` prints `(λf.(λx.x))`. */
  lemma ShowIdentity(f: char, x: char)
    ensures Show(Abs(Var([f]), Abs(Var([x]), Var([x])))) == ['(', 'λ', f, '.', '(', 'λ', x, '.', x, ')', ')']
  {
    assert Show(Abs(Var([x]), Var([x]))) == ['(', 'λ', x, '.', x, ')'];
  }

  /** The Church numeral three, `λf.λx.f (f (f x))`. */
  function ChurchThree(f: char, x: char): Term
  {
    Abs(Var([f]), Abs(Var([x]), App(Var([f]), App(Var([f]), App(Var([f]), Var([x]))))))
  }

  /** The body `f (f (f x))` of the Church numeral three. */
  lemma ReadChurchBody(f: char, x: char)
    requires IsLetter(f) && IsLetter(x)
    ensures ParseTerm([f, ' ', '(', f, ' ', '(', f, ' ', x, ')', ')'])
         == Some((App(Var([f]), App(Var([f]), App(Var([f]), Var([x])))), []))
  {
    ReadTwo(f, x, [')'] + [')']);
    ApplyToParen(f, [f, ' ', x], App(Var([f]), Var([x])), [')']);
    ChurchText(f, x);
    ApplyToParen(f, [f, ' '] + (['('] + ([f, ' ', x] + [')'])), App(Var([f]), App(Var([f]), Var([x]))), []);
  }

  /** The body of the Church numeral three, split around its
      parentheses. */
  lemma ChurchText(f: char, x: char)
    ensures [f, ' '] + (['('] + ([f, ' ', x] + ([')'] + [')'])))
         == ([f, ' '] + (['('] + ([f, ' ', x] + [')']))) + ([')'] + [])
    ensures [f, ' ', '(', f, ' ', '(', f, ' ', x, ')', ')']
         == [f, ' '] + (['('] + (([f, ' '] + (['('] + ([f, ' ', x] + [')']))) + ([')'] + [])))
  {
  }

  /** `parseTerm("λf.λx.f (f (f x))")` reads the Church numeral three. */
  lemma ReadChurchThree(f: char, x: char)
    requires IsLetter(f) && IsLetter(x)
    ensures ParseTerm(['λ', f, '.', 'λ', x, '.', f, ' ', '(', f, ' ', '(', f, ' ', x, ')', ')'])
         == Some((ChurchThree(f, x), []))
  {
    var body := [f, ' ', '(', f, ' ', '(', f, ' ', x, ')', ')'];
    ReadChurchBody(f, x);
    NoSpaceStart(body);
    AbsTerm('λ', x, body, ChurchThree(f, x).body.body, []);
    NoSpaceStart(['λ', x, '.'] + body);
    AbsTerm('λ', f, ['λ', x, '.'] + body, ChurchThree(f, x).body, []);
    ChurchSource(f, x);
  }

  /** The text of the Church numeral three, split after its binders. */
  lemma ChurchSource(f: char, x: char)
    ensures ['λ', f, '.', 'λ', x, '.', f, ' ', '(', f, ' ', '(', f, ' ', x, ')', ')']
         == ['λ', f, '.'] + (['λ', x, '.'] + [f, ' ', '(', f, ' ', '(', f, ' ', x, ')', ')'])
  {
  }

  /** How an abstraction over a one-letter variable is printed. */
  lemma ShowAbsOf(c: char, body: Term)
    ensures Show(Abs(Var([c]), body)) == ['(', 'λ', c, '.'] + Show(body) + [')']
  {
  }

  /** How a one-letter variable applied to a term is printed. */
  lemma ShowAppOf(c: char, arg: Term)
    ensures Show(App(Var([c]), arg)) == ['(', c, ' '] + Show(arg) + [')']
  {
  }

  /** `f x` is printed `(f x)`. */
  lemma ShowOneApp(f: char, x: char)
    ensures Show(App(Var([f]), Var([x]))) == ['(', f, ' ', x, ')']
  {
    ShowAppOf(f, Var([x]));
  }

  /** `f (f x)` is printed `(f (f x))`. */
  lemma ShowTwoApps(f: char, x: char)
    ensures Show(App(Var([f]), App(Var([f]), Var([x])))) == ['(', f, ' ', '(', f, ' ', x, ')', ')']
  {
    ShowOneApp(f, x);
    ShowAppOf(f, App(Var([f]), Var([x])));
  }

  /** `f (f (f x))` is printed `(f (f (f x)))`. */
  lemma ShowThreeApps(f: char, x: char)
    ensures Show(ChurchThree(f, x).body.body) == ['(', f, ' ', '(', f, ' ', '(', f, ' ', x, ')', ')', ')']
  {
    ShowTwoApps(f, x);
    ShowAppOf(f, App(Var([f]), App(Var([f]), Var([x]))));
  }

  /** `λx.f (f (f x))` is printed `(λx.(f (f (f x))))`. */
  lemma ShowChurchInner(f: char, x: char)
    ensures Show(ChurchThree(f, x).body)
         == ['(', 'λ', x, '.', '(', f, ' ', '(', f, ' ', '(', f, ' ', x, ')', ')', ')', ')']
  {
    ShowThreeApps(f, x);
    ShowAbsOf(x, ChurchThree(f, x).body.body);
  }

  /** `show(parseTerm("λf.λx.f (f (f x))")[1])` prints
      `(λf.(λx.(f (f (f x)))))`. */
  lemma ShowChurchThree(f: char, x: char)
    ensures Show(ChurchThree(f, x))
         == ['(', 'λ', f, '.', '(', 'λ', x, '.', '(', f, ' ', '(', f, ' ', '(', f, ' ', x, ')', ')', ')', ')', ')']
  {
    ShowChurchInner(f, x);
    ShowAbsOf(f, ChurchThree(f, x).body);
  }

  /** One half `λx.g (x x)` of the fixed-point combinator. */
  function Half(g: char, x: char): Term
  {
    Abs(Var([x]), App(Var([g]), App(Var([x]), Var([x]))))
  }

  /** The text `λx.g (x x)` of one half, followed by what ends it. */
  lemma ReadHalf(g: char, x: char, after: string)
    requires IsLetter(g) && IsLetter(x) && Ends(after)
    ensures ParseTerm(['λ', x, '.', g, ' ', '(', x, ' ', x, ')'] + after) == Some((Half(g, x), after))
  {
    var body := [g, ' '] + (['('] + ([x, ' ', x] + ([')'] + after)));
    ReadTwo(x, x, [')'] + after);
    ApplyToParen(g, [x, ' ', x], App(Var([x]), Var([x])), after);
    NoSpaceStart(body);
    AbsTerm('λ', x, body, Half(g, x).body, after);
    HalfText(g, x, after);
  }

  /** The text of one half, split after its binder. */
  lemma HalfText(g: char, x: char, after: string)
    ensures ['λ', x, '.', g, ' ', '(', x, ' ', x, ')'] + after
         == ['λ', x, '.'] + ([g, ' '] + (['('] + ([x, ' ', x] + ([')'] + after))))
  {
  }

  /** The fixed-point combinator `λg.(λx.g (x x)) (λx.g (x x))`. */
  function Fix(g: char, x: char): Term
  {
    Abs(Var([g]), App(Half(g, x), Half(g, x)))
  }

  /** The body `(λx.g (x x)) (λx.g (x x))` of the fixed-point combinator. */
  lemma ReadFixBody(g: char, x: char)
    requires IsLetter(g) && IsLetter(x)
    ensures ParseTerm(['('] + (['λ', x, '.', g, ' ', '(', x, ' ', x, ')'] + ([')'] + ([' '] + (['('] + (['λ', x, '.', g, ' ', '(', x, ' ', x, ')'] + ([')'] + [])))))))
         == Some((Fix(g, x).body, []))
  {
    var half := ['λ', x, '.', g, ' ', '(', x, ' ', x, ')'];
    var second := ['('] + (half + ([')'] + []));
    var first := ['('] + (half + ([')'] + ([' '] + second)));
    ReadHalf(g, x, [')'] + ([' '] + second));
    ParenPrim(half, Half(g, x), [' '] + second);
    BlankThen(second);
    ReadHalf(g, x, [')'] + []);
    ParenPrim(half, Half(g, x), []);
    StopEnds([]);
    ManyOne(second, Half(g, x), []);
    AppRule(first, Half(g, x), second, [Half(g, x)], []);
    AppLeftOne(Half(g, x), Half(g, x));
  }

  /** `parseTerm("λg.(λx.g (x x)) (λx.g (x x))")` reads the fixed-point
      combinator. */
  lemma ReadFix(g: char, x: char)
    requires IsLetter(g) && IsLetter(x)
    ensures ParseTerm(['λ', g, '.', '(', 'λ', x, '.', g, ' ', '(', x, ' ', x, ')', ')', ' ',
                       '(', 'λ', x, '.', g, ' ', '(', x, ' ', x, ')', ')'])
         == Some((Fix(g, x), []))
  {
    var half := ['λ', x, '.', g, ' ', '(', x, ' ', x, ')'];
    var body := ['('] + (half + ([')'] + ([' '] + (['('] + (half + ([')'] + []))))));
    ReadFixBody(g, x);
    NoSpaceStart(body);
    AbsTerm('λ', g, body, Fix(g, x).body, []);
    FixSource(g, x);
  }

  /** The text of the fixed-point combinator, split after its binder. */
  lemma FixSource(g: char, x: char)
    ensures ['λ', g, '.', '(', 'λ', x, '.', g, ' ', '(', x, ' ', x, ')', ')', ' ',
             '(', 'λ', x, '.', g, ' ', '(', x, ' ', x, ')', ')']
         == ['λ', g, '.'] + (['('] + (['λ', x, '.', g, ' ', '(', x, ' ', x, ')'] + ([')'] + ([' ']
              + (['('] + (['λ', x, '.', g, ' ', '(', x, ' ', x, ')'] + ([')'] + [])))))))
  {
  }

  /** `λx.g (x x)` is printed `(λx.(g (x x)))`. */
  lemma ShowHalf(g: char, x: char)
    ensures Show(Half(g, x)) == ['(', 'λ', x, '.', '(', g, ' ', '(', x, ' ', x, ')', ')', ')']
  {
    ShowOneApp(x, x);
    ShowAppOf(g, App(Var([x]), Var([x])));
    ShowAbsOf(x, App(Var([g]), App(Var([x]), Var([x]))));
  }

  /** The body of the fixed-point combinator is printed
      `((λx.(g (x x))) (λx.(g (x x))))`. */
  lemma ShowFixBody(g: char, x: char)
    ensures Show(Fix(g, x).body)
         == ['(', '(', 'λ', x, '.', '(', g, ' ', '(', x, ' ', x, ')', ')', ')', ' ',
             '(', 'λ', x, '.', '(', g, ' ', '(', x, ' ', x, ')', ')', ')', ')']
  {
    ShowHalf(g, x);
  }

  /** `show(parseTerm("λg.(λx.g (x x)) (λx.g (x x))")[1])` prints
      `(λg.((λx.(g (x x))) (λx.(g (x x)))))`. */
  lemma ShowFix(g: char, x: char)
    ensures Show(Fix(g, x))
         == ['(', 'λ', g, '.', '(', '(', 'λ', x, '.', '(', g, ' ', '(', x, ' ', x, ')', ')', ')', ' ',
             '(', 'λ', x, '.', '(', g, ' ', '(', x, ' ', x, ')', ')', ')', ')', ')']
  {
    ShowFixBody(g, x);
    ShowAbsOf(g, Fix(g, x).body);
    FixText(g, x);
  }

  /** The printed fixed-point combinator, put together from the printed
      body. */
  lemma FixText(g: char, x: char)
    ensures ['(', 'λ', g, '.']
          + ['(', '(', 'λ', x, '.', '(', g, ' ', '(', x, ' ', x, ')', ')', ')', ' ',
             '(', 'λ', x, '.', '(', g, ' ', '(', x, ' ', x, ')', ')', ')', ')']
          + [')']
         == ['(', 'λ', g, '.', '(', '(', 'λ', x, '.', '(', g, ' ', '(', x, ' ', x, ')', ')', ')', ' ',
             '(', 'λ', x, '.', '(', g, ' ', '(', x, ' ', x, ')', ')', ')', ')', ')']
  {
  }
}
