# Lambda-calculus reader and printer

A Dafny model of the reader and printer of the lambda calculator in
`lambda.js` (AlligatorEggs). Terms are small trees: a variable, an
abstraction whose binder is itself a variable node, or an application.
The printer `show` writes a term fully parenthesised with `λ`. The reader
is a recursive-descent parser built from a tiny combinator library
(`parseRegExp`, `seq`, `orElse`, `many`) over the grammar

    term  = app
    app   = prim prim*          (folded to the left by parseAppLeft)
    prim  = paren | abs | var
    var   = [a-z] \s*
    abs   = ( \ | L | λ ) \s* var . \s* term
    paren = ( \s* term ) \s*

A parser either fails or yields a value and the rest of its input; this is
`Option<(T, string)>`.

Files, one module each:

- `terms.dfy` (`Terms`): the term tree and `eq` as structural equality.
- `printer.dfy` (`Printer`): `show`.
- `combinators.dfy` (`Combinators`): parsers as functions, `seq`, `orElse`,
  and `many` both as a recursive specification (`Repeat`) and as the
  source's `while` loop (`RunMany`); suffix and progress predicates.
- `tokens.dfy` (`Tokens`): `\s*` and the one-character regular expressions
  of `parseRegExp`.
- `reader.dfy` (`Reader`): the grammar, `parseAppLeft`, and the
  well-formedness of the trees the reader builds.
- `composition.dfy` (`Composition`): each grammar rule equals the
  combinator expression that defines it in the source.
- `steps.dfy` (`Steps`): one-step facts about the grammar, used to read
  concrete text.
- `roundtrip.dfy` (`RoundTrip`): reading the printed text of a term gives
  the term back.
- `examples.dfy` (`Examples`), `unit_tests.dfy` (`UnitTests`): the
  expectations of `runtest`, first for arbitrary letters and final
  characters, then on the exact texts of the tests.

The headline result is `RoundTrip.ParseShow`: for every well-formed term
`t`, `ParseTerm(Show(t)) == Some((t, ""))`.

## Model

| member | source | states |
|---|---|---|
| Terms.TermEq | lambda.js:149-159 | `eq` on two trees holds exactly when they are the same tree |
| RoundTrip.ParseShow | lambda.js:28-38 | reading the printed text of a well-formed term gives that term and consumes all of the text |
| RoundTrip.PrimRoundTrip | lambda.js:28-38 | reading the printed text of a well-formed term as a prim, whatever follows, gives the term and leaves what follows minus its leading whitespace |
| RoundTrip.ShowStart | lambda.js:28-36 | the printed text of a well-formed term is never empty and never starts with whitespace; a variable prints as its name, abstractions and applications start with `(` |
| RoundTrip.ShowInjective | lambda.js:28-38 | distinct well-formed terms print differently |
| RoundTrip.ReadableIffWellFormed | lambda.js:48-99 | a tree is the result of reading some text exactly when it is well-formed (one-letter variables, binders are variables) |
| Reader.ParseVar | lambda.js:61-65 | succeeds exactly when the input starts with `a`-`z`; yields that one-letter variable and the rest after the whitespace that follows; the rest is a proper suffix |
| Reader.ParseTerm | lambda.js:49-51 | on success the rest is a proper suffix, the tree is well-formed, and no further prim can start the rest |
| Reader.ParseApp | lambda.js:68-74 | as `ParseTerm`: a maximal run of prims, rest a proper suffix, tree well-formed |
| Reader.ManyPrim | lambda.js:69-70 | never fails; every tree is well-formed; the rest is a suffix on which no prim can be read |
| Reader.ParsePrim | lambda.js:54-58 | on success the input starts with `(`, a lambda sign or a letter, the rest is a proper suffix and the tree well-formed |
| Reader.ParseAbs | lambda.js:83-90 | on success the input starts with a lambda sign, the rest is a proper suffix, the tree is well-formed, and the body extends as far right as possible (no prim can start the rest) |
| Reader.ParseParen | lambda.js:93-99 | on success the input starts with `(`, the rest is a proper suffix and the tree well-formed |
| Reader.AppLeftSnoc | lambda.js:76-80 | one more argument wraps one more application around the outside of the fold |
| Reader.SpineOfAppLeft | lambda.js:76-80 | the left fold appends its arguments to the head's argument list |
| Reader.AppLeftOfSpine | lambda.js:76-80 | every term is the left fold of its head and arguments |
| Reader.AppLeftWellFormed | lambda.js:72-79 | folding well-formed terms gives a well-formed term |
| Tokens.SkipSpaces | lambda.js:62 | `\s*` leaves a suffix of its input that does not start with whitespace |
| Tokens.SkipSpacesDropsSpaces | lambda.js:62 | what `\s*` drops is all whitespace |
| Tokens.SkipSpacesOver | lambda.js:62 | `\s*` drops exactly a leading run of whitespace and nothing after it |
| Tokens.MatchToken | lambda.js:103-109 | succeeds exactly when the first character passes the test; yields that character; the rest is a proper suffix, equal to the input after that character and its following whitespace |
| Tokens.ParseRegExp | lambda.js:103-109 | the parser for an anchored one-character regular expression followed by `\s*`; it always consumes input |
| Combinators.Seq | lambda.js:136-144 | succeeds exactly when the first parser succeeds and the second succeeds on its rest; yields the pair of values and the second parser's rest |
| Combinators.OrElse | lambda.js:127-133 | returns the first parser's result unchanged when it succeeds, otherwise the second parser applied to the original input |
| Combinators.SeqProgressive | lambda.js:136-144 | `seq` of two parsers that always consume input always consumes input |
| Combinators.OrElseProgressive | lambda.js:127-133 | `orElse` of two parsers that always consume input always consumes input |
| Combinators.Repeat | lambda.js:114-124 | `many` never fails; its values are consecutive successes of the parser, in order, and the parser fails on the rest, a suffix of the input |
| Combinators.Many | lambda.js:114-124 | on every input `many(p)` succeeds; its values are the values of consecutive successes of `p`, in order; its rest is a suffix of the input on which `p` fails; and it agrees with `Repeat` |
| Combinators.RepeatUnique | lambda.js:114-124 | any run of consecutive successes ending where the parser fails is exactly what `many` returns |
| Combinators.ManyNonGrowing | lambda.js:114-124 | `many` never returns more text than it was given |
| Combinators.RunMany | lambda.js:114-124 | the `while` loop returns what `many` specifies: the consecutive successes in order and the first input on which the parser fails |
| Composition.PrimProgressive | lambda.js:54-58 | every successful prim consumes input, so `many(parsePrim)` terminates |
| Composition.ManyPrimIsMany | lambda.js:69-70 | the grammar's prim sequence is `many(parsePrim)` |
| Composition.TermIsApp | lambda.js:49-51 | `term = app` |
| Composition.PrimIsOrElse | lambda.js:54-58 | `parsePrim` is `orElse(parseParen, orElse(parseAbs, parseVar))` |
| Composition.VarIsRegExp | lambda.js:61-65 | `parseVar` is the regular expression `^([a-z])\s*` with its match wrapped in a variable node |
| Composition.AppIsSeq | lambda.js:68-74 | `parseApp` is `seq(parsePrim, many(parsePrim))` followed by `parseAppLeft` |
| Composition.ParenIsSeq | lambda.js:93-99 | `parseParen` is `seq("(", seq(parseTerm, ")"))` keeping only the term |
| Composition.AbsIsSeq | lambda.js:83-90 | `parseAbs` is `seq(lambda, seq(parseVar, seq(".", parseTerm)))` built into an abstraction of the variable node over the term |
| Examples.ReadVar | lambda.js:169-170 | a letter followed by `!` (or any stop character) is read by `parseVar` and `parsePrim` as that variable, leaving the stop character |
| Examples.ManyVars | lambda.js:171 | `many(parseVar)` on three equal letters then a stop character gives three variables, leaving the stop character |
| Examples.FoldLeft | lambda.js:173 | `parseAppLeft(1, [2, 3, 4])` is `app(app(app(1, 2), 3), 4)` for any four trees |
| Examples.ReadApp | lambda.js:175-176 | `x y!` reads as the application of `x` to `y`, leaving `!`, for any letters |
| Examples.ReadAbs | lambda.js:178-179 | `\x. y!` reads as an abstraction over `x` with body `y`, leaving `!` |
| Examples.ReadNestedAbs | lambda.js:181-184 | `\x.\y. y x!` reads as two nested abstractions over the application `y x` |
| Examples.ReadParen | lambda.js:186 | `(a)!` reads as `a` itself, with no node for the parentheses |
| Examples.ReadAppOfParen | lambda.js:188-189 | `a (b c)!` reads as `a` applied to `b c` |
| Examples.ReadIdentity | lambda.js:200 | `λf.λx.x` reads as two nested abstractions, each body extending to the end |
| Examples.ShowIdentity | lambda.js:200 | that tree prints as `(λf.(λx.x))` |
| Examples.ReadChurchThree | lambda.js:201 | `λf.λx.f (f (f x))` reads as the Church numeral three |
| Examples.ShowChurchThree | lambda.js:201 | that tree prints as `(λf.(λx.(f (f (f x)))))` |
| Examples.ReadFix | lambda.js:203 | `λg.(λx.g (x x)) (λx.g (x x))` reads as the fixed-point combinator |
| Examples.ShowFix | lambda.js:203-204 | that tree prints as `(λg.((λx.(g (x x))) (λx.(g (x x)))))` |
| UnitTests.ParseVarTest | lambda.js:169-170 | `parseVar("a!")` and `parsePrim("a!")` give `var a` and `"!"` |
| UnitTests.ManyTest | lambda.js:171 | `many(parseVar)("aaa!")` gives three `var a` and `"!"` |
| UnitTests.ParseAppTest | lambda.js:175-176 | `parseApp("x y!")` gives `app(var x, var y)` and `"!"` |
| UnitTests.ParseAbsTest | lambda.js:178-179 | `parseAbs("\\x. y!")` gives `abs(var x, var y)` and `"!"` |
| UnitTests.ParseNestedAbsTest | lambda.js:181-184 | `parseAbs("\\x.\\y. y x!")` gives `abs(var x, abs(var y, app(var y, var x)))` and `"!"` |
| UnitTests.ParseParenTest | lambda.js:186 | `parseParen("(a)!")` gives `var a` and `"!"` |
| UnitTests.ParseAppOfParenTest | lambda.js:188-189 | `parseApp("a (b c)!")` gives `app(var a, app(var b, var c))` and `"!"` |
| UnitTests.ShowTest | lambda.js:193-198 | `show` prints `a`, `(λx.y)` and `(a (b c))` for the three test trees |
| UnitTests.ShowIdentityTest | lambda.js:200 | `show(parseTerm("λf.λx.x")[1])` is `(λf.(λx.x))` |
| UnitTests.ShowChurchThreeTest | lambda.js:201 | `show(parseTerm("λf.λx.f (f (f x))")[1])` is `(λf.(λx.(f (f (f x)))))` |
| UnitTests.ShowFixTest | lambda.js:203-204 | `show(parseTerm("λg.(λx.g (x x)) (λx.g (x x))")[1])` is `(λg.((λx.(g (x x))) (λx.(g (x x)))))` |

## Left out

- Reduction and the de Bruijn printer (`eval1`, `findApp`, `parse`, the two-argument `show`, `Shape.fromTerm`): alligator.js calls them, but they are not defined in the files modelled, so there is nothing to model them against.
- shape.js (SVG and DOM rendering, float layout) and the alligator.js `Calculator` state machine, its timers, its location hash and its snippet and query helpers: user-interface code, not part of this model.
- `testEq` and the output of `runtest` (`out`, `console.log`): I/O. The test expectations are stated as lemmas instead.
- Terms.TermEq: `eq` compares arbitrary nested arrays and primitive values with `==`; the model compares terms only, which is how the reader and printer use it.
- Tokens.ParseRegExp: for `(` and `)` the source's regular expressions have no capture group, so the value is `undefined`; the model yields the character. `parseParen` discards this value either way.
- Combinators.Many: requires a parser that always consumes input. With a parser that can succeed without consuming, the source's loop never ends; every parser the grammar passes to `many` consumes input (`Composition.PrimProgressive`).
- `\s` is the fixed set of characters JavaScript's `\s` matches. A Dafny string is a sequence of Unicode scalar values, while a JavaScript string is a sequence of UTF-16 code units; every character the grammar matches (`a`-`z`, `\`, `L`, `λ`, `.`, `(`, `)` and the `\s` set) is one code unit, so any other character fails every token in both. Lone surrogates cannot be written in the model.
- The `throw "unknown tag"` of `show` cannot happen: the term type has exactly three cases.
- Recursion depth: `show`, `parseAppLeft` and the reader's mutual recursion (`parseParen` through `parseTerm`) recurse without bound in the source, so very deep trees, long runs of prims or deeply nested parentheses exhaust JavaScript's call stack and throw `RangeError`; the model's recursion has no such limit.
- The reader's tests in `Examples` hold for any letters and any final character that is neither whitespace nor the start of a prim; `UnitTests` instantiates them on the tests' own texts.
