/** The reader: a recursive-descent grammar over the combinator library.

      term  = app
      app   = prim prim*        (left-folded into applications)
      prim  = paren | abs | var
      var   = [a-z]
      abs   = ("\" | "L" | "λ") var "." term
      paren = "(" term ")"

    Every token is followed by optional whitespace. */
module Reader {
  import opened Terms
  import opened Combinators
  import opened Tokens

  predicate IsLetter(c: char) { 'a' <= c <= 'z' }
  predicate IsLambda(c: char) { c == '\\' || c == 'L' || c == 'λ' }
  predicate IsDot(c: char) { c == '.' }
  predicate IsOpen(c: char) { c == '(' }
  predicate IsClose(c: char) { c == ')' }

  /** The characters a `prim` can start with. */
  predicate IsPrimStart(c: char) { IsOpen(c) || IsLambda(c) || IsLetter(c) }

  /** The terms the grammar can describe: one-letter variables, and
      binders that are such variables. */
  predicate WellFormed(t: Term)
  {
    match t
    case Var(name) => |name| == 1 && IsLetter(name[0])
    case Abs(x, body) => x.Var? && WellFormed(x) && WellFormed(body)
    case App(f, a) => WellFormed(f) && WellFormed(a)
  }

  // ---------- Left-nested application ----------

  /** `parseAppLeft`: apply `first` to each of `rest` in turn. */
  function AppLeft(first: Term, rest: seq<Term>): Term
    decreases |rest|
  {
    if |rest| == 0 then first else AppLeft(App(first, rest[0]), rest[1..])
  }

  /** The head and the arguments of a left-nested application. */
  function Spine(t: Term): (seq<Term>, Term)
  {
    match t
    case App(f, a) => (Spine(f).0 + [a], Spine(f).1)
    case _ => ([], t)
  }

  /** Adding one more argument wraps one more application around the
      outside. */
  lemma {:induction false} AppLeftSnoc(first: Term, rest: seq<Term>, last: Term)
    ensures AppLeft(first, rest + [last]) == App(AppLeft(first, rest), last)
    decreases |rest|
  {
    if |rest| != 0 {
      assert (rest + [last])[1..] == rest[1..] + [last];
      AppLeftSnoc(App(first, rest[0]), rest[1..], last);
    }
  }

  /** Folding arguments onto a head extends the head's argument list:
      for a head that is not an application, `Spine` recovers exactly
      the head and the arguments. */
  lemma {:induction false} SpineOfAppLeft(first: Term, rest: seq<Term>)
    ensures Spine(AppLeft(first, rest)) == (Spine(first).0 + rest, Spine(first).1)
    decreases |rest|
  {
    if |rest| == 0 {
      assert Spine(first).0 + rest == Spine(first).0;
    } else {
      SpineOfAppLeft(App(first, rest[0]), rest[1..]);
      assert Spine(first).0 + [rest[0]] + rest[1..] == Spine(first).0 + rest;
    }
  }

  /** Every term is the left fold of its spine. */
  lemma {:induction false} AppLeftOfSpine(t: Term)
    ensures AppLeft(Spine(t).1, Spine(t).0) == t
  {
    if t.App? {
      AppLeftOfSpine(t.fun);
      AppLeftSnoc(Spine(t.fun).1, Spine(t.fun).0, t.arg);
    }
  }

  lemma {:induction false} AppLeftWellFormed(first: Term, rest: seq<Term>)
    requires WellFormed(first)
    requires forall t :: t in rest ==> WellFormed(t)
    ensures WellFormed(AppLeft(first, rest))
    decreases |rest|
  {
    if |rest| != 0 {
      assert rest[0] in rest;
      AppLeftWellFormed(App(first, rest[0]), rest[1..]);
    }
  }

  // ---------- The grammar ----------

  /** `var = [a-z]`: one lower-case letter and the whitespace after it. */
  function ParseVar(source: string): (r: Option<(Term, string)>)
    ensures r.Some? <==> |source| > 0 && IsLetter(source[0])
    ensures r.Some? ==> r.value == (Var([source[0]]), SkipSpaces(source[1..]))
    ensures r.Some? ==> IsProperSuffix(r.value.1, source) && WellFormed(r.value.0)
  {
    match MatchToken(IsLetter, source)
    case None => None
    case Some((name, rest)) => Some((Var(name), rest))
  }

  /** `term = app`. */
  function ParseTerm(source: string): (r: Option<(Term, string)>)
    ensures r.Some? ==> IsProperSuffix(r.value.1, source) && WellFormed(r.value.0)
    ensures r.Some? ==> ParsePrim(r.value.1).None?
    decreases |source|, 4
  {
    ParseApp(source)
  }

  /** `app = prim prim*`: the prims, as many as follow, folded to the
      left. The application ends only where no further prim can start. */
  function ParseApp(source: string): (r: Option<(Term, string)>)
    ensures r.Some? ==> IsProperSuffix(r.value.1, source) && WellFormed(r.value.0)
    ensures r.Some? ==> ParsePrim(r.value.1).None?
    decreases |source|, 3
  {
    match ParsePrim(source)
    case None => None
    case Some((first, rest)) =>
      var (args, last) := ManyPrim(rest).value;
      SuffixTrans(last, rest, source);
      AppLeftWellFormed(first, args);
      Some((AppLeft(first, args), last))
  }

  /** `many(parsePrim)`, unfolded so that the grammar's mutual recursion
      can be checked for termination; `ManyPrimIsMany` shows it is the
      library combinator. */
  function ManyPrim(source: string): (r: Option<(seq<Term>, string)>)
    ensures r.Some?
    ensures IsSuffix(r.value.1, source)
    ensures forall t :: t in r.value.0 ==> WellFormed(t)
    ensures ParsePrim(r.value.1).None?
    decreases |source|, 2
  {
    match ParsePrim(source)
    case None => Some(([], source))
    case Some((t, rest)) =>
      var (ts, last) := ManyPrim(rest).value;
      SuffixTrans(last, rest, source);
      Some(([t] + ts, last))
  }

  /** `prim = paren | abs | var`, tried in that order. */
  function ParsePrim(source: string): (r: Option<(Term, string)>)
    ensures r.Some? ==> IsProperSuffix(r.value.1, source) && WellFormed(r.value.0)
    ensures r.Some? ==> |source| > 0 && IsPrimStart(source[0])
    decreases |source|, 1
  {
    var paren := ParseParen(source);
    if paren.Some? then paren
    else
      var abs := ParseAbs(source);
      if abs.Some? then abs else ParseVar(source)
  }

  /** `abs = ("\" | "L" | "λ") var "." term`, built as an abstraction
      whose binder is the variable node and whose body is the term. */
  function ParseAbs(source: string): (r: Option<(Term, string)>)
    ensures r.Some? ==> IsProperSuffix(r.value.1, source) && WellFormed(r.value.0)
    ensures r.Some? ==> |source| > 0 && IsLambda(source[0])
    ensures r.Some? ==> ParsePrim(r.value.1).None?
    decreases |source|, 0
  {
    match MatchToken(IsLambda, source)
    case None => None
    case Some((_, rest1)) =>
      match ParseVar(rest1)
      case None => None
      case Some((x, rest2)) =>
        match MatchToken(IsDot, rest2)
        case None => None
        case Some((_, rest3)) =>
          SuffixTrans(rest3, rest2, rest1);
          match ParseTerm(rest3)
          case None => None
          case Some((body, rest4)) =>
            SuffixTrans(rest4, rest3, rest1);
            SuffixTrans(rest4, rest1, source);
            Some((Abs(x, body), rest4))
  }

  /** `paren = "(" term ")"`: the inner term itself, with no node of its
      own. */
  function ParseParen(source: string): (r: Option<(Term, string)>)
    ensures r.Some? ==> IsProperSuffix(r.value.1, source) && WellFormed(r.value.0)
    ensures r.Some? ==> |source| > 0 && IsOpen(source[0])
    decreases |source|, 0
  {
    match MatchToken(IsOpen, source)
    case None => None
    case Some((_, rest1)) =>
      match ParseTerm(rest1)
      case None => None
      case Some((inner, rest2)) =>
        match MatchToken(IsClose, rest2)
        case None => None
        case Some((_, rest3)) =>
          SuffixTrans(rest3, rest2, rest1);
          SuffixTrans(rest3, rest1, source);
          Some((inner, rest3))
  }
}
