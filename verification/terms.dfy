/** Lambda terms as the reader builds them and the printer consumes them. */
module Terms {

  /** A term is a variable, an abstraction or an application. As in the
      reader, the bound variable of an abstraction is itself kept as a
      variable node. */
  datatype Term =
    | Var(name: string)
    | Abs(param: Term, body: Term)
    | App(fun: Term, arg: Term)

  /** The structural comparison used by the unit tests: same tag and
      pairwise equal children, and equal names at the variables. It
      coincides with equality of terms. */
  function TermEq(a: Term, b: Term): (r: bool)
    ensures r <==> a == b
  {
    match (a, b)
    case (Var(x), Var(y)) => x == y
    case (Abs(x1, b1), Abs(x2, b2)) => TermEq(x1, x2) && TermEq(b1, b2)
    case (App(f1, a1), App(f2, a2)) => TermEq(f1, f2) && TermEq(a1, a2)
    case _ => false
  }
}
