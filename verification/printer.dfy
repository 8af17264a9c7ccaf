/** The printer: a term back to fully parenthesised text. */
module Printer {
  import opened Terms

  /** A variable prints as its name, an abstraction as `(λx.body)` and an
      application as `(f a)`. What this text means is stated by the
      round-trip lemmas of module RoundTrip. */
  function Show(t: Term): string
  {
    match t
    case Var(name) => name
    case Abs(x, body) => "(λ" + Show(x) + "." + Show(body) + ")"
    case App(f, a) => "(" + Show(f) + " " + Show(a) + ")"
  }
}
