/** The combinator parser library of the reader. A parser takes the
    remaining source and either fails or returns a value with the rest
    of the source. */
module Combinators {

  datatype Option<+T> = None | Some(value: T)

  type Parser<T> = string -> Option<(T, string)>

  /** `r` is what is left of `s` after dropping a prefix. */
  predicate IsSuffix(r: string, s: string)
  {
    |r| <= |s| && s[|s| - |r|..] == r
  }

  /** `r` is what is left of `s` after dropping a non-empty prefix. */
  predicate IsProperSuffix(r: string, s: string)
  {
    |r| < |s| && IsSuffix(r, s)
  }

  lemma SuffixTrans(a: string, b: string, c: string)
    requires IsSuffix(a, b) && IsSuffix(b, c)
    ensures IsSuffix(a, c)
    ensures IsProperSuffix(a, b) || IsProperSuffix(b, c) ==> IsProperSuffix(a, c)
  {
    assert c[|c| - |a|..] == c[|c| - |b|..][|b| - |a|..];
  }

  /** Every success leaves a suffix of the input. */
  ghost predicate NonGrowing<T>(p: Parser<T>)
  {
    forall s :: p(s).Some? ==> IsSuffix(p(s).value.1, s)
  }

  /** Every success consumes at least one character. */
  ghost predicate Progressive<T>(p: Parser<T>)
  {
    forall s :: p(s).Some? ==> IsProperSuffix(p(s).value.1, s)
  }

  /** Run `p1`, then `p2` on what `p1` left; succeed with both values. */
  function Seq<A, B>(p1: Parser<A>, p2: Parser<B>): (p: Parser<(A, B)>)
    ensures forall s :: p(s).Some? <==> p1(s).Some? && p2(p1(s).value.1).Some?
    ensures forall s :: p(s).Some? ==>
      p(s).value == ((p1(s).value.0, p2(p1(s).value.1).value.0), p2(p1(s).value.1).value.1)
  {
    s =>
      match p1(s)
      case None => None
      case Some((v1, rest1)) =>
        match p2(rest1)
        case None => None
        case Some((v2, rest2)) => Some(((v1, v2), rest2))
  }

  /** Ordered choice: the result of `p1` if it succeeds, else `p2` on the
      same input. */
  function OrElse<T>(p1: Parser<T>, p2: Parser<T>): (p: Parser<T>)
    ensures forall s :: p1(s).Some? ==> p(s) == p1(s)
    ensures forall s :: p1(s).None? ==> p(s) == p2(s)
  {
    s => var first := p1(s); if first.Some? then first else p2(s)
  }

  lemma SeqProgressive<A, B>(p1: Parser<A>, p2: Parser<B>)
    requires Progressive(p1) && NonGrowing(p2)
    ensures Progressive(Seq(p1, p2))
  {
    forall s | Seq(p1, p2)(s).Some?
      ensures IsProperSuffix(Seq(p1, p2)(s).value.1, s)
    {
      var rest1 := p1(s).value.1;
      SuffixTrans(p2(rest1).value.1, rest1, s);
    }
  }

  lemma OrElseProgressive<T>(p1: Parser<T>, p2: Parser<T>)
    requires Progressive(p1) && Progressive(p2)
    ensures Progressive(OrElse(p1, p2))
  {
  }

  /** `vs` are the values of consecutive successes of `p` that lead from
      `s` to `rest`. */
  ghost predicate Chain<T>(p: Parser<T>, s: string, vs: seq<T>, rest: string)
    decreases |vs|
  {
    if vs == [] then rest == s
    else p(s).Some? && p(s).value.0 == vs[0] && Chain(p, p(s).value.1, vs[1..], rest)
  }

  /** Zero or more `p`, as many as succeed. */
  function Repeat<T>(p: Parser<T>, source: string): (r: Option<(seq<T>, string)>)
    requires Progressive(p)
    ensures r.Some?
    ensures Chain(p, source, r.value.0, r.value.1)
    ensures p(r.value.1).None?
    ensures IsSuffix(r.value.1, source)
    decreases |source|
  {
    match p(source)
    case None => Some(([], source))
    case Some((v, rest)) =>
      var (vs, last) := Repeat(p, rest).value;
      SuffixTrans(last, rest, source);
      Some(([v] + vs, last))
  }

  /** The parser `many(p)`: never fails, yields the values of consecutive
      successes of `p` in order, and stops at a suffix where `p` fails. */
  function Many<T>(p: Parser<T>): (m: Parser<seq<T>>)
    requires Progressive(p)
    ensures forall s :: m(s).Some? && Chain(p, s, m(s).value.0, m(s).value.1)
    ensures forall s :: m(s).Some? ==> p(m(s).value.1).None? && IsSuffix(m(s).value.1, s)
    ensures forall s :: m(s) == Repeat(p, s)
  {
    s => Repeat(p, s)
  }

  /** The outcome of `many` is fixed by its two defining facts: a chain of
      successes, ending at an input where `p` fails. */
  lemma {:induction false} RepeatUnique<T>(p: Parser<T>, s: string, vs: seq<T>, rest: string)
    requires Progressive(p)
    requires Chain(p, s, vs, rest) && p(rest).None?
    ensures Repeat(p, s) == Some((vs, rest))
    decreases |vs|
  {
    if vs != [] {
      RepeatUnique(p, p(s).value.1, vs[1..], rest);
      assert [vs[0]] + vs[1..] == vs;
    }
  }

  lemma ManyNonGrowing<T>(p: Parser<T>)
    requires Progressive(p)
    ensures NonGrowing(Many(p))
  {
  }

  /** The loop of `many`: apply `p` until it fails, collecting values. */
  method RunMany<T>(p: Parser<T>, source: string) returns (values: seq<T>, rest: string)
    requires Progressive(p)
    ensures Many(p)(source) == Some((values, rest))
    ensures Chain(p, source, values, rest) && p(rest).None?
  {
    values, rest := [], source;
    assert [] + Repeat(p, rest).value.0 == Repeat(p, rest).value.0;
    while true
      invariant Repeat(p, source).value == (values + Repeat(p, rest).value.0, Repeat(p, rest).value.1)
      decreases |rest|
    {
      var each := p(rest);
      if each.None? {
        assert Repeat(p, rest) == Some(([], rest));
        assert values + [] == values;
        return;
      }
      var tail := Repeat(p, each.value.1).value.0;
      assert Repeat(p, rest).value.0 == [each.value.0] + tail;
      assert values + ([each.value.0] + tail) == (values + [each.value.0]) + tail;
      values := values + [each.value.0];
      rest := each.value.1;
    }
  }
}
