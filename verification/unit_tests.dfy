/** The reader's and the printer's unit tests, each stated on the very
    text and the very tree the test uses. */
module UnitTests {
  import opened Terms
  import opened Combinators
  import opened Reader
  import opened Printer
  import opened Examples

  lemma ParseVarTest()
    ensures ParseVar("a!") == Some((Var("a"), "!"))
    ensures ParsePrim("a!") == Some((Var("a"), "!"))
  {
    ReadVar('a', '!');
  }

  lemma ManyTest()
    ensures Progressive(ParseVar)
    ensures Many(ParseVar)("aaa!") == Some(([Var("a"), Var("a"), Var("a")], "!"))
  {
    ManyVars('a', '!');
  }

  lemma ParseAppTest()
    ensures ParseApp("x y!") == Some((App(Var("x"), Var("y")), "!"))
  {
    ReadApp('x', 'y', '!');
  }

  lemma ParseAbsTest()
    ensures ParseAbs("\\x. y!") == Some((Abs(Var("x"), Var("y")), "!"))
  {
    ReadAbs('x', 'y', '!');
  }

  lemma ParseNestedAbsTest()
    ensures ParseAbs("\\x.\\y. y x!")
         == Some((Abs(Var("x"), Abs(Var("y"), App(Var("y"), Var("x")))), "!"))
  {
    ReadNestedAbs('x', 'y', '!');
  }

  lemma ParseParenTest()
    ensures ParseParen("(a)!") == Some((Var("a"), "!"))
  {
    ReadParen('a', '!');
  }

  lemma ParseAppOfParenTest()
    ensures ParseApp("a (b c)!") == Some((App(Var("a"), App(Var("b"), Var("c"))), "!"))
  {
    ReadAppOfParen('a', 'b', 'c', '!');
  }

  lemma ShowIdentityTest()
    ensures ParseTerm("λf.λx.x").Some?
    ensures Show(ParseTerm("λf.λx.x").value.0) == "(λf.(λx.x))"
  {
    ReadIdentity('f', 'x');
    ShowIdentity('f', 'x');
  }

  lemma ShowChurchThreeTest()
    ensures ParseTerm("λf.λx.f (f (f x))").Some?
    ensures Show(ParseTerm("λf.λx.f (f (f x))").value.0) == "(λf.(λx.(f (f (f x)))))"
  {
    ReadChurchThree('f', 'x');
    ShowChurchThree('f', 'x');
  }

  lemma ShowFixTest()
    ensures ParseTerm("λg.(λx.g (x x)) (λx.g (x x))").Some?
    ensures Show(ParseTerm("λg.(λx.g (x x)) (λx.g (x x))").value.0)
         == "(λg.((λx.(g (x x))) (λx.(g (x x)))))"
  {
    ReadFix('g', 'x');
    ShowFix('g', 'x');
  }

  lemma ShowTest()
    ensures Show(Var("a")) == "a"
    ensures Show(Abs(Var("x"), Var("y"))) == "(λx.y)"
    ensures Show(App(Var("a"), App(Var("b"), Var("c")))) == "(a (b c))"
  {
  }
}
