/** The sample trees of the demonstration driver, with what their texts,
    derivatives and values come to. Numbers are written by `fmt`; each lemma
    asks only that `fmt` write the few whole numbers it meets as digits. */
module Scenarios {
  import opened Expressions

  /** The constant 5 prints as "5"; its derivative (with respect to the default
      variable 'x') prints as "0". */
  lemma ConstantScenario(fmt: real -> string)
    requires fmt(5.0) == "5" && fmt(0.0) == "0"
    ensures Print(Constant(5.0), fmt) == "5"
    ensures Derivate(Constant(5.0)) == Constant(0.0)
    ensures Print(Derivate(Constant(5.0)), fmt) == "0"
  {
  }

  /** The variable 'y' prints as "y"; its derivative with respect to 'y' as
      "1", while with respect to the default 'x' it stays the variable 'y',
      whose value at any input is that input rather than 0. */
  lemma VariableScenario(fmt: real -> string, x: real)
    requires fmt(1.0) == "1"
    ensures Print(Variable('y'), fmt) == "y"
    ensures Print(Derivate(Variable('y'), 'y'), fmt) == "1"
    ensures Derivate(Variable('y')) == Variable('y')
    ensures Evaluate(Derivate(Variable('y')), x) == x
  {
  }

  /** The sum of 5 and the variable 'z' prints as "5 + z", its derivative
      with respect to 'z' as "0 + 1", and its value at 10 is 15. */
  lemma SumScenario(fmt: real -> string)
    requires fmt(5.0) == "5" && fmt(0.0) == "0" && fmt(1.0) == "1"
    ensures Print(Sum(Constant(5.0), Variable('z')), fmt) == "5 + z"
    ensures Print(Derivate(Sum(Constant(5.0), Variable('z')), 'z'), fmt) == "0 + 1"
    ensures Evaluate(Sum(Constant(5.0), Variable('z')), 10.0) == 15.0
  {
    assert Derivate(Sum(Constant(5.0), Variable('z')), 'z') == Sum(Constant(0.0), Constant(1.0));
  }

  /** The product of 5 and the variable 'z' prints as "5 * z" and its
      derivative with respect to 'z' as "0 * z + 5 * 1", a tree whose value is
      5 at every input. */
  lemma ProductScenario(fmt: real -> string, x: real)
    requires fmt(5.0) == "5" && fmt(0.0) == "0" && fmt(1.0) == "1"
    ensures Print(Product(Constant(5.0), Variable('z')), fmt) == "5 * z"
    ensures Print(Derivate(Product(Constant(5.0), Variable('z')), 'z'), fmt) == "0 * z + 5 * 1"
    ensures Evaluate(Derivate(Product(Constant(5.0), Variable('z')), 'z'), x) == 5.0
  {
    var d := Derivate(Product(Constant(5.0), Variable('z')), 'z');
    assert d == Sum(Product(Constant(0.0), Variable('z')), Product(Constant(5.0), Constant(1.0)));
    assert Print(d.lhs, fmt) == "0 * z";
    assert Print(d.rhs, fmt) == "5 * 1";
    assert Evaluate(d.lhs, x) == 0.0;
  }
}
