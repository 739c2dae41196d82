/** What `Derivate` means: the fixed rules at the leaves, linearity and the
    product rule at the binary nodes, and, for a tree whose variables are all
    the target, that the derivative's value is the limit of the difference
    quotient of `Evaluate`. */
module Derivatives {
  import opened Expressions
  import opened RealArith

  // ------------------------------------------------------------ local rules

  /** A constant evaluates to itself at every input; its derivative is the
      constant 0 for every target. */
  lemma ConstantRules(c: real, target: char, x: real)
    ensures Evaluate(Constant(c), x) == c
    ensures Derivate(Constant(c), target) == Constant(0.0)
    ensures Evaluate(Derivate(Constant(c), target), x) == 0.0
  {
  }

  /** A variable evaluates to the input whatever its name. Its derivative is
      the constant 1 for its own name; for any other target it is the same
      variable, which still evaluates to the input and not to 0. */
  lemma VariableRules(name: char, target: char, x: real)
    ensures Evaluate(Variable(name), x) == x
    ensures target == name ==> Derivate(Variable(name), target) == Constant(1.0)
    ensures target != name ==> Derivate(Variable(name), target) == Variable(name)
    ensures Evaluate(Derivate(Variable(name), target), x) == if target == name then 1.0 else x
  {
  }

  /** The default target of `Derivate` is 'x', the default name of a variable. */
  lemma DefaultTarget(e: Expr)
    ensures Derivate(e) == Derivate(e, 'x')
    ensures Derivate(Variable()) == Constant(1.0)
  {
  }

  /** A sum's value is the sum of its children's values. */
  lemma SumValue(a: Expr, b: Expr, x: real)
    ensures Evaluate(Sum(a, b), x) == Evaluate(a, x) + Evaluate(b, x)
  {
  }

  /** A product's value is the product of its children's values. */
  lemma ProductValue(a: Expr, b: Expr, x: real)
    ensures Evaluate(Product(a, b), x) == Evaluate(a, x) * Evaluate(b, x)
  {
  }

  /** Linearity: the derivative of a sum is the sum of the derivatives, as a
      tree and hence as a value. */
  lemma SumRule(a: Expr, b: Expr, target: char, x: real)
    ensures Derivate(Sum(a, b), target) == Sum(Derivate(a, target), Derivate(b, target))
    ensures Evaluate(Derivate(Sum(a, b), target), x)
         == Evaluate(Derivate(a, target), x) + Evaluate(Derivate(b, target), x)
  {
    SumValue(Derivate(a, target), Derivate(b, target), x);
  }

  /** The product rule as a tree: the derivative of a product is the sum of
      the left derivative times the right factor and the left factor times
      the right derivative, the factors being clones of the children. */
  lemma ProductRule(a: Expr, b: Expr, target: char)
    ensures Derivate(Product(a, b), target)
         == Sum(Product(Derivate(a, target), b), Product(a, Derivate(b, target)))
  {
    assert Clone(a) == a && Clone(b) == b;
  }

  /** The product rule as a value: the derivative of a product evaluates to
      `ProductSlope`, that is `a' * b + a * b'` on the values of the factors
      and of their derivatives. */
  lemma ProductRuleValue(a: Expr, b: Expr, target: char, x: real)
    ensures Evaluate(Derivate(Product(a, b), target), x)
         == ProductSlope(Evaluate(a, x), Evaluate(Derivate(a, target), x),
                         Evaluate(b, x), Evaluate(Derivate(b, target), x))
  {
    ProductSlopeOf(a, b, Derivate(a, target), Derivate(b, target), target, x);
  }

  lemma ProductSlopeOf(a: Expr, b: Expr, da: Expr, db: Expr, target: char, x: real)
    requires da == Derivate(a, target) && db == Derivate(b, target)
    ensures Evaluate(Derivate(Product(a, b), target), x)
         == ProductSlope(Evaluate(a, x), Evaluate(da, x), Evaluate(b, x), Evaluate(db, x))
  {
    ProductRule(a, b, target);
    SumValue(Product(da, b), Product(a, db), x);
    ProductValue(da, b, x);
    ProductValue(a, db, x);
  }

  // ---------------------------------------------------------- global facts

  /** Differentiation introduces no new variable names, so it can be applied
      again to a tree whose variables are all the target. */
  lemma {:induction false} DerivateVars(e: Expr, target: char)
    ensures Vars(Derivate(e, target)) <= Vars(e)
  {
    match e
    case Constant(_) =>
    case Variable(_) =>
    case Sum(a, b) =>
      DerivateVars(a, target);
      DerivateVars(b, target);
    case Product(a, b) =>
      DerivateVars(a, target);
      DerivateVars(b, target);
  }

  /** A tree made only of constants, sums and products has a derivative that
      evaluates to 0 at every input, for every target. */
  lemma {:induction false} ConstantTreeDerivative(e: Expr, target: char, x: real)
    requires Vars(e) == {}
    ensures Evaluate(Derivate(e, target), x) == 0.0
  {
    match e
    case Constant(_) =>
    case Sum(a, b) =>
      ConstantTreeDerivative(a, target, x);
      ConstantTreeDerivative(b, target, x);
    case Product(a, b) =>
      ConstantTreeDerivative(a, target, x);
      ConstantTreeDerivative(b, target, x);
      ProductRuleValue(a, b, target, x);
  }

  // ------------------------------------------- the derivative as a limit

  /** The second-order part of `Evaluate(e, x + h)` around `x`. */
  function Remainder(e: Expr, target: char, x: real, h: real): real
    decreases e, 1
  {
    match e
    case Constant(_) => 0.0
    case Variable(_) => 0.0
    case Sum(a, b) => Remainder(a, target, x, h) + Remainder(b, target, x, h)
    case Product(_, _) => ProductRemainder(e, target, x, h)
  }

  function ProductRemainder(e: Expr, target: char, x: real, h: real): real
    requires e.Product?
    decreases e, 0
  {
    var (a, b) := (e.lhs, e.rhs);
    ProductRem(Evaluate(a, x), Evaluate(Derivate(a, target), x), Remainder(a, target, x, h),
               Evaluate(b, x), Evaluate(Derivate(b, target), x), Remainder(b, target, x, h), h)
  }

  /** A bound on `Remainder` over all steps `h` with `|h| <= 1`. */
  function RemainderBound(e: Expr, target: char, x: real): real
    decreases e, 1
  {
    match e
    case Constant(_) => 0.0
    case Variable(_) => 0.0
    case Sum(a, b) => RemainderBound(a, target, x) + RemainderBound(b, target, x)
    case Product(_, _) => ProductRemainderBound(e, target, x)
  }

  function ProductRemainderBound(e: Expr, target: char, x: real): real
    requires e.Product?
    decreases e, 0
  {
    var (a, b) := (e.lhs, e.rhs);
    ProductBound(Evaluate(a, x), Evaluate(Derivate(a, target), x), RemainderBound(a, target, x),
                 Evaluate(b, x), Evaluate(Derivate(b, target), x), RemainderBound(b, target, x))
  }

  /** First-order expansion: for a tree whose variables are all the target,
      `Evaluate(e, x + h)` is its value at `x`, plus `h` times the value of
      its derivative at `x`, plus `h * h` times `Remainder`. */
  lemma {:induction false} FirstOrderExpansion(e: Expr, target: char, x: real, h: real)
    requires Vars(e) <= {target}
    ensures Expands(Evaluate(e, x + h), Evaluate(e, x), Evaluate(Derivate(e, target), x), Remainder(e, target, x, h), h)
  {
    match e
    case Constant(_) =>
    case Variable(n) =>
      assert n == target;
    case Sum(a, b) =>
      FirstOrderExpansion(a, target, x, h);
      FirstOrderExpansion(b, target, x, h);
      SumRule(a, b, target, x);
      SumExpansion(Evaluate(a, x + h), Evaluate(a, x), Evaluate(Derivate(a, target), x), Remainder(a, target, x, h),
                   Evaluate(b, x + h), Evaluate(b, x), Evaluate(Derivate(b, target), x), Remainder(b, target, x, h), h);
    case Product(a, b) =>
      var (fa, va, da, ra) := (Evaluate(a, x + h), Evaluate(a, x), Evaluate(Derivate(a, target), x), Remainder(a, target, x, h));
      var (fb, vb, db, rb) := (Evaluate(b, x + h), Evaluate(b, x), Evaluate(Derivate(b, target), x), Remainder(b, target, x, h));
      assert Evaluate(e, x + h) == DoOperation(e, fb, fa);
      assert Evaluate(e, x) == DoOperation(e, vb, va);
      assert Evaluate(Derivate(e, target), x) == ProductSlope(va, da, vb, db) by { ProductRuleValue(a, b, target, x); }
      assert Remainder(e, target, x, h) == ProductRemainder(e, target, x, h);
      ProductStep(e, fa, va, da, ra, fb, vb, db, rb, h, Evaluate(e, x + h), Evaluate(e, x),
                  Evaluate(Derivate(e, target), x), Remainder(e, target, x, h)) by {
        FirstOrderExpansion(a, target, x, h);
        FirstOrderExpansion(b, target, x, h);
      }
  }

  lemma ProductStep(e: Expr, fa: real, va: real, da: real, ra: real, fb: real, vb: real, db: real, rb: real, h: real,
                    f: real, v: real, d: real, r: real)
    requires e.Product?
    requires Expands(fa, va, da, ra, h) && Expands(fb, vb, db, rb, h)
    requires f == DoOperation(e, fb, fa) && v == DoOperation(e, vb, va)
    requires d == ProductSlope(va, da, vb, db) && r == ProductRem(va, da, ra, vb, db, rb, h)
    ensures Expands(f, v, d, r, h)
  {
    ProductExpansion(fa, va, da, ra, fb, vb, db, rb, h);
  }

  /** For every step `h` with `|h| <= 1`, `Remainder` stays within `RemainderBound`. */
  lemma {:induction false} RemainderBounded(e: Expr, target: char, x: real, h: real)
    requires Abs(h) <= 1.0
    ensures RemainderBound(e, target, x) >= 0.0
    ensures Abs(Remainder(e, target, x, h)) <= RemainderBound(e, target, x)
  {
    match e
    case Constant(_) =>
    case Variable(_) =>
    case Sum(a, b) =>
      RemainderBounded(a, target, x, h);
      RemainderBounded(b, target, x, h);
      Triangle(Remainder(a, target, x, h), Remainder(b, target, x, h));
    case Product(a, b) =>
      RemainderBounded(a, target, x, h);
      RemainderBounded(b, target, x, h);
      ProductRemBounded(Evaluate(a, x), Evaluate(Derivate(a, target), x), Remainder(a, target, x, h), RemainderBound(a, target, x),
                        Evaluate(b, x), Evaluate(Derivate(b, target), x), Remainder(b, target, x, h), RemainderBound(b, target, x), h);
  }

  /** The difference quotient of `Evaluate` over a step `h` with `0 < |h| <= 1`
      is within `StepBound(h, RemainderBound)`, that is `|h| * RemainderBound`,
      of the derivative's value. */
  lemma DifferenceQuotient(e: Expr, target: char, x: real, h: real)
    requires Vars(e) <= {target}
    requires h != 0.0 && Abs(h) <= 1.0
    ensures Abs(DiffQuotient(Evaluate(e, x + h), Evaluate(e, x), h) - Evaluate(Derivate(e, target), x))
         <= StepBound(h, RemainderBound(e, target, x))
  {
    FirstOrderExpansion(e, target, x, h);
    RemainderBounded(e, target, x, h);
    QuotientStep(Evaluate(e, x + h), Evaluate(e, x), Evaluate(Derivate(e, target), x),
                 Remainder(e, target, x, h), h, RemainderBound(e, target, x));
  }

  /** How close to `x` a step must be for the difference quotient to be within
      `eps` of the derivative's value. */
  function Delta(e: Expr, target: char, x: real, eps: real): (d: real)
    requires eps > 0.0
    ensures 0.0 < d <= 1.0
  {
    RemainderBounded(e, target, x, 0.0);
    Min(1.0, eps / (RemainderBound(e, target, x) + 1.0))
  }

  /** The derivative's value is the limit of the difference quotient: every
      step `h` with `0 < |h| < Delta(eps)` brings the quotient within `eps`. */
  lemma DerivativeIsLimit(e: Expr, target: char, x: real, eps: real, h: real)
    requires Vars(e) <= {target}
    requires eps > 0.0 && h != 0.0 && Abs(h) < Delta(e, target, x, eps)
    ensures Abs(DiffQuotient(Evaluate(e, x + h), Evaluate(e, x), h) - Evaluate(Derivate(e, target), x)) < eps
  {
    DifferenceQuotient(e, target, x, h);
    RemainderBounded(e, target, x, h);
    LimitStep(Abs(DiffQuotient(Evaluate(e, x + h), Evaluate(e, x), h) - Evaluate(Derivate(e, target), x)),
              h, RemainderBound(e, target, x), eps);
  }
}
