/** The expression-tree kernel: a closed family of four node kinds and the four
    operations every node supports (evaluate, print, clone, derivate).

    The two binary node kinds share the behaviour of the abstract `TwoOperand`
    node: evaluation, printing, cloning and differentiation are written once for
    both and call the per-kind hooks `DoOperation`, `PrintSymbol`,
    `SpecificClone` and `SpecificDerivate`. */
module Expressions {

  /** An immutable expression tree. `Sum` and `Product` own their two children
      `lhs` and `rhs`; a `Variable` built without a name is called 'x'. */
  datatype Expr =
    | Constant(c: real)
    | Variable(name: char := 'x')
    | Sum(lhs: Expr, rhs: Expr)
    | Product(lhs: Expr, rhs: Expr)
  {
    /** The node kinds derived from `TwoOperand`. */
    predicate IsTwoOperand() {
      Sum? || Product?
    }
  }

  /** The names of the variables occurring in `e`. */
  function Vars(e: Expr): set<char> {
    match e
    case Constant(_) => {}
    case Variable(n) => {n}
    case Sum(l, r) => Vars(l) + Vars(r)
    case Product(l, r) => Vars(l) + Vars(r)
  }

  // ---------------------------------------------------------------- evaluate

  /** The arithmetic of a binary node, applied to the value of its right child
      first and of its left child second, in that argument order. */
  function DoOperation(e: Expr, rhs: real, lhs: real): (r: real)
    requires e.IsTwoOperand()
    ensures e.Sum? ==> r == lhs + rhs
    ensures e.Product? ==> r == lhs * rhs
  {
    if e.Sum? then rhs + lhs else rhs * lhs
  }

  /** The value of `e` when the single free variable is `x`. Every `Variable`
      leaf stands for `x`, whatever its name. */
  function Evaluate(e: Expr, x: real): real
    decreases e, 1
  {
    match e
    case Constant(c) => c
    case Variable(_) => x
    case Sum(_, _) => TwoOperandEvaluation(e, x)
    case Product(_, _) => TwoOperandEvaluation(e, x)
  }

  /** Evaluation of a binary node: its operation applied to the right child's
      value and then the left child's. */
  function TwoOperandEvaluation(e: Expr, x: real): real
    requires e.IsTwoOperand()
    decreases e, 0
  {
    DoOperation(e, Evaluate(e.rhs, x), Evaluate(e.lhs, x))
  }

  // ------------------------------------------------------------------- print

  /** The display symbol of a binary node. */
  function PrintSymbol(e: Expr): (s: char)
    requires e.IsTwoOperand()
    ensures s == '+' <==> e.Sum?
    ensures s == '*' <==> e.Product?
  {
    if e.Sum? then '+' else '*'
  }

  /** The infix text of `e`. How a number is written (the stream formatting of
      a double) is the parameter `fmt`. */
  function Print(e: Expr, fmt: real -> string): string
    decreases e, 1
  {
    match e
    case Constant(c) => fmt(c)
    case Variable(n) => [n]
    case Sum(_, _) => TwoOperandPrint(e, fmt)
    case Product(_, _) => TwoOperandPrint(e, fmt)
  }

  /** Printing of a binary node: the left child's text, the symbol between
      single spaces, then the right child's text. */
  function TwoOperandPrint(e: Expr, fmt: real -> string): string
    requires e.IsTwoOperand()
    decreases e, 0
  {
    Print(e.lhs, fmt) + [' ', PrintSymbol(e), ' '] + Print(e.rhs, fmt)
  }

  // ------------------------------------------------------------------- clone

  /** A structural copy of `e`; as a value it is `e` itself. */
  function Clone(e: Expr): (r: Expr)
    ensures r == e
    decreases e, 1
  {
    match e
    case Constant(c) => Constant(c)
    case Variable(n) => Variable(n)
    case Sum(_, _) => SpecificClone(e)
    case Product(_, _) => SpecificClone(e)
  }

  /** The binary-node hook for `Clone`: a node of the same kind over clones of
      both children. */
  function SpecificClone(e: Expr): (r: Expr)
    requires e.IsTwoOperand()
    ensures r == e
    decreases e, 0
  {
    if e.Sum? then Sum(Clone(e.lhs), Clone(e.rhs))
    else Product(Clone(e.lhs), Clone(e.rhs))
  }

  // ---------------------------------------------------------------- derivate

  /** The symbolic derivative of `e` with respect to the variable `target`.
      A variable of another name is returned unchanged (it is not replaced by
      0), although `Evaluate` binds it to the same input as `target`. */
  function Derivate(e: Expr, target: char := 'x'): Expr
    decreases e, 1
  {
    match e
    case Constant(_) => Constant(0.0)
    case Variable(n) => if target == n then Constant(1.0) else Variable(n)
    case Sum(_, _) => SpecificDerivate(e, target)
    case Product(_, _) => SpecificDerivate(e, target)
  }

  /** The binary-node hook for `Derivate`: linearity for a sum, the product
      rule for a product. */
  function SpecificDerivate(e: Expr, target: char): Expr
    requires e.IsTwoOperand()
    decreases e, 0
  {
    if e.Sum? then
      Sum(Derivate(e.lhs, target), Derivate(e.rhs, target))
    else
      Sum(Product(Derivate(e.lhs, target), Clone(e.rhs)),
          Product(Clone(e.lhs), Derivate(e.rhs, target)))
  }
}
