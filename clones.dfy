/** What cloning promises: the copy is the same tree, so every operation gives
    the same answer on the copy as on the original. */
module Clones {
  import opened Expressions

  /** Cloning a clone gives the first clone again. */
  lemma CloneIdempotent(e: Expr)
    ensures Clone(Clone(e)) == Clone(e)
  {
  }

  /** A binary node's clone is a node of the same kind over its children's
      clones. */
  lemma CloneIsStructural(a: Expr, b: Expr)
    ensures Clone(Sum(a, b)) == Sum(Clone(a), Clone(b))
    ensures Clone(Product(a, b)) == Product(Clone(a), Clone(b))
  {
  }

  /** A clone evaluates, prints and differentiates exactly as the original. */
  lemma CloneBehavesAlike(e: Expr, x: real, fmt: real -> string, target: char)
    ensures Evaluate(Clone(e), x) == Evaluate(e, x)
    ensures Print(Clone(e), fmt) == Print(e, fmt)
    ensures Derivate(Clone(e), target) == Derivate(e, target)
    ensures Clone(Derivate(e, target)) == Derivate(e, target)
  {
  }
}
