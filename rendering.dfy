/** The infix rendering of expression trees. `Print` writes no parentheses:
    the text of a tree is the flat alternation of its leaves' texts, in
    left-to-right order, and its binary nodes' symbols, each between single
    spaces. */
module Rendering {
  import opened Expressions

  /** The texts of the leaves of `e`, left to right. */
  function LeafTexts(e: Expr, fmt: real -> string): (r: seq<string>)
    ensures |r| == |Symbols(e)| + 1
  {
    match e
    case Constant(c) => [fmt(c)]
    case Variable(n) => [[n]]
    case Sum(l, r) => LeafTexts(l, fmt) + LeafTexts(r, fmt)
    case Product(l, r) => LeafTexts(l, fmt) + LeafTexts(r, fmt)
  }

  /** The symbols of the binary nodes of `e`, in the order they are written. */
  function Symbols(e: Expr): (s: seq<char>)
    ensures forall i :: 0 <= i < |s| ==> s[i] == '+' || s[i] == '*'
  {
    match e
    case Constant(_) => []
    case Variable(_) => []
    case Sum(l, r) => Symbols(l) + ['+'] + Symbols(r)
    case Product(l, r) => Symbols(l) + ['*'] + Symbols(r)
  }

  /** Texts `t0 s0 t1 s1 ... tn` written with a single space on each side of
      every symbol. */
  function Infix(texts: seq<string>, syms: seq<char>): string
    requires |texts| == |syms| + 1
    decreases |syms|
  {
    if |syms| == 0 then texts[0]
    else texts[0] + [' ', syms[0], ' '] + Infix(texts[1..], syms[1..])
  }

  /** Joining two infix texts with one more symbol between them. */
  lemma {:induction false} InfixAppend(t1: seq<string>, s1: seq<char>, c: char, t2: seq<string>, s2: seq<char>)
    requires |t1| == |s1| + 1 && |t2| == |s2| + 1
    ensures Infix(t1 + t2, s1 + [c] + s2) == Infix(t1, s1) + [' ', c, ' '] + Infix(t2, s2)
    decreases |s1|
  {
    if |s1| == 0 {
      assert (t1 + t2)[1..] == t2;
      assert (s1 + [c] + s2)[1..] == s2;
    } else {
      InfixAppend(t1[1..], s1[1..], c, t2, s2);
      assert (t1 + t2)[1..] == t1[1..] + t2;
      assert (s1 + [c] + s2)[1..] == s1[1..] + [c] + s2;
    }
  }

  /** The text of every tree is the flat infix of its leaves and symbols:
      `Print` adds no grouping of its own. */
  lemma {:induction false} PrintIsInfix(e: Expr, fmt: real -> string)
    ensures Print(e, fmt) == Infix(LeafTexts(e, fmt), Symbols(e))
  {
    match e
    case Constant(_) =>
    case Variable(_) =>
    case Sum(l, r) =>
      PrintIsInfix(l, fmt);
      PrintIsInfix(r, fmt);
      InfixAppend(LeafTexts(l, fmt), Symbols(l), '+', LeafTexts(r, fmt), Symbols(r));
    case Product(l, r) =>
      PrintIsInfix(l, fmt);
      PrintIsInfix(r, fmt);
      InfixAppend(LeafTexts(l, fmt), Symbols(l), '*', LeafTexts(r, fmt), Symbols(r));
  }

  /** A leaf renders as its number's text or as its one-character name. */
  lemma LeafRendering(c: real, name: char, fmt: real -> string)
    ensures Print(Constant(c), fmt) == fmt(c)
    ensures Print(Variable(name), fmt) == [name]
    ensures Print(Variable(), fmt) == "x"
  {
  }

  /** A binary node renders as its left text, " + " or " * ", and its right
      text. */
  lemma BinaryRendering(a: Expr, b: Expr, fmt: real -> string)
    ensures Print(Sum(a, b), fmt) == Print(a, fmt) + " + " + Print(b, fmt)
    ensures Print(Product(a, b), fmt) == Print(a, fmt) + " * " + Print(b, fmt)
  {
  }

  /** Without parentheses, two differently grouped trees can share a text:
      `a + b * c` is the rendering both of `a + (b * c)` and of `(a + b) * c`. */
  lemma {:induction false} RenderingDropsGrouping(a: Expr, b: Expr, c: Expr, fmt: real -> string)
    ensures Sum(a, Product(b, c)) != Product(Sum(a, b), c)
    ensures Print(Sum(a, Product(b, c)), fmt) == Print(Product(Sum(a, b), c), fmt)
  {
    BinaryRendering(a, Product(b, c), fmt);
    BinaryRendering(b, c, fmt);
    BinaryRendering(Sum(a, b), c, fmt);
    BinaryRendering(a, b, fmt);
    var pa, pb, pc := Print(a, fmt), Print(b, fmt), Print(c, fmt);
    assert pa + " + " + (pb + " * " + pc) == (pa + " + " + pb) + " * " + pc;
  }

  /** Two trees with the same leaves and symbols render alike, whatever their
      grouping. */
  lemma {:induction false} SameFlatSameText(e1: Expr, e2: Expr, fmt: real -> string)
    requires LeafTexts(e1, fmt) == LeafTexts(e2, fmt) && Symbols(e1) == Symbols(e2)
    ensures Print(e1, fmt) == Print(e2, fmt)
  {
    PrintIsInfix(e1, fmt);
    PrintIsInfix(e2, fmt);
  }
}
