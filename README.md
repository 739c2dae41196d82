# expressions — a verified model of the expression-tree kernel

The kernel `expressions.h` defines immutable expression trees of four node
kinds:

- `Constant`, a numeric leaf;
- `Variable`, a leaf named by one character (default `'x'`);
- `Sum` and `Product`, the two binary nodes built on the abstract `TwoOperand`.

Every node supports four operations:

- `evaluate(x)` gives the value when the single input is `x`;
- `print` gives the infix text;
- `clone` gives a structural copy;
- `derivate(target)` gives the symbolic derivative with respect to a variable
  name (default `'x'`).

`TwoOperand` writes these operations once for both binary kinds. Each kind
supplies four hooks: `do_operation`, `print_symbol`, `do_specific_clone` and
`do_specific_derivate`.

The model is one Dafny datatype `Expressions.Expr` with one constructor per
node kind. The four operations are recursive functions over it:
`Evaluate`, `Print`, `Clone` and `Derivate`. The `TwoOperand` behaviour is
written once, in `TwoOperandEvaluation` and `TwoOperandPrint`, and it calls
the hooks `DoOperation`, `PrintSymbol`, `SpecificClone` and
`SpecificDerivate`, as the C++ virtual functions do. Default arguments stay
default arguments: `Variable()` is named `'x'`, and `Derivate(e)` is taken
with respect to `'x'`.

Numbers are mathematical reals. How the stream writes a double is the
parameter `fmt: real -> string` of `Print`.

Two behaviours of the kernel are kept as written:

- `evaluate` binds every variable to the one input, whatever its name.
- `derivate` does distinguish names. A variable of another name is returned
  unchanged as that variable, not as the constant 0.

Because of this, the facts connecting a derivative to the values of its tree
are stated for trees whose variables all carry the target name.

The files:

- `expressions.dfy`: the datatype and the four operations with their hooks.
- `derivatives.dfy`: the leaf rules and linearity. It also holds the product
  rule as a tree and as a value, and the derivative of a variable-free tree.
  Finally it proves that a derivative is the limit of the difference
  quotient of `Evaluate`: every tree whose variables all carry the target
  name expands as
  `f(x + h) = f(x) + h * f'(x) + h * h * R` with `R` bounded for `|h| <= 1`.
- `realarith.dfy`: the facts about reals those proofs use.
- `rendering.dfy`: `Print` as the flat infix of the leaves' texts and the
  binary nodes' symbols. As a consequence, the text does not determine the
  grouping of the tree.
- `clones.dfy`: a clone is the original tree. It is idempotent, and it
  evaluates, prints and differentiates alike.
- `scenarios.dfy`: the sample trees of the demonstration driver `main.cpp`,
  with the texts and values they produce.

## Model

| member | source | states |
|---|---|---|
| `Expressions.DoOperation` | expressions.h:113-115 | a binary node's operation, applied to (right value, left value), is the left value plus or times the right value: the sum for `Sum` (113-115), the product for `Product` (130-132) |
| `Expressions.PrintSymbol` | expressions.h:116-118 | the symbol is `'+'` exactly for a `Sum` and `'*'` exactly for a `Product` (also 133-135) |
| `Expressions.Evaluate` | expressions.h:39-41 | no contract. It is the value of a tree: a constant's own number (39-41), the input for a variable of any name (59-61), the `TwoOperand` evaluation at binary nodes. `ConstantRules`, `VariableRules`, `SumValue` and `ProductValue` state it |
| `Expressions.TwoOperandEvaluation` | expressions.h:96-98 | no contract. It applies the node's operation to the right child's value first and the left child's second. `SumValue` and `ProductValue` state the resulting sum and product |
| `Expressions.Print` | expressions.h:62-64 | no contract. It is the text of a tree: `fmt` of a constant's number (42-44), a variable's name character (62-64), the `TwoOperand` text at binary nodes. `LeafRendering` and `PrintIsInfix` state it |
| `Expressions.TwoOperandPrint` | expressions.h:99-101 | no contract. It writes the left text, a space, the symbol, a space and the right text. `BinaryRendering` and `PrintIsInfix` state it |
| `Expressions.Derivate` | expressions.h:68-73 | no contract. It is the derivative: 0 for a constant (48-50), 1 or the unchanged variable for a variable (68-73), the specific hook at binary nodes, with default target `'x'` (19-21). `ConstantRules`, `VariableRules`, `DefaultTarget` and `DerivativeIsLimit` state it |
| `Expressions.SpecificDerivate` | expressions.h:136-145 | no contract. It gives linearity for a sum (119-121) and the product rule over clones for a product (136-145). `SumRule`, `ProductRule` and `ProductRuleValue` state it |
| `Expressions.Clone` | expressions.h:102-104 | the clone of every tree, built through `SpecificClone` at binary nodes and as a new leaf at leaves (45-47, 65-67), is a tree equal to the original |
| `Expressions.SpecificClone` | expressions.h:122-124 | the binary-node clone hook, a node of the same kind over the children's clones, returns a tree equal to the node (also 146-148) |
| `Derivatives.ConstantRules` | expressions.h:48-50 | a constant evaluates to itself at every input (39-41); its derivative is the constant 0 for every target and therefore evaluates to 0 |
| `Derivatives.VariableRules` | expressions.h:68-73 | a variable evaluates to the input whatever its name (59-61). Its derivative is the constant 1 when the target is its name. Otherwise the derivative is the same variable, whose value is the input and not 0 |
| `Derivatives.DefaultTarget` | expressions.h:19 | a derivative taken without a target is taken with respect to `'x'`; the default variable (55) then differentiates to 1 |
| `Derivatives.SumValue` | expressions.h:96-98 | a sum evaluates, through the right-then-left call of its operation, to the sum of its children's values (113-115) |
| `Derivatives.ProductValue` | expressions.h:130-132 | a product evaluates, through the right-then-left call of its operation (96-98), to the product of its children's values |
| `Derivatives.SumRule` | expressions.h:119-121 | linearity: the derivative of a sum is the sum of the children's derivatives, as a tree and as a value |
| `Derivatives.ProductRule` | expressions.h:136-145 | the product rule as a tree: the derivative of `a * b` is `a' * b + a * b'`, the factors being (clones equal to) the children |
| `Derivatives.ProductRuleValue` | expressions.h:136-145 | the product rule as a value: the derivative of `a * b` evaluates to `a'(x) * b(x) + a(x) * b'(x)` |
| `Derivatives.DerivateVars` | expressions.h:105-107 | differentiation introduces no variable name that the tree does not contain |
| `Derivatives.ConstantTreeDerivative` | expressions.h:48-50 | a tree made only of constants, sums and products has a derivative that evaluates to 0 at every input and for every target, by the leaf rule and the two combination rules (119-121, 136-145) |
| `Derivatives.FirstOrderExpansion` | expressions.h:105-107 | for a tree whose variables all carry the target name: `Evaluate(e, x + h) == Evaluate(e, x) + h * Evaluate(Derivate(e), x) + h * h * R`, with `R` given by the tree |
| `Derivatives.RemainderBounded` | expressions.h:136-145 | for every step `abs(h) <= 1`, the second-order part `R` of a tree is bounded by a non-negative bound that does not depend on `h` |
| `Derivatives.DifferenceQuotient` | expressions.h:105-107 | for a tree whose variables all carry the target name, the difference quotient `(f(x + h) - f(x)) / h` over a step `0 < abs(h) <= 1` is within `abs(h)` times that bound of the derivative's value |
| `Derivatives.Delta` | expressions.h:105-107 | for every tolerance `eps > 0`, a step size `0 < d <= 1` for the limit statement |
| `Derivatives.DerivativeIsLimit` | expressions.h:105-107 | the derivative's value is the limit of the difference quotient: every step `0 < abs(h) < Delta(eps)` brings the quotient within `eps` of it |
| `Rendering.LeafTexts` | expressions.h:99-101 | a tree has exactly one more leaf text than it has binary-node symbols |
| `Rendering.Symbols` | expressions.h:116-118 | every symbol written between two operands is `'+'` or `'*'` (also 133-135) |
| `Rendering.InfixAppend` | expressions.h:99-101 | writing two infix texts on either side of one more symbol, between single spaces, gives the infix text of the joined leaves and symbols |
| `Rendering.PrintIsInfix` | expressions.h:99-101 | the text of every tree is its leaves' texts, left to right, alternating with its symbols, each symbol between single spaces; no parentheses are written |
| `Rendering.LeafRendering` | expressions.h:62-64 | a variable renders as its one-character name (`"x"` by default); a constant renders as its number's text (42-44) |
| `Rendering.BinaryRendering` | expressions.h:99-101 | a binary node renders as left text, `" + "` or `" * "`, right text |
| `Rendering.RenderingDropsGrouping` | expressions.h:99-101 | `a + (b * c)` and `(a + b) * c` are different trees with the same text |
| `Rendering.SameFlatSameText` | expressions.h:99-101 | two trees with the same leaves and symbols in the same order render alike, whatever their grouping |
| `Clones.CloneIdempotent` | expressions.h:102-104 | cloning a clone gives the first clone |
| `Clones.CloneIsStructural` | expressions.h:122-124 | the clone of a sum or a product is a node of the same kind over the children's clones (146-148) |
| `Clones.CloneBehavesAlike` | expressions.h:102-104 | a clone evaluates, prints and differentiates exactly as the original does, and a derivative's clone is that derivative |
| `Scenarios.ConstantScenario` | main.cpp:8-11 | the constant 5 prints as `5`, and its derivative is the constant 0, printed `0` |
| `Scenarios.VariableScenario` | main.cpp:16-19 | the variable `y` prints as `y` and its derivative with respect to `y` as `1`. Its derivative with respect to the default `x` stays the variable `y`, which evaluates to the input |
| `Scenarios.SumScenario` | main.cpp:24-28 | `5 + z` prints as `5 + z`, and its derivative with respect to `z` prints as `0 + 1`; the sum evaluates to 15 at 10 |
| `Scenarios.ProductScenario` | main.cpp:33-36 | `5 * z` prints as `5 * z`, and its derivative with respect to `z` prints as `0 * z + 5 * 1`, a tree that evaluates to 5 at every input |

## Left out

- Memory: memory ownership, the deleted copy operations and the destructor of `TwoOperand` (expressions.h:78-86). A datatype value owns its children implicitly, and there is nothing to free.
- Numbers: IEEE double arithmetic (rounding, infinities, NaN). Numbers are reals, so the algebraic laws hold exactly.
- `Expressions.Print`: how `Constant` writes a double to a stream (expressions.h:42-44) is the parameter `fmt`, about which nothing is assumed. The scenario lemmas require only that `fmt` write 0, 1 and 5 as digits.
- The stream operator `operator<<` (expressions.h:29-31) is not modelled: it only forwards to `print`.
- Dispatch: the public members that forward to the virtual `do_*` functions (expressions.h:10-21) are merged with them. Their default argument `'x'` is kept.
- Demonstration driver: the console output and the `new`/`delete` calls of `main.cpp` are not modelled. Its sample trees appear as lemmas.
- Limit statements: `FirstOrderExpansion`, `DifferenceQuotient` and `DerivativeIsLimit` hold only for trees whose variables all carry the target name. `Evaluate` binds every variable to the same input, while `Derivate` treats the others as non-constant leaves that are left unchanged, so for other trees the derivative is not the slope of `Evaluate`.
