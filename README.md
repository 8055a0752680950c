# CS2103Calc expression trees and parser, in Dafny

This project models a small calculator library written in Java. The library parses
single-variable arithmetic such as `10*x^3 + 2*(15+x)` into an expression tree.
It then renders the tree as an indented outline (`convertToString`), copies it
(`deepCopy`), evaluates it at a value of `x` (`evaluate`) and builds its
derivative tree (`differentiate`).

The model has eight modules and two modules of examples.

- `Expressions`: the tree.
  - `Expr` has four kinds of node: a literal leaf, the variable leaf `x`, a
    one-child compound node (`OneSidedExpression`), and a two-child compound node.
  - The two-child node records which of `DoubleSidedExpression`,
    `LeftAssoExpression` or `RightAssoExpression` it is.
  - Every compound node carries its display sign, an evaluation rule and a
    derivative rule. The Java function objects (`EvaluateExpressor`,
    `DerivativeExpressor`) become the tags `EvalRule` and `DerivRule`, and
    their code becomes match arms.
  - This module also holds the three factories `AExpression`, `SExpression`
    and `MExpression`, and the functions `Evaluate`, `Differentiate`, `DeepCopy`
    (the copy the interface promises) and `DeepCopyAsWritten` (the copy the
    classes make).
- `Rendering`: `convertToString`. It is given twice:
  - as the function `Render`;
  - as the method `ConvertToString`, whose `for` loop appends the indent's tabs
    like the Java code does.

  An `Outline` (the pre-order list of (depth, token) lines) describes the
  layout, and the lemmas prove that layout: one line per node, the indent on
  every line, the shift by one tab per level.
- `Calculus`: what the derivative rules compute. Correctness is stated through
  the slope of the secant (Carathéodory's form of the derivative):
  - `e(x + h) - e(x) == h * Slope(e, x, h)` for every `h`;
  - `Slope(e, x, 0)` is the value of the derivative tree;
  - the slope changes by at most a bounded multiple of `h`, so the difference
    quotient tends to the derivative's value as `h` tends to 0.

  The module also holds the two defects of `MExpression` as written.
- `Literals`: a recogniser for the decimal literal forms that
  `parseLiteralExpression`'s regular expression accepts. It is proved to accept
  exactly the spellings of valid literals.
- `Parser`: `parse` (strip spaces, and turn a missing tree into an
  `ExpressionParseException`), the stub `parseAdditiveExpression`, and the two
  token recognisers, both as written and completed as their TODO comments say.
- `Grammar`: the recursive descent that `parseAdditiveExpression` is meant to be.
  - It follows the grammar in the doc-comment of `parse`
    (`src/SimpleExpressionParser.java:54-61`), not the code, which is a stub.
  - `ParseSum` and friends are proved sound and complete against the grammar
    predicates `IsSum`, `IsProduct`, `IsPower` and `IsPrimary`.
  - `ParseByGrammar` is `parse` with this descent in place of the stub.
- `ParserExamples` and `EvaluationExamples`: the expectations of
  `src/ExpressionParserTester.java`, proved for `ParseByGrammar`.
  - Renderings: `"x+x"`, `"13*x"` and `"10*x^3 + 2*(15+x)"`.
  - Rejections: `"1+2+"`, `"((()))"` and `"()()"`.
  - Evaluations: `"4*(x+5*x)"` at 3, `"x"` at 2, `"9/3*3"` at 333, `"4-3*x"` at
    2.5 and `"4^3^2"` at 0.
- `Wrappers` and `Numerals`: `Option`/`Result`, and decimal digit strings.

Rules and choices worth knowing:

- Java `double` arithmetic becomes Dafny `real`, so `+`, `-`, `*` and `/` are exact.
- An evaluation rule that has no real result gives `None`:
  - division by zero;
  - `^` with an exponent that is not a natural number;
  - `log`.
- `Differentiate` gives `None` in two cases:
  - for a node with no derivative rule (no factory exists for `/`, `^`, `log` and `()`);
  - for a unary node, whose rule would receive a `null` right child.
- Every tree built from literals, `x` and the three factories evaluates and
  differentiates (`FactoryBuilt`).
- A literal's text is `ValueText(v)`. Like `Double.toString` it uses plain
  notation below 10^7 in magnitude and scientific notation from there on. For
  integral values it is proved to be what `Double.toString` gives: the digits
  and `.0` below 10^7 (`13.0`, `-4.0`), and from 10^7 on the leading digit, the
  other digits without trailing zeros, `E` and the exponent (`1.0E7`). For
  other values it is an approximation (see Left out).
- A derivative rule is applied to the node's own, undifferentiated children.
  This is what the Java lambdas do, because they capture the children that the
  factory stores.

Where the code and its documentation disagree, the model follows the code:

- `RightAssoExpression` evaluates exactly like `LeftAssoExpression`. Its
  header speaks of right-to-left evaluation, but grouping comes only from the
  tree's shape (`Expressions.ClassIrrelevant`).
- Its `deepCopy` builds a `LeftAssoExpression` (see Findings).
- `LeftAssoExpression` and `RightAssoExpression` refer to an undeclared
  `SignExpressor` type and a `_signExpressor` field. The model uses the
  evaluation rule that `AbstractCompoundExpression` declares
  (`_evaluateExpressor`) in their place.

The grammar tiers need four interpretations of the doc-comment:

1. The doc-comment writes `A -> M+A` and `M -> E*M`, which group to the right.
   The tests expect `9/3*3` to be 9, so `+ - * /` group to the left in the
   model. `^` groups to the right, as `E -> P^E` says and as `4^3^2 = 262144`
   expects.
2. `S -> A | P` is read as `S -> A`, since `P` is already derivable from `A`.
3. `log(P)` is taken literally: the text `log(` and `)` around a primary.
4. The sign of a parenthesised node is `()` and that of a logarithm is
   `log()`. No Java file gives these signs: `()` is fixed by the third test's
   expected rendering (src/ExpressionParserTester.java:42-44), and `log()` is
   the model's own choice in the same style.

## Model

| member | source | states |
|---|---|---|
| Expressions.Evaluate | src/Expression.java:25-30 | a tree built from literals, `x` and the three factories has a value at every x |
| Calculus.EvaluateIsValue | src/DoubleSidedExpression.java:20-23 | a factory-built tree evaluates, at every x, to its polynomial value: each node's rule applied to its two children's values. The left-associative nodes that the factories build go the same way (LeftAssoExpression.java:20-23) |
| Expressions.DeepCopy | src/Expression.java:7-13 | the deep copy the interface promises: the entire tree, equal to the original node for node, class, sign and rules of every compound node included |
| Expressions.DeepCopyAsWritten | src/RightAssoExpression.java:13-18 | the copy the classes make: the same shape, literal values, signs and rules, with a right-associative node copied as a left-associative one and every other node keeping its class; every node copies its children with their own deepCopy (DoubleSidedExpression.java:13-18, LeftAssoExpression.java:13-18, OneSidedExpression.java:11-13, LiteralExpression.java:8-10, VariableExpression.java:2-4). So no copy, of whatever root, holds a right-associative node, and a tree without one is copied node for node |
| Expressions.CopyDetermined | src/RightAssoExpression.java:13-18 | the copy as written is the only tree that keeps shape, values, signs and rules, changes only right-associative classes, and holds no right-associative node |
| Expressions.FactoryCopyExact | src/SimpleExpressionParser.java:16-49 | the factories build only left-associative nodes, so the copy as written of a factory-built tree equals the tree and the promised copy |
| Expressions.Differentiate | src/AbstractCompoundExpression.java:31-34 | a tree built from literals, `x` and the three factories always has a derivative, itself built the same way |
| Expressions.ClassIrrelevant | src/RightAssoExpression.java:20-28 | the three two-child classes evaluate and differentiate identically; grouping comes from the tree's shape only |
| Expressions.RightAssoCopyChangesClass | src/RightAssoExpression.java:13-18 | the copy of a right-associative node, as written, differs from it: it is a left-associative node |
| Expressions.DeepCopyAsWrittenEvaluates | src/RightAssoExpression.java:13-23 | the copy as written still evaluates like the original at every x |
| Rendering.DeepCopyAsWrittenRenders | src/RightAssoExpression.java:13-18 | the copy as written still renders like the original at every indent |
| Rendering.Tabs | src/AbstractCompoundExpression.java:22-24 | the indent is exactly n characters, all tabs |
| Rendering.ConvertToString | src/AbstractCompoundExpression.java:20-29 | the loop-and-append implementation produces exactly the rendering `Render`. A compound node gives its sign line and then its children one tab deeper. A literal gives the indent, its value's text and a newline (LiteralExpression.java:12-19), and the variable gives the indent, `x` and a newline (VariableExpression.java:6-13) |
| Rendering.RenderIsLayout | src/AbstractCompoundExpression.java:20-29 | rendering at indent k + d is laying out the outline of the tree at depth d with k extra tabs: sign line first, then left child, then right child one level deeper |
| Rendering.OutlineSize | src/AbstractCompoundExpression.java:20-29 | the outline has one line per node, and its first line is the root's token at the root's depth |
| Rendering.RenderLines | src/AbstractCompoundExpression.java:20-29 | `convertToString(k)` has one line per node, in pre-order; line i is k tabs plus one tab per level of node i, then its token; the first line is k tabs and the root's token; the text ends with a newline |
| Rendering.LinesOfRender | src/AbstractCompoundExpression.java:20-29 | the lines of the rendering are the outline's lines, each prefixed with its tabs |
| Rendering.RenderEndsWithNewline | src/AbstractCompoundExpression.java:25-27 | every rendering is non-empty and ends with a newline |
| Rendering.RenderIndent | src/Expression.java:15-23 | every line of `convertToString(k)` starts with k tabs, and the first line has exactly k |
| Rendering.RenderShift | src/Expression.java:15-23 | rendering one level deeper puts exactly one more tab in front of every line |
| Rendering.OutlineTokensFit | src/AbstractCompoundExpression.java:25 | in a tree whose signs contain no tab or newline, no outline token does |
| Rendering.LinesOfLayout | src/AbstractCompoundExpression.java:25-27 | splitting a layout at newlines gives back its lines |
| Rendering.LayoutAppend | src/AbstractCompoundExpression.java:26-27 | laying out two outlines one after the other is laying out their concatenation |
| Rendering.ValueText | src/LiteralExpression.java:17 | a literal's text is non-empty, starts with no tab and holds no newline |
| Rendering.IntegerValueText | src/LiteralExpression.java:17 | an integral value's text is what `Double.toString` gives: a `-` if negative, then below 10^7 its digits and `.0`, and from 10^7 on its leading digit, `.`, the other digits without trailing zeros (at least one), `E` and the number of other digits |
| Rendering.FactoryWellSigned | src/SimpleExpressionParser.java:16-49 | the signs the factories give (`+`, `-`, `*`) fit on a line, so the line-by-line lemmas apply to every factory-built tree |
| Calculus.Derivative | src/AbstractCompoundExpression.java:31-34 | a factory-built tree's derivative exists and is factory-built |
| Calculus.AExpressionRules | src/SimpleExpressionParser.java:16-21 | `AExpression` has sign `+`, value a + b, and derivative `AExpression(d(g), d(h))` |
| Calculus.SExpressionRules | src/SimpleExpressionParser.java:29-34 | `SExpression` has sign `-`, value a - b, and derivative `SExpression(d(g), d(h))` |
| Calculus.MExpressionRules | src/SimpleExpressionParser.java:42-49 | `MExpression` has sign `*`, value a * b, and the product rule d(g)·h + g·d(h) as derivative (the corrected factory; see Findings) |
| Calculus.SlopeSpansDifference | src/Expression.java:32-37 | the change of a tree's value between x and x + h is h times its slope |
| Calculus.SlopeAtZero | src/Expression.java:32-37 | at h = 0 the slope is the value of the derivative tree |
| Calculus.DifferentiateIsDerivative | src/Expression.java:32-37 | the two identities behind the derivative: the difference quotient at every h != 0 is the slope, the slope at 0 is the derivative's value, and evaluate agrees |
| Calculus.SlopeChange | src/Expression.java:32-37 | the slope at h differs from the slope at 0 by h times the second-order term `Curv(e, x, h)` |
| Calculus.CurvBounded | src/Expression.java:32-37 | for \|h\| <= 1 the second-order term is bounded by a constant of the tree and x, so the slope is continuous at h = 0 |
| Calculus.DerivativeIsLimit | src/Expression.java:32-37 | differentiate is correct: for every tolerance eps > 0 there is a delta > 0 such that every difference quotient with 0 < \|h\| < delta is within eps of the derivative tree's value, i.e. the derivative's value is the limit of the quotient |
| Calculus.MExpressionEagerNeverReturns | src/SimpleExpressionParser.java:42-44 | `MExpression` as written never returns a tree, however many nested calls the stack allows |
| Calculus.ProductDerivativeAsWritten | src/SimpleExpressionParser.java:48 | the derivative as written is a factory-built tree |
| Calculus.ProductDerivativeAsWrittenValue | src/SimpleExpressionParser.java:48 | the derivative as written evaluates to g'h - gh', the product rule with the wrong sign |
| Calculus.SquareDerivativeAsWritten | src/SimpleExpressionParser.java:48 | for x·x at x = 1 the derivative as written is 0, while the slope and the corrected derivative give 2 |
| Literals.ScanSign | src/SimpleExpressionParser.java:104 | the sign found is a prefix of the text |
| Literals.DigitRun | src/SimpleExpressionParser.java:97 | the run found is all digits and is followed by no digit |
| Literals.RecogniseExponent | src/SimpleExpressionParser.java:101 | an exponent found is valid and spells exactly the text |
| Literals.Recognise | src/SimpleExpressionParser.java:119-122 | a literal found is valid and spells exactly the text |
| Literals.RecogniseSpell | src/SimpleExpressionParser.java:119-122 | the spelling of every valid literal is recognised as that literal |
| Literals.RecogniseIff | src/SimpleExpressionParser.java:136 | a text is recognised exactly when it is the spelling of a valid decimal literal |
| Parser.Strip | src/SimpleExpressionParser.java:66 | the stripped text contains no space |
| Parser.StripCounts | src/SimpleExpressionParser.java:66 | stripping keeps every other character (tabs included) as often as it occurs, and drops exactly the spaces |
| Parser.StripAppend | src/SimpleExpressionParser.java:66 | stripping distributes over concatenation, so the order of the kept characters is preserved |
| Parser.StripWithoutSpaces | src/SimpleExpressionParser.java:66 | a text without spaces is left unchanged |
| Parser.StripIdempotent | src/SimpleExpressionParser.java:66 | stripping twice is stripping once |
| Parser.Finish | src/SimpleExpressionParser.java:67-72 | parse fails exactly when no tree is found, with the message `Cannot parse expression: ` and the stripped text; otherwise it returns the tree |
| Parser.ParseAdditiveStub | src/SimpleExpressionParser.java:77-83 | the stub finds no tree for any input |
| Parser.Parse | src/SimpleExpressionParser.java:65-73 | as written, parse reports every input, once stripped, as unparseable |
| Parser.ParseVariableAsWritten | src/SimpleExpressionParser.java:86-92 | as written, no string, not even `x`, gives a tree |
| Parser.ParseVariable | src/SimpleExpressionParser.java:86-92 | completed as the TODO says: a tree exactly for `x`, and it is the variable |
| Parser.ParseLiteralAsWritten | src/SimpleExpressionParser.java:136-141 | as written, no string gives a tree |
| Parser.ParseLiteral | src/SimpleExpressionParser.java:136-141 | completed as the TODO says: what it finds is a literal leaf |
| Parser.ParseLiteralAccepts | src/SimpleExpressionParser.java:95-141 | a tree is found exactly for the spellings of valid decimal literals |
| Parser.ParseLiteralSpell | src/SimpleExpressionParser.java:136-139 | the spelling of a valid literal parses to a leaf with the literal's value |
| Parser.NotLiteral | src/SimpleExpressionParser.java:104 | a text starting with anything but a sign, a digit or a dot is no literal |
| Parser.DigitsThenOther | src/SimpleExpressionParser.java:119 | digits followed by a character that can neither continue the number nor start an exponent are no literal |
| Parser.DigitsLiteral | src/SimpleExpressionParser.java:119 | a run of digits parses to the number it spells |
| Parser.IntegerTextRoundTrip | src/LiteralExpression.java:17 | the text an integral literal renders as, in plain or in scientific notation, parses back to a leaf with that value |
| Grammar.ParseByGrammar | src/SimpleExpressionParser.java:54-73 | a tree found is one the grammar derives for the stripped input; failure carries the stripped input in its message |
| Grammar.SumSound | src/SimpleExpressionParser.java:56 | every tree `ParseSum` finds is derived by rule A |
| Grammar.ProductSound | src/SimpleExpressionParser.java:57 | every tree `ParseProduct` finds is derived by rule M |
| Grammar.PowerSound | src/SimpleExpressionParser.java:58 | every tree `ParsePower` finds is derived by rule E |
| Grammar.PrimarySound | src/SimpleExpressionParser.java:59-61 | every tree `ParsePrimary` finds is derived by rule P |
| Grammar.SumComplete | src/SimpleExpressionParser.java:56 | whenever rule A derives a tree, `ParseSum` finds one |
| Grammar.ProductComplete | src/SimpleExpressionParser.java:57 | whenever rule M derives a tree, `ParseProduct` finds one |
| Grammar.PowerComplete | src/SimpleExpressionParser.java:58 | whenever rule E derives a tree, `ParsePower` finds one |
| Grammar.PrimaryComplete | src/SimpleExpressionParser.java:59-61 | whenever rule P derives a tree, `ParsePrimary` finds one |
| Grammar.ParseSumIff | src/SimpleExpressionParser.java:54-61 | the descent finds a tree exactly for the strings the grammar derives |
| Grammar.ParseByGrammarSucceeds | src/SimpleExpressionParser.java:54-73 | parse succeeds exactly on the inputs whose stripped text the grammar derives |
| Grammar.ParsedWellSigned | src/SimpleExpressionParser.java:54-73 | every tree parse returns has signs that fit on a line, so the line-by-line lemmas apply to it |
| Grammar.PrimaryIsAtom | src/SimpleExpressionParser.java:59 | a primary is never a two-child node |
| Grammar.PowerIsNoProduct | src/SimpleExpressionParser.java:58 | a power is no sum, difference, product or quotient node |
| Grammar.ProductIsNoSum | src/SimpleExpressionParser.java:57 | a product is no sum or difference node |
| Grammar.SumsGroupLeft | src/SimpleExpressionParser.java:56 | the right operand of a `+` or `-` node is no `+` or `-` node |
| Grammar.ProductsGroupLeft | src/SimpleExpressionParser.java:57 | the right operand of a `*` or `/` node is no `*` or `/` node |
| Grammar.PowersGroupRight | src/SimpleExpressionParser.java:58 | the left operand of a `^` node is no `^` node, so `a^b^c` is `a^(b^c)` |
| Grammar.SumAt | src/SimpleExpressionParser.java:56 | a sum splits at the last `+` or `-` whose two sides parse |
| Grammar.ProductAt | src/SimpleExpressionParser.java:57 | a product splits at the last `*` or `/` whose two sides parse |
| Grammar.PowerAt | src/SimpleExpressionParser.java:58 | a power splits at the first `^` when both sides parse |
| Grammar.ParensAt | src/SimpleExpressionParser.java:59 | a parenthesised sum is a primary holding that sum |
| Grammar.Atom | src/SimpleExpressionParser.java:55-58 | a text without operators parses the same at every tier |
| ParserExamples.SumOfVariables | src/ExpressionParserTester.java:25-27 | `x+x` parses to a `+` node of two variables that renders as `"+\n\tx\n\tx\n"` |
| ParserExamples.ThirteenX | src/ExpressionParserTester.java:35-37 | `13*x` parses to a `*` node that renders as `"*\n\t13.0\n\tx\n"` |
| ParserExamples.ThirdExpression | src/ExpressionParserTester.java:42-44 | `10*x^3 + 2*(15+x)` parses to the expected tree, and its rendering is the expected twelve lines |
| ParserExamples.TenMillionText | src/LiteralExpression.java:17 | the literal ten million renders as `1.0E7` |
| ParserExamples.TrailingPlus | src/ExpressionParserTester.java:53-54 | `1+2+` is rejected with the parse exception |
| ParserExamples.NestedEmptyPairs | src/ExpressionParserTester.java:65-66 | `((()))` is rejected with the parse exception |
| ParserExamples.TwoEmptyPairs | src/ExpressionParserTester.java:77-78 | `()()` is rejected with the parse exception |
| EvaluationExamples.EvaluateScaledSixX | src/ExpressionParserTester.java:88-89 | `4*(x+5*x)` parses and evaluates to 72 at 3 |
| EvaluationExamples.EvaluateVariable | src/ExpressionParserTester.java:97-98 | `x` parses to the variable and evaluates to 2 at 2 |
| EvaluationExamples.ParseRatioTimes | src/ExpressionParserTester.java:105 | `9/3*3` groups to the left: `(9/3)*3` |
| EvaluationExamples.EvaluateRatioTimes | src/ExpressionParserTester.java:105-106 | `9/3*3` parses and evaluates to 9 at 333 |
| EvaluationExamples.EvaluateFourMinus | src/ExpressionParserTester.java:113-114 | `4-3*x` parses and evaluates to -3.5 at 2.5 |
| EvaluationExamples.ParseTower | src/ExpressionParserTester.java:129 | `4^3^2` groups to the right: `4^(3^2)` |
| EvaluationExamples.EvaluateTower | src/ExpressionParserTester.java:129-130 | `4^3^2` parses and evaluates to 262144 at 0 |

## Left out

- IEEE-754 doubles: rounding, NaN, Infinity and the tolerances of the tester are not modelled. Values are exact reals.
- Expressions.Evaluate: returns `None` for `/` by zero, for `^` with a non-natural exponent and for `log`. Java returns a `double` (Infinity, NaN, `Math.pow`) in these cases, and the model has no real number for them.
- The fourth evaluation test, `1./(1. + 5^(-1*x))` (src/ExpressionParserTester.java:120-123), needs `5` raised to a negative real, so its value is not modelled.
- The tester's `(int)` casts are not modelled: each expected value is exact in the model.
- Rendering.ValueText: agrees with `Double.toString` only for integral values. A non-integral value gets its first sixteen fraction digits, truncated, with trailing zeros trimmed, where Java prints the shortest digits that identify the double. Values with 0 < |v| < 10^-3 stay in plain notation, where Java switches to scientific notation. For other values the text is only shown to be one line, and to hold an `E` exactly from 10^7 in magnitude on.
- Rendering.IntegerValueText: holds for every integer, while a Java `double` holds integers exactly only up to 2^53 in magnitude.
- Rendering.ConvertToString: the indent is a `nat`. Java's `int` parameter also accepts negative levels, where the loop writes no tabs at that level.
- Literals.Recognise: covers the decimal forms only. The regular expression's `NaN`, `Infinity` and hexadecimal alternatives, the `[fFdD]` suffix and the control-character padding are left out.
- Literals.FloatValue: is the exact value of a decimal literal, not its nearest double.
- Derivative rules for `/`, `^`, `log` and `()`: the code has no factory for them. The tree shapes exist so that parse results can be stated, and they carry `NoRule`.
- Expressions.Differentiate: gives `None` for a unary node, where Java would hand its rule a `null` right child.
- Object identity and aliasing: trees are values. `differentiate`'s promise of no shared subtrees, and the constructor storing its five fields unchanged, hold by construction.
- `EvaluateExpressor` and `DerivativeExpressor`: function objects replaced by the rule tags.
- `main` (src/SimpleExpressionParser.java:144-147): prints to the console.
- `ExpressionParseException` is a `Result` failure carrying its message.
- ParserExamples.ThirdExpression: the expected rendering is stated as the layout of twelve (depth, token) lines, `Layout(ThirdLines(), 0)`, and not as one string literal. `ThirdLines` lists each line's depth and token in the order of the test's string, and `Layout` turns each into its tabs, token and newline.
- Calculus.MExpressionEager: the call stack is an explicit depth bound. `None` stands for the stack overflow that ends the eager recursion.

## Findings

| source | as written | input that shows it | evidently intended | confidence | as-written member | corrected member |
|---|---|---|---|---|---|---|
| src/SimpleExpressionParser.java:43-44 | `MExpression` calls `MExpression` on the differentiated children before it builds its own node, and those calls do the same | any call, e.g. `MExpression(x, x)` | the product-rule terms are built only when the derivative is asked for | not executed | Calculus.MExpressionEagerNeverReturns | Calculus.MExpressionRules |
| src/SimpleExpressionParser.java:48 | the two product-rule terms are combined with `SExpression`, giving g'h - gh' | `x*x` at x = 1: the derivative evaluates to 0 | `AExpression`, giving g'h + gh' (2 at x = 1) | not executed | Calculus.SquareDerivativeAsWritten | Calculus.DerivativeIsLimit |
| src/RightAssoExpression.java:16 | `deepCopy` of a `RightAssoExpression` builds a `LeftAssoExpression` | any right-associative node, e.g. `x^x` | the copy is a `RightAssoExpression`, as the header comment says | not executed | Expressions.RightAssoCopyChangesClass | Expressions.DeepCopy |
