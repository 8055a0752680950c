/**
 * The recursive descent parseAdditiveExpression is meant to be, following
 * the grammar in the doc-comment of parse:
 *
 *   S -> A | P      A -> M+A | M-A | M      M -> E*M | E/M | E
 *   E -> P^E | P | log(P)      P -> (S) | L | V
 *
 * The tests fix the grouping: + - * / group to the left (9/3*3 is 9), so a
 * sum is split at an operator with a sum before it and a product after it,
 * and a product likewise; ^ groups to the right (4^3^2 is 4^9), so a power
 * is split with a primary before it and a power after it. Since P is an A,
 * S is A. Every operator position is tried, the last one first for + - * /
 * and the first one first for ^, until both sides parse.
 */
module Grammar {
  import opened Wrappers
  import opened Numerals
  import opened Expressions
  import opened Parser
  import Rendering

  /** The nodes the grammar builds for which the parser has no factory. */
  function Quotient(g: Expr, h: Expr): Expr {
    TwoSided(LeftAsso, g, h, "/", Divide, NoRule)
  }

  function Power(g: Expr, h: Expr): Expr {
    TwoSided(RightAsso, g, h, "^", Raise, NoRule)
  }

  function Log(g: Expr): Expr {
    OneSided(g, "log()", NaturalLog, NoRule)
  }

  function Parens(g: Expr): Expr {
    OneSided(g, "()", Identity, NoRule)
  }

  predicate IsSumOp(c: char) {
    c == '+' || c == '-'
  }

  predicate IsProductOp(c: char) {
    c == '*' || c == '/'
  }

  function SumNode(op: char, l: Expr, r: Expr): Expr {
    if op == '+' then AExpression(l, r) else SExpression(l, r)
  }

  function ProductNode(op: char, l: Expr, r: Expr): Expr {
    if op == '*' then MExpression(l, r) else Quotient(l, r)
  }

  predicate IsParenText(s: string) {
    |s| >= 2 && s[0] == '(' && s[|s| - 1] == ')'
  }

  predicate IsLogText(s: string) {
    |s| >= 5 && s[..4] == "log(" && s[|s| - 1] == ')'
  }

  /** e is a tree the rule A derives for s. */
  predicate IsSum(e: Expr, s: string)
    decreases e, 3
  {
    IsProduct(e, s) ||
    (e.TwoSided? &&
     exists k | 0 <= k < |s| ::
       IsSumOp(s[k]) && e == SumNode(s[k], e.left, e.right) &&
       IsSum(e.left, s[..k]) && IsProduct(e.right, s[k + 1..]))
  }

  /** e is a tree the rule M derives for s. */
  predicate IsProduct(e: Expr, s: string)
    decreases e, 2
  {
    IsPower(e, s) ||
    (e.TwoSided? &&
     exists k | 0 <= k < |s| ::
       IsProductOp(s[k]) && e == ProductNode(s[k], e.left, e.right) &&
       IsProduct(e.left, s[..k]) && IsPower(e.right, s[k + 1..]))
  }

  /** e is a tree the rule E derives for s. */
  predicate IsPower(e: Expr, s: string)
    decreases e, 1
  {
    IsPrimary(e, s) ||
    (e.TwoSided? &&
     exists k | 0 <= k < |s| ::
       s[k] == '^' && e == Power(e.left, e.right) &&
       IsPrimary(e.left, s[..k]) && IsPower(e.right, s[k + 1..])) ||
    (e.OneSided? && e == Log(e.child) && IsLogText(s) && IsPrimary(e.child, s[4..|s| - 1]))
  }

  /** e is a tree the rule P derives for s. */
  predicate IsPrimary(e: Expr, s: string)
    decreases e, 0
  {
    ParseVariable(s) == Some(e) ||
    ParseLiteral(s) == Some(e) ||
    (e.OneSided? && e == Parens(e.child) && IsParenText(s) && IsSum(e.child, s[1..|s| - 1]))
  }

  function ParseSum(s: string): (r: Option<Expr>)
    decreases |s|, 3, |s| + 1
  {
    TrySumSplits(s, |s|)
  }

  /** Tries the operator positions below i, the last first, then a product. */
  function TrySumSplits(s: string, i: nat): (r: Option<Expr>)
    requires i <= |s|
    decreases |s|, 3, i
  {
    if i == 0 then ParseProduct(s)
    else
      var k := i - 1;
      if IsSumOp(s[k]) && ParseSum(s[..k]).Some? && ParseProduct(s[k + 1..]).Some? then
        Some(SumNode(s[k], ParseSum(s[..k]).value, ParseProduct(s[k + 1..]).value))
      else TrySumSplits(s, k)
  }

  function ParseProduct(s: string): (r: Option<Expr>)
    decreases |s|, 2, |s| + 1
  {
    TryProductSplits(s, |s|)
  }

  function TryProductSplits(s: string, i: nat): (r: Option<Expr>)
    requires i <= |s|
    decreases |s|, 2, i
  {
    if i == 0 then ParsePower(s)
    else
      var k := i - 1;
      if IsProductOp(s[k]) && ParseProduct(s[..k]).Some? && ParsePower(s[k + 1..]).Some? then
        Some(ProductNode(s[k], ParseProduct(s[..k]).value, ParsePower(s[k + 1..]).value))
      else TryProductSplits(s, k)
  }

  function ParsePower(s: string): (r: Option<Expr>)
    decreases |s|, 1, |s| + 2
  {
    TryPowerSplits(s, 0)
  }

  /** Tries the '^' positions from i on, the first first, then P and log(P). */
  function TryPowerSplits(s: string, i: nat): (r: Option<Expr>)
    requires i <= |s|
    decreases |s|, 1, |s| - i + 1
  {
    if i == |s| then PowerFallback(s)
    else if s[i] == '^' && ParsePrimary(s[..i]).Some? && ParsePower(s[i + 1..]).Some? then
      Some(Power(ParsePrimary(s[..i]).value, ParsePower(s[i + 1..]).value))
    else TryPowerSplits(s, i + 1)
  }

  function PowerFallback(s: string): (r: Option<Expr>)
    decreases |s|, 1, 0
  {
    if ParsePrimary(s).Some? then ParsePrimary(s)
    else if IsLogText(s) && ParsePrimary(s[4..|s| - 1]).Some? then Some(Log(ParsePrimary(s[4..|s| - 1]).value))
    else None
  }

  function ParsePrimary(s: string): (r: Option<Expr>)
    decreases |s|, 0, 0
  {
    if IsParenText(s) then
      match ParseSum(s[1..|s| - 1])
      case None => None
      case Some(e) => Some(Parens(e))
    else if ParseLiteral(s).Some? then ParseLiteral(s)
    else ParseVariable(s)
  }

  /** parse with the grammar in place of the stub. */
  function ParseByGrammar(s: string): (r: Result<Expr, ParseError>)
    ensures r.Success? ==> IsSum(r.value, Strip(s))
    ensures r.Failure? ==> r.error == CannotParse(Strip(s))
  {
    var str := Strip(s);
    SumSound(str);
    Finish(str, ParseSum(str))
  }

  /** Every tree ParseSum finds is one the rule A derives. */
  lemma SumSound(s: string)
    ensures ParseSum(s).Some? ==> IsSum(ParseSum(s).value, s)
    decreases |s|, 3, |s| + 1
  {
    SumSplitsSound(s, |s|);
  }

  lemma {:induction false} SumSplitsSound(s: string, i: nat)
    requires i <= |s|
    ensures TrySumSplits(s, i).Some? ==> IsSum(TrySumSplits(s, i).value, s)
    decreases |s|, 3, i
  {
    if i == 0 {
      ProductSound(s);
    } else {
      var k := i - 1;
      if IsSumOp(s[k]) && ParseSum(s[..k]).Some? && ParseProduct(s[k + 1..]).Some? {
        var a, b := ParseSum(s[..k]).value, ParseProduct(s[k + 1..]).value;
        assert IsSum(a, s[..k]) by { SumSound(s[..k]); }
        assert IsProduct(b, s[k + 1..]) by { ProductSound(s[k + 1..]); }
        var e := SumNode(s[k], a, b);
        assert e.TwoSided? && e.left == a && e.right == b;
        assert IsSumOp(s[k]) && e == SumNode(s[k], e.left, e.right);
      } else {
        SumSplitsSound(s, k);
      }
    }
  }

  lemma ProductSound(s: string)
    ensures ParseProduct(s).Some? ==> IsProduct(ParseProduct(s).value, s)
    decreases |s|, 2, |s| + 1
  {
    ProductSplitsSound(s, |s|);
  }

  lemma {:induction false} ProductSplitsSound(s: string, i: nat)
    requires i <= |s|
    ensures TryProductSplits(s, i).Some? ==> IsProduct(TryProductSplits(s, i).value, s)
    decreases |s|, 2, i
  {
    if i == 0 {
      PowerSound(s);
    } else {
      var k := i - 1;
      if IsProductOp(s[k]) && ParseProduct(s[..k]).Some? && ParsePower(s[k + 1..]).Some? {
        var a, b := ParseProduct(s[..k]).value, ParsePower(s[k + 1..]).value;
        assert IsProduct(a, s[..k]) by { ProductSound(s[..k]); }
        assert IsPower(b, s[k + 1..]) by { PowerSound(s[k + 1..]); }
        var e := ProductNode(s[k], a, b);
        assert e.TwoSided? && e.left == a && e.right == b;
        assert IsProductOp(s[k]) && e == ProductNode(s[k], e.left, e.right);
      } else {
        ProductSplitsSound(s, k);
      }
    }
  }

  lemma PowerSound(s: string)
    ensures ParsePower(s).Some? ==> IsPower(ParsePower(s).value, s)
    decreases |s|, 1, |s| + 2
  {
    PowerSplitsSound(s, 0);
  }

  lemma {:induction false} PowerSplitsSound(s: string, i: nat)
    requires i <= |s|
    ensures TryPowerSplits(s, i).Some? ==> IsPower(TryPowerSplits(s, i).value, s)
    decreases |s|, 1, |s| - i + 1
  {
    if i == |s| {
      PowerFallbackSound(s);
    } else if s[i] == '^' && ParsePrimary(s[..i]).Some? && ParsePower(s[i + 1..]).Some? {
      PrimarySound(s[..i]);
      PowerSound(s[i + 1..]);
      var e := Power(ParsePrimary(s[..i]).value, ParsePower(s[i + 1..]).value);
      assert e.TwoSided? && e == Power(e.left, e.right);
    } else {
      PowerSplitsSound(s, i + 1);
    }
  }

  lemma PowerFallbackSound(s: string)
    ensures PowerFallback(s).Some? ==> IsPower(PowerFallback(s).value, s)
    decreases |s|, 1, 0
  {
    PrimarySound(s);
    if IsLogText(s) {
      PrimarySound(s[4..|s| - 1]);
    }
  }

  lemma PrimarySound(s: string)
    ensures ParsePrimary(s).Some? ==> IsPrimary(ParsePrimary(s).value, s)
    decreases |s|, 0, 0
  {
    if IsParenText(s) {
      SumSound(s[1..|s| - 1]);
    }
  }

  lemma {:induction false} SumSplitsFallback(s: string, i: nat)
    requires i <= |s| && ParseProduct(s).Some?
    ensures TrySumSplits(s, i).Some?
  {
    if i > 0 {
      SumSplitsFallback(s, i - 1);
    }
  }

  lemma {:induction false} SumSplitsReach(s: string, i: nat, k: nat)
    requires k < i <= |s| && IsSumOp(s[k])
    requires ParseSum(s[..k]).Some? && ParseProduct(s[k + 1..]).Some?
    ensures TrySumSplits(s, i).Some?
  {
    if i - 1 != k {
      SumSplitsReach(s, i - 1, k);
    }
  }

  lemma {:induction false} ProductSplitsFallback(s: string, i: nat)
    requires i <= |s| && ParsePower(s).Some?
    ensures TryProductSplits(s, i).Some?
  {
    if i > 0 {
      ProductSplitsFallback(s, i - 1);
    }
  }

  lemma {:induction false} ProductSplitsReach(s: string, i: nat, k: nat)
    requires k < i <= |s| && IsProductOp(s[k])
    requires ParseProduct(s[..k]).Some? && ParsePower(s[k + 1..]).Some?
    ensures TryProductSplits(s, i).Some?
  {
    if i - 1 != k {
      ProductSplitsReach(s, i - 1, k);
      assert TryProductSplits(s, i - 1).Some?;
    } else {
      assert IsProductOp(s[i - 1]) && ParseProduct(s[..i - 1]).Some? && ParsePower(s[i - 1 + 1..]).Some?;
    }
  }

  lemma {:induction false} PowerSplitsFallback(s: string, i: nat)
    requires i <= |s| && PowerFallback(s).Some?
    ensures TryPowerSplits(s, i).Some?
    decreases |s| - i
  {
    if i < |s| {
      PowerSplitsFallback(s, i + 1);
    }
  }

  lemma {:induction false} PowerSplitsReach(s: string, i: nat, k: nat)
    requires i <= k < |s| && s[k] == '^'
    requires ParsePrimary(s[..k]).Some? && ParsePower(s[k + 1..]).Some?
    ensures TryPowerSplits(s, i).Some?
    decreases k - i
  {
    if i != k {
      PowerSplitsReach(s, i + 1, k);
    }
  }

  /** Whenever the rule A derives a tree for s, ParseSum finds one. */
  lemma {:induction false} SumComplete(e: Expr, s: string)
    requires IsSum(e, s)
    ensures ParseSum(s).Some?
    decreases e, 3
  {
    if IsProduct(e, s) {
      ProductComplete(e, s);
      SumSplitsFallback(s, |s|);
    } else {
      var k :| 0 <= k < |s| && IsSumOp(s[k]) && e == SumNode(s[k], e.left, e.right) &&
               IsSum(e.left, s[..k]) && IsProduct(e.right, s[k + 1..]);
      SumComplete(e.left, s[..k]);
      ProductComplete(e.right, s[k + 1..]);
      SumSplitsReach(s, |s|, k);
    }
  }

  lemma {:induction false} ProductComplete(e: Expr, s: string)
    requires IsProduct(e, s)
    ensures ParseProduct(s).Some?
    decreases e, 2
  {
    if IsPower(e, s) {
      PowerComplete(e, s);
      ProductSplitsFallback(s, |s|);
    } else {
      var k :| 0 <= k < |s| && IsProductOp(s[k]) && e == ProductNode(s[k], e.left, e.right) &&
               IsProduct(e.left, s[..k]) && IsPower(e.right, s[k + 1..]);
      ProductComplete(e.left, s[..k]);
      PowerComplete(e.right, s[k + 1..]);
      ProductSplitsReach(s, |s|, k);
    }
  }

  lemma {:induction false} PowerComplete(e: Expr, s: string)
    requires IsPower(e, s)
    ensures ParsePower(s).Some?
    decreases e, 1
  {
    if IsPrimary(e, s) {
      PrimaryComplete(e, s);
      PowerSplitsFallback(s, 0);
    } else if e.OneSided? && e == Log(e.child) && IsLogText(s) && IsPrimary(e.child, s[4..|s| - 1]) {
      PrimaryComplete(e.child, s[4..|s| - 1]);
      PowerSplitsFallback(s, 0);
    } else {
      var k :| 0 <= k < |s| && s[k] == '^' && e == Power(e.left, e.right) &&
               IsPrimary(e.left, s[..k]) && IsPower(e.right, s[k + 1..]);
      PrimaryComplete(e.left, s[..k]);
      PowerComplete(e.right, s[k + 1..]);
      PowerSplitsReach(s, 0, k);
    }
  }

  lemma {:induction false} PrimaryComplete(e: Expr, s: string)
    requires IsPrimary(e, s)
    ensures ParsePrimary(s).Some?
    decreases e, 0
  {
    if IsParenText(s) {
      NotLiteral(s);
      if e.OneSided? && e == Parens(e.child) && IsSum(e.child, s[1..|s| - 1]) {
        SumComplete(e.child, s[1..|s| - 1]);
      }
    }
  }

  /** The parser finds a tree exactly for the strings the grammar derives. */
  lemma ParseSumIff(s: string)
    ensures ParseSum(s).Some? ==> exists e :: IsSum(e, s)
    ensures (exists e :: IsSum(e, s)) ==> ParseSum(s).Some?
  {
    if exists e :: IsSum(e, s) {
      var e :| IsSum(e, s);
      SumComplete(e, s);
    }
    SumSound(s);
  }

  /** A space-free input whose A-tier parse is t is parsed to t. */
  lemma SpacelessParse(s: string, t: Expr)
    requires ' ' !in s && ParseSum(s) == Some(t)
    ensures ParseByGrammar(s) == Success(t)
  {
    StripWithoutSpaces(s);
  }

  /** parse with the grammar succeeds exactly on the inputs the grammar derives once stripped. */
  lemma ParseByGrammarSucceeds(s: string)
    ensures ParseByGrammar(s).Success? ==> exists e :: IsSum(e, Strip(s))
    ensures (exists e :: IsSum(e, Strip(s))) ==> ParseByGrammar(s).Success?
  {
    var str := Strip(s);
    assert ParseByGrammar(s) == Finish(str, ParseSum(str));
    if exists e :: IsSum(e, str) {
      var e :| IsSum(e, str);
      SumComplete(e, str);
    }
    SumSound(str);
  }

  /** Every sign of a tree the rule A derives fits on its line of the rendering. */
  lemma {:induction false} SumWellSigned(e: Expr, s: string)
    requires IsSum(e, s)
    ensures Rendering.WellSigned(e)
    decreases e, 3
  {
    if IsProduct(e, s) {
      ProductWellSigned(e, s);
    } else {
      var k :| 0 <= k < |s| && IsSumOp(s[k]) && e == SumNode(s[k], e.left, e.right) &&
               IsSum(e.left, s[..k]) && IsProduct(e.right, s[k + 1..]);
      SumWellSigned(e.left, s[..k]);
      ProductWellSigned(e.right, s[k + 1..]);
    }
  }

  lemma {:induction false} ProductWellSigned(e: Expr, s: string)
    requires IsProduct(e, s)
    ensures Rendering.WellSigned(e)
    decreases e, 2
  {
    if IsPower(e, s) {
      PowerWellSigned(e, s);
    } else {
      var k :| 0 <= k < |s| && IsProductOp(s[k]) && e == ProductNode(s[k], e.left, e.right) &&
               IsProduct(e.left, s[..k]) && IsPower(e.right, s[k + 1..]);
      ProductWellSigned(e.left, s[..k]);
      PowerWellSigned(e.right, s[k + 1..]);
    }
  }

  lemma {:induction false} PowerWellSigned(e: Expr, s: string)
    requires IsPower(e, s)
    ensures Rendering.WellSigned(e)
    decreases e, 1
  {
    if IsPrimary(e, s) {
      PrimaryWellSigned(e, s);
    } else if e.OneSided? {
      PrimaryWellSigned(e.child, s[4..|s| - 1]);
      LogWellSigned(e.child);
    } else {
      var k :| 0 <= k < |s| && s[k] == '^' && e == Power(e.left, e.right) &&
               IsPrimary(e.left, s[..k]) && IsPower(e.right, s[k + 1..]);
      PrimaryWellSigned(e.left, s[..k]);
      PowerWellSigned(e.right, s[k + 1..]);
      PowerNodeWellSigned(e.left, e.right);
    }
  }

  lemma LogWellSigned(c: Expr)
    requires Rendering.WellSigned(c)
    ensures Rendering.WellSigned(Log(c))
  {
  }

  lemma PowerNodeWellSigned(l: Expr, r: Expr)
    requires Rendering.WellSigned(l) && Rendering.WellSigned(r)
    ensures Rendering.WellSigned(Power(l, r))
  {
  }

  lemma {:induction false} PrimaryWellSigned(e: Expr, s: string)
    requires IsPrimary(e, s)
    ensures Rendering.WellSigned(e)
    decreases e, 0
  {
    if e.OneSided? && e == Parens(e.child) && IsParenText(s) && IsSum(e.child, s[1..|s| - 1]) {
      SumWellSigned(e.child, s[1..|s| - 1]);
    }
  }

  /** Every tree parse with the grammar returns can be rendered line by line. */
  lemma ParsedWellSigned(s: string)
    ensures ParseByGrammar(s).Success? ==> Rendering.WellSigned(ParseByGrammar(s).value)
  {
    if ParseByGrammar(s).Success? {
      SumWellSigned(ParseByGrammar(s).value, Strip(s));
    }
  }

  predicate IsSumOrDifference(e: Expr) {
    e.TwoSided? && (e.eval == Plus || e.eval == Minus)
  }

  predicate IsProductOrQuotient(e: Expr) {
    e.TwoSided? && (e.eval == Times || e.eval == Divide)
  }

  predicate IsPowerNode(e: Expr) {
    e.TwoSided? && e.eval == Raise
  }

  lemma PrimaryIsAtom(e: Expr, s: string)
    requires IsPrimary(e, s)
    ensures !e.TwoSided?
  {
  }

  lemma PowerIsNoProduct(e: Expr, s: string)
    requires IsPower(e, s)
    ensures !IsSumOrDifference(e) && !IsProductOrQuotient(e)
  {
    if e.TwoSided? {
      assert !IsPrimary(e, s) by {
        if IsPrimary(e, s) {
          PrimaryIsAtom(e, s);
        }
      }
      assert e == Power(e.left, e.right);
    }
  }

  lemma ProductIsNoSum(e: Expr, s: string)
    requires IsProduct(e, s)
    ensures !IsSumOrDifference(e)
  {
    if IsPower(e, s) {
      PowerIsNoProduct(e, s);
    }
  }

  /**
   * + and - group to the left: the right operand of a + or - node of a
   * parse is never itself a + or - node (a - b - c is (a - b) - c).
   */
  lemma SumsGroupLeft(e: Expr, s: string)
    requires IsSum(e, s) && IsSumOrDifference(e)
    ensures !IsSumOrDifference(e.right)
  {
    if IsProduct(e, s) {
      ProductIsNoSum(e, s);
    } else {
      var k :| 0 <= k < |s| && IsSumOp(s[k]) && e == SumNode(s[k], e.left, e.right) &&
               IsSum(e.left, s[..k]) && IsProduct(e.right, s[k + 1..]);
      ProductIsNoSum(e.right, s[k + 1..]);
    }
  }

  /** * and / group to the left: the right operand of a * or / node is no * or / node. */
  lemma ProductsGroupLeft(e: Expr, s: string)
    requires IsProduct(e, s) && IsProductOrQuotient(e)
    ensures !IsProductOrQuotient(e.right)
  {
    if IsPower(e, s) {
      PowerIsNoProduct(e, s);
    } else {
      var k :| 0 <= k < |s| && IsProductOp(s[k]) && e == ProductNode(s[k], e.left, e.right) &&
               IsProduct(e.left, s[..k]) && IsPower(e.right, s[k + 1..]);
      PowerIsNoProduct(e.right, s[k + 1..]);
    }
  }

  /** ^ groups to the right: the left operand of a ^ node is no ^ node (a^b^c is a^(b^c)). */
  lemma PowersGroupRight(e: Expr, s: string)
    requires IsPower(e, s) && IsPowerNode(e)
    ensures !IsPowerNode(e.left)
  {
    if IsPrimary(e, s) {
      PrimaryIsAtom(e, s);
    } else if !e.OneSided? {
      var k :| 0 <= k < |s| && s[k] == '^' && e == Power(e.left, e.right) &&
               IsPrimary(e.left, s[..k]) && IsPower(e.right, s[k + 1..]);
      PrimaryIsAtom(e.left, s[..k]);
    }
  }

  /** Positions without + or -, or whose right side is no product, are passed over. */
  lemma {:induction false} SumSkip(s: string, j: nat, i: nat)
    requires j <= i <= |s|
    requires forall k | j <= k < i :: !IsSumOp(s[k]) || ParseProduct(s[k + 1..]).None?
    ensures TrySumSplits(s, i) == TrySumSplits(s, j)
    decreases i
  {
    if i > j {
      SumSkip(s, j, i - 1);
    }
  }

  /** Positions without * or /, or whose right side is no power, are passed over. */
  lemma {:induction false} ProductSkip(s: string, j: nat, i: nat)
    requires j <= i <= |s|
    requires forall k | j <= k < i :: !IsProductOp(s[k]) || ParsePower(s[k + 1..]).None?
    ensures TryProductSplits(s, i) == TryProductSplits(s, j)
    decreases i
  {
    if i > j {
      ProductSkip(s, j, i - 1);
    }
  }

  /** Positions without ^, or whose right side is no power, are passed over. */
  lemma {:induction false} PowerSkip(s: string, i: nat, j: nat)
    requires i <= j <= |s|
    requires forall k | i <= k < j :: s[k] != '^' || ParsePower(s[k + 1..]).None?
    ensures TryPowerSplits(s, i) == TryPowerSplits(s, j)
    decreases j - i
  {
    if i < j {
      PowerSkip(s, i + 1, j);
    }
  }

  /** A string with no operator character parses, at every tier, as a primary. */
  lemma Atom(s: string)
    requires forall k | 0 <= k < |s| :: !IsSumOp(s[k]) && !IsProductOp(s[k]) && s[k] != '^'
    ensures ParseSum(s) == ParseProduct(s) == ParsePower(s) == PowerFallback(s)
  {
    NoSumOp(s);
    NoProductOp(s);
    NoPowerOp(s);
  }

  /**
   * A sum splits at the operator at k when both sides parse and no later
   * + or - has a right side that is a product.
   */
  lemma SumAt(s: string, k: nat, a: Expr, b: Expr)
    requires k < |s| && IsSumOp(s[k])
    requires forall j | k < j < |s| :: !IsSumOp(s[j]) || ParseProduct(s[j + 1..]).None?
    requires ParseSum(s[..k]) == Some(a) && ParseProduct(s[k + 1..]) == Some(b)
    ensures ParseSum(s) == Some(SumNode(s[k], a, b))
  {
    SumSkip(s, k + 1, |s|);
  }


  /**
   * A product splits at the operator at k when both sides parse and no later
   * * or / has a right side that is a power.
   */
  lemma ProductAt(s: string, k: nat, a: Expr, b: Expr)
    requires k < |s| && IsProductOp(s[k])
    requires forall j | k < j < |s| :: !IsProductOp(s[j]) || ParsePower(s[j + 1..]).None?
    requires ParseProduct(s[..k]) == Some(a) && ParsePower(s[k + 1..]) == Some(b)
    ensures ParseProduct(s) == Some(ProductNode(s[k], a, b))
  {
    ProductSkip(s, k + 1, |s|);
  }

  /** A power splits at the first ^ when both sides parse. */
  lemma PowerAt(s: string, k: nat, a: Expr, b: Expr)
    requires k < |s| && s[k] == '^'
    requires forall j | 0 <= j < k :: s[j] != '^'
    requires ParsePrimary(s[..k]) == Some(a) && ParsePower(s[k + 1..]) == Some(b)
    ensures ParsePower(s) == Some(Power(a, b))
  {
    PowerSkip(s, 0, k);
  }

  /** Without + or -, a sum is a product. */
  lemma NoSumOp(s: string)
    requires forall k | 0 <= k < |s| :: !IsSumOp(s[k])
    ensures ParseSum(s) == ParseProduct(s)
  {
    SumSkip(s, 0, |s|);
  }

  /** Without * or /, a product is a power. */
  lemma NoProductOp(s: string)
    requires forall k | 0 <= k < |s| :: !IsProductOp(s[k])
    ensures ParseProduct(s) == ParsePower(s)
  {
    ProductSkip(s, 0, |s|);
  }

  /** Without ^, a power is a primary or a log. */
  lemma NoPowerOp(s: string)
    requires forall k | 0 <= k < |s| :: s[k] != '^'
    ensures ParsePower(s) == PowerFallback(s)
  {
    PowerSkip(s, 0, |s|);
  }

  /** A parenthesised sum. */
  lemma ParensAt(s: string, a: Expr)
    requires IsParenText(s) && ParseSum(s[1..|s| - 1]) == Some(a)
    ensures ParsePrimary(s) == Some(Parens(a)) && PowerFallback(s) == Some(Parens(a))
  {
  }

  /** The variable, at every tier. */
  lemma VariableAtom()
    ensures var v := Some(Variable);
            ParseSum("x") == v && ParseProduct("x") == v && ParsePower("x") == v && ParsePrimary("x") == v
  {
    Atom("x");
    NotLiteral("x");
  }

  /** A run of digits, at every tier. */
  lemma NumberAtom(d: string)
    requires |d| > 0 && AllDigits(d)
    ensures var v := Some(Literal(DigitsValue(d) as real));
            ParseSum(d) == v && ParseProduct(d) == v && ParsePower(d) == v && ParsePrimary(d) == v
  {
    var v := Some(Literal(DigitsValue(d) as real));
    assert ParsePrimary(d) == PowerFallback(d) == v by {
      DigitsPrimary(d);
    }
    assert ParseSum(d) == ParseProduct(d) == ParsePower(d) == PowerFallback(d) by {
      forall k | 0 <= k < |d|
        ensures !IsSumOp(d[k]) && !IsProductOp(d[k]) && d[k] != '^'
      {
        assert IsDigit(d[k]);
      }
      Atom(d);
    }
  }

  lemma DigitsPrimary(d: string)
    requires |d| > 0 && AllDigits(d)
    ensures ParsePrimary(d) == PowerFallback(d) == Some(Literal(DigitsValue(d) as real))
  {
    assert IsDigit(d[0]);
    DigitsLiteral(d);
  }
}
