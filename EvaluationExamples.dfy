/**
 * The evaluation tests: each expression parses to the tree the grammar
 * gives it, and that tree evaluates at the test's point to the expected
 * value. The values are exact, so the tests' int casts and tolerances play
 * no part. A fixed text is sometimes given character by character, which
 * is the same text in a form the verifier unfolds more cheaply.
 */
module EvaluationExamples {
  import opened Wrappers
  import opened Numerals
  import opened Expressions
  import opened Parser
  import opened Grammar

  lemma Digit(d: string, n: nat)
    requires |d| == 1 && IsDigit(d[0]) && DigitValue(d[0]) == n
    ensures ParseSum(d) == Some(Literal(n as real)) && ParseProduct(d) == Some(Literal(n as real))
    ensures ParsePower(d) == Some(Literal(n as real)) && ParsePrimary(d) == Some(Literal(n as real))
  {
    NumberAtom(d);
    assert DigitsValue(d) == n by {
      assert d[..|d| - 1] == [];
    }
  }

  /** A digit times the variable, such as "5*x", parses to that product. */
  lemma ParseScaledX(m: string, n: nat)
    requires |m| == 3 && IsDigit(m[0]) && DigitValue(m[0]) == n && m[1] == '*' && m[2] == 'x'
    ensures ParseProduct(m) == Some(MExpression(Literal(n as real), Variable))
  {
    assert ParseProduct(m[..1]) == Some(Literal(n as real)) by { Digit(m[..1], n); }
    assert ParsePower(m[2..]) == Some(Variable) by {
      assert m[2..] == "x";
      VariableAtom();
    }
    assert !IsProductOp(m[2]);
    ProductAt(m, 1, Literal(n as real), Variable);
  }

  lemma ParseSixX(w: string)
    requires |w| == 5 && w[0] == 'x' && w[1] == '+' && w[2] == '5' && w[3] == '*' && w[4] == 'x'
    ensures ParseSum(w) == Some(AExpression(Variable, MExpression(Literal(5.0), Variable)))
  {
    assert ParseSum(w[..1]) == Some(Variable) by {
      assert w[..1] == "x";
      VariableAtom();
    }
    assert ParseProduct(w[2..]) == Some(MExpression(Literal(5.0), Variable)) by { ParseScaledX(w[2..], 5); }
    assert !IsSumOp(w[3]) && !IsSumOp(w[4]);
    SumAt(w, 1, Variable, MExpression(Literal(5.0), Variable));
  }

  /** "x)" is nothing: no operator, no parentheses around it, and not the variable. */
  lemma VariableParenFails(z: string)
    requires |z| == 2 && z[0] == 'x' && z[1] == ')'
    ensures ParseProduct(z) == None && ParsePower(z) == None
  {
    Atom(z);
    NotLiteral(z);
  }

  /** "5*x)" is no product: the last * leaves "x)", and the whole is no primary. */
  lemma UnclosedFails(z: string)
    requires |z| == 4 && z[0] == '5' && z[1] == '*' && z[2] == 'x' && z[3] == ')'
    ensures ParseProduct(z) == None
  {
    assert ParsePower(z[2..]) == None by { VariableParenFails(z[2..]); }
    assert ParsePower(z) == None by {
      NoPowerOp(z);
      DigitsThenOther(z, z[..1], z[1..]);
    }
    assert !IsProductOp(z[0]) && !IsProductOp(z[2]) && !IsProductOp(z[3]);
    ProductSkip(z, 0, |z|);
  }

  function ScaledSixX(): Expr {
    MExpression(Literal(4.0), Parens(AExpression(Variable, MExpression(Literal(5.0), Variable))))
  }

  lemma ParseScaledSixX(s: string)
    requires |s| == 9 && s[0] == '4' && s[1] == '*' && s[2] == '(' && s[3] == 'x' && s[4] == '+'
    requires s[5] == '5' && s[6] == '*' && s[7] == 'x' && s[8] == ')'
    ensures ParseSum(s) == Some(ScaledSixX())
  {
    var inner := AExpression(Variable, MExpression(Literal(5.0), Variable));
    assert ParseSum(s) == ParseProduct(s) by {
      UnclosedFails(s[5..]);
      assert forall k | 0 <= k < |s| && k != 4 :: !IsSumOp(s[k]);
      SumSkip(s, 0, |s|);
    }
    assert ParseProduct(s[..1]) == Some(Literal(4.0)) by { Digit(s[..1], 4); }
    assert ParsePower(s[2..]) == Some(Parens(inner)) by {
      var w := s[2..];
      ParseSixX(w[1..|w| - 1]);
      ParensAt(w, inner);
      NoPowerOp(w);
    }
    assert ParsePower(s[7..]) == None by { VariableParenFails(s[7..]); }
    assert forall j | 1 < j < |s| && j != 6 :: !IsProductOp(s[j]);
    ProductAt(s, 1, Literal(4.0), Parens(inner));
  }

  lemma EvaluateScaledShape(e: Expr, a: real, b: real, x: real)
    requires e == MExpression(Literal(a), Parens(AExpression(Variable, MExpression(Literal(b), Variable))))
    requires a == 4.0 && b == 5.0 && x == 3.0
    ensures Evaluate(e, x) == Some(72.0)
  {
    var bx := e.right.child.right;
    assert Evaluate(bx.left, x) == Some(b) && Evaluate(bx.right, x) == Some(x);
    assert Evaluate(bx, x) == Some(15.0);
    assert Evaluate(e.right.child.left, x) == Some(x);
    assert Evaluate(e.right.child, x) == Some(18.0);
    assert Evaluate(e.right, x) == Some(18.0);
    assert Evaluate(e.left, x) == Some(a);
    assert Evaluate(e, x) == Apply(Times, a, 18.0);
  }

  /** "4*(x+5*x)" at 3 is 72. */
  lemma EvaluateScaledSixX(s: string)
    requires s == "4*(x+5*x)"
    ensures ParseByGrammar(s) == Success(ScaledSixX())
    ensures Evaluate(ScaledSixX(), 3.0) == Some(72.0)
  {
    assert ParseSum(s) == Some(ScaledSixX()) by { ParseScaledSixX(s); }
    SpacelessParse(s, ScaledSixX());
    EvaluateScaledShape(ScaledSixX(), 4.0, 5.0, 3.0);
  }

  /** "x" at 2 is 2. */
  lemma EvaluateVariable(s: string)
    requires s == "x"
    ensures ParseByGrammar(s) == Success(Variable)
    ensures Evaluate(Variable, 2.0) == Some(2.0)
  {
    assert ParseSum(s) == Some(Variable) by { VariableAtom(); }
    SpacelessParse(s, Variable);
  }

  lemma ParseRatio(q: string)
    requires |q| == 3 && q[0] == '9' && q[1] == '/' && q[2] == '3'
    ensures ParseProduct(q) == Some(Quotient(Literal(9.0), Literal(3.0)))
  {
    assert ParseProduct(q[..1]) == Some(Literal(9.0)) by { Digit(q[..1], 9); }
    assert ParsePower(q[2..]) == Some(Literal(3.0)) by { Digit(q[2..], 3); }
    assert !IsProductOp(q[2]);
    ProductAt(q, 1, Literal(9.0), Literal(3.0));
  }

  /** "9/3*3" groups as (9/3)*3. */
  lemma ParseRatioTimes(s: string)
    requires s == "9/3*3"
    ensures ParseSum(s) == Some(MExpression(Quotient(Literal(9.0), Literal(3.0)), Literal(3.0)))
  {
    var q := Quotient(Literal(9.0), Literal(3.0));
    assert ParseProduct(s) == Some(MExpression(q, Literal(3.0))) by {
      assert ParseProduct(s[..3]) == Some(q) by { ParseRatio(s[..3]); }
      assert ParsePower(s[4..]) == Some(Literal(3.0)) by { Digit(s[4..], 3); }
      assert s[3] == '*' && !IsProductOp(s[4]);
      ProductAt(s, 3, q, Literal(3.0));
    }
    assert ParseSum(s) == ParseProduct(s) by {
      assert forall j | 0 <= j < |s| :: !IsSumOp(s[j]);
      NoSumOp(s);
    }
  }

  /** "9/3*3" at 333 is 9. */
  lemma EvaluateRatioTimes(s: string)
    requires s == "9/3*3"
    ensures ParseByGrammar(s) == Success(MExpression(Quotient(Literal(9.0), Literal(3.0)), Literal(3.0)))
    ensures Evaluate(MExpression(Quotient(Literal(9.0), Literal(3.0)), Literal(3.0)), 333.0) == Some(9.0)
  {
    var t := MExpression(Quotient(Literal(9.0), Literal(3.0)), Literal(3.0));
    assert ParseSum(s) == Some(t) by { ParseRatioTimes(s); }
    SpacelessParse(s, t);
  }

  lemma ParseFourMinus(s: string)
    requires |s| == 5 && s[0] == '4' && s[1] == '-' && s[2] == '3' && s[3] == '*' && s[4] == 'x'
    ensures ParseSum(s) == Some(SExpression(Literal(4.0), MExpression(Literal(3.0), Variable)))
  {
    assert ParseSum(s[..1]) == Some(Literal(4.0)) by { Digit(s[..1], 4); }
    assert ParseProduct(s[2..]) == Some(MExpression(Literal(3.0), Variable)) by { ParseScaledX(s[2..], 3); }
    assert !IsSumOp(s[3]) && !IsSumOp(s[4]);
    SumAt(s, 1, Literal(4.0), MExpression(Literal(3.0), Variable));
  }

  /** "4-3*x" at 2.5 is -3.5. */
  lemma EvaluateFourMinus(s: string)
    requires s == "4-3*x"
    ensures ParseByGrammar(s) == Success(SExpression(Literal(4.0), MExpression(Literal(3.0), Variable)))
    ensures Evaluate(SExpression(Literal(4.0), MExpression(Literal(3.0), Variable)), 2.5) == Some(-3.5)
  {
    var t := SExpression(Literal(4.0), MExpression(Literal(3.0), Variable));
    assert ParseSum(s) == Some(t) by { ParseFourMinus(s); }
    SpacelessParse(s, t);
  }

  lemma ParseSquare(p: string)
    requires |p| == 3 && p[0] == '3' && p[1] == '^' && p[2] == '2'
    ensures ParsePower(p) == Some(Power(Literal(3.0), Literal(2.0)))
  {
    assert ParsePrimary(p[..1]) == Some(Literal(3.0)) by { Digit(p[..1], 3); }
    assert ParsePower(p[2..]) == Some(Literal(2.0)) by { Digit(p[2..], 2); }
    PowerAt(p, 1, Literal(3.0), Literal(2.0));
  }

  /** "4^3^2" groups as 4^(3^2). */
  lemma ParseTower(s: string)
    requires s == "4^3^2"
    ensures ParseSum(s) == Some(Power(Literal(4.0), Power(Literal(3.0), Literal(2.0))))
  {
    var t := Power(Literal(4.0), Power(Literal(3.0), Literal(2.0)));
    assert ParsePower(s) == Some(t) by {
      assert ParsePrimary(s[..1]) == Some(Literal(4.0)) by { Digit(s[..1], 4); }
      assert ParsePower(s[2..]) == Some(t.right) by { ParseSquare(s[2..]); }
      PowerAt(s, 1, Literal(4.0), t.right);
    }
    assert ParseSum(s) == ParsePower(s) by {
      assert forall j | 0 <= j < |s| :: !IsSumOp(s[j]) && !IsProductOp(s[j]);
      NoSumOp(s);
      NoProductOp(s);
    }
  }

  lemma EvaluateTowerShape(e: Expr, a: real, b: real, c: real, x: real)
    requires e == Power(Literal(a), Power(Literal(b), Literal(c)))
    requires a == 4.0 && b == 3.0 && c == 2.0
    ensures Evaluate(e, x) == Some(262144.0)
  {
    assert c.Floor == 2 && RealPow(b, 2) == 9.0;
    assert Evaluate(e.right.left, x) == Some(b) && Evaluate(e.right.right, x) == Some(c);
    assert Evaluate(e.right, x) == Some(9.0);
    assert Evaluate(e.left, x) == Some(a);
    var nine: real := 9.0;
    assert nine.Floor == 9;
    assert RealPow(a, 9) == 262144.0;
  }

  /** "4^3^2" at 0 is 4^9 = 262144. */
  lemma EvaluateTower(s: string)
    requires s == "4^3^2"
    ensures ParseByGrammar(s) == Success(Power(Literal(4.0), Power(Literal(3.0), Literal(2.0))))
    ensures Evaluate(Power(Literal(4.0), Power(Literal(3.0), Literal(2.0))), 0.0) == Some(262144.0)
  {
    var t := Power(Literal(4.0), Power(Literal(3.0), Literal(2.0)));
    assert ParseSum(s) == Some(t) by { ParseTower(s); }
    SpacelessParse(s, t);
    EvaluateTowerShape(t, 4.0, 3.0, 2.0, 0.0);
  }
}
