/**
 * What the parser tests expect of parsing and rendering, derived from the
 * grammar: "x+x", "13*x" and "10*x^3 + 2*(15+x)" parse to the expected trees
 * and render as the expected text; "1+2+", "()()" and "((()))" are
 * rejected. Beside the tests, ten million is shown to render as "1.0E7".
 * A lemma about one fixed text may take it character by character
 * (|s| == 3, s[0] == 'x', ...); that is the same text, in a form the
 * verifier unfolds more cheaply.
 */
module ParserExamples {
  import opened Wrappers
  import opened Numerals
  import opened Expressions
  import opened Rendering
  import opened Parser
  import opened Grammar

  lemma One()
    ensures DigitsValue("1") == 1 && NatText(1) == "1"
  {
  }

  lemma Ten()
    ensures DigitsValue("10") == 10
  {
    One();
  }

  lemma Thirteen()
    ensures DigitsValue("13") == 13
  {
    One();
  }

  lemma Fifteen()
    ensures DigitsValue("15") == 15
  {
    One();
  }

  lemma ThirteenDigits()
    ensures NatText(13) == "13"
  {
    One();
  }

  lemma ThirteenText()
    ensures ValueText(13.0) == "13.0"
  {
    IntegerValueText(13);
    ThirteenDigits();
  }

  /** Appending a digit to a positive number's spelling. */
  lemma NatTextStep(n: nat, d: nat)
    requires n > 0 && d < 10
    ensures NatText(n * 10 + d) == NatText(n) + [DigitChar(d)]
  {
    DivModTen(n, d);
  }

  lemma TenMillionDigits()
    ensures NatText(10000000) == "10000000"
  {
    One();
    NatTextStep(1, 0);
    NatTextStep(10, 0);
    NatTextStep(100, 0);
    NatTextStep(1000, 0);
    NatTextStep(10000, 0);
    NatTextStep(100000, 0);
    NatTextStep(1000000, 0);
  }

  lemma TenMillionPieces(w: string)
    requires w == "10000000"
    ensures [w[0]] + "." + TrimZeros(w[1..]) + "E" + NatText(|w| - 1) == "1.0E7"
  {
    assert TrimZeros(w[1..]) == "0" by {
      assert w[1..] == "0000000";
      TrimAllZeros(w[1..]);
    }
    assert NatText(|w| - 1) == "7";
  }

  /** Ten million is the first whole number Double.toString writes in scientific notation. */
  lemma TenMillionText(n: int)
    requires n == 10000000
    ensures ValueText(n as real) == "1.0E7"
  {
    var w := NatText(n);
    assert w == "10000000" by {
      TenMillionDigits();
    }
    TenMillionPieces(w);
    IntegerValueText(n);
  }

  /** "x+x" parses to AExpression(x, x). */
  lemma ParseSumOfVariables(s: string)
    requires |s| == 3 && s[0] == 'x' && s[1] == '+' && s[2] == 'x'
    ensures ParseSum(s) == Some(AExpression(Variable, Variable))
  {
    assert ParseSum(s[..1]) == Some(Variable) by {
      assert s[..1] == "x";
      VariableAtom();
    }
    assert ParseProduct(s[2..]) == Some(Variable) by {
      assert s[2..] == "x";
      VariableAtom();
    }
    assert s[1] == '+' && !IsSumOp(s[2]);
    SumAt(s, 1, Variable, Variable);
  }

  lemma RenderSumOfVariables()
    ensures Render(AExpression(Variable, Variable), 0) == "+\n\tx\n\tx\n"
  {
  }

  /** "x+x" renders as "+\n\tx\n\tx\n". */
  lemma SumOfVariables(s: string)
    requires s == "x+x"
    ensures ParseByGrammar(s) == Success(AExpression(Variable, Variable))
    ensures Render(ParseByGrammar(s).value, 0) == "+\n\tx\n\tx\n"
  {
    assert ParseSum(s) == Some(AExpression(Variable, Variable)) by { ParseSumOfVariables(s); }
    SpacelessParse(s, AExpression(Variable, Variable));
    RenderSumOfVariables();
  }

  lemma ParseThirteenX(s: string)
    requires |s| == 4 && s[0] == '1' && s[1] == '3' && s[2] == '*' && s[3] == 'x'
    ensures ParseSum(s) == Some(MExpression(Literal(13.0), Variable))
  {
    assert ParseProduct(s[..2]) == Some(Literal(13.0)) by {
      assert s[..2] == "13";
      Thirteen();
      NumberAtom(s[..2]);
    }
    assert ParsePower(s[3..]) == Some(Variable) by {
      assert s[3..] == "x";
      VariableAtom();
    }
    assert ParseSum(s) == ParseProduct(s) by {
      assert forall k | 0 <= k < |s| :: !IsSumOp(s[k]);
      NoSumOp(s);
    }
    assert !IsProductOp(s[3]);
    ProductAt(s, 2, Literal(13.0), Variable);
  }

  lemma RenderScaledVariable(v: real)
    ensures Render(MExpression(Literal(v), Variable), 0) == "*\n\t" + ValueText(v) + "\n\tx\n"
  {
    var t := ValueText(v);
    assert Render(Literal(v), 1) == "\t" + t + "\n" by {
      assert Tabs(1) == "\t";
    }
    assert Render(Variable, 1) == "\tx\n" by {
      assert Tabs(1) == "\t";
    }
    assert Render(MExpression(Literal(v), Variable), 0) == "*\n" + Render(Literal(v), 1) + Render(Variable, 1) by {
      assert Tabs(0) == "";
    }
    ScaledVariableText(t);
  }

  lemma ScaledVariableText(t: string)
    ensures "*\n" + ("\t" + t + "\n") + "\tx\n" == "*\n\t" + t + "\n\tx\n"
  {
  }

  lemma RenderThirteenX()
    ensures Render(MExpression(Literal(13.0), Variable), 0) == "*\n\t13.0\n\tx\n"
  {
    ThirteenText();
    RenderScaledVariable(13.0);
  }

  /** "13*x" renders as "*\n\t13.0\n\tx\n". */
  lemma ThirteenX(s: string)
    requires s == "13*x"
    ensures ParseByGrammar(s) == Success(MExpression(Literal(13.0), Variable))
    ensures Render(ParseByGrammar(s).value, 0) == "*\n\t13.0\n\tx\n"
  {
    assert ParseSum(s) == Some(MExpression(Literal(13.0), Variable)) by { ParseThirteenX(s); }
    SpacelessParse(s, MExpression(Literal(13.0), Variable));
    RenderThirteenX();
  }

  lemma XCubedBase(u: string)
    requires |u| == 3 && u[0] == 'x' && u[1] == '^' && u[2] == '3'
    ensures ParsePrimary(u[..1]) == Some(Variable)
  {
    assert u[..1] == "x";
    VariableAtom();
  }

  lemma XCubedExponent(u: string)
    requires |u| == 3 && u[0] == 'x' && u[1] == '^' && u[2] == '3'
    ensures ParsePower(u[2..]) == Some(Literal(3.0))
  {
    assert u[2..] == "3";
    assert DigitsValue("3") == 3 by {
      assert "3"[..0] == "";
    }
    NumberAtom("3");
  }

  lemma ParseXCubed(u: string)
    requires |u| == 3 && u[0] == 'x' && u[1] == '^' && u[2] == '3'
    ensures ParsePower(u) == Some(Power(Variable, Literal(3.0)))
  {
    XCubedBase(u);
    XCubedExponent(u);
    PowerAt(u, 1, Variable, Literal(3.0));
  }

  lemma TenXCubedOps(t: string)
    requires t == "10*x^3"
    ensures t[2] == '*' && (forall j | 2 < j < |t| :: !IsProductOp(t[j])) && forall j | 0 <= j < |t| :: !IsSumOp(t[j])
  {
  }

  lemma TenXCubedParts(t: string)
    requires t == "10*x^3"
    ensures ParseProduct(t[..2]) == Some(Literal(10.0))
    ensures ParsePower(t[3..]) == Some(Power(Variable, Literal(3.0)))
  {
    assert ParseProduct(t[..2]) == Some(Literal(10.0)) by {
      assert t[..2] == "10";
      NumberAtom(t[..2]);
      Ten();
    }
    assert ParsePower(t[3..]) == Some(Power(Variable, Literal(3.0))) by {
      assert t[3..] == "x^3";
      ParseXCubed(t[3..]);
    }
  }

  lemma ParseTenXCubed(t: string)
    requires t == "10*x^3"
    ensures ParseSum(t) == Some(MExpression(Literal(10.0), Power(Variable, Literal(3.0))))
  {
    TenXCubedOps(t);
    TenXCubedParts(t);
    ProductAt(t, 2, Literal(10.0), Power(Variable, Literal(3.0)));
    NoSumOp(t);
  }


  lemma ParseFifteenPlusX(i: string)
    requires |i| == 4 && i[0] == '1' && i[1] == '5' && i[2] == '+' && i[3] == 'x'
    ensures ParseSum(i) == Some(AExpression(Literal(15.0), Variable))
  {
    assert ParseSum(i[..2]) == Some(Literal(15.0)) by {
      assert i[..2] == "15";
      Fifteen();
      NumberAtom(i[..2]);
    }
    assert ParseProduct(i[3..]) == Some(Variable) by {
      assert i[3..] == "x";
      VariableAtom();
    }
    assert !IsSumOp(i[3]);
    SumAt(i, 2, Literal(15.0), Variable);
  }

  lemma ParseParenthesised(w: string)
    requires w == "(15+x)"
    ensures ParsePower(w) == Some(Parens(AExpression(Literal(15.0), Variable)))
  {
    assert w[1..|w| - 1] == "15+x";
    ParseFifteenPlusX(w[1..|w| - 1]);
    ParensAt(w, AExpression(Literal(15.0), Variable));
    NoPowerOp(w);
  }

  lemma TwiceSumParts(v: string)
    requires v == "2*(15+x)"
    ensures v[1] == '*' && forall j | 1 < j < |v| :: !IsProductOp(v[j])
    ensures ParseProduct(v[..1]) == Some(Literal(2.0))
    ensures ParsePower(v[2..]) == Some(Parens(AExpression(Literal(15.0), Variable)))
  {
    assert ParseProduct(v[..1]) == Some(Literal(2.0)) by {
      assert v[..1] == "2";
      NumberAtom(v[..1]);
      assert DigitsValue(v[..1]) == 2;
    }
    assert ParsePower(v[2..]) == Some(Parens(AExpression(Literal(15.0), Variable))) by {
      assert v[2..] == "(15+x)";
      ParseParenthesised(v[2..]);
    }
  }

  lemma ParseTwiceSum(v: string)
    requires v == "2*(15+x)"
    ensures ParseProduct(v) == Some(MExpression(Literal(2.0), Parens(AExpression(Literal(15.0), Variable))))
  {
    TwiceSumParts(v);
    ProductAt(v, 1, Literal(2.0), Parens(AExpression(Literal(15.0), Variable)));
  }


  lemma NotAPrimary(z: string)
    requires z == "x)"
    ensures ParseProduct(z) == None
  {
    Atom(z);
    NotLiteral(z);
  }

  /** The tree the third test expects: (10 * x^3) + (2 * (15 + x)). */
  function ThirdTree(): Expr {
    AExpression(MExpression(Literal(10.0), Power(Variable, Literal(3.0))),
                MExpression(Literal(2.0), Parens(AExpression(Literal(15.0), Variable))))
  }

  lemma ParseThird(s: string)
    requires s == "10*x^3+2*(15+x)"
    ensures ParseSum(s) == Some(ThirdTree())
  {
    assert s[..6] == "10*x^3" && s[7..] == "2*(15+x)" && s[13..] == "x)";
    ParseTenXCubed(s[..6]);
    ParseTwiceSum(s[7..]);
    NotAPrimary(s[13..]);
    SumAt(s, 6, MExpression(Literal(10.0), Power(Variable, Literal(3.0))),
          MExpression(Literal(2.0), Parens(AExpression(Literal(15.0), Variable))));
  }

  lemma StripSpacedPlus()
    ensures Strip(" + ") == "+"
  {
    assert " + "[1..] == "+ " && "+ "[1..] == " ";
  }

  /** The third expression is its two terms around a spaced plus. */
  lemma ThirdPieces(s: string, a: string, b: string)
    requires s == "10*x^3 + 2*(15+x)" && a == "10*x^3" && b == "2*(15+x)"
    ensures s == a + " + " + b && a + "+" + b == "10*x^3+2*(15+x)"
  {
  }

  /** Removing the spaces around a plus between two space-free terms. */
  lemma StripAroundPlus(a: string, b: string)
    requires ' ' !in a && ' ' !in b
    ensures Strip(a + " + " + b) == a + "+" + b
  {
    StripAppend(a + " + ", b);
    StripAppend(a, " + ");
    StripWithoutSpaces(a);
    StripWithoutSpaces(b);
    StripSpacedPlus();
  }

  /** The token of a leaf whose value is the whole number spelled by digits. */
  lemma WholeToken(v: real, n: nat, digits: string)
    requires v == n as real && n < ScientificFrom && NatText(n) == digits
    ensures ValueText(v) == digits + ".0"
  {
    IntegerValueText(n);
  }

  lemma OutlineCube(e: Expr, v: real, d: nat)
    requires e == Power(Variable, Literal(v))
    ensures Outline(e, d) == [Line(d, "^"), Line(d + 1, "x"), Line(d + 1, ValueText(v))]
  {
  }

  lemma OutlineShifted(e: Expr, v: real, d: nat)
    requires e == AExpression(Literal(v), Variable)
    ensures Outline(e, d) == [Line(d, "+"), Line(d + 1, ValueText(v)), Line(d + 1, "x")]
  {
  }

  lemma OutlineScaledCube(e: Expr, u: real, v: real, d: nat)
    requires e == MExpression(Literal(u), Power(Variable, Literal(v)))
    ensures Outline(e, d) == [Line(d, "*"), Line(d + 1, ValueText(u)), Line(d + 1, "^"),
                              Line(d + 2, "x"), Line(d + 2, ValueText(v))]
  {
    OutlineCube(e.right, v, d + 1);
  }

  lemma OutlineScaledSum(e: Expr, u: real, v: real, d: nat)
    requires e == MExpression(Literal(u), Parens(AExpression(Literal(v), Variable)))
    ensures Outline(e, d) == [Line(d, "*"), Line(d + 1, ValueText(u)), Line(d + 1, "()"),
                              Line(d + 2, "+"), Line(d + 3, ValueText(v)), Line(d + 3, "x")]
  {
    var inner := Outline(e.right.child, d + 2);
    OutlineShifted(e.right.child, v, d + 2);
    assert Outline(e.left, d + 1) == [Line(d + 1, ValueText(u))];
    assert Outline(e.right, d + 1) == [Line(d + 1, "()")] + inner;
    assert Outline(e, d) == [Line(d, "*")] + [Line(d + 1, ValueText(u))] + ([Line(d + 1, "()")] + inner);
  }

  /** The outline of the third tree's shape, whatever its four numbers. */
  lemma OutlineThirdShape(t: Expr, a: real, b: real, c: real, d: real)
    requires t == AExpression(MExpression(Literal(a), Power(Variable, Literal(b))),
                              MExpression(Literal(c), Parens(AExpression(Literal(d), Variable))))
    ensures Outline(t, 0) ==
            [Line(0, "+")] +
            [Line(1, "*"), Line(2, ValueText(a)), Line(2, "^"), Line(3, "x"), Line(3, ValueText(b))] +
            [Line(1, "*"), Line(2, ValueText(c)), Line(2, "()"), Line(3, "+"), Line(4, ValueText(d)), Line(4, "x")]
  {
    OutlineScaledCube(t.left, a, b, 1);
    OutlineScaledSum(t.right, c, d, 1);
  }

  /**
   * The lines of the rendering the third test expects, each as its number of
   * tabs and its token: "+\n\t*\n\t\t10.0\n\t\t^\n\t\t\tx\n\t\t\t3.0\n\t*\n\t\t2.0\n
   * \t\t()\n\t\t\t+\n\t\t\t\t15.0\n\t\t\t\tx\n" is Layout(ThirdLines(), 0).
   */
  function ThirdLines(): seq<Line> {
    [Line(0, "+")] +
    [Line(1, "*"), Line(2, "10.0"), Line(2, "^"), Line(3, "x"), Line(3, "3.0")] +
    [Line(1, "*"), Line(2, "2.0"), Line(2, "()"), Line(3, "+"), Line(4, "15.0"), Line(4, "x")]
  }

  lemma TenToken(a: real)
    requires a == 10.0
    ensures ValueText(a) == "10.0"
  {
    One();
    WholeToken(a, 10, "10");
  }

  lemma ThreeToken(b: real)
    requires b == 3.0
    ensures ValueText(b) == "3.0"
  {
    WholeToken(b, 3, "3");
  }

  lemma TwoToken(c: real)
    requires c == 2.0
    ensures ValueText(c) == "2.0"
  {
    WholeToken(c, 2, "2");
  }

  lemma FifteenToken(d: real)
    requires d == 15.0
    ensures ValueText(d) == "15.0"
  {
    One();
    WholeToken(d, 15, "15");
  }

  lemma ThirdTokens(a: real, b: real, c: real, d: real)
    requires a == 10.0 && b == 3.0 && c == 2.0 && d == 15.0
    ensures ValueText(a) == "10.0" && ValueText(b) == "3.0" && ValueText(c) == "2.0" && ValueText(d) == "15.0"
  {
    TenToken(a);
    ThreeToken(b);
    TwoToken(c);
    FifteenToken(d);
  }

  lemma OutlineThird(t: Expr, a: real, b: real, c: real, d: real)
    requires t == AExpression(MExpression(Literal(a), Power(Variable, Literal(b))),
                              MExpression(Literal(c), Parens(AExpression(Literal(d), Variable))))
    requires a == 10.0 && b == 3.0 && c == 2.0 && d == 15.0
    ensures Outline(t, 0) == ThirdLines()
  {
    ThirdTokens(a, b, c, d);
    OutlineThirdShape(t, a, b, c, d);
  }

  lemma ParseThirdExpression(s: string)
    requires s == "10*x^3 + 2*(15+x)"
    ensures ParseByGrammar(s) == Success(ThirdTree())
  {
    var a, b := "10*x^3", "2*(15+x)";
    ThirdPieces(s, a, b);
    StripAroundPlus(a, b);
    ParseThird(Strip(s));
  }

  lemma RenderThird()
    ensures Render(ThirdTree(), 0) == Layout(ThirdLines(), 0)
  {
    OutlineThird(ThirdTree(), 10.0, 3.0, 2.0, 15.0);
    RenderIsLayout(ThirdTree(), 0, 0);
  }

  /** "10*x^3 + 2*(15+x)" parses to the third tree, which renders line by line as the test expects. */
  lemma ThirdExpression(s: string)
    requires s == "10*x^3 + 2*(15+x)"
    ensures ParseByGrammar(s) == Success(ThirdTree())
    ensures Render(ParseByGrammar(s).value, 0) == Layout(ThirdLines(), 0)
  {
    ParseThirdExpression(s);
    RenderThird();
  }

  /** The empty string is no expression, at any tier. */
  lemma EmptyFails(e: string)
    requires e == ""
    ensures ParseSum(e) == None && ParseProduct(e) == None && ParsePower(e) == None && ParsePrimary(e) == None
  {
    assert ParseLiteral(e) == None;
    assert ParsePrimary(e) == None;
    assert PowerFallback(e) == None;
    assert ParsePower(e) == None;
  }

  lemma DigitSignFails(z: string)
    requires z == "2+"
    ensures ParseProduct(z) == None
  {
    DigitsThenOther(z, z[..1], z[1..]);
    NoProductOp(z);
    NoPowerOp(z);
  }

  lemma TrailingPlusOps(s: string)
    requires |s| == 4 && s[0] == '1' && s[1] == '+' && s[2] == '2' && s[3] == '+'
    ensures forall k | 0 <= k < |s| :: !IsProductOp(s[k]) && s[k] != '^'
    ensures forall k | 0 <= k < |s| && k != 1 && k != 3 :: !IsSumOp(s[k])
    ensures s[2..] == "2+" && s[4..] == ""
  {
  }

  /** Under "1+2+" neither split leaves a product after the operator. */
  lemma TrailingPlusSum(s: string)
    requires |s| == 4 && s[0] == '1' && s[1] == '+' && s[2] == '2' && s[3] == '+'
    ensures ParseSum(s) == None
  {
    assert ParseProduct(s[2..]) == None by {
      DigitSignFails(s[2..]);
    }
    assert ParseProduct(s[4..]) == None by {
      EmptyFails(s[4..]);
    }
    assert TrySumSplits(s, |s|) == ParseProduct(s) by {
      TrailingPlusOps(s);
      SumSkip(s, 0, |s|);
    }
    assert ParseProduct(s) == PowerFallback(s) by {
      TrailingPlusOps(s);
      NoProductOp(s);
      NoPowerOp(s);
    }
    assert ParseLiteral(s) == None by {
      DigitsThenOther(s, s[..1], s[1..]);
    }
    assert ParsePrimary(s) == None by {
      assert !IsParenText(s) && s != "x";
    }
    assert !IsLogText(s);
  }

  /** "1+2+" is rejected: no split leaves a product after the operator. */
  lemma TrailingPlus(s: string)
    requires |s| == 4 && s[0] == '1' && s[1] == '+' && s[2] == '2' && s[3] == '+'
    ensures ParseByGrammar(s) == Failure(CannotParse(s))
  {
    assert ParseSum(s) == None by {
      TrailingPlusSum(s);
    }
    StripWithoutSpaces(s);
  }

  lemma InsideOutFails(z: string)
    requires z == ")("
    ensures ParseSum(z) == None
  {
    Atom(z);
    NotLiteral(z);
  }

  /** "()()" is rejected: its inside ")(" is no expression. */
  lemma TwoEmptyPairs(s: string)
    requires s == "()()"
    ensures ParseByGrammar(s) == Failure(CannotParse(s))
  {
    StripWithoutSpaces(s);
    Atom(s);
    assert s[1..|s| - 1] == ")(";
    InsideOutFails(s[1..|s| - 1]);
  }

  lemma NestedEmptyFails(z: string, depth: nat)
    requires |z| == 2 * depth && forall i | 0 <= i < |z| :: z[i] == if i < depth then '(' else ')'
    ensures ParseSum(z) == None && PowerFallback(z) == None
    decreases depth
  {
    if depth == 0 {
      EmptyFails(z);
    } else {
      Atom(z);
      var inner := z[1..|z| - 1];
      NestedEmptyFails(inner, depth - 1);
    }
  }

  /** "((()))" is rejected: the innermost pair holds nothing. */
  lemma NestedEmptyPairs(s: string)
    requires s == "((()))"
    ensures ParseByGrammar(s) == Failure(CannotParse(s))
  {
    StripWithoutSpaces(s);
    NestedEmptyFails(s, 3);
  }
}
