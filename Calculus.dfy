/**
 * What the derivative rules of the three factories compute, proved against
 * the slope characterisation of the derivative; and the two defects of
 * MExpression as written.
 */
module Calculus {
  import opened Wrappers
  import opened Expressions

  /**
   * Real multiplication. Products of tree values are spelled with it so that
   * the solver treats them as terms until a proof step needs the arithmetic.
   */
  function Mul(a: real, b: real): real {
    a * b
  }

  /** The value of a factory-built tree at x: a polynomial in x. */
  function Value(e: Expr, x: real): real
    requires FactoryBuilt(e)
  {
    match e
    case Literal(c) => c
    case Variable => x
    case TwoSided(_, l, r, _, rule, _) =>
      match rule
      case Plus => Value(l, x) + Value(r, x)
      case Minus => Value(l, x) - Value(r, x)
      case Times => Mul(Value(l, x), Value(r, x))
  }

  /** A factory-built tree evaluates, at every x, to its polynomial value. */
  lemma {:induction false} EvaluateIsValue(e: Expr, x: real)
    requires FactoryBuilt(e)
    ensures Evaluate(e, x) == Some(Value(e, x))
  {
    match e
    case Literal(_) =>
    case Variable =>
    case TwoSided(_, l, r, _, _, _) =>
      EvaluateIsValue(l, x);
      EvaluateIsValue(r, x);
  }

  /**
   * Differentiate without its None case: on a factory-built tree it always
   * gives a tree, and that tree is factory-built again.
   */
  function Derivative(e: Expr): (d: Expr)
    requires FactoryBuilt(e)
    ensures Differentiate(e) == Some(d) && FactoryBuilt(d)
  {
    Differentiate(e).value
  }

  /** AExpression: sign "+", value a + b, derivative AExpression(d(g), d(h)). */
  lemma AExpressionRules(g: Expr, h: Expr, x: real)
    requires FactoryBuilt(g) && FactoryBuilt(h)
    ensures var e := AExpression(g, h);
            e.sign == "+" && FactoryBuilt(e) &&
            Value(e, x) == Value(g, x) + Value(h, x) &&
            Derivative(e) == AExpression(Derivative(g), Derivative(h))
  {
  }

  /** SExpression: sign "-", value a - b, derivative SExpression(d(g), d(h)). */
  lemma SExpressionRules(g: Expr, h: Expr, x: real)
    requires FactoryBuilt(g) && FactoryBuilt(h)
    ensures var e := SExpression(g, h);
            e.sign == "-" && FactoryBuilt(e) &&
            Value(e, x) == Value(g, x) - Value(h, x) &&
            Derivative(e) == SExpression(Derivative(g), Derivative(h))
  {
  }

  /**
   * MExpression: sign "*", value a * b, and the product rule
   * d(g) * h + g * d(h), each reused operand copied first.
   */
  lemma MExpressionRules(g: Expr, h: Expr, x: real)
    requires FactoryBuilt(g) && FactoryBuilt(h)
    ensures var e := MExpression(g, h);
            e.sign == "*" && FactoryBuilt(e) &&
            Value(e, x) == Value(g, x) * Value(h, x) &&
            Derivative(e) == AExpression(MExpression(Derivative(g), DeepCopy(h)),
                                         MExpression(DeepCopy(g), Derivative(h)))
  {
  }

  /**
   * The slope of the secant of e between x and x + h, computed from the
   * tree: the quotient (e(x + h) - e(x)) / h, extended continuously to h = 0.
   */
  function Slope(e: Expr, x: real, h: real): real
    requires FactoryBuilt(e)
  {
    match e
    case Literal(_) => 0.0
    case Variable => 1.0
    case TwoSided(_, l, r, _, rule, _) =>
      match rule
      case Plus => Slope(l, x, h) + Slope(r, x, h)
      case Minus => Slope(l, x, h) - Slope(r, x, h)
      case Times => Mul(Value(l, x + h), Slope(r, x, h)) + Mul(Slope(l, x, h), Value(r, x))
  }

  lemma ProductDifference(a: real, b: real, a': real, b': real, h: real, sa: real, sb: real)
    requires a' - a == Mul(h, sa) && b' - b == Mul(h, sb)
    ensures Mul(a', b') - Mul(a, b) == Mul(h, Mul(a', sb) + Mul(sa, b))
  {
    calc {
      a' * b' - a * b;
      a' * (b' - b) + (a' - a) * b;
      a' * (h * sb) + (h * sa) * b;
      h * (a' * sb + sa * b);
    }
  }

  lemma TimesSpans(l: Expr, r: Expr, x: real, h: real)
    requires FactoryBuilt(l) && FactoryBuilt(r)
    requires Value(l, x + h) - Value(l, x) == Mul(h, Slope(l, x, h))
    requires Value(r, x + h) - Value(r, x) == Mul(h, Slope(r, x, h))
    ensures var e := MExpression(l, r);
            FactoryBuilt(e) && Value(e, x + h) - Value(e, x) == Mul(h, Slope(e, x, h))
  {
    var e := MExpression(l, r);
    var a, b, a', b' := Value(l, x), Value(r, x), Value(l, x + h), Value(r, x + h);
    var sa, sb := Slope(l, x, h), Slope(r, x, h);
    assert Value(e, x) == Mul(a, b) && Value(e, x + h) == Mul(a', b');
    assert Slope(e, x, h) == Mul(a', sb) + Mul(sa, b);
    ProductDifference(a, b, a', b', h, sa, sb);
  }

  lemma Distributes(h: real, a: real, b: real)
    ensures Mul(h, a) + Mul(h, b) == Mul(h, a + b)
    ensures Mul(h, a) - Mul(h, b) == Mul(h, a - b)
  {
  }

  /** The change of e between x and x + h is h times the slope. */
  lemma {:induction false} SlopeSpansDifference(e: Expr, x: real, h: real)
    requires FactoryBuilt(e)
    ensures Value(e, x + h) - Value(e, x) == Mul(h, Slope(e, x, h))
  {
    match e
    case Literal(_) =>
    case Variable =>
    case TwoSided(_, l, r, _, rule, _) =>
      SlopeSpansDifference(l, x, h);
      SlopeSpansDifference(r, x, h);
      match rule
      case Plus => Distributes(h, Slope(l, x, h), Slope(r, x, h));
      case Minus => Distributes(h, Slope(l, x, h), Slope(r, x, h));
      case Times => TimesSpans(l, r, x, h);
  }

  lemma TimesAtZero(l: Expr, r: Expr, x: real)
    requires FactoryBuilt(l) && FactoryBuilt(r)
    requires Slope(l, x, 0.0) == Value(Derivative(l), x)
    requires Slope(r, x, 0.0) == Value(Derivative(r), x)
    ensures var e := MExpression(l, r);
            FactoryBuilt(e) && Slope(e, x, 0.0) == Value(Derivative(e), x)
  {
    var e := MExpression(l, r);
    var a, b := Value(l, x), Value(r, x);
    var dl, dr := Derivative(l), Derivative(r);
    var da, db := Value(dl, x), Value(dr, x);
    assert x + 0.0 == x;
    assert Slope(e, x, 0.0) == Mul(a, db) + Mul(da, b);
    var p, q := MExpression(dl, DeepCopy(r)), MExpression(DeepCopy(l), dr);
    assert Derivative(e) == AExpression(p, q);
    assert Value(p, x) == Mul(da, b) && Value(q, x) == Mul(a, db);
    assert Value(AExpression(p, q), x) == Value(p, x) + Value(q, x);
  }

  /** At h = 0 the slope is the value of the derivative tree. */
  lemma {:induction false} SlopeAtZero(e: Expr, x: real)
    requires FactoryBuilt(e)
    ensures Slope(e, x, 0.0) == Value(Derivative(e), x)
  {
    match e
    case Literal(_) =>
    case Variable =>
    case TwoSided(_, l, r, _, rule, _) =>
      SlopeAtZero(l, x);
      SlopeAtZero(r, x);
      if rule == Times {
        TimesAtZero(l, r, x);
      }
  }

  lemma DivideBack(d: real, h: real, s: real)
    requires h != 0.0 && d == Mul(h, s)
    ensures d / h == s
  {
  }

  /**
   * The two identities behind the derivative: for every x and every h != 0
   * the difference quotient of e is the slope, and the slope at h = 0 is the
   * derivative's value. DerivativeIsLimit adds the continuity that makes the
   * derivative the limit of the quotient.
   */
  lemma DifferentiateIsDerivative(e: Expr, x: real, h: real)
    requires FactoryBuilt(e) && h != 0.0
    ensures (Value(e, x + h) - Value(e, x)) / h == Slope(e, x, h)
    ensures Slope(e, x, 0.0) == Value(Derivative(e), x)
    ensures Evaluate(e, x) == Some(Value(e, x)) && Evaluate(e, x + h) == Some(Value(e, x + h))
    ensures Evaluate(Derivative(e), x) == Some(Slope(e, x, 0.0))
  {
    SlopeSpansDifference(e, x, h);
    DivideBack(Value(e, x + h) - Value(e, x), h, Slope(e, x, h));
    SlopeAtZero(e, x);
    EvaluateIsValue(e, x);
    EvaluateIsValue(e, x + h);
    EvaluateIsValue(Derivative(e), x);
  }

  function Abs(a: real): real {
    if a < 0.0 then -a else a
  }

  /** |a b| is at most A B when |a| <= A and |b| <= B. */
  lemma MulBound(a: real, b: real, A: real, B: real)
    requires Abs(a) <= A && Abs(b) <= B
    ensures Abs(Mul(a, b)) <= Mul(A, B)
  {
    assert Abs(Mul(a, b)) == Abs(a) * Abs(b);
    assert Abs(a) * Abs(b) <= A * Abs(b);
    assert A * Abs(b) <= A * B;
  }

  /** The triangle inequality for a sum and a difference. */
  lemma SumBound(a: real, b: real, A: real, B: real)
    requires Abs(a) <= A && Abs(b) <= B
    ensures Abs(a + b) <= A + B && Abs(a - b) <= A + B
  {
  }

  /** A bound on |e(x + h)| over |h| <= 1. */
  function ValueBound(e: Expr, x: real): real
    requires FactoryBuilt(e)
  {
    match e
    case Literal(c) => Abs(c)
    case Variable => Abs(x) + 1.0
    case TwoSided(_, l, r, _, rule, _) =>
      match rule
      case Plus => ValueBound(l, x) + ValueBound(r, x)
      case Minus => ValueBound(l, x) + ValueBound(r, x)
      case Times => Mul(ValueBound(l, x), ValueBound(r, x))
  }

  /** A bound on |Slope(e, x, h)| over |h| <= 1. */
  function SlopeBound(e: Expr, x: real): real
    requires FactoryBuilt(e)
  {
    match e
    case Literal(_) => 0.0
    case Variable => 1.0
    case TwoSided(_, l, r, _, rule, _) =>
      match rule
      case Plus => SlopeBound(l, x) + SlopeBound(r, x)
      case Minus => SlopeBound(l, x) + SlopeBound(r, x)
      case Times => Mul(ValueBound(l, x), SlopeBound(r, x)) + Mul(SlopeBound(l, x), ValueBound(r, x))
  }

  /** How the slope moves away from its value at h = 0, divided by h. */
  function Curv(e: Expr, x: real, h: real): real
    requires FactoryBuilt(e)
  {
    match e
    case Literal(_) => 0.0
    case Variable => 0.0
    case TwoSided(_, l, r, _, rule, _) =>
      match rule
      case Plus => Curv(l, x, h) + Curv(r, x, h)
      case Minus => Curv(l, x, h) - Curv(r, x, h)
      case Times =>
        Mul(Slope(l, x, h), Slope(r, x, h)) + Mul(Value(l, x), Curv(r, x, h)) + Mul(Curv(l, x, h), Value(r, x))
  }

  /** A bound on |Curv(e, x, h)| over |h| <= 1. */
  function CurvBound(e: Expr, x: real): real
    requires FactoryBuilt(e)
  {
    match e
    case Literal(_) => 0.0
    case Variable => 0.0
    case TwoSided(_, l, r, _, rule, _) =>
      match rule
      case Plus => CurvBound(l, x) + CurvBound(r, x)
      case Minus => CurvBound(l, x) + CurvBound(r, x)
      case Times =>
        Mul(SlopeBound(l, x), SlopeBound(r, x)) + Mul(ValueBound(l, x), CurvBound(r, x))
        + Mul(CurvBound(l, x), ValueBound(r, x))
  }

  lemma {:induction false} ValueBounded(e: Expr, x: real, h: real)
    requires FactoryBuilt(e) && Abs(h) <= 1.0
    ensures Abs(Value(e, x + h)) <= ValueBound(e, x)
  {
    match e
    case Literal(_) =>
    case Variable =>
    case TwoSided(_, l, r, _, rule, _) =>
      ValueBounded(l, x, h);
      ValueBounded(r, x, h);
      var a, b, A, B := Value(l, x + h), Value(r, x + h), ValueBound(l, x), ValueBound(r, x);
      if rule == Times {
        MulBound(a, b, A, B);
      } else {
        SumBound(a, b, A, B);
      }
  }

  /** The value at x itself is within the bound. */
  lemma ValueBoundedAt(e: Expr, x: real)
    requires FactoryBuilt(e)
    ensures Abs(Value(e, x)) <= ValueBound(e, x)
  {
    ValueBounded(e, x, 0.0);
    assert x + 0.0 == x;
  }

  lemma {:induction false} SlopeBounded(e: Expr, x: real, h: real)
    requires FactoryBuilt(e) && Abs(h) <= 1.0
    ensures Abs(Slope(e, x, h)) <= SlopeBound(e, x)
  {
    match e
    case Literal(_) =>
    case Variable =>
    case TwoSided(_, l, r, _, rule, _) =>
      SlopeBounded(l, x, h);
      SlopeBounded(r, x, h);
      if rule == Times {
        ValueBounded(l, x, h);
        ValueBoundedAt(r, x);
        MulBound(Value(l, x + h), Slope(r, x, h), ValueBound(l, x), SlopeBound(r, x));
        MulBound(Slope(l, x, h), Value(r, x), SlopeBound(l, x), ValueBound(r, x));
        SumBound(Mul(Value(l, x + h), Slope(r, x, h)), Mul(Slope(l, x, h), Value(r, x)),
                 Mul(ValueBound(l, x), SlopeBound(r, x)), Mul(SlopeBound(l, x), ValueBound(r, x)));
      } else {
        SumBound(Slope(l, x, h), Slope(r, x, h), SlopeBound(l, x), SlopeBound(r, x));
      }
  }

  lemma {:induction false} CurvBounded(e: Expr, x: real, h: real)
    requires FactoryBuilt(e) && Abs(h) <= 1.0
    ensures Abs(Curv(e, x, h)) <= CurvBound(e, x)
  {
    match e
    case Literal(_) =>
    case Variable =>
    case TwoSided(_, l, r, _, rule, _) =>
      CurvBounded(l, x, h);
      CurvBounded(r, x, h);
      if rule == Times {
        SlopeBounded(l, x, h);
        SlopeBounded(r, x, h);
        ValueBoundedAt(l, x);
        ValueBoundedAt(r, x);
        MulBound(Slope(l, x, h), Slope(r, x, h), SlopeBound(l, x), SlopeBound(r, x));
        MulBound(Value(l, x), Curv(r, x, h), ValueBound(l, x), CurvBound(r, x));
        MulBound(Curv(l, x, h), Value(r, x), CurvBound(l, x), ValueBound(r, x));
        SumBound(Mul(Slope(l, x, h), Slope(r, x, h)), Mul(Value(l, x), Curv(r, x, h)),
                 Mul(SlopeBound(l, x), SlopeBound(r, x)), Mul(ValueBound(l, x), CurvBound(r, x)));
        SumBound(Mul(Slope(l, x, h), Slope(r, x, h)) + Mul(Value(l, x), Curv(r, x, h)), Mul(Curv(l, x, h), Value(r, x)),
                 Mul(SlopeBound(l, x), SlopeBound(r, x)) + Mul(ValueBound(l, x), CurvBound(r, x)),
                 Mul(CurvBound(l, x), ValueBound(r, x)));
      } else {
        SumBound(Curv(l, x, h), Curv(r, x, h), CurvBound(l, x), CurvBound(r, x));
      }
  }

  lemma TimesChange(a: real, a': real, b: real, sl: real, sl0: real, sr: real, sr0: real,
                    cl: real, cr: real, h: real)
    requires a' - a == Mul(h, sl) && sl - sl0 == Mul(h, cl) && sr - sr0 == Mul(h, cr)
    ensures Mul(a', sr) + Mul(sl, b) - (Mul(a, sr0) + Mul(sl0, b))
            == Mul(h, Mul(sl, sr) + Mul(a, cr) + Mul(cl, b))
  {
    calc {
      a' * sr + sl * b - (a * sr0 + sl0 * b);
      (a' - a) * sr + a * (sr - sr0) + (sl - sl0) * b;
      (h * sl) * sr + a * (h * cr) + (h * cl) * b;
      h * (sl * sr + a * cr + cl * b);
    }
  }

  /** The slope at h differs from the slope at 0 by h times Curv. */
  lemma {:induction false} SlopeChange(e: Expr, x: real, h: real)
    requires FactoryBuilt(e)
    ensures Slope(e, x, h) - Slope(e, x, 0.0) == Mul(h, Curv(e, x, h))
  {
    match e
    case Literal(_) =>
    case Variable =>
    case TwoSided(_, l, r, _, rule, _) =>
      SlopeChange(l, x, h);
      SlopeChange(r, x, h);
      match rule
      case Plus => PlusSlopeChange(l, r, x, h);
      case Minus => MinusSlopeChange(l, r, x, h);
      case Times => TimesSlopeChange(l, r, x, h);
  }

  lemma PlusSlopeChange(l: Expr, r: Expr, x: real, h: real)
    requires FactoryBuilt(l) && FactoryBuilt(r)
    requires Slope(l, x, h) - Slope(l, x, 0.0) == Mul(h, Curv(l, x, h))
    requires Slope(r, x, h) - Slope(r, x, 0.0) == Mul(h, Curv(r, x, h))
    ensures var e := AExpression(l, r);
            FactoryBuilt(e) && Slope(e, x, h) - Slope(e, x, 0.0) == Mul(h, Curv(e, x, h))
  {
    var e := AExpression(l, r);
    assert Slope(e, x, h) - Slope(e, x, 0.0)
           == (Slope(l, x, h) - Slope(l, x, 0.0)) + (Slope(r, x, h) - Slope(r, x, 0.0));
    assert Curv(e, x, h) == Curv(l, x, h) + Curv(r, x, h);
    Distributes(h, Curv(l, x, h), Curv(r, x, h));
  }

  lemma MinusSlopeChange(l: Expr, r: Expr, x: real, h: real)
    requires FactoryBuilt(l) && FactoryBuilt(r)
    requires Slope(l, x, h) - Slope(l, x, 0.0) == Mul(h, Curv(l, x, h))
    requires Slope(r, x, h) - Slope(r, x, 0.0) == Mul(h, Curv(r, x, h))
    ensures var e := SExpression(l, r);
            FactoryBuilt(e) && Slope(e, x, h) - Slope(e, x, 0.0) == Mul(h, Curv(e, x, h))
  {
    var e := SExpression(l, r);
    assert Slope(e, x, h) - Slope(e, x, 0.0)
           == (Slope(l, x, h) - Slope(l, x, 0.0)) - (Slope(r, x, h) - Slope(r, x, 0.0));
    assert Curv(e, x, h) == Curv(l, x, h) - Curv(r, x, h);
    Distributes(h, Curv(l, x, h), Curv(r, x, h));
  }

  lemma TimesSlopeChange(l: Expr, r: Expr, x: real, h: real)
    requires FactoryBuilt(l) && FactoryBuilt(r)
    requires Slope(l, x, h) - Slope(l, x, 0.0) == Mul(h, Curv(l, x, h))
    requires Slope(r, x, h) - Slope(r, x, 0.0) == Mul(h, Curv(r, x, h))
    ensures var e := MExpression(l, r);
            FactoryBuilt(e) && Slope(e, x, h) - Slope(e, x, 0.0) == Mul(h, Curv(e, x, h))
  {
    var e := MExpression(l, r);
    var a, a', b := Value(l, x), Value(l, x + h), Value(r, x);
    var sl, sl0, sr, sr0 := Slope(l, x, h), Slope(l, x, 0.0), Slope(r, x, h), Slope(r, x, 0.0);
    var cl, cr := Curv(l, x, h), Curv(r, x, h);
    assert x + 0.0 == x;
    assert Slope(e, x, h) == Mul(a', sr) + Mul(sl, b);
    assert Slope(e, x, 0.0) == Mul(a, sr0) + Mul(sl0, b);
    assert Curv(e, x, h) == Mul(sl, sr) + Mul(a, cr) + Mul(cl, b);
    SlopeSpansDifference(l, x, h);
    TimesChange(a, a', b, sl, sl0, sr, sr0, cl, cr, h);
  }

  /** Every difference quotient with 0 < |h| < delta is within eps of the derivative's value. */
  ghost predicate QuotientWithin(e: Expr, x: real, eps: real, delta: real)
    requires FactoryBuilt(e)
  {
    forall h: real :: 0.0 < Abs(h) < delta ==>
      Abs((Value(e, x + h) - Value(e, x)) / h - Value(Derivative(e), x)) < eps
  }

  lemma SmallProduct(h: real, c: real, C: real, delta: real, eps: real)
    requires 0.0 < Abs(h) < delta && Abs(c) <= C && C >= 0.0 && eps > 0.0
    requires delta <= eps / (C + 1.0)
    ensures Abs(Mul(h, c)) < eps
  {
    assert Abs(Mul(h, c)) == Abs(h) * Abs(c);
    assert Abs(h) * Abs(c) <= Abs(h) * C;
    assert Abs(h) * C < Abs(h) * (C + 1.0);
    assert Abs(h) * (C + 1.0) < delta * (C + 1.0);
    assert delta * (C + 1.0) <= eps;
  }

  /** A step size small enough for the bound C and the tolerance eps. */
  lemma Delta(C: real, eps: real) returns (delta: real)
    requires C >= 0.0 && eps > 0.0
    ensures 0.0 < delta <= 1.0 && delta <= eps / (C + 1.0)
  {
    var ratio := eps / (C + 1.0);
    assert ratio > 0.0;
    delta := if ratio < 1.0 then ratio else 1.0;
  }

  lemma QuotientClose(e: Expr, x: real, h: real, C: real, delta: real, eps: real)
    requires FactoryBuilt(e) && C == CurvBound(e, x) && C >= 0.0 && eps > 0.0
    requires 0.0 < Abs(h) < delta && delta <= 1.0 && delta <= eps / (C + 1.0)
    ensures Abs((Value(e, x + h) - Value(e, x)) / h - Value(Derivative(e), x)) < eps
  {
    DifferentiateIsDerivative(e, x, h);
    SlopeChange(e, x, h);
    CurvBounded(e, x, h);
    SmallProduct(h, Curv(e, x, h), C, delta, eps);
  }

  lemma QuotientWithinDelta(e: Expr, x: real, C: real, delta: real, eps: real)
    requires FactoryBuilt(e) && C == CurvBound(e, x) && C >= 0.0 && eps > 0.0
    requires 0.0 < delta <= 1.0 && delta <= eps / (C + 1.0)
    ensures QuotientWithin(e, x, eps, delta)
  {
    forall h: real | 0.0 < Abs(h) < delta
      ensures Abs((Value(e, x + h) - Value(e, x)) / h - Value(Derivative(e), x)) < eps
    {
      QuotientClose(e, x, h, C, delta, eps);
    }
  }

  /**
   * differentiate is correct: as h tends to 0 the difference quotient
   * (e(x + h) - e(x)) / h tends to the value of the derivative tree at x.
   */
  lemma DerivativeIsLimit(e: Expr, x: real, eps: real)
    requires FactoryBuilt(e) && eps > 0.0
    ensures exists delta: real :: delta > 0.0 && QuotientWithin(e, x, eps, delta)
  {
    var C := CurvBound(e, x);
    CurvBounded(e, x, 0.0);
    var delta := Delta(C, eps);
    QuotientWithinDelta(e, x, C, delta, eps);
    assert QuotientWithin(e, x, eps, delta);
  }

  /**
   * MExpression as written computes both product-rule terms before building
   * its node, each by calling MExpression again, so the call only ends when
   * the stack does. `depth` is the number of nested calls the stack allows;
   * None is the exception that ends the call (a stack overflow, or the null
   * returned by differentiating a node without a derivative rule).
   */
  function MExpressionEager(depth: nat, g: Expr, h: Expr): Option<Expr>
  {
    if depth == 0 then None
    else
      match Differentiate(g)
      case None => None
      case Some(dg) =>
        match MExpressionEager(depth - 1, dg, h)
        case None => None
        case Some(leftDiff) =>
          match Differentiate(h)
          case None => None
          case Some(dh) =>
            match MExpressionEager(depth - 1, g, dh)
            case None => None
            case Some(rightDiff) => Some(MExpression(g, h))
  }

  /** However deep the stack, MExpression as written never returns a tree. */
  lemma {:induction false} MExpressionEagerNeverReturns(depth: nat, g: Expr, h: Expr)
    ensures MExpressionEager(depth, g, h) == None
  {
    if depth > 0 {
      match Differentiate(g)
      case None =>
      case Some(dg) =>
        MExpressionEagerNeverReturns(depth - 1, dg, h);
    }
  }

  /** The derivative MExpression's rule would build as written: d(g) * h - g * d(h). */
  function ProductDerivativeAsWritten(g: Expr, h: Expr): (d: Expr)
    requires FactoryBuilt(g) && FactoryBuilt(h)
    ensures FactoryBuilt(d)
  {
    SExpression(MExpression(Derivative(g), h), MExpression(g, Derivative(h)))
  }

  /** Its value is g'(x) h(x) - g(x) h'(x), the product rule with the wrong sign. */
  lemma ProductDerivativeAsWrittenValue(g: Expr, h: Expr, x: real)
    requires FactoryBuilt(g) && FactoryBuilt(h)
    ensures Value(ProductDerivativeAsWritten(g, h), x)
            == Mul(Value(Derivative(g), x), Value(h, x)) - Mul(Value(g, x), Value(Derivative(h), x))
  {
  }

  /**
   * For x * x at x = 1 the derivative as written evaluates to 0, while the
   * slope at h = 0, and the corrected derivative, give 2.
   */
  lemma SquareDerivativeAsWritten()
    ensures var e := MExpression(Variable, Variable);
            Value(ProductDerivativeAsWritten(Variable, Variable), 1.0) == 0.0 &&
            Slope(e, 1.0, 0.0) == 2.0 &&
            Value(Derivative(e), 1.0) == 2.0
  {
    var e := MExpression(Variable, Variable);
    var one := Literal(1.0);
    assert Derivative(Variable) == one;
    assert ProductDerivativeAsWritten(Variable, Variable)
        == SExpression(MExpression(one, Variable), MExpression(Variable, one));
    assert Value(MExpression(one, Variable), 1.0) == Mul(1.0, 1.0) == 1.0;
    assert Value(MExpression(Variable, one), 1.0) == 1.0;
    assert Slope(e, 1.0, 0.0) == Mul(1.0, 1.0) + Mul(1.0, 1.0) == 2.0;
    SlopeAtZero(e, 1.0);
  }
}
