/**
 * The expression tree: the literal and variable leaves and the compound
 * nodes that carry a display sign, an evaluation rule and a derivative rule,
 * with the tree operations evaluate, differentiate and deepCopy.
 *
 * Java passes the two rules as function objects (EvaluateExpressor,
 * DerivativeExpressor); here each rule is a tag and its meaning a match arm.
 */
module Expressions {
  import opened Wrappers

  /** Which class a two-child compound node is an instance of. */
  datatype TwoSidedKind = DoubleSided | LeftAsso | RightAsso

  /** Evaluation rules: what a compound node makes of its children's values. */
  datatype EvalRule =
    | Plus | Minus | Times
      // the following three are wired by no factory; the parse-tree
      // shapes of the grammar use them
    | Divide | Raise | NaturalLog | Identity

  /** Derivative rules: how a compound node builds its derivative. */
  datatype DerivRule = SumRule | DifferenceRule | ProductRule | NoRule

  datatype Expr =
    | Literal(value: real)
    | Variable
      // a unary node: its right child slot is structurally absent
    | OneSided(child: Expr, sign: string, eval: EvalRule, deriv: DerivRule)
    | TwoSided(kind: TwoSidedKind, left: Expr, right: Expr,
               sign: string, eval: EvalRule, deriv: DerivRule)

  /** a raised to the natural power n. */
  function RealPow(a: real, n: nat): real
    decreases n
  {
    if n == 0 then 1.0 else a * RealPow(a, n - 1)
  }

  predicate IsNatural(b: real) {
    b >= 0.0 && b.Floor as real == b
  }

  /**
   * The evaluation rule applied to two values; None where the rule has no
   * real-valued result in this model (division by zero, a non-natural
   * exponent, a logarithm).
   */
  function Apply(rule: EvalRule, a: real, b: real): Option<real> {
    match rule
    case Plus => Some(a + b)
    case Minus => Some(a - b)
    case Times => Some(a * b)
    case Divide => if b == 0.0 then None else Some(a / b)
    case Raise => if IsNatural(b) then Some(RealPow(a, b.Floor)) else None
    case NaturalLog => None
    case Identity => Some(a)
  }

  /** The three nodes the factories of SimpleExpressionParser build. */
  function AExpression(g: Expr, h: Expr): Expr {
    TwoSided(LeftAsso, g, h, "+", Plus, SumRule)
  }

  function SExpression(g: Expr, h: Expr): Expr {
    TwoSided(LeftAsso, g, h, "-", Minus, DifferenceRule)
  }

  /**
   * The multiplicative node, with its derivative built when it is asked for;
   * the code as written builds it eagerly and never returns (see Calculus).
   */
  function MExpression(g: Expr, h: Expr): Expr {
    TwoSided(LeftAsso, g, h, "*", Times, ProductRule)
  }

  /** A tree built from literals, the variable and the three factories only. */
  predicate FactoryBuilt(e: Expr) {
    match e
    case Literal(_) => true
    case Variable => true
    case OneSided(_, _, _, _) => false
    case TwoSided(_, l, r, _, _, _) =>
      (e == AExpression(l, r) || e == SExpression(l, r) || e == MExpression(l, r))
      && FactoryBuilt(l) && FactoryBuilt(r)
  }

  /**
   * The value of the tree at x. A unary node hands its rule the child's value
   * and 0; a two-child node, of any of the three classes, the values of the
   * left and the right child.
   */
  function Evaluate(e: Expr, x: real): (v: Option<real>)
    ensures FactoryBuilt(e) ==> v.Some?
  {
    match e
    case Literal(c) => Some(c)
    case Variable => Some(x)
    case OneSided(c, _, rule, _) =>
      (match Evaluate(c, x)
       case Some(a) => Apply(rule, a, 0.0)
       case None => None)
    case TwoSided(_, l, r, _, rule, _) =>
      match (Evaluate(l, x), Evaluate(r, x))
      case (Some(a), Some(b)) => Apply(rule, a, b)
      case _ => None
  }

  /**
   * A structural clone with each node of its own class: the deep copy the
   * Expression interface promises and RightAssoExpression's header comment
   * describes. The classes' own deepCopy methods are DeepCopyAsWritten.
   */
  function DeepCopy(e: Expr): (c: Expr)
    ensures c == e
  {
    match e
    case Literal(v) => Literal(v)
    case Variable => Variable
    case OneSided(ch, s, ev, dv) => OneSided(DeepCopy(ch), s, ev, dv)
    case TwoSided(k, l, r, s, ev, dv) => TwoSided(k, DeepCopy(l), DeepCopy(r), s, ev, dv)
  }

  /**
   * The derivative of the tree, or None where the model has no derivative:
   * a node carrying NoRule, and a unary node, whose rule would be handed a
   * null right child. The rule of a two-child node is applied to the node's
   * own, undifferentiated children; the product rule copies the operand it
   * uses twice.
   */
  function Differentiate(e: Expr): (d: Option<Expr>)
    ensures FactoryBuilt(e) ==> d.Some? && FactoryBuilt(d.value)
  {
    match e
    case Literal(_) => Some(Literal(0.0))
    case Variable => Some(Literal(1.0))
    case OneSided(_, _, _, _) => None
    case TwoSided(_, l, r, _, _, rule) =>
      if rule == NoRule then None
      else
        match (Differentiate(l), Differentiate(r))
        case (Some(dl), Some(dr)) =>
          Some(match rule
               case SumRule => AExpression(dl, dr)
               case DifferenceRule => SExpression(dl, dr)
               case ProductRule => AExpression(MExpression(dl, DeepCopy(r)), MExpression(DeepCopy(l), dr)))
        case _ => None
  }

  /** No node of the tree is a RightAssoExpression. */
  predicate NoRightAsso(e: Expr) {
    match e
    case Literal(_) => true
    case Variable => true
    case OneSided(c, _, _, _) => NoRightAsso(c)
    case TwoSided(k, l, r, _, _, _) => k != RightAsso && NoRightAsso(l) && NoRightAsso(r)
  }

  /**
   * c is a copy of e in which a node may change class only from
   * right-associative to left-associative: the same shape, the same literal
   * values, and on every compound node the same sign and the same rules.
   */
  predicate CopiedFrom(c: Expr, e: Expr) {
    match (c, e)
    case (Literal(v), Literal(w)) => v == w
    case (Variable, Variable) => true
    case (OneSided(c1, s1, ev1, dv1), OneSided(e1, s2, ev2, dv2)) =>
      s1 == s2 && ev1 == ev2 && dv1 == dv2 && CopiedFrom(c1, e1)
    case (TwoSided(k1, l1, r1, s1, ev1, dv1), TwoSided(k2, l2, r2, s2, ev2, dv2)) =>
      (k1 == k2 || (k2 == RightAsso && k1 == LeftAsso)) && s1 == s2 && ev1 == ev2 && dv1 == dv2
      && CopiedFrom(l1, l2) && CopiedFrom(r1, r2)
    case _ => false
  }

  /**
   * deepCopy as the Java classes are written: RightAssoExpression's copy is a
   * LeftAssoExpression with the copied children, the same sign and the same
   * rules; every other node keeps its class. Since each node copies its
   * children through their own deepCopy, no copy, of whatever root, holds a
   * right-associative node, and a tree without one is copied node for node.
   */
  function DeepCopyAsWritten(e: Expr): (c: Expr)
    ensures CopiedFrom(c, e)
    ensures NoRightAsso(c)
    ensures NoRightAsso(e) ==> c == e
  {
    match e
    case Literal(v) => Literal(v)
    case Variable => Variable
    case OneSided(ch, s, ev, dv) => OneSided(DeepCopyAsWritten(ch), s, ev, dv)
    case TwoSided(k, l, r, s, ev, dv) =>
      TwoSided(if k == RightAsso then LeftAsso else k,
               DeepCopyAsWritten(l), DeepCopyAsWritten(r), s, ev, dv)
  }

  /**
   * Associativity lives only in the tree's shape: whatever the class of a
   * two-child node, it evaluates and differentiates its children the same way.
   */
  lemma ClassIrrelevant(k: TwoSidedKind, k': TwoSidedKind, l: Expr, r: Expr, s: string,
                        ev: EvalRule, dv: DerivRule, x: real)
    ensures Evaluate(TwoSided(k, l, r, s, ev, dv), x) == Evaluate(TwoSided(k', l, r, s, ev, dv), x)
    ensures Differentiate(TwoSided(k, l, r, s, ev, dv)) == Differentiate(TwoSided(k', l, r, s, ev, dv))
  {
  }

  /**
   * The contract of DeepCopyAsWritten leaves no choice: a copy of e without
   * right-associative nodes that changes nothing but such classes is unique.
   */
  lemma {:induction false} CopyDetermined(c: Expr, c': Expr, e: Expr)
    requires CopiedFrom(c, e) && NoRightAsso(c)
    requires CopiedFrom(c', e) && NoRightAsso(c')
    ensures c == c'
  {
    match e
    case Literal(_) =>
    case Variable =>
    case OneSided(e1, _, _, _) =>
      CopyDetermined(c.child, c'.child, e1);
    case TwoSided(_, l, r, _, _, _) =>
      CopyDetermined(c.left, c'.left, l);
      CopyDetermined(c.right, c'.right, r);
  }

  /** The class change is observable: copying a right-associative node does not give it back. */
  lemma RightAssoCopyChangesClass(l: Expr, r: Expr, s: string, ev: EvalRule, dv: DerivRule)
    ensures var e := TwoSided(RightAsso, l, r, s, ev, dv);
            DeepCopyAsWritten(e) != e && DeepCopyAsWritten(e).kind == LeftAsso
  {
  }

  /** The factories build only left-associative nodes, so on their trees the copy as written is exact. */
  lemma {:induction false} FactoryCopyExact(e: Expr)
    requires FactoryBuilt(e)
    ensures DeepCopyAsWritten(e) == DeepCopy(e) == e
  {
    FactoryNoRightAsso(e);
  }

  lemma {:induction false} FactoryNoRightAsso(e: Expr)
    requires FactoryBuilt(e)
    ensures NoRightAsso(e)
  {
    match e
    case Literal(_) =>
    case Variable =>
    case TwoSided(_, l, r, _, _, _) =>
      FactoryNoRightAsso(l);
      FactoryNoRightAsso(r);
  }

  /** The copy as written still evaluates like the original, at every x. */
  lemma {:induction false} DeepCopyAsWrittenEvaluates(e: Expr, x: real)
    ensures Evaluate(DeepCopyAsWritten(e), x) == Evaluate(e, x)
  {
    match e
    case Literal(_) =>
    case Variable =>
    case OneSided(c, _, _, _) => DeepCopyAsWrittenEvaluates(c, x);
    case TwoSided(_, l, r, _, _, _) =>
      DeepCopyAsWrittenEvaluates(l, x);
      DeepCopyAsWrittenEvaluates(r, x);
  }
}
