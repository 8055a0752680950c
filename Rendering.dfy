/**
 * convertToString: the tab-indented, one-line-per-node, pre-order rendering
 * of a tree, and what it guarantees about the lines it produces.
 */
module Rendering {
  import opened Numerals
  import opened Expressions

  /** n tab characters. */
  function Tabs(n: nat): (t: string)
    ensures |t| == n && forall i :: 0 <= i < n ==> t[i] == '\t'
  {
    if n == 0 then "" else Tabs(n - 1) + "\t"
  }

  /** How many fractional digits a non-integral value shows at most, and 10 to that power. */
  const FractionPlaces: nat := 16
  const FractionScale: real := 10000000000000000.0

  /**
   * The first FractionPlaces decimal digits of a fraction f in [0, 1),
   * truncated, with leading zeros.
   */
  function FractionDigits(f: real): (r: string)
    requires 0.0 <= f < 1.0
    ensures |r| > 0 && AllDigits(r)
  {
    var scaled := NatText((f * FractionScale).Floor);
    seq(if |scaled| < FractionPlaces then FractionPlaces - |scaled| else 0, _ => '0') + scaled
  }

  /** Drops trailing zeros, keeping at least one digit. */
  function TrimZeros(s: string): (r: string)
    requires |s| > 0
    ensures |r| > 0 && r <= s
  {
    if |s| > 1 && s[|s| - 1] == '0' then TrimZeros(s[..|s| - 1]) else s
  }

  lemma {:induction false} TrimAllZeros(s: string)
    requires |s| > 0 && forall i :: 0 <= i < |s| ==> s[i] == '0'
    ensures TrimZeros(s) == "0"
  {
    if |s| > 1 {
      TrimAllZeros(s[..|s| - 1]);
    }
  }

  /** Trailing zeros after a non-empty string make no difference once trimmed. */
  lemma {:induction false} TrimZerosPad(s: string, z: string)
    requires |s| > 0 && forall i :: 0 <= i < |z| ==> z[i] == '0'
    ensures TrimZeros(s + z) == TrimZeros(s)
    decreases |z|
  {
    if z == [] {
      assert s + z == s;
    } else {
      var z' := z[..|z| - 1];
      assert (s + z)[..|s + z| - 1] == s + z';
      TrimZerosPad(s, z');
    }
  }

  /** From 10^7 on, Double.toString writes computerized scientific notation. */
  const ScientificFrom: nat := 10000000

  /** Plain decimal notation of a non-negative value: digits "." digits. */
  function PlainMagnitude(a: real): (r: string)
    requires a >= 0.0
    ensures |r| > 0 && IsDigit(r[0])
    ensures forall i :: 0 <= i < |r| ==> IsDigit(r[i]) || r[i] == '.'
  {
    var whole := NatText(a.Floor);
    var fraction := TrimZeros(FractionDigits(a - a.Floor as real));
    assert AllDigits(fraction);
    whole + "." + fraction
  }

  /**
   * Computerized scientific notation of a non-negative value: its leading
   * digit, ".", the digits after it without trailing zeros (at least one),
   * "E" and the power of ten of the leading digit.
   */
  function ScientificMagnitude(a: real): (r: string)
    requires a >= 0.0
    ensures |r| > 0 && IsDigit(r[0]) && 'E' in r
    ensures forall i :: 0 <= i < |r| ==> IsDigit(r[i]) || r[i] == '.' || r[i] == 'E'
  {
    var whole := NatText(a.Floor);
    var rest := whole[1..] + FractionDigits(a - a.Floor as real);
    var digits := TrimZeros(rest);
    assert AllDigits(digits) by {
      assert AllDigits(rest);
    }
    var r := [whole[0]] + "." + digits + "E" + NatText(|whole| - 1);
    assert r[|[whole[0]] + "." + digits|] == 'E';
    r
  }

  /** A non-negative value in the notation Double.toString picks for its size. */
  function Magnitude(a: real): (r: string)
    requires a >= 0.0
    ensures |r| > 0 && IsDigit(r[0])
    ensures forall i :: 0 <= i < |r| ==> IsDigit(r[i]) || r[i] == '.' || r[i] == 'E'
    ensures 'E' in r <==> a >= ScientificFrom as real
  {
    if a < ScientificFrom as real then PlainMagnitude(a) else ScientificMagnitude(a)
  }

  lemma ZeroFraction()
    ensures TrimZeros(FractionDigits(0.0)) == "0"
  {
    var zeros := FractionDigits(0.0);
    assert forall i :: 0 <= i < |zeros| ==> zeros[i] == '0';
    TrimAllZeros(zeros);
  }

  lemma IntegerMagnitude(m: nat)
    ensures var w := NatText(m);
      Magnitude(m as real) ==
        if m < ScientificFrom then w + ".0"
        else [w[0]] + "." + TrimZeros(w[1..]) + "E" + NatText(|w| - 1)
  {
    var a := m as real;
    assert a.Floor == m;
    assert a - a.Floor as real == 0.0;
    if m < ScientificFrom {
      ZeroFraction();
    } else {
      var w := NatText(m);
      var zeros := FractionDigits(0.0);
      assert forall i :: 0 <= i < |zeros| ==> zeros[i] == '0';
      TrimZerosPad(w[1..], zeros);
    }
  }

  /**
   * The text of a literal's value: a sign for a negative value, then plain
   * decimal notation below 10^7 in magnitude and scientific notation from
   * there on.
   */
  function ValueText(v: real): (r: string)
    ensures |r| > 0 && r[0] != '\t' && '\n' !in r
    ensures 'E' in r <==> v >= ScientificFrom as real || v <= -(ScientificFrom as real)
  {
    if v < 0.0 then "-" + Magnitude(-v) else Magnitude(v)
  }

  /**
   * An integer value renders as Java's Double.toString does: below 10^7 in
   * magnitude its digits and ".0" (13.0), from there on its leading digit, the
   * other digits without trailing zeros, and "E" with the power of ten
   * (1.0E7, 1.2345678E7); a negative value is preceded by "-".
   */
  lemma IntegerValueText(n: int)
    ensures var m := if n < 0 then -n else n; var w := NatText(m);
      ValueText(n as real) ==
        (if n < 0 then "-" else "") +
        (if m < ScientificFrom then w + ".0"
         else [w[0]] + "." + TrimZeros(w[1..]) + "E" + NatText(|w| - 1))
  {
    var m: nat := if n < 0 then -n else n;
    IntegerMagnitude(m);
    if n < 0 {
      assert -(n as real) == m as real;
    } else {
      assert "" + Magnitude(m as real) == Magnitude(m as real);
    }
  }

  /** The token on a node's own line. */
  function Label(e: Expr): string {
    match e
    case Literal(v) => ValueText(v)
    case Variable => "x"
    case OneSided(_, s, _, _) => s
    case TwoSided(_, _, _, s, _, _) => s
  }

  /**
   * convertToString(indent): the node's own line, `indent` tabs, its token and
   * a newline, then the left child at indent + 1, then the right child at
   * indent + 1; a unary node has no right child to render.
   */
  function Render(e: Expr, indent: nat): string {
    match e
    case Literal(v) => Tabs(indent) + ValueText(v) + "\n"
    case Variable => Tabs(indent) + "x" + "\n"
    case OneSided(c, s, _, _) => Tabs(indent) + s + "\n" + Render(c, indent + 1)
    case TwoSided(_, l, r, s, _, _) =>
      Tabs(indent) + s + "\n" + Render(l, indent + 1) + Render(r, indent + 1)
  }

  /**
   * The Java convertToString methods: a loop appends the indent's tabs to an
   * accumulator, then the node's token and newline, then the children's text.
   */
  method ConvertToString(e: Expr, indentLevel: nat) returns (conv: string)
    ensures conv == Render(e, indentLevel)
    decreases e
  {
    conv := "";
    for i := 0 to indentLevel
      invariant conv == Tabs(i)
    {
      conv := conv + "\t";
    }
    match e {
      case Literal(v) =>
        conv := conv + ValueText(v) + "\n";
      case Variable =>
        conv := conv + "x" + "\n";
      case OneSided(c, s, _, _) =>
        conv := conv + s + "\n";
        var childText := ConvertToString(c, indentLevel + 1);
        conv := conv + childText;
      case TwoSided(_, l, r, s, _, _) =>
        conv := conv + s + "\n";
        var leftText := ConvertToString(l, indentLevel + 1);
        conv := conv + leftText;
        var rightText := ConvertToString(r, indentLevel + 1);
        conv := conv + rightText;
    }
  }

  /** The number of nodes of a tree. */
  function Size(e: Expr): nat {
    match e
    case Literal(_) => 1
    case Variable => 1
    case OneSided(c, _, _, _) => 1 + Size(c)
    case TwoSided(_, l, r, _, _, _) => 1 + Size(l) + Size(r)
  }

  /** One rendered line in the abstract: its depth below the root and its token. */
  datatype Line = Line(depth: nat, token: string)

  /**
   * The nodes of a tree in pre-order, left before right, each with its depth
   * below the root of the whole rendering, when the tree itself sits at depth d.
   */
  function Outline(e: Expr, d: nat): seq<Line> {
    match e
    case Literal(_) => [Line(d, Label(e))]
    case Variable => [Line(d, Label(e))]
    case OneSided(c, _, _, _) => [Line(d, Label(e))] + Outline(c, d + 1)
    case TwoSided(_, l, r, _, _, _) => [Line(d, Label(e))] + Outline(l, d + 1) + Outline(r, d + 1)
  }

  /** The text of a list of lines at a base indent. */
  function Layout(ls: seq<Line>, k: nat): string {
    if ls == [] then "" else Tabs(k + ls[0].depth) + ls[0].token + "\n" + Layout(ls[1..], k)
  }

  lemma {:induction false} OutlineSize(e: Expr, d: nat)
    ensures |Outline(e, d)| == Size(e)
    ensures Outline(e, d)[0] == Line(d, Label(e))
  {
    match e
    case Literal(_) =>
    case Variable =>
    case OneSided(c, _, _, _) => OutlineSize(c, d + 1);
    case TwoSided(_, l, r, _, _, _) => OutlineSize(l, d + 1); OutlineSize(r, d + 1);
  }

  lemma {:induction false} LayoutAppend(a: seq<Line>, b: seq<Line>, k: nat)
    ensures Layout(a + b, k) == Layout(a, k) + Layout(b, k)
  {
    if a != [] {
      assert (a + b)[0] == a[0] && (a + b)[1..] == a[1..] + b;
      assert Layout(a[1..] + b, k) == Layout(a[1..], k) + Layout(b, k) by { LayoutAppend(a[1..], b, k); }
      var h := Tabs(k + a[0].depth) + a[0].token + "\n";
      assert Layout(a + b, k) == h + Layout(a[1..] + b, k);
      assert Layout(a, k) == h + Layout(a[1..], k);
    } else {
      assert a + b == b;
    }
  }

  lemma LayoutSingle(line: Line, k: nat)
    ensures Layout([line], k) == Tabs(k + line.depth) + line.token + "\n"
  {
    assert [line][1..] == [];
  }

  /** The rendering at indent n = k + d is the layout at base k of the outline at depth d. */
  lemma {:induction false} RenderAtIsLayout(e: Expr, n: nat, k: nat, d: nat)
    requires n == k + d
    ensures Render(e, n) == Layout(Outline(e, d), k)
  {
    var head := [Line(d, Label(e))];
    assert Layout(head, k) == Tabs(n) + Label(e) + "\n" by { LayoutSingle(Line(d, Label(e)), k); }
    match e
    case Literal(_) =>
    case Variable =>
    case OneSided(c, _, _, _) =>
      RenderAtIsLayout(c, n + 1, k, d + 1);
      LayoutAppend(head, Outline(c, d + 1), k);
    case TwoSided(_, l, r, _, _, _) =>
      RenderAtIsLayout(l, n + 1, k, d + 1);
      RenderAtIsLayout(r, n + 1, k, d + 1);
      LayoutAppend(head + Outline(l, d + 1), Outline(r, d + 1), k);
      LayoutAppend(head, Outline(l, d + 1), k);
  }

  /** The rendering at indent k + d is the layout at base k of the outline at depth d. */
  lemma RenderIsLayout(e: Expr, k: nat, d: nat)
    ensures Render(e, k + d) == Layout(Outline(e, d), k)
  {
    RenderAtIsLayout(e, k + d, k, d);
  }

  /** A sign that can stand on a line of its own without changing its indent. */
  predicate SignFits(s: string) {
    '\n' !in s && (s == [] || s[0] != '\t')
  }

  /** Every sign of the tree fits on its line. */
  predicate WellSigned(e: Expr) {
    match e
    case Literal(_) => true
    case Variable => true
    case OneSided(c, s, _, _) => SignFits(s) && WellSigned(c)
    case TwoSided(_, l, r, s, _, _) => SignFits(s) && WellSigned(l) && WellSigned(r)
  }

  /** Every tree the parser's factories build has signs that fit on a line. */
  lemma {:induction false} FactoryWellSigned(e: Expr)
    requires FactoryBuilt(e)
    ensures WellSigned(e)
  {
    match e
    case Literal(_) =>
    case Variable =>
    case TwoSided(_, l, r, _, _, _) =>
      FactoryWellSigned(l);
      FactoryWellSigned(r);
  }

  lemma {:induction false} OutlineTokensFit(e: Expr, d: nat)
    requires WellSigned(e)
    ensures forall i :: 0 <= i < |Outline(e, d)| ==> SignFits(Outline(e, d)[i].token)
  {
    match e
    case Literal(_) =>
    case Variable =>
    case OneSided(c, _, _, _) =>
      OutlineTokensFit(c, d + 1);
    case TwoSided(_, l, r, _, _, _) =>
      OutlineTokensFit(l, d + 1);
      OutlineTokensFit(r, d + 1);
  }

  /** The index of the first newline of s, or |s| when there is none. */
  function NewlineAt(s: string): (i: nat)
    ensures i <= |s| && (i < |s| ==> s[i] == '\n') && '\n' !in s[..i]
  {
    if s == [] || s[0] == '\n' then 0
    else
      var i := 1 + NewlineAt(s[1..]);
      assert s[..i] == [s[0]] + s[1..][..i - 1];
      i
  }

  /** The lines of a text: the pieces between newlines, a final newline ending the last one. */
  function Lines(s: string): seq<string>
    decreases |s|
  {
    if s == [] then []
    else
      var i := NewlineAt(s);
      if i == |s| then [s] else [s[..i]] + Lines(s[i + 1..])
  }

  lemma {:induction false} NewlineAfter(line: string, rest: string)
    requires '\n' !in line
    ensures NewlineAt(line + "\n" + rest) == |line|
    decreases |line|
  {
    if line != [] {
      assert (line + "\n" + rest)[1..] == line[1..] + "\n" + rest;
      NewlineAfter(line[1..], rest);
    }
  }

  lemma LinesCons(line: string, rest: string)
    requires '\n' !in line
    ensures Lines(line + "\n" + rest) == [line] + Lines(rest)
  {
    var s := line + "\n" + rest;
    NewlineAfter(line, rest);
    assert s[..|line|] == line && s[|line| + 1..] == rest;
  }

  /** The texts of the lines of a layout at base indent k. */
  function LineTexts(ls: seq<Line>, k: nat): (r: seq<string>)
    ensures |r| == |ls|
    ensures forall i :: 0 <= i < |ls| ==> r[i] == Tabs(k + ls[i].depth) + ls[i].token
  {
    if ls == [] then [] else [Tabs(k + ls[0].depth) + ls[0].token] + LineTexts(ls[1..], k)
  }

  lemma {:induction false} LinesOfLayout(ls: seq<Line>, k: nat)
    requires forall i :: 0 <= i < |ls| ==> '\n' !in ls[i].token
    ensures Lines(Layout(ls, k)) == LineTexts(ls, k)
  {
    if ls != [] {
      var first := Tabs(k + ls[0].depth) + ls[0].token;
      assert '\n' !in first by {
        assert forall j :: 0 <= j < |Tabs(k + ls[0].depth)| ==> first[j] == '\t';
      }
      assert Layout(ls, k) == first + "\n" + Layout(ls[1..], k);
      LinesCons(first, Layout(ls[1..], k));
      LinesOfLayout(ls[1..], k);
      assert LineTexts(ls, k) == [first] + LineTexts(ls[1..], k);
    }
  }

  lemma LinesOfRender(e: Expr, k: nat)
    requires WellSigned(e)
    ensures Lines(Render(e, k)) == LineTexts(Outline(e, 0), k)
  {
    RenderIsLayout(e, k, 0);
    OutlineTokensFit(e, 0);
    LinesOfLayout(Outline(e, 0), k);
  }

  /**
   * convertToString(k) produces one line per node, in pre-order; each line is
   * k tabs, one more tab per level below the root, and the node's token; the
   * first line is k tabs and the root's token; the text ends with a newline.
   */
  lemma RenderLines(e: Expr, k: nat)
    requires WellSigned(e)
    ensures var lines := Lines(Render(e, k));
            |lines| == |Outline(e, 0)| == Size(e) && lines[0] == Tabs(k) + Label(e) &&
            (forall i :: 0 <= i < |lines| ==>
               lines[i] == Tabs(k + Outline(e, 0)[i].depth) + Outline(e, 0)[i].token)
    ensures Render(e, k)[|Render(e, k)| - 1] == '\n'
  {
    LinesOfRender(e, k);
    OutlineSize(e, 0);
    RenderEndsWithNewline(e, k);
  }

  lemma RenderEndsWithNewline(e: Expr, k: nat)
    ensures |Render(e, k)| > 0 && Render(e, k)[|Render(e, k)| - 1] == '\n'
  {
    RenderIsLayout(e, k, 0);
    LayoutEndsWithNewline(Outline(e, 0), k);
  }

  lemma {:induction false} LayoutEndsWithNewline(ls: seq<Line>, k: nat)
    requires ls != []
    ensures |Layout(ls, k)| > 0 && Layout(ls, k)[|Layout(ls, k)| - 1] == '\n'
  {
    if |ls| > 1 {
      LayoutEndsWithNewline(ls[1..], k);
    }
  }

  /** Every line of convertToString(k) starts with k tabs, and the first has exactly k. */
  lemma RenderIndent(e: Expr, k: nat)
    requires WellSigned(e)
    ensures var lines := Lines(Render(e, k));
            (forall i :: 0 <= i < |lines| ==> |lines[i]| >= k && lines[i][..k] == Tabs(k)) &&
            (|lines[0]| == k || lines[0][k] != '\t')
  {
    RenderLines(e, k);
    var lines := Lines(Render(e, k));
    var ls := Outline(e, 0);
    forall i | 0 <= i < |lines|
      ensures |lines[i]| >= k && lines[i][..k] == Tabs(k)
    {
      LinePrefix(k, ls[i].depth, ls[i].token);
    }
    assert SignFits(Label(e)) by {
      OutlineSize(e, 0);
      OutlineTokensFit(e, 0);
      assert ls[0].token == Label(e);
    }
    ExactIndent(k, Label(e));
  }

  /** A line at depth d below base indent k starts with k tabs. */
  lemma LinePrefix(k: nat, d: nat, token: string)
    ensures |Tabs(k + d) + token| >= k && (Tabs(k + d) + token)[..k] == Tabs(k)
  {
    TabsSplit(k, d);
    assert Tabs(k + d) + token == Tabs(k) + (Tabs(d) + token);
  }

  /** A token that does not start with a tab leaves exactly k tabs in front of it. */
  lemma ExactIndent(k: nat, token: string)
    requires SignFits(token)
    ensures |Tabs(k) + token| == k || (Tabs(k) + token)[k] != '\t'
  {
    if token != [] {
      assert (Tabs(k) + token)[k] == token[0];
    }
  }

  lemma {:induction false} TabsSplit(k: nat, d: nat)
    ensures Tabs(k + d) == Tabs(k) + Tabs(d)
  {
  }

  lemma LineTextsShift(ls: seq<Line>, k: nat)
    ensures forall i :: 0 <= i < |ls| ==> LineTexts(ls, k + 1)[i] == "\t" + LineTexts(ls, k)[i]
  {
    forall i | 0 <= i < |ls|
      ensures LineTexts(ls, k + 1)[i] == "\t" + LineTexts(ls, k)[i]
    {
      var n := k + ls[i].depth;
      assert k + 1 + ls[i].depth == n + 1;
      TabShift(n, ls[i].token);
    }
  }

  /** One more tab in front of a line. */
  lemma TabShift(n: nat, token: string)
    ensures Tabs(n + 1) + token == "\t" + (Tabs(n) + token)
  {
    assert Tabs(n + 1) == "\t" + Tabs(n);
  }

  /** Rendering one level deeper puts one more tab in front of every line. */
  lemma RenderShift(e: Expr, k: nat)
    requires WellSigned(e)
    ensures var shallow := Lines(Render(e, k));
            var deep := Lines(Render(e, k + 1));
            |deep| == |shallow| && forall i :: 0 <= i < |deep| ==> deep[i] == "\t" + shallow[i]
  {
    LinesOfRender(e, k);
    LinesOfRender(e, k + 1);
    LineTextsShift(Outline(e, 0), k);
  }

  /** The copy as written renders exactly like the original, at every indent. */
  lemma {:induction false} DeepCopyAsWrittenRenders(e: Expr, k: nat)
    ensures Render(DeepCopyAsWritten(e), k) == Render(e, k)
  {
    match e
    case Literal(_) =>
    case Variable =>
    case OneSided(c, _, _, _) => DeepCopyAsWrittenRenders(c, k + 1);
    case TwoSided(_, l, r, _, _, _) =>
      DeepCopyAsWrittenRenders(l, k + 1);
      DeepCopyAsWrittenRenders(r, k + 1);
  }
}
