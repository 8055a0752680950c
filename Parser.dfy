/**
 * The pieces of SimpleExpressionParser around the grammar: removing spaces,
 * turning "no tree" into a parse error, and recognising the two kinds of
 * token, both as the code stands (construction still marked TODO) and as
 * its comments say it is meant to be completed.
 */
module Parser {
  import opened Wrappers
  import opened Numerals
  import opened Expressions
  import opened Literals
  import opened Rendering

  datatype ParseError = ParseError(message: string)

  /** str.replaceAll(" ", ""): removes every ' ' and nothing else, keeping the order. */
  function Strip(s: string): (r: string)
    ensures ' ' !in r
  {
    if s == [] then [] else (if s[0] == ' ' then [] else [s[0]]) + Strip(s[1..])
  }

  /** Strip keeps every other character as often as it occurs, and drops all spaces. */
  lemma {:induction false} StripCounts(s: string)
    ensures forall c :: c != ' ' ==> multiset(Strip(s))[c] == multiset(s)[c]
    ensures |Strip(s)| == |s| - multiset(s)[' ']
  {
    if s != [] {
      StripCounts(s[1..]);
      assert s == [s[0]] + s[1..];
      assert multiset(s) == multiset{s[0]} + multiset(s[1..]);
      var h := if s[0] == ' ' then [] else [s[0]];
      assert multiset(Strip(s)) == multiset(h) + multiset(Strip(s[1..]));
    }
  }

  /** Removing spaces piecewise is removing them from the whole. */
  lemma {:induction false} StripAppend(a: string, b: string)
    ensures Strip(a + b) == Strip(a) + Strip(b)
  {
    if a != [] {
      assert (a + b)[0] == a[0] && (a + b)[1..] == a[1..] + b;
      StripAppend(a[1..], b);
      var h := if a[0] == ' ' then [] else [a[0]];
      assert Strip(a + b) == h + Strip(a[1..] + b);
      assert Strip(a) == h + Strip(a[1..]);
      assert h + (Strip(a[1..]) + Strip(b)) == (h + Strip(a[1..])) + Strip(b);
    } else {
      assert a + b == b;
    }
  }

  /** A string without spaces is left as it is. */
  lemma {:induction false} StripWithoutSpaces(s: string)
    requires ' ' !in s
    ensures Strip(s) == s
  {
    if s != [] {
      assert s[0] != ' ' && ' ' !in s[1..];
      StripWithoutSpaces(s[1..]);
    }
  }

  /** Stripping twice is stripping once. */
  lemma StripIdempotent(s: string)
    ensures Strip(Strip(s)) == Strip(s)
  {
    StripWithoutSpaces(Strip(s));
  }

  /** The error parse reports for the stripped input str. */
  function CannotParse(str: string): ParseError {
    ParseError("Cannot parse expression: " + str)
  }

  /** The last step of parse: a missing tree becomes the exception. */
  function Finish(str: string, o: Option<Expr>): (r: Result<Expr, ParseError>)
    ensures r.Failure? <==> o.None?
    ensures r.Success? ==> Some(r.value) == o
    ensures r.Failure? ==> r.error == CannotParse(str)
  {
    match o
    case None => Failure(CannotParse(str))
    case Some(e) => Success(e)
  }

  /** parseAdditiveExpression as written: a stub that finds no tree. */
  function ParseAdditiveStub(str: string): (r: Option<Expr>)
    ensures r == None
  {
    None
  }

  /** parse as written: every input, once stripped, is reported unparseable. */
  function Parse(s: string): (r: Result<Expr, ParseError>)
    ensures r == Failure(CannotParse(Strip(s)))
  {
    var str := Strip(s);
    Finish(str, ParseAdditiveStub(str))
  }

  /** parseVariableExpression as written: the construction is a TODO, so no tree. */
  function ParseVariableAsWritten(str: string): (r: Option<Expr>)
    ensures r == None
  {
    if str == "x" then None else None
  }

  /** parseVariableExpression completed as its TODO says: exactly "x" is the variable. */
  function ParseVariable(str: string): (r: Option<Expr>)
    ensures r.Some? <==> str == "x"
    ensures r.Some? ==> r.value == Variable
  {
    if str == "x" then Some(Variable) else None
  }

  /** parseLiteralExpression as written: both branches give no tree. */
  function ParseLiteralAsWritten(str: string): (r: Option<Expr>)
    ensures r == None
  {
    if Recognise(str).Some? then None else None
  }

  /**
   * parseLiteralExpression completed as its TODO says: a decimal literal
   * becomes a leaf holding the value it denotes.
   */
  function ParseLiteral(str: string): (r: Option<Expr>)
    ensures r.Some? ==> r.value.Literal?
  {
    match Recognise(str)
    case None => None
    case Some(ft) => Some(Literal(FloatValue(ft)))
  }

  /** parseLiteralExpression accepts exactly the texts of valid decimal literals. */
  lemma ParseLiteralAccepts(str: string)
    ensures ParseLiteral(str).Some? <==> exists ft :: Valid(ft) && Spell(ft) == str
  {
    RecogniseIff(str);
  }

  /** The text of every valid literal parses to a leaf with the literal's value. */
  lemma ParseLiteralSpell(ft: FloatText, str: string)
    requires Valid(ft) && Spell(ft) == str
    ensures ParseLiteral(str) == Some(Literal(FloatValue(ft)))
  {
    RecogniseSpell(ft);
  }

  /** A string that starts with anything but a sign, a digit or a dot is no literal. */
  lemma NotLiteral(str: string)
    requires |str| > 0 && str[0] != '+' && str[0] != '-' && str[0] != '.' && !IsDigit(str[0])
    ensures ParseLiteral(str) == None
  {
  }

  /**
   * Digits followed by anything that can neither continue a number nor start
   * an exponent (an operator, a parenthesis, the variable) are no literal.
   */
  lemma DigitsThenOther(str: string, d: string, rest: string)
    requires str == d + rest && |d| > 0 && AllDigits(d)
    requires |rest| > 0 && !IsDigit(rest[0]) && rest[0] != '.' && rest[0] != 'e' && rest[0] != 'E'
    ensures ParseLiteral(str) == None
  {
    assert str[0] == d[0];
    ScanSignText(NoSign, str);
    assert SignText(NoSign) + str == str;
    DigitRunOf(d, rest);
    assert str[..|d|] == d && str[|d|..] == rest;
  }

  lemma WholeNumberText(d: string)
    requires |d| > 0 && AllDigits(d)
    ensures var ft := FloatText(NoSign, d, false, "", None);
            Valid(ft) && Spell(ft) == d && FloatValue(ft) == DigitsValue(d) as real
  {
    var ft := FloatText(NoSign, d, false, "", None);
    assert Spell(ft) == d by {
      assert Spell(ft) == "" + d + "" + "" + "";
    }
    assert FloatValue(ft) == DigitsValue(d) as real by {
      assert DigitsValue("") == 0;
    }
  }

  /** A run of digits parses to the number it spells. */
  lemma DigitsLiteral(d: string)
    requires |d| > 0 && AllDigits(d)
    ensures ParseLiteral(d) == Some(Literal(DigitsValue(d) as real))
  {
    WholeNumberText(d);
    ParseLiteralSpell(FloatText(NoSign, d, false, "", None), d);
  }

  /** The value of a digit string split in two: the first part shifted past the second. */
  lemma {:induction false} DigitsAppend(a: string, b: string)
    requires AllDigits(a) && AllDigits(b)
    ensures AllDigits(a + b)
    ensures DigitsValue(a + b) as real == Shift(DigitsValue(a) as real, |b|) + DigitsValue(b) as real
    decreases |b|
  {
    assert AllDigits(a + b);
    if b == [] {
      assert a + b == a;
    } else {
      var b' := b[..|b| - 1];
      var c := a + b;
      assert c[..|c| - 1] == a + b' && c[|c| - 1] == b[|b| - 1];
      DigitsAppend(a, b');
    }
  }

  /** Trailing zeros shift the value of what is left. */
  lemma {:induction false} TrimZerosValue(s: string)
    requires |s| > 0 && AllDigits(s)
    ensures AllDigits(TrimZeros(s))
    ensures DigitsValue(s) as real == Shift(DigitsValue(TrimZeros(s)) as real, |s| - |TrimZeros(s)|)
    decreases |s|
  {
    assert AllDigits(TrimZeros(s)) by {
      assert TrimZeros(s) <= s;
    }
    if |s| > 1 && s[|s| - 1] == '0' {
      TrimZerosValue(s[..|s| - 1]);
    }
  }

  /** Ten million and more have at least two digits. */
  lemma LongSpelling(m: nat)
    requires m >= ScientificFrom
    ensures |NatText(m)| >= 2
  {
  }

  /**
   * The pieces of the text Double.toString gives an integer n whose magnitude
   * is m: "n.0" below 10^7, and from there on the leading digit, the other
   * digits without trailing zeros and an "E" exponent.
   */
  function IntegerLiteral(n: int, m: nat): FloatText {
    var sign := if n < 0 then MinusSign else NoSign;
    var w := NatText(m);
    if m < ScientificFrom then FloatText(sign, w, true, "0", None)
    else
      LongSpelling(m);
      FloatText(sign, [w[0]], true, TrimZeros(w[1..]), Some(Exponent('E', NoSign, NatText(|w| - 1))))
  }

  lemma IntegerSpell(n: int, m: nat)
    requires m == if n < 0 then -n else n
    ensures Valid(IntegerLiteral(n, m)) && Spell(IntegerLiteral(n, m)) == ValueText(n as real)
  {
    IntegerLiteralValid(n, m);
    var sign := if n < 0 then "-" else "";
    assert SignText(IntegerLiteral(n, m).sign) == sign;
    if m < ScientificFrom {
      PlainSpell(n, m, sign);
    } else {
      ScientificSpell(n, m, sign);
    }
  }

  lemma PlainSpell(n: int, m: nat, sign: string)
    requires m == (if n < 0 then -n else n) && m < ScientificFrom
    requires SignText(IntegerLiteral(n, m).sign) == sign == if n < 0 then "-" else ""
    ensures Spell(IntegerLiteral(n, m)) == ValueText(n as real)
  {
    var w := NatText(m);
    assert ValueText(n as real) == sign + (w + ".0") by {
      IntegerValueText(n);
    }
    assert Spell(IntegerLiteral(n, m)) == sign + w + "." + "0" + "";
    assert sign + w + "." + "0" + "" == sign + (w + ".0");
  }

  lemma ScientificSpell(n: int, m: nat, sign: string)
    requires m == (if n < 0 then -n else n) && m >= ScientificFrom
    requires SignText(IntegerLiteral(n, m).sign) == sign == if n < 0 then "-" else ""
    ensures Spell(IntegerLiteral(n, m)) == ValueText(n as real)
  {
    var w := NatText(m);
    LongSpelling(m);
    var f := TrimZeros(w[1..]);
    var x := NatText(|w| - 1);
    var text := [w[0]] + "." + f + "E" + x;
    assert Spell(IntegerLiteral(n, m)) == sign + text by {
      var ft := IntegerLiteral(n, m);
      assert ft == FloatText(ft.sign, [w[0]], true, f, Some(Exponent('E', NoSign, x)));
      SpellScientific(ft.sign, w[0], f, x);
    }
    assert ValueText(n as real) == sign + text by {
      IntegerValueText(n);
    }
  }

  /** The pieces of a literal in scientific notation spell it out in order. */
  lemma SpellScientific(sg: Sign, d: char, f: string, x: string)
    ensures Spell(FloatText(sg, [d], true, f, Some(Exponent('E', NoSign, x))))
            == SignText(sg) + ([d] + "." + f + "E" + x)
  {
    assert ExponentText(Exponent('E', NoSign, x)) == "E" + x;
    Regroup(SignText(sg), [d], ".", f, "E", x);
  }

  lemma Regroup(a: string, b: string, c: string, d: string, e: string, g: string)
    ensures a + b + c + d + (e + g) == a + (b + c + d + e + g)
  {
  }

  lemma IntegerLiteralValid(n: int, m: nat)
    ensures Valid(IntegerLiteral(n, m))
  {
    if m >= ScientificFrom {
      var w := NatText(m);
      LongSpelling(m);
      assert AllDigits(TrimZeros(w[1..])) by {
        assert TrimZeros(w[1..]) <= w[1..];
      }
    }
  }

  /** A spelling w: its leading digit shifted past the rest, of which only f is not zero. */
  lemma LeadingDigitValue(w: string, f: string)
    requires Canonical(w) && |w| >= 2 && f == TrimZeros(w[1..])
    ensures AllDigits(f) && |f| <= |w| - 1
    ensures DigitsValue(w) as real ==
            Shift(DigitsValue([w[0]]) as real, |w| - 1) + Shift(DigitsValue(f) as real, |w| - 1 - |f|)
  {
    var t := w[1..];
    assert DigitsValue(w) as real == Shift(DigitsValue([w[0]]) as real, |t|) + DigitsValue(t) as real by {
      assert w == [w[0]] + t;
      DigitsAppend([w[0]], t);
    }
    assert AllDigits(f) && DigitsValue(t) as real == Shift(DigitsValue(f) as real, |t| - |f|) by {
      TrimZerosValue(t);
    }
  }

  /** The mantissa d.f shifted by the length of the digits after d, as a sum of shifts. */
  lemma MantissaShift(d: real, fv: real, len: nat, L: nat)
    requires len <= L
    ensures Shift(d + Unshift(fv, len), L) == Shift(d, L) + Shift(fv, L - len)
  {
    ShiftAdd(d, Unshift(fv, len), L);
    ShiftShift(Unshift(fv, len), len, L - len);
    ShiftUnshift(fv, len);
  }

  lemma ScientificValue(n: int, m: nat)
    requires m == (if n < 0 then -n else n) && m >= ScientificFrom
    ensures Valid(IntegerLiteral(n, m)) && FloatValue(IntegerLiteral(n, m)) == n as real
  {
    IntegerLiteralValid(n, m);
    LongSpelling(m);
    var w := NatText(m);
    var f := TrimZeros(w[1..]);
    var L := |w| - 1;
    var ft := IntegerLiteral(n, m);
    assert ft.whole == [w[0]] && ft.fraction == f;
    assert Shift(Mantissa(ft), L) == m as real by {
      LeadingDigitValue(w, f);
      DigitsValueOfNatText(m);
      MantissaShift(DigitsValue([w[0]]) as real, DigitsValue(f) as real, |f|, L);
    }
    DigitsValueOfNatText(L);
    ShiftAdd(Mantissa(ft), 0.0, L);
  }

  lemma IntegerValue(n: int, m: nat)
    requires m == if n < 0 then -n else n
    ensures Valid(IntegerLiteral(n, m)) && FloatValue(IntegerLiteral(n, m)) == n as real
  {
    if m < ScientificFrom {
      DigitsValueOfNatText(m);
      assert DigitsValue("0") == 0 && Unshift(0.0, 1) == 0.0;
    } else {
      ScientificValue(n, m);
    }
  }

  /**
   * The text a literal leaf with an integer value renders as ("13.0",
   * "-4.0", "1.0E7") parses back to a leaf with that value.
   */
  lemma IntegerTextRoundTrip(n: int)
    ensures ParseLiteral(ValueText(n as real)) == Some(Literal(n as real))
  {
    var m: nat := if n < 0 then -n else n;
    IntegerSpell(n, m);
    IntegerValue(n, m);
    ParseLiteralSpell(IntegerLiteral(n, m), ValueText(n as real));
  }
}
