/**
 * The decimal floating-point literals parseLiteralExpression accepts:
 * an optional sign, then either `Digits [.] [Digits] [Exponent]` or
 * `. Digits [Exponent]`, where an exponent is `e` or `E`, an optional sign
 * and digits. A literal is taken apart into a FloatText; Spell puts it back
 * together and Recognise is the scanner that takes a string apart.
 */
module Literals {
  import opened Wrappers
  import opened Numerals

  datatype Sign = NoSign | PlusSign | MinusSign

  datatype Exponent = Exponent(marker: char, sign: Sign, digits: string)

  /**
   * The pieces of a decimal literal. Without a dot there is no fraction
   * part: digits after the whole part would belong to it.
   */
  datatype FloatText = FloatText(sign: Sign, whole: string, dot: bool, fraction: string,
                                 exponent: Option<Exponent>)

  predicate ValidExponent(x: Exponent) {
    (x.marker == 'e' || x.marker == 'E') && |x.digits| > 0 && AllDigits(x.digits)
  }

  /** The two decimal alternatives of the literal grammar. */
  predicate Valid(ft: FloatText) {
    AllDigits(ft.whole) && AllDigits(ft.fraction) &&
    (!ft.dot ==> ft.fraction == []) &&
    (|ft.whole| > 0 || (ft.dot && |ft.fraction| > 0)) &&
    (ft.exponent.Some? ==> ValidExponent(ft.exponent.value))
  }

  function SignText(sg: Sign): string {
    match sg
    case NoSign => ""
    case PlusSign => "+"
    case MinusSign => "-"
  }

  function ExponentText(x: Exponent): string {
    [x.marker] + SignText(x.sign) + x.digits
  }

  function SpellExponent(e: Option<Exponent>): string {
    match e case None => "" case Some(x) => ExponentText(x)
  }

  /** The text of a literal, piece by piece. */
  function Spell(ft: FloatText): string {
    SignText(ft.sign) + ft.whole + (if ft.dot then "." else "") + ft.fraction + SpellExponent(ft.exponent)
  }

  /** The sign at the front of s, if any. */
  function ScanSign(s: string): (sg: Sign)
    ensures |SignText(sg)| <= |s| && s[..|SignText(sg)|] == SignText(sg)
  {
    if |s| > 0 && s[0] == '+' then PlusSign
    else if |s| > 0 && s[0] == '-' then MinusSign
    else NoSign
  }

  /** The length of the longest run of digits at the front of s. */
  function DigitRun(s: string): (n: nat)
    ensures n <= |s| && AllDigits(s[..n])
    ensures n < |s| ==> !IsDigit(s[n])
  {
    if |s| > 0 && IsDigit(s[0]) then 1 + DigitRun(s[1..]) else 0
  }

  /** The exponent part spelled by all of s, if s is one. */
  function RecogniseExponent(s: string): (r: Option<Exponent>)
    ensures r.Some? ==> ValidExponent(r.value) && ExponentText(r.value) == s
  {
    if |s| == 0 || (s[0] != 'e' && s[0] != 'E') then None
    else
      var sign := ScanSign(s[1..]);
      var t := s[1 + |SignText(sign)|..];
      if 0 < DigitRun(t) == |t| then
        assert t[..|t|] == t;
        assert s == [s[0]] + SignText(sign) + t;
        Some(Exponent(s[0], sign, t))
      else None
  }

  /** The pieces of s, if s is a decimal literal. */
  function Recognise(s: string): (r: Option<FloatText>)
    ensures r.Some? ==> Valid(r.value) && Spell(r.value) == s
  {
    var sign := ScanSign(s);
    assert s == SignText(sign) + s[|SignText(sign)|..];
    RecogniseAfterSign(sign, s[|SignText(sign)|..])
  }

  function RecogniseAfterSign(sign: Sign, t: string): (r: Option<FloatText>)
    ensures r.Some? ==> Valid(r.value) && Spell(r.value) == SignText(sign) + t
  {
    var w := DigitRun(t);
    assert t == t[..w] + t[w..];
    RecogniseAfterWhole(sign, t[..w], t[w..])
  }

  function RecogniseAfterWhole(sign: Sign, whole: string, u: string): (r: Option<FloatText>)
    requires AllDigits(whole)
    ensures r.Some? ==> Valid(r.value) && Spell(r.value) == SignText(sign) + whole + u
  {
    var prefix := SignText(sign) + whole;
    if |u| > 0 && u[0] == '.' then
      assert prefix + "." + u[1..] == prefix + u by {
        assert u == "." + u[1..];
      }
      RecogniseAfterDot(sign, whole, u[1..])
    else
      assert prefix + "" + "" + u == prefix + u;
      RecogniseTail(sign, whole, false, "", u)
  }

  function RecogniseAfterDot(sign: Sign, whole: string, v: string): (r: Option<FloatText>)
    requires AllDigits(whole)
    ensures r.Some? ==> Valid(r.value) && Spell(r.value) == SignText(sign) + whole + "." + v
  {
    var f := DigitRun(v);
    assert v == v[..f] + v[f..];
    RecogniseTail(sign, whole, true, v[..f], v[f..])
  }

  /** After the mantissa: nothing, or an exponent that takes up the rest. */
  function RecogniseTail(sign: Sign, whole: string, dot: bool, fraction: string, rest: string)
    : (r: Option<FloatText>)
    requires AllDigits(whole) && AllDigits(fraction) && (!dot ==> fraction == [])
    ensures r.Some? ==> Valid(r.value) &&
                        Spell(r.value) == SignText(sign) + whole + (if dot then "." else "") + fraction + rest
  {
    if |whole| == 0 && |fraction| == 0 then None
    else if rest == [] then Some(FloatText(sign, whole, dot, fraction, None))
    else
      match RecogniseExponent(rest)
      case None => None
      case Some(x) => Some(FloatText(sign, whole, dot, fraction, Some(x)))
  }

  /** v times 10^k, one factor of ten at a time. */
  function Shift(v: real, k: nat): real {
    if k == 0 then v else Shift(v, k - 1) * 10.0
  }

  /** v divided by 10^k, one factor of ten at a time. */
  function Unshift(v: real, k: nat): real {
    if k == 0 then v else Unshift(v, k - 1) / 10.0
  }

  /** The digits of a literal read as whole part "." fraction. */
  function Mantissa(ft: FloatText): real
    requires Valid(ft)
  {
    DigitsValue(ft.whole) as real + Unshift(DigitsValue(ft.fraction) as real, |ft.fraction|)
  }

  /** The exact value a literal denotes (Double.parseDouble without rounding). */
  function FloatValue(ft: FloatText): real
    requires Valid(ft)
  {
    var signed := if ft.sign == MinusSign then -Mantissa(ft) else Mantissa(ft);
    match ft.exponent
    case None => signed
    case Some(x) =>
      if x.sign == MinusSign then Unshift(signed, DigitsValue(x.digits))
      else Shift(signed, DigitsValue(x.digits))
  }

  lemma {:induction false} ShiftAdd(a: real, b: real, k: nat)
    ensures Shift(a + b, k) == Shift(a, k) + Shift(b, k)
    ensures Shift(-a, k) == -Shift(a, k)
  {
    if k > 0 {
      ShiftAdd(a, b, k - 1);
    }
  }

  lemma {:induction false} ShiftShift(v: real, i: nat, j: nat)
    ensures Shift(Shift(v, i), j) == Shift(v, i + j)
  {
    if j > 0 {
      ShiftShift(v, i, j - 1);
    }
  }

  lemma {:induction false} ShiftTenth(u: real, k: nat)
    ensures Shift(u / 10.0, k) == Shift(u, k) / 10.0
  {
    if k > 0 {
      ShiftTenth(u, k - 1);
    }
  }

  /** Shifting undoes unshifting. */
  lemma {:induction false} ShiftUnshift(v: real, k: nat)
    ensures Shift(Unshift(v, k), k) == v
  {
    if k > 0 {
      var u := Unshift(v, k - 1);
      calc {
        Shift(u / 10.0, k);
        { ShiftTenth(u, k); }
        Shift(u, k) / 10.0;
        Shift(u, k - 1) * 10.0 / 10.0;
        { ShiftUnshift(v, k - 1); }
        v;
      }
    }
  }

  lemma ScanSignText(sg: Sign, t: string)
    requires t == [] || (t[0] != '+' && t[0] != '-')
    ensures ScanSign(SignText(sg) + t) == sg
    ensures (SignText(sg) + t)[|SignText(sg)|..] == t
  {
  }

  lemma {:induction false} DigitRunOf(d: string, t: string)
    requires AllDigits(d) && (t == [] || !IsDigit(t[0]))
    ensures DigitRun(d + t) == |d|
  {
    if |d| > 0 {
      assert (d + t)[1..] == d[1..] + t;
      DigitRunOf(d[1..], t);
    }
  }

  lemma RecogniseExponentText(x: Exponent)
    requires ValidExponent(x)
    ensures RecogniseExponent(ExponentText(x)) == Some(x)
  {
    var s := ExponentText(x);
    assert s[1..] == SignText(x.sign) + x.digits;
    assert IsDigit(x.digits[0]);
    ScanSignText(x.sign, x.digits);
    DigitRunOf(x.digits, "");
    assert x.digits + "" == x.digits;
  }

  lemma RecogniseTailOf(ft: FloatText)
    requires Valid(ft)
    ensures RecogniseTail(ft.sign, ft.whole, ft.dot, ft.fraction, SpellExponent(ft.exponent)) == Some(ft)
  {
    match ft.exponent
    case None =>
    case Some(x) => RecogniseExponentText(x);
  }

  lemma RecogniseAfterDotOf(sign: Sign, whole: string, fraction: string, e: string)
    requires AllDigits(whole) && AllDigits(fraction) && (e == [] || !IsDigit(e[0]))
    ensures RecogniseAfterDot(sign, whole, fraction + e) == RecogniseTail(sign, whole, true, fraction, e)
  {
    DigitRunOf(fraction, e);
    assert (fraction + e)[..|fraction|] == fraction;
    assert (fraction + e)[|fraction|..] == e;
  }

  lemma RecogniseAfterWholeOf(ft: FloatText)
    requires Valid(ft)
    ensures var e := SpellExponent(ft.exponent);
            RecogniseAfterWhole(ft.sign, ft.whole, (if ft.dot then "." else "") + ft.fraction + e)
            == RecogniseTail(ft.sign, ft.whole, ft.dot, ft.fraction, e)
  {
    var e := SpellExponent(ft.exponent);
    assert e == [] || e[0] == 'e' || e[0] == 'E';
    if ft.dot {
      assert ("." + ft.fraction + e)[1..] == ft.fraction + e;
      RecogniseAfterDotOf(ft.sign, ft.whole, ft.fraction, e);
    } else {
      assert "" + ft.fraction + e == e;
    }
  }

  /** The text of every valid literal is recognised as that literal. */
  /** After the digits of the whole part, a literal's text goes on with its dot or its exponent. */
  lemma AfterWholeStart(ft: FloatText)
    requires Valid(ft)
    ensures var u := (if ft.dot then "." else "") + ft.fraction + SpellExponent(ft.exponent);
            u == [] || u[0] == '.' || u[0] == 'e' || u[0] == 'E'
  {
    var e := SpellExponent(ft.exponent);
    assert e == [] || e[0] == 'e' || e[0] == 'E';
  }

  /** A run of digits followed by a non-digit splits at the end of the run. */
  lemma RecogniseDigitsThen(sign: Sign, d: string, u: string)
    requires AllDigits(d) && (u == [] || u[0] == '.' || u[0] == 'e' || u[0] == 'E')
    ensures var t := d + u; t == [] || (t[0] != '+' && t[0] != '-')
    ensures RecogniseAfterSign(sign, d + u) == RecogniseAfterWhole(sign, d, u)
  {
    var t := d + u;
    if |d| > 0 {
      assert t[0] == d[0] && IsDigit(t[0]);
    } else {
      assert t == u;
    }
    DigitRunOf(d, u);
    assert t[..|d|] == d && t[|d|..] == u;
  }

  /** Past the sign, the text of a valid literal is recognised as that literal. */
  lemma RecogniseUnsigned(ft: FloatText, u: string)
    requires Valid(ft)
    requires u == (if ft.dot then "." else "") + ft.fraction + SpellExponent(ft.exponent)
    ensures var t := ft.whole + u; t == [] || (t[0] != '+' && t[0] != '-')
    ensures RecogniseAfterSign(ft.sign, ft.whole + u) == Some(ft)
  {
    AfterWholeStart(ft);
    RecogniseDigitsThen(ft.sign, ft.whole, u);
    RecogniseAfterWholeOf(ft);
    RecogniseTailOf(ft);
  }

  lemma SplitSign(a: string, b: string, c: string, d: string, e: string)
    ensures a + b + c + d + e == a + (b + (c + d + e))
  {
  }

  lemma RecogniseSpell(ft: FloatText)
    requires Valid(ft)
    ensures Recognise(Spell(ft)) == Some(ft)
  {
    var u := (if ft.dot then "." else "") + ft.fraction + SpellExponent(ft.exponent);
    var t := ft.whole + u;
    assert Spell(ft) == SignText(ft.sign) + t by {
      SplitSign(SignText(ft.sign), ft.whole, if ft.dot then "." else "", ft.fraction, SpellExponent(ft.exponent));
    }
    RecogniseUnsigned(ft, u);
    ScanSignText(ft.sign, t);
  }

  /** A string is recognised exactly when it is the text of a valid literal. */
  lemma RecogniseIff(s: string)
    ensures Recognise(s).Some? <==> exists ft :: Valid(ft) && Spell(ft) == s
  {
    if exists ft :: Valid(ft) && Spell(ft) == s {
      var ft :| Valid(ft) && Spell(ft) == s;
      RecogniseSpell(ft);
    }
  }
}
