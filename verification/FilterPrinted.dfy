/** What a literal looks like when it is printed: a number rounded to the nearest
    six significant digits, in the shortest plain or exponent form, and a string
    as it is but for quotes and backslashes. */
module FilterPrinted {
  import opened Text
  import opened FilterNumber
  import opened FilterAst
  import opened FilterLexer
  import opened FilterPrinter
  import opened FilterTokens
  import opened FilterSpelling

  // ----- rounding ----------------------------------------------------------

  /** `r` is the nearest to n / unit, the even one of two. */
  predicate Nearest(n: nat, unit: nat, r: nat) {
    && -(unit as int) <= 2 * (n - r * unit) <= unit
    && (Abs(2 * (n - r * unit)) == unit ==> r % 2 == 0)
  }

  lemma RoundDivideIsNearest(n: nat, unit: nat)
    requires unit > 0
    ensures Nearest(n, unit, RoundDivide(n, unit))
  {
    var q, m := n / unit, n % unit;
    DivisionSplits(n, unit);
    if RoundUp(q, m, unit) {
      assert n - (q + 1) * unit == m - unit;
    } else {
      assert n - q * unit == m;
    }
  }

  lemma DivisionSplits(n: nat, unit: nat)
    requires unit > 0
    ensures n == (n / unit) * unit + n % unit && (n / unit + 1) * unit == (n / unit) * unit + unit
  {
  }

  lemma RoundSixIsNearest(n: nat, k: nat) returns (r: nat)
    requires k >= 1 && |NatText(n)| == 6 + k
    ensures r > 0 && Nearest(n, Pow10(k), r) && Worth(RoundSix(n), r, k) && RoundSix(n).mantissa >= 0
  {
    hide NatText, Pow10, Normalize, Nearest, Worth;
    r := RoundAt(n, k);
    RoundDivideIsNearest(n, Pow10(k));
    RoundAtRange(n, k);
    NormalizeIsWorth(r, k);
  }

  /** A number that is not an integer is printed as its nearest value of six
      significant digits, the even one of two, and as it is if it has no more. */
  lemma PrintedIsNearest(d: Decimal)
    requires d.Normal() && !d.IsInteger()
    ensures var n, k := Abs(d.mantissa), |NatText(Abs(d.mantissa))| - 6;
            if k <= 0 then Rounded(d) == d
            else exists r: nat :: Nearest(n, Pow10(k), r)
                                  && Worth(Rounded(d), if d.mantissa < 0 then -(r as int) else r, d.exponent + k)
  {
    hide NatText, Pow10, Rounded, RoundSix, Nearest, Worth;
    RoundedIsExact(d);
    var n, k := Abs(d.mantissa), |NatText(Abs(d.mantissa))| - 6;
    if k > 0 {
      var r := RoundSixIsNearest(n, k);
      RoundedParts(d);
      WorthMoves(RoundSix(n), r, k, d.mantissa < 0, d.exponent);
    }
  }

  lemma WorthMoves(d: Decimal, m: nat, e: int, negative: bool, shift: int)
    requires Worth(d, m, e) && m > 0 && d.mantissa >= 0
    ensures Worth(Decimal(Signed(negative, d.mantissa), shift + d.exponent), if negative then -(m as int) else m, shift + e)
  {
    var k: nat :| d.exponent == e + k && d.mantissa * Pow10(k) == m;
    NegatedProduct(d.mantissa, Pow10(k));
    assert shift + d.exponent == (shift + e) + k;
  }

  lemma NegatedProduct(a: int, b: int)
    ensures -a * b == -(a * b)
  {
  }

  // ----- the form of a number ----------------------------------------------

  /** No digit too many in front. */
  predicate Lean(digits: string) { digits == "0" || (digits != "" && digits[0] != '0') }

  lemma {:induction false} NatTextIsLean(n: nat)
    ensures Lean(NatText(n)) && (NatText(n) == "0" <==> n == 0)
    ensures n % 10 != 0 ==> NatText(n)[|NatText(n)| - 1] != '0'
  {
    if n >= 10 { NatTextIsLean(n / 10); }
  }

  /** One digit before the point, an exponent of at least two digits, outside the
      range of the plain form. */
  predicate IsScientific(n: Numeral)
    requires WfNumeral(n)
  {
    && n.power.Some? && |n.whole| == 1 && n.whole != "0"
    && n.power.value.letter == 'e' && |n.power.value.digits| >= 2
    && (|n.power.value.digits| == 2 || n.power.value.digits[0] != '0')
    && if n.power.value.sign == "-" then NatValue(n.power.value.digits) > 4
       else n.power.value.sign == "+" && NatValue(n.power.value.digits) >= 6
  }

  /** No exponent, at most six digits before the point or three zeros behind it. */
  predicate IsPlain(n: Numeral) {
    && n.power.None? && Lean(n.whole) && |n.whole| <= 6
    && (n.whole == "0" ==> n.fraction.Some? && exists i :: 0 <= i <= 3 && i < |n.fraction.value| && n.fraction.value[i] != '0')
  }

  predicate IsShort(n: Numeral) {
    n.fraction.Some? ==> n.fraction.value != "" && n.fraction.value[|n.fraction.value| - 1] != '0'
  }

  ghost predicate PrintsAs(text: string, negative: bool, n: Numeral) {
    WfNumeral(n) && n.negative == negative && text == Spelled(n) && IsShort(n) && (IsScientific(n) || IsPlain(n))
  }

  function PartOf(fraction: string): Option<string> { if fraction == "" then None else Some(fraction) }

  lemma PlainPrints(negative: bool, whole: string, fraction: string)
    requires AllDigits(whole) && AllDigits(fraction) && Lean(whole) && |whole| <= 6
    requires fraction != "" ==> fraction[|fraction| - 1] != '0'
    requires whole == "0" ==> exists i :: 0 <= i <= 3 && i < |fraction| && fraction[i] != '0'
    ensures PrintsAs(Sign(negative) + (whole + PointText(fraction) + ""), negative, Numeral(negative, whole, PartOf(fraction), None))
  {
    var n := Numeral(negative, whole, PartOf(fraction), None);
    assert whole + PointText(fraction) + "" == whole + (FractionSpelled(n) + PowerSpelled(n));
  }

  lemma ScientificPrints(negative: bool, whole: string, fraction: string, lead: int)
    requires AllDigits(whole) && AllDigits(fraction) && |whole| == 1 && whole != "0" && !(-4 <= lead < 6)
    requires fraction != "" ==> fraction[|fraction| - 1] != '0'
    ensures PrintsAs(Sign(negative) + (whole + PointText(fraction) + ExponentText(lead)), negative,
                     Numeral(negative, whole, PartOf(fraction), Some(Power('e', if lead < 0 then "-" else "+", ExponentDigits(lead)))))
  {
    hide NatText, NatValue;
    var power := Power('e', if lead < 0 then "-" else "+", ExponentDigits(lead));
    var n := Numeral(negative, whole, PartOf(fraction), Some(power));
    ExponentDigitsValue(lead);
    ExponentDigitsAreLean(lead);
    ExponentTextIs(lead);
    assert ExponentText(lead) == PowerSpelled(n);
    Reassociate(whole, PointText(fraction), ExponentText(lead));
    assert PointText(fraction) == FractionSpelled(n);
  }

  lemma ExponentDigitsAreLean(lead: int)
    ensures |ExponentDigits(lead)| >= 2 && (|ExponentDigits(lead)| == 2 || ExponentDigits(lead)[0] != '0')
  {
    NatTextIsLean(Abs(lead));
    NatTextLength(Abs(lead), 1);
    assert Pow10(1) == 10 * Pow10(0);
    hide NatText;
  }

  ghost predicate IsPrintedAs(d: Decimal, n: Numeral) { PrintsAs(NumberText(d), d.mantissa < 0, n) }

  /** A number that is not an integer is printed in the short form of six
      significant digits: plain when its leading digit stands between 10^-4 and
      10^5, and with an exponent otherwise. */
  lemma NumberIsPrinted(d: Decimal)
    requires d.Normal() && !d.IsInteger()
    ensures exists n :: IsPrintedAs(d, n)
  {
    hide NatText, Layout, RoundSix, PrintsAs, Zeros, ExponentText, NumberText;
    RoundedParts(d);
    var r := RoundSix(Abs(d.mantissa));
    NumberTextIs(d);
    var text := Sign(d.mantissa < 0) + Layout(r.mantissa, d.exponent + r.exponent);
    LayoutIsPrinted(d.mantissa < 0, r.mantissa, d.exponent + r.exponent);
    var n :| PrintsAs(text, d.mantissa < 0, n);
    assert IsPrintedAs(d, n);
  }

  lemma LayoutIsPrinted(negative: bool, n: nat, e: int)
    requires n % 10 != 0 && |NatText(n)| <= 6
    ensures exists m :: PrintsAs(Sign(negative) + Layout(n, e), negative, m)
  {
    hide NatText, Layout, PrintsAs, ExponentText, PointText, ExponentDigits;
    var digits, lead := NatText(n), |NatText(n)| - 1 + e;
    NatTextIsLean(n);
    LayoutShapes(n, e);
    if !(-4 <= lead < 6) {
      assert digits[1..] != "" ==> digits[1..][|digits[1..]| - 1] == digits[|digits| - 1];
      assert digits[..1] != "0";
      ScientificPrints(negative, digits[..1], digits[1..], lead);
    } else if e >= 0 {
      assert digits + Zeros(e) == digits + Zeros(e) + PointText("") + "" by { NoPoint(digits + Zeros(e)); }
      PlainPrints(negative, digits + Zeros(e), "");
    } else if lead >= 0 {
      var fraction := digits[lead + 1..];
      assert fraction[|fraction| - 1] == digits[|digits| - 1];
      assert digits[..lead + 1][0] == digits[0];
      PlainPrints(negative, digits[..lead + 1], fraction);
    } else {
      var fraction := Zeros(-lead - 1) + digits;
      assert fraction[|fraction| - 1] == digits[|digits| - 1];
      assert fraction[-lead - 1] == digits[0];
      PlainPrints(negative, "0", fraction);
    }
  }

  lemma NoPoint(whole: string)
    ensures whole + PointText("") + "" == whole
  {
  }

  /** An integer is printed in full: a sign, and its digits. */
  lemma IntegerIsPrinted(d: Decimal)
    requires d.Normal() && d.IsInteger()
    ensures exists digits :: NumberText(d) == (if d.mantissa < 0 then "-" else "") + digits
              && AllDigits(digits) && Lean(digits) && NatValue(digits) == Abs(d.mantissa) * Pow10(d.exponent)
  {
    hide NatText, NatValue;
    var n := Abs(d.mantissa) * Pow10(d.exponent);
    NatTextIsLean(n);
    NatTextValue(n);
  }

  // ----- strings -----------------------------------------------------------

  lemma {:induction false} EscapeAppend(a: string, b: string)
    ensures Escape(a + b) == Escape(a) + Escape(b)
  {
    hide Replace;
    ReplaceAppend(a, b, '\\', "\\\\");
    ReplaceAppend(Replace(a, '\\', "\\\\"), Replace(b, '\\', "\\\\"), '"', "\\\"");
  }

  /** A string is printed between quotes, character by character, with a backslash
      before each quote and backslash and nothing else changed. */
  lemma StringIsPrinted(a: string, c: char, b: string)
    ensures LiteralText(StringLit(a)) == "\"" + Escape(a) + "\""
    ensures Escape("") == ""
    ensures Escape(a + ([c] + b)) == Escape(a) + ((if c == '"' || c == '\\' then ['\\', c] else [c]) + Escape(b))
  {
    hide Escape;
    EscapeAppend([c], b);
    EscapeAppend(a, [c] + b);
    OneEscaped(c);
  }

  lemma OneEscaped(c: char)
    ensures Escape([c]) == (if c == '"' || c == '\\' then ['\\', c] else [c]) && Escape("") == ""
  {
    assert [c][1..] == "";
    assert "\\\\"[1..] == "\\" && "\\"[1..] == "";
    if c == '\\' {
      assert Replace([c], '\\', "\\\\") == "\\\\" + Replace("", '\\', "\\\\");
      assert Replace("\\\\", '"', "\\\"") == "\\\\";
    } else {
      assert Replace([c], '\\', "\\\\") == [c] + "";
      assert [c] + "" == [c];
      assert Replace([c], '"', "\\\"") == (if c == '"' then "\\\"" else [c]) + "";
    }
  }
}
