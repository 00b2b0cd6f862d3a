/** Numbers of the filter language, as exact decimals: how the printer writes
    them (integers in full, everything else with six significant digits) and
    what a numeral is worth. */
module FilterNumber {
  import opened Text

  /** mantissa * 10^exponent. */
  datatype Decimal = Decimal(mantissa: int, exponent: int) {
    /** The one representation of each value: no trailing zero in the mantissa. */
    predicate Normal() {
      if mantissa == 0 then exponent == 0 else mantissa % 10 != 0
    }

    predicate IsInteger() { exponent >= 0 }
  }

  function Abs(n: int): nat { if n < 0 then -n else n }

  function Signed(negative: bool, n: nat): int { if negative then -(n as int) else n }

  function Normalize(m: int, e: int): (d: Decimal)
    ensures d.Normal()
    decreases Abs(m)
  {
    if m == 0 then Decimal(0, 0)
    else if m % 10 == 0 then Normalize(m / 10, e + 1)
    else Decimal(m, e)
  }

  /** The value of a numeral with the given sign, digits and exponent. */
  function NumeralValue(negative: bool, whole: string, fraction: string, exponent: int): (d: Decimal)
    requires AllDigits(whole) && AllDigits(fraction)
    ensures d.Normal()
  {
    Normalize(Signed(negative, NatValue(whole + fraction)), exponent - |fraction|)
  }

  // ----- printing --------------------------------------------------------

  const SIGNIFICANT: nat := 6

  function RoundUp(quotient: nat, remainder: nat, unit: nat): bool {
    2 * remainder > unit || (2 * remainder == unit && quotient % 2 == 1)
  }

  /** `n / unit` rounded to the nearest integer, ties to even. */
  function RoundDivide(n: nat, unit: nat): (kept: nat)
    requires unit > 0
    ensures n / unit <= kept <= n / unit + 1
  {
    if RoundUp(n / unit, n % unit, unit) then n / unit + 1 else n / unit
  }

  /** `n` without its last `k` digits. */
  function RoundAt(n: nat, k: nat): nat { RoundDivide(n, Pow10(k)) }

  /** `n` to six significant digits. */
  function RoundSix(n: nat): (d: Decimal)
    ensures d.mantissa >= 0 && d.exponent >= 0
  {
    var digits := |NatText(n)|;
    if digits <= SIGNIFICANT then Decimal(n, 0)
    else
      var kept := RoundAt(n, digits - SIGNIFICANT);
      NormalizeNat(kept, digits - SIGNIFICANT);
      Normalize(kept, digits - SIGNIFICANT)
  }

  lemma {:induction false} NormalizeNat(m: nat, e: nat)
    ensures Normalize(m, e).mantissa >= 0 && Normalize(m, e).exponent >= 0
    ensures m > 0 ==> 0 < Normalize(m, e).mantissa <= m
  {
    if m != 0 && m % 10 == 0 {
      NormalizeNat(m / 10, e + 1);
    }
  }

  /** The value the printer's text stands for. */
  function Rounded(d: Decimal): Decimal {
    if d.IsInteger() then d
    else
      var r := RoundSix(Abs(d.mantissa));
      Decimal(Signed(d.mantissa < 0, r.mantissa), d.exponent + r.exponent)
  }

  /** The digits of `n` laid out for the value n * 10^e: plainly when the
      leading digit stands between 10^-4 and 10^5, with an exponent otherwise. */
  function Layout(n: nat, e: int): string {
    var digits := NatText(n);
    var lead := |digits| - 1 + e;
    if -4 <= lead < SIGNIFICANT then
      if e >= 0 then digits + Zeros(e)
      else if lead >= 0 then digits[..lead + 1] + "." + digits[lead + 1..]
      else "0." + Zeros(-lead - 1) + digits
    else
      digits[..1] + (if |digits| > 1 then "." + digits[1..] else "") + ExponentText(lead)
  }

  /** At least two exponent digits, always signed. */
  function ExponentText(lead: int): string {
    "e" + (if lead < 0 then "-" else "+") + (if Abs(lead) < 10 then "0" else "") + NatText(Abs(lead))
  }

  function NumberText(d: Decimal): string {
    var sign := if d.mantissa < 0 then "-" else "";
    if d.IsInteger() then sign + NatText(Abs(d.mantissa) * Pow10(d.exponent))
    else
      var r := RoundSix(Abs(d.mantissa));
      sign + Layout(r.mantissa, d.exponent + r.exponent)
  }

  // ----- which numbers survive printing ----------------------------------

  /** Integers, and numbers of at most six significant digits. */
  predicate PrintsExactly(d: Decimal) {
    d.IsInteger() || |NatText(Abs(d.mantissa))| <= SIGNIFICANT
  }

  lemma {:induction false} NormalizeShift(m: int, e: int, k: nat)
    ensures Normalize(m * Pow10(k), e) == Normalize(m, e + k)
    decreases k
  {
    if k > 0 {
      hide Normalize;
      var p := Pow10(k - 1);
      TenthPower(m, p);
      NormalizeTen(m * p, e);
      NormalizeShift(m, e + 1, k - 1);
    }
  }

  lemma TenthPower(m: int, p: nat)
    ensures m * (10 * p) == 10 * (m * p)
  {
  }

  lemma NormalizeTen(n: int, e: int)
    ensures Normalize(10 * n, e) == Normalize(n, e + 1)
  {
    if n != 0 { assert 10 * n % 10 == 0 && 10 * n / 10 == n; }
  }

  /** A normal decimal is its own normal form, whatever zeros are appended. */
  lemma NormalizePadded(m: int, e: int, k: nat)
    requires Decimal(m, e + k).Normal()
    ensures Normalize(m * Pow10(k), e) == Decimal(m, e + k)
  {
    NormalizeShift(m, e, k);
  }

  lemma SixDigits()
    ensures Pow10(SIGNIFICANT) == 1000000
  {
    assert Pow10(3) == 1000;
    Pow10Add(3, 3);
  }

  lemma QuotientBelow(n: nat, unit: nat, bound: nat)
    requires unit > 0 && n < bound * unit
    ensures n / unit < bound
  {
  }

  lemma QuotientPositive(n: nat, unit: nat)
    requires 0 < unit <= n
    ensures n / unit >= 1
  {
  }

  /** Cutting a number of more than six digits leaves between 1 and 10^6. */
  lemma RoundAtRange(n: nat, k: nat)
    requires k >= 1 && |NatText(n)| == SIGNIFICANT + k
    ensures 1 <= RoundAt(n, k) <= 1000000 <= n
  {
    SixDigits();
    NatTextLength(n, SIGNIFICANT + k);
    NatTextLength(n, SIGNIFICANT);
    NatTextLength(n, k);
    Pow10Add(SIGNIFICANT, k);
    QuotientBelow(n, Pow10(k), 1000000);
    QuotientPositive(n, Pow10(k));
  }

  lemma SignKeepsDigit(negative: bool, n: nat)
    requires n % 10 != 0
    ensures Signed(negative, n) % 10 != 0
  {
  }

  /** More than six significant digits always lose some. */
  lemma RoundSixLoses(n: nat)
    requires |NatText(n)| > SIGNIFICANT && n % 10 != 0
    ensures RoundSix(n).Normal() && 0 < RoundSix(n).mantissa < n
  {
    var k := |NatText(n)| - SIGNIFICANT;
    RoundAtRange(n, k);
    NormalizeNat(RoundAt(n, k), k);
  }

  /** A number keeps its value when printed exactly when it is an integer or
      has at most six significant digits. */
  lemma RoundedIsExact(d: Decimal)
    requires d.Normal()
    ensures Rounded(d).Normal()
    ensures Rounded(d) == d <==> PrintsExactly(d)
  {
    var n := Abs(d.mantissa);
    if !d.IsInteger() {
      SignKeepsDigit(d.mantissa < 0, n);
      if |NatText(n)| > SIGNIFICANT {
        RoundSixLoses(n);
        SignKeepsDigit(d.mantissa < 0, RoundSix(n).mantissa);
      }
    }
  }

  // ----- which printed numbers print alike once read back ------------------

  /** Six significant digits have no more than six digits. */
  lemma RoundSixFits(n: nat)
    requires n % 10 != 0
    ensures var r := RoundSix(n);
            0 < r.mantissa < 1000000 && r.mantissa % 10 != 0 && |NatText(r.mantissa)| <= SIGNIFICANT
  {
    hide NatText;
    SixDigits();
    if |NatText(n)| <= SIGNIFICANT {
      NatTextLength(n, SIGNIFICANT);
    } else {
      var k := |NatText(n)| - SIGNIFICANT;
      RoundAtRange(n, k);
      NormalizeNat(RoundAt(n, k), k);
      NatTextLength(RoundSix(n).mantissa, SIGNIFICANT);
    }
  }

  /** Rounding is done once. */
  lemma RoundedTwice(d: Decimal)
    requires d.Normal()
    ensures Rounded(d).Normal() && Rounded(Rounded(d)) == Rounded(d)
  {
    hide NatText, RoundSix;
    RoundedIsExact(d);
    if !d.IsInteger() {
      SignKeepsDigit(d.mantissa < 0, Abs(d.mantissa));
      RoundSixFits(Abs(d.mantissa));
      assert Abs(Rounded(d).mantissa) == RoundSix(Abs(d.mantissa)).mantissa;
    }
    RoundedIsExact(Rounded(d));
  }

  /** The number is printed as its printed value is printed. */
  predicate SteadyNumber(d: Decimal) { NumberText(Rounded(d)) == NumberText(d) }

  predicate BelowMillion(d: Decimal) {
    if d.exponent >= 0 then Abs(d.mantissa) * Pow10(d.exponent) < 1000000
    else Abs(d.mantissa) < 1000000 * Pow10(-d.exponent)
  }

  lemma {:induction false} PaddedText(n: nat, e: nat)
    requires n > 0
    ensures NatText(n * Pow10(e)) == NatText(n) + Zeros(e)
  {
    if e == 0 {
      assert NatText(n) + Zeros(0) == NatText(n);
    } else {
      PaddedText(n, e - 1);
      var m := n * Pow10(e - 1);
      TenTimes(n, Pow10(e - 1));
      assert n * Pow10(e) == 10 * m && m > 0;
      assert NatText(10 * m) == NatText(m) + "0";
    }
  }

  lemma TenTimes(n: nat, p: nat)
    ensures n * (10 * p) == 10 * (n * p)
    ensures n > 0 && p > 0 ==> n * p > 0
  {
  }

  /** A number of seven digits or more before the point is laid out with an
      exponent, which digits alone never are. */
  lemma LayoutIsPlainIff(n: nat, e: nat)
    requires n > 0
    ensures Layout(n, e) == NatText(n * Pow10(e)) <==> n * Pow10(e) < 1000000
  {
    hide NatText, Zeros, Pow10;
    PaddedText(n, e);
    SixDigits();
    NatTextLength(n * Pow10(e), SIGNIFICANT);
    if |NatText(n)| - 1 + e >= SIGNIFICANT {
      var lead := |NatText(n)| - 1 + e;
      ExponentStarts(lead);
      var front := NatText(n)[..1] + (if |NatText(n)| > 1 then "." + NatText(n)[1..] else "");
      assert Layout(n, e) == front + ExponentText(lead);
      assert (front + ExponentText(lead))[|front|] == 'e';
    }
  }

  lemma ExponentStarts(lead: int)
    ensures ExponentText(lead) != "" && ExponentText(lead)[0] == 'e'
  {
  }

  lemma NonzeroUnlessInteger(d: Decimal)
    requires d.Normal() && !d.IsInteger()
    ensures d.mantissa != 0 && Abs(d.mantissa) % 10 != 0
  {
  }

  /** Digits and value of a number that is not an integer, once rounded. */
  lemma RoundedParts(d: Decimal)
    requires d.Normal() && !d.IsInteger()
    ensures var r := RoundSix(Abs(d.mantissa)); var sign := if d.mantissa < 0 then "-" else "";
            && 0 < r.mantissa < 1000000 && r.mantissa % 10 != 0 && |NatText(r.mantissa)| <= SIGNIFICANT
            && Rounded(d) == Decimal(Signed(d.mantissa < 0, r.mantissa), d.exponent + r.exponent)
            && NumberText(d) == sign + Layout(r.mantissa, d.exponent + r.exponent)
  {
    hide Layout, NatText, RoundSix;
    NonzeroUnlessInteger(d);
    RoundSixFits(Abs(d.mantissa));
  }

  /** A number is printed as its printed value is exactly when it is an integer or
      that value is below a million. */
  lemma SteadyNumberIff(d: Decimal)
    requires d.Normal()
    ensures SteadyNumber(d) <==> d.IsInteger() || BelowMillion(Rounded(d))
  {
    if !d.IsInteger() {
      hide Layout, NatText, Pow10, NumberText, Rounded, BelowMillion, RoundSix;
      var r, sign := RoundSix(Abs(d.mantissa)), if d.mantissa < 0 then "-" else "";
      RoundedParts(d);
      var e := d.exponent + r.exponent;
      if e >= 0 {
        LayoutIsPlainIff(r.mantissa, e);
        IntegerText(d.mantissa < 0, r.mantissa, e);
        SameTail(sign, NatText(r.mantissa * Pow10(e)), Layout(r.mantissa, e));
      } else {
        FractionText(d.mantissa < 0, r.mantissa, e);
      }
    }
  }

  lemma IntegerText(negative: bool, n: nat, e: nat)
    requires n > 0
    ensures NumberText(Decimal(Signed(negative, n), e)) == (if negative then "-" else "") + NatText(n * Pow10(e))
    ensures BelowMillion(Decimal(Signed(negative, n), e)) <==> n * Pow10(e) < 1000000
  {
    hide NatText;
  }

  lemma FractionText(negative: bool, n: nat, e: int)
    requires 0 < n < 1000000 && |NatText(n)| <= SIGNIFICANT && e < 0
    ensures NumberText(Decimal(Signed(negative, n), e)) == (if negative then "-" else "") + Layout(n, e)
    ensures BelowMillion(Decimal(Signed(negative, n), e))
  {
    hide NatText, Layout;
    MillionTimes(n, Pow10(-e));
  }

  lemma SameTail(a: string, b: string, c: string)
    ensures a + b == a + c <==> b == c
  {
    assert (a + b)[|a|..] == b && (a + c)[|a|..] == c;
  }

  lemma MillionTimes(n: nat, p: nat)
    requires n < 1000000 && p >= 1
    ensures n < 1000000 * p
  {
  }
}
