/** Every token the printer writes is read back by the lexer, up to the
    rounding of numbers. */
module FilterTokens {
  import opened Text
  import opened FilterNumber
  import opened FilterAst
  import opened FilterPrinter
  import opened FilterLexer

  /** What the printer's text of a literal stands for. */
  function RoundedLiteral(l: Literal): Literal {
    if l.NumberLit? then NumberLit(Rounded(l.number)) else l
  }

  lemma SkipNothing(s: string)
    requires s == "" || !IsWs(s[0])
    ensures SkipWs(s) == s
  {
  }

  lemma SkipSpace(s: string)
    ensures SkipWs(" " + s) == SkipWs(s)
  {
    assert (" " + s)[1..] == s;
  }

  // ----- numbers -----------------------------------------------------------

  lemma DigitsRead(d: string, rest: string)
    requires d != "" && AllDigits(d) && (rest == "" || !IsDigit(rest[0]))
    ensures Digits(d + rest) == Tok(d, rest)
  {
    DigitRunStops(d, rest);
  }

  /** The text of an optional fraction. */
  function PointText(fraction: string): string { if fraction == "" then "" else "." + fraction }

  lemma PointReads(fraction: string, rest: string)
    requires AllDigits(fraction)
    requires rest == "" || (!IsDigit(rest[0]) && rest[0] != '.')
    ensures FractionPart(PointText(fraction) + rest) == Tok(fraction, rest)
  {
    if fraction == "" {
      assert PointText(fraction) + rest == rest;
    } else {
      assert (PointText(fraction) + rest)[1..] == fraction + rest;
      DigitsRead(fraction, rest);
    }
  }

  /** The digits of an exponent: at least two of them. */
  function ExponentDigits(lead: int): (d: string)
    ensures d != "" && AllDigits(d)
  {
    (if Abs(lead) < 10 then "0" else "") + NatText(Abs(lead))
  }

  lemma ExponentDigitsValue(lead: int)
    ensures NatValue(ExponentDigits(lead)) == Abs(lead)
  {
    NatTextValue(Abs(lead));
    if Abs(lead) < 10 {
      assert NatValue("0") == 0;
      NatValueAppend("0", NatText(Abs(lead)));
    } else {
      assert ExponentDigits(lead) == NatText(Abs(lead));
    }
  }

  lemma SignedExponentReads(negative: bool, digits: string, rest: string)
    requires digits != "" && AllDigits(digits) && Delimited(rest)
    ensures ExponentPart("e" + ((if negative then "-" else "+") + (digits + rest)))
            == Tok(Signed(negative, NatValue(digits)), rest)
  {
    var s := "e" + ((if negative then "-" else "+") + (digits + rest));
    assert s[2..] == digits + rest;
    DigitsRead(digits, rest);
  }

  lemma ExponentReads(lead: int, rest: string)
    requires Delimited(rest)
    ensures ExponentPart(ExponentText(lead) + rest) == Tok(lead, rest)
  {
    hide ExponentText, ExponentDigits, ExponentPart, NatValue;
    ExponentDigitsValue(lead);
    SignedExponentReads(lead < 0, ExponentDigits(lead), rest);
    var sign := if lead < 0 then "-" else "+";
    ExponentTextIs(lead);
    Reassociate("e", sign + ExponentDigits(lead), rest);
    Reassociate(sign, ExponentDigits(lead), rest);
  }

  lemma ExponentTextIs(lead: int)
    ensures ExponentText(lead) == "e" + ((if lead < 0 then "-" else "+") + ExponentDigits(lead))
  {
  }

  function Sign(negative: bool): string { if negative then "-" else "" }

  /** A numeral assembled from its parts is read back as its value. */
  lemma UnsignedReads(negative: bool, whole: string, fraction: string, power: string, exponent: int, rest: string)
    requires whole != "" && AllDigits(whole) && AllDigits(fraction) && Delimited(rest)
    requires (power == "" && exponent == 0) || power == ExponentText(exponent)
    ensures Unsigned(negative, whole + (PointText(fraction) + (power + rest)))
            == Tok(NumberLit(NumeralValue(negative, whole, fraction, exponent)), rest)
  {
    var s2 := power + rest;
    var s1 := PointText(fraction) + s2;
    assert s2 == "" || (!IsDigit(s2[0]) && s2[0] != '.') by {
      if power == "" { assert s2 == rest; }
    }
    assert s1 == "" || !IsDigit(s1[0]) by {
      if fraction == "" { assert s1 == s2; }
    }
    DigitsRead(whole, s1);
    PointReads(fraction, s2);
    PowerReads(power, exponent, rest);
  }

  lemma SignReads(negative: bool, digits: string)
    requires digits != "" && IsDigit(digits[0])
    ensures Number(Sign(negative) + digits) == Unsigned(negative, digits)
  {
    if negative {
      assert (Sign(negative) + digits)[1..] == digits;
    } else {
      assert Sign(negative) + digits == digits;
    }
  }

  /** The same for the whole text, sign included. */
  lemma NumeralReads(text: string, negative: bool, whole: string, fraction: string, power: string, exponent: int, rest: string)
    requires whole != "" && AllDigits(whole) && AllDigits(fraction) && Delimited(rest)
    requires (power == "" && exponent == 0) || power == ExponentText(exponent)
    requires text == whole + PointText(fraction) + power
    ensures Number(Sign(negative) + text + rest)
            == Tok(NumberLit(NumeralValue(negative, whole, fraction, exponent)), rest)
  {
    var digits := whole + (PointText(fraction) + (power + rest));
    Regroup(Sign(negative), whole, PointText(fraction), power, rest);
    SignReads(negative, digits);
    UnsignedReads(negative, whole, fraction, power, exponent, rest);
  }

  lemma Regroup(a: string, b: string, c: string, d: string, e: string)
    ensures a + (b + c + d) + e == a + (b + (c + (d + e)))
  {
  }

  lemma PowerReads(power: string, exponent: int, rest: string)
    requires Delimited(rest)
    requires (power == "" && exponent == 0) || power == ExponentText(exponent)
    ensures ExponentPart(power + rest) == Tok(exponent, rest)
  {
    if power == "" {
      assert power + rest == rest;
    } else {
      ExponentReads(exponent, rest);
    }
  }

  /** n * 10^e, normalized. */
  lemma WholeValue(negative: bool, n: nat, e: nat)
    requires Decimal(n, e).Normal()
    ensures Normalize(Signed(negative, n * Pow10(e)), 0) == Decimal(Signed(negative, n), e)
  {
    SignedProduct(negative, n, Pow10(e));
    if n != 0 { SignKeepsDigit(negative, n); }
    NormalizePadded(Signed(negative, n), 0, e);
  }

  lemma NormalizeNormal(negative: bool, n: nat, e: int)
    requires n % 10 != 0
    ensures Normalize(Signed(negative, n), e) == Decimal(Signed(negative, n), e)
  {
    SignKeepsDigit(negative, n);
  }

  /** Digits in full. */
  lemma WholeReads(text: string, negative: bool, n: nat, e: nat, rest: string)
    requires Decimal(n, e).Normal() && Delimited(rest)
    requires text != "" && AllDigits(text) && NatValue(text) == n * Pow10(e)
    ensures Number(Sign(negative) + text + rest) == Tok(NumberLit(Decimal(Signed(negative, n), e)), rest)
  {
    assert text == text + PointText("") + "";
    NumeralReads(text, negative, text, "", "", 0, rest);
    assert text + "" == text;
    WholeValue(negative, n, e);
  }

  /** Digits around a decimal point, with or without an exponent. */
  lemma PointedReads(text: string, negative: bool, n: nat, whole: string, fraction: string, power: string, exponent: int, rest: string)
    requires n % 10 != 0 && Delimited(rest)
    requires whole != "" && AllDigits(whole) && AllDigits(fraction) && NatValue(whole + fraction) == n
    requires (power == "" && exponent == 0) || power == ExponentText(exponent)
    requires text == whole + PointText(fraction) + power
    ensures Number(Sign(negative) + text + rest)
            == Tok(NumberLit(Decimal(Signed(negative, n), exponent - |fraction|)), rest)
  {
    NumeralReads(text, negative, whole, fraction, power, exponent, rest);
    NormalizeNormal(negative, n, exponent - |fraction|);
  }

  lemma LeadingZeros(zeros: string, digits: string)
    requires AllDigits(zeros) && AllDigits(digits) && NatValue(zeros) == 0
    ensures AllDigits(zeros + digits) && NatValue(zeros + digits) == NatValue(digits)
  {
    NatValueAppend(zeros, digits);
  }

  lemma SmallFraction(zeros: nat, n: nat)
    ensures AllDigits(Zeros(zeros) + NatText(n))
    ensures NatValue("0" + (Zeros(zeros) + NatText(n))) == n
  {
    NatTextValue(n);
    ZerosValue(zeros);
    LeadingZeros(Zeros(zeros), NatText(n));
    assert NatValue("0") == 0;
    LeadingZeros("0", Zeros(zeros) + NatText(n));
  }

  lemma PaddedDigits(n: nat, e: nat)
    ensures AllDigits(NatText(n) + Zeros(e))
    ensures NatValue(NatText(n) + Zeros(e)) == n * Pow10(e)
  {
    NatTextValue(n);
    ZerosValue(e);
    NatValueAppend(NatText(n), Zeros(e));
  }

  /** The four shapes of a layout. */
  lemma LayoutShapes(n: nat, e: int)
    ensures var digits, lead := NatText(n), |NatText(n)| - 1 + e;
            Layout(n, e) ==
            if !(-4 <= lead < SIGNIFICANT) then digits[..1] + PointText(digits[1..]) + ExponentText(lead)
            else if e >= 0 then digits + Zeros(e)
            else if lead >= 0 then digits[..lead + 1] + PointText(digits[lead + 1..]) + ""
            else "0" + PointText(Zeros(-lead - 1) + digits) + ""
  {
    hide NatText, Zeros, ExponentText;
    var digits, lead := NatText(n), |NatText(n)| - 1 + e;
    if -4 <= lead < SIGNIFICANT && e < 0 {
      if lead >= 0 {
        Reassociate(digits[..lead + 1], ".", digits[lead + 1..]);
        assert digits[..lead + 1] + PointText(digits[lead + 1..]) + "" == digits[..lead + 1] + PointText(digits[lead + 1..]);
      } else {
        assert "0." == "0" + ".";
        Reassociate("0.", Zeros(-lead - 1), digits);
        Reassociate("0", ".", Zeros(-lead - 1) + digits);
        assert "0" + PointText(Zeros(-lead - 1) + digits) + "" == "0" + PointText(Zeros(-lead - 1) + digits);
      }
    }
  }

  lemma LayoutReads(negative: bool, n: nat, e: int, rest: string)
    requires n % 10 != 0 && Delimited(rest)
    ensures Number(Sign(negative) + Layout(n, e) + rest)
            == Tok(NumberLit(Decimal(Signed(negative, n), e)), rest)
  {
    hide Number, NatText, NatValue, Zeros, Pow10, Layout, PointText, ExponentText, Sign, Signed;
    var digits := NatText(n);
    var lead := |digits| - 1 + e;
    var text := Layout(n, e);
    LayoutShapes(n, e);
    if !(-4 <= lead < SIGNIFICANT) {
      SplitDigitsRead(text, negative, n, 1, ExponentText(lead), lead, rest);
    } else if e >= 0 {
      PaddedDigits(n, e);
      WholeReads(text, negative, n, e, rest);
    } else if lead >= 0 {
      SplitDigitsRead(text, negative, n, lead + 1, "", 0, rest);
    } else {
      SmallFraction(-lead - 1, n);
      PointedReads(text, negative, n, "0", Zeros(-lead - 1) + digits, "", 0, rest);
    }
  }

  /** The digits of `n` with a point after the first `k`. */
  lemma SplitDigitsRead(text: string, negative: bool, n: nat, k: nat, power: string, exponent: int, rest: string)
    requires n % 10 != 0 && Delimited(rest) && 1 <= k <= |NatText(n)|
    requires (power == "" && exponent == 0) || power == ExponentText(exponent)
    requires text == NatText(n)[..k] + PointText(NatText(n)[k..]) + power
    ensures Number(Sign(negative) + text + rest)
            == Tok(NumberLit(Decimal(Signed(negative, n), exponent - |NatText(n)| + k)), rest)
  {
    hide Number, NatText, NatValue, PointText, ExponentText, Sign, Signed, Delimited;
    var digits := NatText(n);
    NatTextValue(n);
    assert digits[..k] + digits[k..] == digits;
    PointedReads(text, negative, n, digits[..k], digits[k..], power, exponent, rest);
  }

  lemma SignedProduct(negative: bool, n: nat, p: nat)
    ensures Signed(negative, n * p) == Signed(negative, n) * p
  {
  }

  lemma IntegerReads(d: Decimal, rest: string)
    requires d.Normal() && d.IsInteger() && Delimited(rest)
    ensures Number(NumberText(d) + rest) == Tok(NumberLit(Rounded(d)), rest)
  {
    hide Number, NumberText, Rounded, NatText, NatValue, Pow10, Sign, Signed, Delimited;
    var n := Abs(d.mantissa);
    NatTextValue(n * Pow10(d.exponent));
    IntegerTextParts(d);
    WholeReads(NatText(n * Pow10(d.exponent)), d.mantissa < 0, n, d.exponent, rest);
  }

  lemma IntegerTextParts(d: Decimal)
    requires d.Normal() && d.IsInteger()
    ensures var n := Abs(d.mantissa);
            && NumberText(d) == Sign(d.mantissa < 0) + NatText(n * Pow10(d.exponent))
            && Rounded(d) == Decimal(Signed(d.mantissa < 0, n), d.exponent)
            && Decimal(n, d.exponent).Normal()
  {
    hide NatText, Pow10;
    if d.mantissa != 0 { assert Abs(d.mantissa) % 10 != 0; }
  }

  lemma NumberReads(d: Decimal, rest: string)
    requires d.Normal() && Delimited(rest)
    ensures Number(NumberText(d) + rest) == Tok(NumberLit(Rounded(d)), rest)
  {
    hide Number, NumberText, Rounded, Layout, Sign, Signed, Delimited, NatText, RoundSix;
    if d.IsInteger() {
      IntegerReads(d, rest);
    } else {
      var r := RoundSix(Abs(d.mantissa));
      NumberTextParts(d);
      LayoutReads(d.mantissa < 0, r.mantissa, d.exponent + r.exponent, rest);
    }
  }

  lemma NumberTextParts(d: Decimal)
    requires d.Normal() && !d.IsInteger()
    ensures var r := RoundSix(Abs(d.mantissa));
            && r.mantissa >= 0 && r.mantissa % 10 != 0
            && NumberText(d) == Sign(d.mantissa < 0) + Layout(r.mantissa, d.exponent + r.exponent)
            && Rounded(d) == Decimal(Signed(d.mantissa < 0, r.mantissa), d.exponent + r.exponent)
  {
    hide Layout, NatText, RoundSix;
    RoundedParts(d);
    NumberTextIs(d);
  }

  lemma NumberTextIs(d: Decimal)
    requires !d.IsInteger()
    ensures var r := RoundSix(Abs(d.mantissa));
            NumberText(d) == Sign(d.mantissa < 0) + Layout(r.mantissa, d.exponent + r.exponent)
  {
    hide Layout, RoundSix;
  }

  lemma NumberTextStarts(d: Decimal)
    ensures NumberText(d) != "" && (NumberText(d)[0] == '-' || IsDigit(NumberText(d)[0]))
  {
  }

  lemma DateDigits(s: string)
    requires StartsWithShape(s, DATE)
    ensures s[0] != '-' && s[4] == '-'
    ensures Digits(s) == Tok(s[..4], s[4..])
  {
    assert IsDigit(s[0]) && IsDigit(s[1]) && IsDigit(s[2]) && IsDigit(s[3]) && s[4] == '-';
    assert s == s[..4] + s[4..];
    DigitsRead(s[..4], s[4..]);
  }

  /** A text that reads as a number up to a delimiter does not start with a date. */
  lemma NumberIsNoDate(s: string)
    requires Number(s).Tok? && Delimited(Number(s).rest)
    ensures TimestampLength(s) == 0
  {
    if StartsWithShape(s, DATE) {
      DateDigits(s);
      assert false;
    }
  }

  // ----- strings -----------------------------------------------------------

  lemma {:induction false} ReplaceAppend(a: string, b: string, c: char, text: string)
    ensures Replace(a + b, c, text) == Replace(a, c, text) + Replace(b, c, text)
  {
    if a == "" {
      assert a + b == b;
    } else {
      assert (a + b)[1..] == a[1..] + b;
      ReplaceAppend(a[1..], b, c, text);
    }
  }

  function EscapeChar(c: char): string {
    if c == '\\' then "\\\\" else if c == '"' then "\\\"" else [c]
  }

  lemma EscapeCons(c: char, s: string)
    ensures Escape([c] + s) == EscapeChar(c) + Escape(s)
  {
    var inner := if c == '\\' then "\\\\" else [c];
    assert ([c] + s)[1..] == s;
    assert Replace([c] + s, '\\', "\\\\") == inner + Replace(s, '\\', "\\\\");
    ReplaceAppend(inner, Replace(s, '\\', "\\\\"), '"', "\\\"");
    if c == '\\' {
      assert inner[1..] == "\\" && inner[1..][1..] == "";
      assert Replace(inner, '"', "\\\"") == "\\" + Replace("\\", '"', "\\\"");
    } else {
      assert inner[1..] == "";
    }
    assert Replace(inner, '"', "\\\"") == EscapeChar(c);
  }

  /** An escaped string is read back up to its closing quote. */
  lemma {:induction false} StringBodyReads(s: string, rest: string)
    ensures StringBody(Escape(s) + "\"" + rest) == Tok(s, rest)
  {
    if s == "" {
      assert (Escape(s) + "\"" + rest)[1..] == rest;
    } else {
      assert s == [s[0]] + s[1..];
      EscapeCons(s[0], s[1..]);
      StringBodyReads(s[1..], rest);
      var tail := Escape(s[1..]) + "\"" + rest;
      assert Escape(s) + "\"" + rest == EscapeChar(s[0]) + tail;
      assert (EscapeChar(s[0]) + tail)[|EscapeChar(s[0])|..] == tail;
    }
  }

  // ----- literals ----------------------------------------------------------

  lemma LiteralReads(l: Literal, rest: string)
    requires WfLiteral(l) && Delimited(rest)
    ensures LiteralText(l) != "" && !IsWs(LiteralText(l)[0])
    ensures Value(LiteralText(l) + rest) == Tok(RoundedLiteral(l), rest)
  {
    match l
    case StringLit(text) => StringReads(text, rest);
    case NumberLit(number) =>
      hide NumberText, Rounded, Number, TimestampLength;
      NumberTextStarts(number);
      NumberReads(number, rest);
      NumberIsNoDate(NumberText(number) + rest);
    case TimestampLit(stamp) =>
      hide TimestampLength, Number;
      TimestampReadsBack(stamp, rest);
      assert IsDigit(stamp[0]);
  }

  lemma StringReads(text: string, rest: string)
    requires |text| <= MAX_STRING
    ensures Value("\"" + Escape(text) + "\"" + rest) == Tok(StringLit(text), rest)
  {
    hide Escape, StringBody;
    var s := "\"" + Escape(text) + "\"" + rest;
    StringBodyReads(text, rest);
    assert s[1..] == Escape(text) + "\"" + rest;
  }

  lemma SpacedLiteralReads(l: Literal, rest: string)
    requires WfLiteral(l) && Delimited(rest)
    ensures Value(" " + LiteralText(l) + rest) == Tok(RoundedLiteral(l), rest)
  {
    hide LiteralText, RoundedLiteral, SkipWs, StringLiteral, NumberOrTimestamp;
    LiteralReads(l, rest);
    Reassociate(" ", LiteralText(l), rest);
    SkipSpace(LiteralText(l) + rest);
    SkipNothing(LiteralText(l) + rest);
  }

  /** A value behind a comma and a space. */
  lemma NextValueRead(l: Literal, tail: string)
    requires WfLiteral(l) && Delimited(tail)
    ensures MoreValues(", " + (LiteralText(l) + tail))
            == if MoreValues(tail).Bad? then Bad(MoreValues(tail).rest)
               else Tok([RoundedLiteral(l)] + MoreValues(tail).value, MoreValues(tail).rest)
  {
    hide Value, LiteralText, RoundedLiteral;
    var s := ", " + (LiteralText(l) + tail);
    SpacedLiteralReads(l, tail);
    SkipNothing(s);
    assert s[1..] == " " + LiteralText(l) + tail;
  }

  lemma ListEnds(rest: string)
    ensures MoreValues(")" + rest) == Tok([], ")" + rest)
  {
    SkipNothing(")" + rest);
  }

  lemma {:induction false} MoreValuesRead(values: seq<Literal>, rest: string)
    requires forall v | v in values :: WfLiteral(v)
    ensures MoreValues(Glue(Map(LiteralText, values), ", ") + ")" + rest)
            == Tok(Map(RoundedLiteral, values), ")" + rest)
  {
    hide Value, LiteralText, RoundedLiteral, MoreValues, WfLiteral;
    var glue := Glue(Map(LiteralText, values), ", ");
    if values == [] {
      assert glue + ")" + rest == ")" + rest;
      ListEnds(rest);
    } else {
      var others := Glue(Map(LiteralText, values[1..]), ", ");
      var tail := others + ")" + rest;
      MoreValuesRead(values[1..], rest);
      GlueFirst(LiteralText, values, ", ");
      ListDelimited(values[1..], rest);
      assert glue + ")" + rest == ", " + (LiteralText(values[0]) + tail);
      hide Glue, Map;
      NextValueRead(values[0], tail);
      MapFirst(values);
    }
  }

  lemma MapFirst(values: seq<Literal>)
    requires values != []
    ensures Map(RoundedLiteral, values) == [RoundedLiteral(values[0])] + Map(RoundedLiteral, values[1..])
  {
    hide RoundedLiteral;
  }

  lemma ListDelimited(values: seq<Literal>, rest: string)
    ensures Delimited(Glue(Map(LiteralText, values), ", ") + ")" + rest)
  {
    hide LiteralText;
    if values != [] { GlueFirst(LiteralText, values, ", "); }
  }

  lemma ValuesRead(values: seq<Literal>, rest: string)
    requires values != [] && forall v | v in values :: WfLiteral(v)
    ensures Values(Join(Map(LiteralText, values), ", ") + ")" + rest)
            == Tok(Map(RoundedLiteral, values), ")" + rest)
  {
    hide LiteralText, RoundedLiteral, Value;
    var texts := Map(LiteralText, values);
    JoinIsGlue(texts, ", ");
    assert texts[1..] == Map(LiteralText, values[1..]);
    var tail := Glue(texts[1..], ", ") + ")" + rest;
    assert Join(texts, ", ") + ")" + rest == LiteralText(values[0]) + tail;
    LiteralReads(values[0], tail);
    MoreValuesRead(values[1..], rest);
  }

  // ----- fields ------------------------------------------------------------

  lemma {:induction false} IdentRunStops(s: string, rest: string)
    requires forall i | 0 <= i < |s| :: IsIdentChar(s[i])
    requires rest == "" || !IsIdentChar(rest[0])
    ensures IdentRun(s + rest) == |s|
  {
    if s == "" {
      assert s + rest == rest;
    } else {
      assert (s + rest)[1..] == s[1..] + rest;
      IdentRunStops(s[1..], rest);
    }
  }

  lemma IdentifierReads(s: string, rest: string)
    requires IsIdentifier(s) && (rest == "" || !IsIdentChar(rest[0]))
    ensures Identifier(s + rest) == Tok(s, rest)
  {
    assert (s + rest)[1..] == s[1..] + rest;
    IdentRunStops(s[1..], rest);
  }

  lemma Regroup4(a: string, b: string, c: string, d: string)
    ensures a + b + c + d == a + (b + (c + d))
  {
  }

  lemma GlueBreaks(parts: seq<string>, rest: string)
    requires Delimited(rest)
    ensures var tail := Glue(parts, ".") + rest;
            tail == "" || !IsIdentChar(tail[0])
    ensures parts == [] ==> Glue(parts, ".") + rest == rest
    ensures parts != [] ==> Glue(parts, ".") + rest == "." + (parts[0] + (Glue(parts[1..], ".") + rest))
  {
    if parts == [] {
      assert Glue(parts, ".") + rest == rest;
    } else {
      Regroup4(".", parts[0], Glue(parts[1..], "."), rest);
    }
  }

  lemma {:induction false} SegmentsRead(parts: seq<string>, rest: string)
    requires forall i | 0 <= i < |parts| :: IsIdentifier(parts[i])
    requires Delimited(rest)
    ensures Segments(Glue(parts, ".") + rest) == Tok(parts, rest)
  {
    hide Identifier, IsIdentifier, Glue;
    GlueBreaks(parts, rest);
    if parts != [] {
      var tail := Glue(parts[1..], ".") + rest;
      SegmentsRead(parts[1..], rest);
      GlueBreaks(parts[1..], rest);
      IdentifierReads(parts[0], tail);
      assert ("." + (parts[0] + tail))[1..] == parts[0] + tail;
      assert [parts[0]] + parts[1..] == parts;
    }
  }

  lemma FieldReads(field: string, rest: string)
    requires WfField(field) && Delimited(rest)
    ensures Field(field + rest) == Tok(field, rest)
    ensures field != "" && IsIdentStart(field[0])
  {
    hide Identifier, Segments, FieldAllowed, Split;
    var parts := Split(field, '.');
    JoinSplit(field, '.');
    JoinIsGlue(parts, ".");
    var tail := Glue(parts[1..], ".") + rest;
    assert field + rest == parts[0] + tail;
    GlueBreaks(parts[1..], rest);
    IdentifierReads(parts[0], tail);
    SegmentsRead(parts[1..], rest);
    assert [parts[0]] + parts[1..] == parts;
  }

  /** What the field reader returns is a well-formed field. */
  lemma FieldWf(s: string)
    requires Field(s).Tok?
    ensures WfField(Field(s).value)
  {
    var first := Identifier(s);
    var parts := [first.value] + Segments(first.rest).value;
    forall i | 0 <= i < |parts| ensures IsIdentifier(parts[i]) && '.' !in parts[i] {
    }
    SplitJoin(parts, '.');
  }

  // ----- keywords and operators --------------------------------------------

  /** A keyword followed by a space. */
  lemma KeywordReads(word: string, rest: string)
    requires word in {"and", "or", "not", "in", "lt", "le", "gt", "ge"}
    ensures Keyword(word + " " + rest, word) == Some(" " + rest)
    ensures Keyword(" " + word + " " + rest, word) == Some(" " + rest)
  {
    var s := word + " " + rest;
    assert s[..|word|] == word && s[|word|..] == " " + rest;
    assert Lower(word) == word;
    assert " " + word + " " + rest == " " + s;
    SkipSpace(s);
  }

  lemma RangeReads(op: RangeOp, rest: string)
    ensures Operator(OpText(op) + " " + rest) == Tok(IsRange(op), " " + rest)
  {
    KeywordReads(OpText(op), rest);
    var s := OpText(op) + " " + rest;
    var two := s[..2];
    assert two == OpText(op);
    assert Lower(two) == two;
  }

  lemma EqReads(rest: string)
    ensures Operator("= " + rest) == Tok(IsEq, " " + rest)
    ensures Operator("!= " + rest) == Tok(IsNe, " " + rest)
  {
    assert ("= " + rest)[1..] == " " + rest;
    assert ("!= " + rest)[2..] == " " + rest;
  }
}
