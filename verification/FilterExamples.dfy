/** Inputs on which the round trip fails, each with the family it belongs to, and
    inputs on which it might be expected to. */
module FilterExamples {
  import opened Text
  import opened FilterNumber
  import opened FilterAst
  import opened FilterPrinter
  import opened FilterLexer
  import opened FilterTokens
  import opened FilterGrammar
  import opened FilterCanon
  import opened FilterRoundTrip
  import opened FilterEquality
  import opened FilterStructural
  import opened FilterAccepted

  // ----- nested operands ----------------------------------------------------

  lemma ReadNestedAnd(x: Node, y: Node, z: Node)
    requires Wf(And([x, y])) && Wf(z)
    requires 1 + Depth(And([x, y]), UNDER_NOT) <= 32 && 1 + Depth(z, UNDER_NOT) <= 32
    requires Leaves(And([x, y])) + Leaves(z) <= 1024
    ensures var s := PlainText(And([x, y])) + (" and " + PlainText(z));
            OrExpr(s, 1, 0, LIMITS) == Got(And([Canon(And([x, y])), Canon(z)]), "", Leaves(And([x, y])) + Leaves(z))
  {
    hide Wf, Canon, Print, NotExpr, Leaves, Depth, Keyword, PlainText, AndTail, OrTail;
    var inner := And([x, y]);
    ReadNot(inner, " and " + PlainText(z), 1, 0, LIMITS);
    ReadLast(z, 1, Leaves(inner), LIMITS);
    assert [Canon(inner)] + [Canon(z)] == [Canon(inner), Canon(z)];
  }

  /** The law fails on "(x and y) and z": the parser keeps the inner And, the
      printer drops its parentheses, and the reparse is one flat And. */
  lemma NestedAndIsLost(x: Node, y: Node, z: Node, s: string)
    requires Wf(x) && Wf(y) && Wf(z)
    requires s == PlainText(And([x, y])) + (" and " + PlainText(z)) && |s| <= MAX_INPUT_LENGTH
    requires 1 + Depth(And([x, y]), UNDER_NOT) <= 32 && 1 + Depth(z, UNDER_NOT) <= 32
    requires Leaves(x) + Leaves(y) + Leaves(z) <= 1024
    ensures Parse(s).Success? && !StructuralEq(Parse(s).value, Canon(Parse(s).value)) && !RoundTripHolds(Parse(s).value)
  {
    hide Wf, Canon, StructuralEq, RoundTrips, Print, Parse, Leaves, Depth, PlainText, RoundTripHolds, Fits;
    var inner := And([x, y]);
    PairFacts(x, y);
    CanonFacts(inner);
    CanonFacts(z);
    PairFacts(Canon(inner), Canon(z));
    var a := And([Canon(inner), Canon(z)]);
    NestedAndParses(x, y, z, s);
    StructuralRoundTrip(a);
    RoundTripHoldsIff(a);
    NestedDoesNotRoundTrip(Canon(inner), Canon(z));
  }

  lemma NestedDoesNotRoundTrip(x: Node, y: Node)
    requires x.And?
    ensures !RoundTrips(And([x, y]))
  {
    hide Settled, Steady;
    assert x in And([x, y]).children;
  }

  /** The parser keeps the inner And. */
  lemma NestedAndParses(x: Node, y: Node, z: Node, s: string)
    requires Wf(x) && Wf(y) && Wf(z)
    requires s == PlainText(And([x, y])) + (" and " + PlainText(z)) && |s| <= MAX_INPUT_LENGTH
    requires 1 + Depth(And([x, y]), UNDER_NOT) <= 32 && 1 + Depth(z, UNDER_NOT) <= 32
    requires Leaves(x) + Leaves(y) + Leaves(z) <= 1024
    ensures Parse(s) == Success(And([Canon(And([x, y])), Canon(z)]))
  {
    hide Wf, Canon, Print, OrExpr, Leaves, Depth, PlainText;
    PairFacts(x, y);
    PlainStarts(And([x, y]));
    assert s[0] == PlainText(And([x, y]))[0];
    ReadNestedAnd(x, y, z);
  }

  const EXAMPLE_LEAF: Node := Eq("domain", NumberLit(Decimal(1, 0)))

  lemma ExampleLeafText(context: nat)
    ensures Print(EXAMPLE_LEAF, context) == "domain = 1"
    ensures Depth(EXAMPLE_LEAF, context) == 0 && Leaves(EXAMPLE_LEAF) == 1
  {
    assert Pow10(0) == 1;
    assert NumberText(Decimal(1, 0)) == "1";
  }

  lemma PairText(x: Node, t: string)
    requires Print(x, UNDER_AND) == t
    ensures PlainText(And([x, x])) == "(" + (t + " and " + t) + ")"
    ensures Depth(And([x, x]), UNDER_NOT) == 1 + Depth(x, UNDER_AND)
  {
    hide Print, Depth;
    var cs := [x, x];
    assert cs[1..] == [x] && cs[1..][1..] == [];
    var texts := PrintAll(cs, UNDER_AND);
    assert texts == [t, t];
    LeqTotal(t, t);
    SortOfSorted(texts);
    assert texts[1..] == [t];
    assert Join(texts, " and ") == t + " and " + t;
    UnfoldPair(cs);
    assert DepthAll(cs, UNDER_AND) == Depth(x, UNDER_AND) by { assert DepthAll(cs[1..], UNDER_AND) == Depth(x, UNDER_AND); }
  }

  lemma UnfoldPair(cs: seq<Node>)
    ensures PlainText(And(cs)) == "(" + Join(Sort(PrintAll(cs, UNDER_AND)), " and ") + ")"
    ensures Depth(And(cs), UNDER_NOT) == 1 + DepthAll(cs, UNDER_AND)
  {
  }

  lemma ExampleText(t: string)
    requires t == "domain = 1"
    ensures "(" + (t + " and " + t) + ")" + (" and " + t) == "(domain = 1 and domain = 1) and domain = 1"
  {
    assert t + " and " + t == "domain = 1 and domain = 1";
    assert "(" + "domain = 1 and domain = 1" + ")" == "(domain = 1 and domain = 1)";
  }

  /** One such input. */
  lemma NestedAndExample()
    ensures var s := "(domain = 1 and domain = 1) and domain = 1";
            Parse(s).Success? && !StructuralEq(Parse(s).value, Canon(Parse(s).value)) && !RoundTripHolds(Parse(s).value)
  {
    hide Parse, StructuralEq, Canon, Wf, Print, Depth, Leaves, PlainText, NumberText, RoundTripHolds;
    var t := Print(EXAMPLE_LEAF, UNDER_AND);
    ExampleLeafText(UNDER_AND);
    ExampleLeafText(UNDER_NOT);
    WfExample(NumberLit(Decimal(1, 0)));
    PairText(EXAMPLE_LEAF, t);
    UnfoldPlain(EXAMPLE_LEAF);
    ExampleText(t);
    var s := "(" + (t + " and " + t) + ")" + (" and " + t);
    assert |s| <= 100;
    NestedAndIsLost(EXAMPLE_LEAF, EXAMPLE_LEAF, EXAMPLE_LEAF, s);
  }

  lemma UnfoldPlain(a: Node)
    ensures PlainText(a) == Print(a, UNDER_NOT)
  {
  }

  lemma DomainIsField()
    ensures WfField("domain")
  {
    SplitNoSep("domain", '.');
  }

  lemma WfExample(value: Literal)
    requires WfLiteral(value)
    ensures Wf(Eq("domain", value))
  {
    hide WfLiteral, WfField;
    DomainIsField();
  }

  /** " and z" at the end of the input. */
  lemma ReadLast(z: Node, depth: nat, leaves: nat, lim: Limits)
    requires Wf(z) && depth + Depth(z, UNDER_NOT) <= lim.depth && leaves + Leaves(z) <= lim.leaves
    ensures AndTail(" and " + PlainText(z), depth, leaves, lim) == Got([Canon(z)], "", leaves + Leaves(z))
    ensures OrTail("", depth, leaves + Leaves(z), lim) == Got([], "", leaves + Leaves(z))
  {
    hide Wf, Canon, Print, NotExpr, Leaves, Depth, PlainText, AndTail;
    EndsExprEndsAll("");
    var items := [z];
    assert items[1..] == [];
    assert Map(PlainText, items) == [PlainText(z)];
    GlueIsJoin([PlainText(z)], " and ");
    assert Glue(Map(PlainText, items), " and ") + "" == " and " + PlainText(z);
    assert CanonAll(items) == [Canon(z)];
    assert DepthAll(items, UNDER_NOT) == Depth(z, UNDER_NOT);
    assert LeavesAll(items) == Leaves(z);
    ReadAndTail(items, "", depth, leaves, lim);
  }

  lemma PairFacts(x: Node, y: Node)
    requires Wf(x) && Wf(y)
    ensures Wf(And([x, y])) && Leaves(And([x, y])) == Leaves(x) + Leaves(y)
  {
    var cs := [x, y];
    assert cs[1..] == [y] && cs[1..][1..] == [];
    assert LeavesAll(cs[1..][1..]) == 0;
    assert LeavesAll(cs[1..]) == Leaves(y);
  }

  // ----- numbers that do not survive ---------------------------------------

  /** Every text that is read as a number is accepted as one, at its full value:
      with or without a sign, a fraction and an exponent. */
  lemma NumeralIsAccepted(text: string, d: Decimal)
    requires Number(text) == Tok(NumberLit(d), "") && 9 + |text| <= MAX_INPUT_LENGTH
    ensures Parse("domain = " + text) == Success(Eq("domain", NumberLit(d)))
  {
    hide Comparison, NotExpr, Value, Number;
    NumeralCompares(text, d);
    var s := "domain = " + text;
    ComparisonNext(s, 1, 0, LIMITS);
    OneComparison(s, Eq("domain", NumberLit(d)));
  }

  lemma NumeralCompares(text: string, d: Decimal)
    requires Number(text) == Tok(NumberLit(d), "")
    ensures Comparison("domain = " + text, 0, LIMITS) == Got(Eq("domain", NumberLit(d)), "", 1)
  {
    hide Comparison, Value, Number, Operator, Keyword, WfField, SkipWs;
    NumeralIsValue(text, d);
    DomainIsField();
    EqReads(text + "");
    RangeIsNotIn(Lt, text + "");
    NumeralText(text);
    ValueComparisonReads("domain", "=", IsEq, text, NumberLit(d), "", 0, LIMITS);
  }

  lemma NumeralText(text: string)
    ensures "=" + " " + (text + "") == "= " + (text + "")
    ensures "domain" + " " + "=" + " " + text + "" == "domain = " + text
  {
    assert "domain" + " " + "=" + " " == "domain = ";
  }

  lemma NumeralIsValue(text: string, d: Decimal)
    requires Number(text) == Tok(NumberLit(d), "")
    ensures text != "" && !IsWs(text[0]) && Value(text + "") == Tok(NumberLit(d), "") && WfLiteral(NumberLit(d))
  {
    hide TimestampLength;
    NumberIsNoDate(text);
    NumeralStarts(text);
    assert text + "" == text;
    hide Number;
    SkipNothing(text);
  }

  lemma NumeralStarts(text: string)
    requires Number(text).Tok?
    ensures text != "" && (text[0] == '-' || IsDigit(text[0]))
  {
    hide FractionPart, ExponentPart, NumeralValue;
  }

  /** Zero, or a number that a double holds without overflow or underflow: its
      leading digit stands between 10^-307 and 10^307. */
  predicate InFloatRange(d: Decimal) {
    d.mantissa == 0 || -307 <= |NatText(Abs(d.mantissa))| - 1 + d.exponent <= 307
  }

  /** For every such input, what is lost is exactly what printing does to the
      number. */
  lemma NumeralRoundTrip(text: string, d: Decimal)
    requires Number(text) == Tok(NumberLit(d), "") && 9 + |text| <= MAX_INPUT_LENGTH && InFloatRange(d)
    ensures var r := Parse("domain = " + text);
            && r.Success?
            && (RoundTripHolds(r.value) <==> Fits(r.value) && PrintsExactly(d))
            && (ReprintHolds(r.value) <==> Fits(r.value) && (d.IsInteger() || BelowMillion(Rounded(d))))
  {
    hide Parse, Number, StructuralEq, Canon, Print, PrintFilter, NumeralValue, BelowMillion, Rounded, NumberText,
         RoundTripHolds, ReprintHolds, Fits;
    NumeralIsAccepted(text, d);
    var a := Eq("domain", NumberLit(d));
    NumeralIsValue(text, d);
    WfExample(NumberLit(d));
    RoundTripHoldsIff(a);
    ReprintHoldsIff(a);
    SteadyNumberIff(d);
  }

  lemma LongNumberReads()
    ensures Number("1234567.5") == Tok(NumberLit(NumeralValue(false, "1234567", "5", 0)), "")
  {
    hide Number, NumeralValue;
    var whole, fraction := "1234567", "5";
    assert AllDigits(whole) && AllDigits(fraction);
    var text := whole + PointText(fraction) + "";
    NumeralReads(text, false, whole, fraction, "", 0, "");
    assert Sign(false) + text + "" == "1234567.5";
  }

  /** One such input: the value is accepted, printed as 1.23457e+06, and read back
      as 1234570. */
  lemma LongNumberExample()
    ensures var s := "domain = 1234567.5";
            && Parse(s) == Success(Eq("domain", NumberLit(Decimal(12345675, -1))))
            && Canon(Parse(s).value) == Eq("domain", NumberLit(Decimal(123457, 1)))
            && !RoundTripHolds(Parse(s).value) && !ReprintHolds(Parse(s).value)
  {
    hide Parse, StructuralEq, Print, PrintFilter, NumberText, RoundTripHolds, ReprintHolds, Number, Fits;
    LongNumberReads();
    LongNumber();
    LongNumberInRange();
    assert "domain = " + "1234567.5" == "domain = 1234567.5";
    NumeralIsAccepted("1234567.5", Decimal(12345675, -1));
    NumeralRoundTrip("1234567.5", Decimal(12345675, -1));
  }

  lemma LongNumberInRange()
    ensures InFloatRange(Decimal(12345675, -1))
  {
    hide NatText;
    LongNumberLength();
  }

  lemma LongNumber()
    ensures NumeralValue(false, "1234567", "5", 0) == Decimal(12345675, -1)
    ensures Rounded(Decimal(12345675, -1)) == Decimal(123457, 1)
    ensures !PrintsExactly(Decimal(12345675, -1)) && !BelowMillion(Decimal(123457, 1))
  {
    hide NatText, Pow10, NatValue;
    LongNumberDigits();
    assert "1234567" + "5" == "12345675";
    LongNumberLength();
    assert RoundAt(12345675, 2) == 123457;
    hide RoundAt;
    assert RoundSix(12345675) == Decimal(123457, 2);
  }

  lemma LongNumberLength()
    ensures |NatText(12345675)| == 8 && Pow10(2) == 100 && Pow10(1) == 10
  {
    hide NatText;
    SixDigits();
    assert Pow10(7) == 10000000 && Pow10(8) == 100000000;
    assert Pow10(1) == 10 * Pow10(0) && Pow10(2) == 10 * Pow10(1);
    NatTextLength(12345675, 8);
    NatTextLength(12345675, 7);
  }

  lemma LongNumberDigits()
    ensures NatValue("12345675") == 12345675
  {
    assert NatValue("1") == 1 by { assert NatValue("") == 0 && "1"[..0] == ""; }
    assert NatValue("12") == 12 by { assert "12"[..1] == "1"; }
    assert NatValue("123") == 123 by { assert "123"[..2] == "12"; }
    assert NatValue("1234") == 1234 by { assert "1234"[..3] == "123"; }
    assert NatValue("12345") == 12345 by { assert "12345"[..4] == "1234"; }
    assert NatValue("123456") == 123456 by { assert "123456"[..5] == "12345"; }
    assert NatValue("1234567") == 1234567 by { assert "1234567"[..6] == "123456"; }
    assert "12345675"[..7] == "1234567";
  }

  // ----- texts that grow ----------------------------------------------------

  function Copies<T>(x: T, n: nat): seq<T> { if n == 0 then [] else [x] + Copies(x, n - 1) }

  lemma {:induction false} CopiesFacts<T>(x: T, n: nat)
    ensures |Copies(x, n)| == n && forall y | y in Copies(x, n) :: y == x
  {
    if n > 0 { CopiesFacts(x, n - 1); }
  }

  lemma {:induction false} MapCopies<T, U>(f: T -> U, x: T, n: nat)
    ensures Map(f, Copies(x, n)) == Copies(f(x), n)
  {
    if n > 0 { MapCopies(f, x, n - 1); }
  }

  lemma SortCopies<T>(key: T -> string, x: T, n: nat)
    ensures SortBy(key, Copies(x, n)) == Copies(x, n)
  {
    var cs, sorted := Copies(x, n), SortBy(key, Copies(x, n));
    CopiesFacts(x, n);
    forall i | 0 <= i < n ensures sorted[i] == cs[i] {
      assert sorted[i] in multiset(sorted) && multiset(sorted) == multiset(cs);
      assert sorted[i] in cs && cs[i] in cs;
    }
  }

  lemma {:induction false} GlueCopies(text: string, n: nat, sep: string)
    ensures |Glue(Copies(text, n), sep)| == n * (|sep| + |text|)
  {
    if n > 0 {
      GlueCopies(text, n - 1, sep);
      assert Copies(text, n)[1..] == Copies(text, n - 1);
    }
  }

  lemma JoinCopies(text: string, n: nat, sep: string)
    requires n >= 1
    ensures |Join(Copies(text, n), sep)| == n * (|sep| + |text|) - |sep|
  {
    CopiesFacts(text, n);
    GlueIsJoin(Copies(text, n), sep);
    GlueCopies(text, n, sep);
  }

  /** A value behind a comma. */
  lemma CommaReads(v: string, value: Literal, tail: string)
    requires Value(v + tail) == Tok(value, tail)
    ensures MoreValues("," + (v + tail))
            == if MoreValues(tail).Bad? then Bad(MoreValues(tail).rest)
               else Tok([value] + MoreValues(tail).value, MoreValues(tail).rest)
  {
    hide Value;
    var s := "," + (v + tail);
    SkipNothing(s);
    assert s[1..] == v + tail;
  }

  lemma CopiesNext<T>(x: T, n: nat)
    requires n >= 1
    ensures Copies(x, n) != [] && Copies(x, n)[0] == x && Copies(x, n)[1..] == Copies(x, n - 1)
  {
  }

  lemma GlueMore(v: string, n: nat, rest: string)
    requires n >= 1
    ensures Glue(Copies(v, n), ",") + rest == "," + (v + (Glue(Copies(v, n - 1), ",") + rest))
  {
    hide Copies;
    CopiesNext(v, n);
    var glue := Glue(Copies(v, n - 1), ",");
    assert Glue(Copies(v, n), ",") == "," + v + glue;
    hide Glue;
    Reassociate("," + v, glue, rest);
    Reassociate(",", v, glue + rest);
  }

  lemma GlueDelimited(v: string, n: nat, rest: string)
    requires Delimited(rest)
    ensures Delimited(Glue(Copies(v, n), ",") + rest)
  {
    if n > 0 { GlueMore(v, n, rest); } else { assert Glue(Copies(v, 0), ",") + rest == rest; }
  }

  lemma NoMoreRead(v: string, rest: string)
    ensures Glue(Copies(v, 0), ",") + (")" + rest) == ")" + rest && MoreValues(")" + rest) == Tok([], ")" + rest)
  {
    SkipNothing(")" + rest);
  }

  /** Copies of a string behind commas alone. */
  lemma {:induction false} TightMoreRead(text: string, n: nat, rest: string)
    requires |text| <= MAX_STRING
    ensures MoreValues(Glue(Copies(LiteralText(StringLit(text)), n), ",") + (")" + rest))
            == Tok(Copies(StringLit(text), n), ")" + rest)
  {
    hide Value, LiteralText, MoreValues, Glue;
    var v := LiteralText(StringLit(text));
    if n > 0 {
      var tail := Glue(Copies(v, n - 1), ",") + (")" + rest);
      TightMoreRead(text, n - 1, rest);
      GlueMore(v, n, ")" + rest);
      GlueDelimited(v, n - 1, ")" + rest);
      StringCopyReads(text, tail);
      CommaReads(v, StringLit(text), tail);
    } else {
      NoMoreRead(v, rest);
    }
  }

  lemma StringCopyReads(text: string, rest: string)
    requires |text| <= MAX_STRING && Delimited(rest)
    ensures Value(LiteralText(StringLit(text)) + rest) == Tok(StringLit(text), rest)
  {
    LiteralReads(StringLit(text), rest);
  }

  function TightList(text: string, n: nat): string { Join(Copies(LiteralText(StringLit(text)), n), ",") }

  lemma TightListReads(text: string, n: nat)
    requires |text| <= MAX_STRING && n >= 1
    ensures Values(TightList(text, n) + ")" + "") == Tok(Copies(StringLit(text), n), ")" + "")
  {
    hide Value, LiteralText, MoreValues;
    var v := LiteralText(StringLit(text));
    CopiesFacts(v, n);
    JoinIsGlue(Copies(v, n), ",");
    assert Copies(v, n)[1..] == Copies(v, n - 1) && Copies(v, n)[0] == v;
    var tail := Glue(Copies(v, n - 1), ",") + (")" + "");
    assert TightList(text, n) + ")" + "" == v + tail;
    GlueDelimited(v, n - 1, ")" + "");
    StringCopyReads(text, tail);
    TightMoreRead(text, n - 1, "");
  }

  /** A set of equal strings. */
  function CopySet(text: string, n: nat): Node { In("url", Copies(StringLit(text), n)) }

  function CopyInput(text: string, n: nat): string { "url in (" + TightList(text, n) + ")" }

  lemma CopyInputCompares(text: string, n: nat)
    requires |text| <= MAX_STRING && 1 <= n <= MAX_IN_SET
    ensures Comparison(CopyInput(text, n), 0, LIMITS) == Got(CopySet(text, n), "", 1) && Wf(CopySet(text, n))
  {
    hide Comparison, Values, TightList, Copies, Split, Keyword;
    UrlIsField();
    CopiesFacts(StringLit(text), n);
    TightListReads(text, n);
    InListReads("url", TightList(text, n), Copies(StringLit(text), n), "", 0, LIMITS);
    assert "url" + " in (" + TightList(text, n) + ")" + "" == CopyInput(text, n);
  }

  lemma UrlIsField()
    ensures WfField("url")
  {
    SplitNoSep("url", '.');
  }

  lemma CopyInputParses(text: string, n: nat)
    requires |text| <= MAX_STRING && 1 <= n <= MAX_IN_SET && |CopyInput(text, n)| <= MAX_INPUT_LENGTH
    ensures Parse(CopyInput(text, n)) == Success(CopySet(text, n)) && Wf(CopySet(text, n))
  {
    hide Comparison, NotExpr, TightList, CopySet;
    CopyInputCompares(text, n);
    var s := CopyInput(text, n);
    ComparisonNext(s, 1, 0, LIMITS);
    OneComparison(s, CopySet(text, n));
  }

  lemma CopyTextGrows(text: string, n: nat)
    requires n >= 1
    ensures |PrintFilter(CopySet(text, n))| == |CopyInput(text, n)| + n - 1
    ensures |CopyInput(text, n)| == n * (|LiteralText(StringLit(text))| + 1) + 8
  {
    hide LiteralText, SortBy, Map, Join, Copies;
    var lit := StringLit(text);
    SortCopies(LiteralText, lit, n);
    MapCopies(LiteralText, lit, n);
    JoinCopies(LiteralText(lit), n, ", ");
    JoinCopies(LiteralText(lit), n, ",");
    CopySetPrints(text, n);
    var l := |LiteralText(lit)|;
    assert n * (2 + l) == n * (1 + l) + n;
  }

  lemma CopySetPrints(text: string, n: nat)
    ensures PrintFilter(CopySet(text, n))
            == "url in (" + Join(Map(LiteralText, SortBy(LiteralText, Copies(StringLit(text), n))), ", ") + ")"
  {
    hide LiteralText, SortBy, Map, Join, Copies;
    assert "url" + " in (" == "url in (";
  }

  lemma CopySetFacts(text: string, n: nat)
    ensures RoundTrips(CopySet(text, n)) && Settled(CopySet(text, n)) && Steady(CopySet(text, n))
    ensures Depth(CopySet(text, n), TOP) == 0 && Leaves(CopySet(text, n)) == 1
  {
    CopiesFacts(StringLit(text), n);
  }

  /** A set of n equal strings, separated by commas alone, is printed with n - 1
      spaces more; if it is then too long, the round trip fails for that alone. */
  lemma GrowingSets(text: string, n: nat)
    requires |text| <= MAX_STRING && 1 <= n <= MAX_IN_SET && |CopyInput(text, n)| <= MAX_INPUT_LENGTH
    ensures Parse(CopyInput(text, n)) == Success(CopySet(text, n)) && RoundTrips(CopySet(text, n))
    ensures RoundTripHolds(CopySet(text, n)) <==> |CopyInput(text, n)| + n - 1 <= MAX_INPUT_LENGTH
    ensures ReprintHolds(CopySet(text, n)) <==> |CopyInput(text, n)| + n - 1 <= MAX_INPUT_LENGTH
  {
    hide Parse, CopySet, CopyInput, RoundTrips, Settled, Steady, PrintFilter, RoundTripHolds, ReprintHolds, Wf, Depth, Leaves;
    CopyInputParses(text, n);
    CopyTextGrows(text, n);
    CopySetFacts(text, n);
    RoundTripHoldsIff(CopySet(text, n));
    ReprintHoldsIff(CopySet(text, n));
  }

  /** One such input, of 256 strings of 60 characters: 16136 characters are
      accepted, and the 16391 that are printed for them are not. */
  lemma GrowingExample()
    ensures var text := Copies('x', 60);
            var s := CopyInput(text, 256);
            && |s| == 16136 && Parse(s) == Success(CopySet(text, 256)) && RoundTrips(CopySet(text, 256))
            && Parse(PrintFilter(CopySet(text, 256))) == Failure(TOO_LARGE)
            && !RoundTripHolds(CopySet(text, 256)) && !ReprintHolds(CopySet(text, 256))
  {
    hide Parse, CopySet, CopyInput, RoundTrips, PrintFilter, RoundTripHolds, ReprintHolds, Wf, Canon, Copies, LiteralText;
    var text := Copies('x', 60);
    PlainLength('x', 60);
    CopyTextGrows(text, 256);
    CopiesFacts('x', 60);
    GrowingSets(text, 256);
    CopyInputParses(text, 256);
    ParsePrinted(CopySet(text, 256));
  }

  /** A string without quotes and backslashes is printed as it is. */
  lemma {:induction false} PlainLength(c: char, n: nat)
    requires c != '\\' && c != '"'
    ensures Escape(Copies(c, n)) == Copies(c, n)
    ensures |LiteralText(StringLit(Copies(c, n)))| == n + 2
  {
    PlainReplace(c, n, '\\', "\\\\");
    PlainReplace(c, n, '"', "\\\"");
    CopiesFacts(c, n);
  }

  lemma {:induction false} PlainReplace(c: char, n: nat, d: char, text: string)
    requires c != d
    ensures Replace(Copies(c, n), d, text) == Copies(c, n)
  {
    if n > 0 {
      PlainReplace(c, n - 1, d, text);
      assert Copies(c, n)[1..] == Copies(c, n - 1);
    }
  }

  // ----- negations -----------------------------------------------------------

  function Nots(n: nat, a: Node): Node { if n == 0 then a else Not(Nots(n - 1, a)) }

  function NotText(n: nat, s: string): string { if n == 0 then s else "not " + NotText(n - 1, s) }

  lemma OneNot(a: Node)
    ensures Wf(Not(a)) == Wf(a) && Canon(Not(a)) == Not(Canon(a)) && Leaves(Not(a)) == Leaves(a)
    ensures forall context: nat :: Print(Not(a), context) == "not " + PlainText(a)
    ensures forall context: nat :: Depth(Not(a), context) == Depth(a, UNDER_NOT)
  {
  }

  lemma {:induction false} NotsFacts(n: nat, a: Node)
    ensures Wf(Nots(n, a)) == Wf(a) && Canon(Nots(n, a)) == Nots(n, Canon(a)) && Leaves(Nots(n, a)) == Leaves(a)
    ensures Print(Nots(n, a), UNDER_NOT) == NotText(n, PlainText(a))
    ensures Depth(Nots(n, a), UNDER_NOT) == Depth(a, UNDER_NOT)
  {
    hide Wf, Canon, Leaves, Print, Depth;
    if n > 0 {
      NotsFacts(n - 1, a);
      OneNot(Nots(n - 1, a));
    }
  }

  /** However many "not" stand before a filter, they are no nesting levels: the
      text is accepted whenever it is short enough and the filter itself fits. */
  lemma NotsDoNotNest(n: nat, a: Node)
    requires Wf(a) && n >= 1
    ensures var s := NotText(n, PlainText(a));
            Parse(s) == if |s| <= MAX_INPUT_LENGTH && Depth(a, UNDER_NOT) + 1 <= 32 && Leaves(a) <= 1024
                        then Success(Nots(n, Canon(a))) else Failure(TOO_LARGE)
  {
    hide Parse, Wf, Canon, Leaves, Print, Depth;
    NotsFacts(n - 1, a);
    OneNot(Nots(n - 1, a));
    ParsePrinted(Nots(n, a));
  }
}
