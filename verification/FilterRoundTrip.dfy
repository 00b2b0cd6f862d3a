/** Parsing what was printed: a printed filter is read back as its canonical
    tree whenever it fits the limits, and refused as too large otherwise. */
module FilterRoundTrip {
  import opened Text
  import opened FilterAst
  import opened FilterPrinter
  import opened FilterLexer
  import opened FilterTokens
  import opened FilterGrammar
  import opened FilterCanon

  /** Outcome of reading a text with the given needs at the given depth and count. */
  function Verdict<T>(value: T, rest: string, depth: nat, leaves: nat, needDepth: nat, needLeaves: nat, lim: Limits): Out<T> {
    if depth + needDepth <= lim.depth && leaves + needLeaves <= lim.leaves
    then Got(value, rest, leaves + needLeaves)
    else TooLarge
  }

  /** Text after an operand of an And, an And itself, and a whole expression. */
  predicate EndsAnd(rest: string) { Delimited(rest) && Keyword(rest, "and").None? }

  predicate EndsExpr(rest: string) { rest == "" || rest[0] == ')' }

  lemma EndsExprEndsAll(rest: string)
    requires EndsExpr(rest)
    ensures EndsAnd(rest) && Keyword(rest, "or").None?
  {
    SkipNothing(rest);
    if rest != "" {
      assert LowerChar(rest[0]) == ')';
      LowerStarts(rest, "and");
      LowerStarts(rest, "or");
    }
  }

  /** A text that starts differently is no keyword. */
  lemma LowerStarts(s: string, word: string)
    requires s != "" && word != "" && !IsWs(s[0]) && LowerChar(s[0]) != word[0]
    ensures Keyword(s, word).None?
  {
    SkipNothing(s);
    if |word| <= |s| {
      assert Lower(s[..|word|])[0] == LowerChar(s[0]);
    }
  }

  // ----- comparisons -------------------------------------------------------

  /** A field starts with neither "n" nor a parenthesis. */
  lemma FieldStart(field: string)
    requires WfField(field)
    ensures field != "" && !IsWs(field[0]) && field[0] != '(' && LowerChar(field[0]) != 'n'
  {
    var parts := Split(field, '.');
    JoinSplit(field, '.');
    JoinIsGlue(parts, ".");
    assert field[0] == parts[0][0];
    assert parts[0] == "metadata" || parts[0] in VALID_FIELDS;
  }

  /** A text that starts like a field is read as a comparison. */
  lemma ComparisonNext(s: string, depth: nat, leaves: nat, lim: Limits)
    requires s != "" && !IsWs(s[0]) && s[0] != '(' && LowerChar(s[0]) != 'n'
    ensures NotExpr(s, depth, leaves, lim) == Comparison(s, leaves, lim)
  {
    hide Comparison;
    LowerStarts(s, "not");
    SkipNothing(s);
  }

  /** A field, an operator and any text that is read as a value. */
  lemma ValueComparisonReads(field: string, opText: string, op: Comparator, text: string, value: Literal, rest: string,
                             leaves: nat, lim: Limits)
    requires WfField(field) && text != "" && !IsWs(text[0]) && Value(text + rest) == Tok(value, rest)
    requires opText != "" && !IsWs(opText[0]) && Operator(opText + " " + (text + rest)) == Tok(op, " " + (text + rest))
    requires Keyword(opText + " " + (text + rest), "in").None?
    ensures Comparison(field + " " + opText + " " + text + rest, leaves, lim)
            == Counted(MakeComparison(field, op, value), rest, leaves, lim)
  {
    hide Field, Keyword, Operator, Value, WfField, SkipWs;
    var s2 := opText + " " + (text + rest);
    var s1 := " " + s2;
    assert field + " " + opText + " " + text + rest == field + s1;
    FieldReads(field, s1);
    SpaceSkips(s2);
    SpaceSkipsValue(text + rest);
  }

  lemma SpaceSkips(s: string)
    ensures Keyword(" " + s, "in") == Keyword(s, "in")
    ensures Operator(" " + s) == Operator(s)
  {
    SkipSpace(s);
    KeywordSkips(s, "in");
    KeywordSkips(" " + s, "in");
    OperatorSkips(s);
    OperatorSkips(" " + s);
  }

  lemma SpaceSkipsValue(s: string)
    ensures Value(" " + s) == Value(s)
  {
    hide StringLiteral, NumberOrTimestamp;
    SkipSpace(s);
  }

  lemma MapLength(values: seq<Literal>)
    ensures |Map(RoundedLiteral, values)| == |values|
  {
  }

  /** A list that is read as its values, in parentheses. */
  lemma InSetReads(field: string, list: string, values: seq<Literal>, rest: string, leaves: nat, lim: Limits)
    requires 1 <= |values| <= MAX_IN_SET && Values(list + ")" + rest) == Tok(values, ")" + rest)
    ensures InSet(field, " " + ("(" + (list + ")" + rest)), leaves, lim) == Counted(In(field, values), rest, leaves, lim)
  {
    hide Values, Expect, Counted;
    OpenReads(list + ")" + rest);
    CloseReads(rest);
  }

  lemma InText(field: string, list: string, rest: string)
    ensures field + " in (" + list + ")" + rest == field + (" in " + ("(" + (list + ")" + rest)))
  {
  }

  lemma ComparisonIn(s: string, field: string, s1: string, s2: string, leaves: nat, lim: Limits)
    requires Field(s) == Tok(field, s1) && Keyword(s1, "in") == Some(s2)
    ensures Comparison(s, leaves, lim) == InSet(field, s2, leaves, lim)
  {
    hide Field, Keyword, InSet, Operator;
  }

  lemma InListReads(field: string, list: string, values: seq<Literal>, rest: string, leaves: nat, lim: Limits)
    requires WfField(field) && 1 <= |values| <= MAX_IN_SET && Values(list + ")" + rest) == Tok(values, ")" + rest)
    ensures Comparison(field + " in (" + list + ")" + rest, leaves, lim) == Counted(In(field, values), rest, leaves, lim)
  {
    hide Comparison, Field, Keyword, InSet, WfField, Counted, Values;
    var text := "(" + (list + ")" + rest);
    InText(field, list, rest);
    FieldReads(field, " in " + text);
    KeywordReads("in", text);
    assert " " + "in" + " " + text == " in " + text;
    ComparisonIn(field + (" in " + text), field, " in " + text, " " + text, leaves, lim);
    InSetReads(field, list, values, rest, leaves, lim);
  }

  lemma InReads(field: string, values: seq<Literal>, rest: string, leaves: nat, lim: Limits)
    requires WfField(field) && 1 <= |values| <= MAX_IN_SET && forall v | v in values :: WfLiteral(v)
    ensures Comparison(field + " in (" + Join(Map(LiteralText, values), ", ") + ")" + rest, leaves, lim)
            == Counted(In(field, Map(RoundedLiteral, values)), rest, leaves, lim)
  {
    hide Comparison, Values, WfField, WfLiteral, Join, Counted, Map;
    ValuesRead(values, rest);
    MapLength(values);
    InListReads(field, Join(Map(LiteralText, values), ", "), Map(RoundedLiteral, values), rest, leaves, lim);
  }

  lemma OpenReads(rest: string)
    ensures Expect("(" + rest, '(') == Tok((), rest)
    ensures Expect(" " + ("(" + rest), '(') == Tok((), rest)
  {
    SkipNothing("(" + rest);
    SkipSpace("(" + rest);
    assert ("(" + rest)[1..] == rest;
  }

  lemma CloseReads(rest: string)
    ensures Expect(")" + rest, ')') == Tok((), rest)
  {
    SkipNothing(")" + rest);
    assert (")" + rest)[1..] == rest;
  }

  lemma SortedLiterals(values: seq<Literal>)
    requires forall v | v in values :: WfLiteral(v)
    ensures forall v | v in SortBy(LiteralText, values) :: WfLiteral(v)
  {
    hide WfLiteral;
    var sorted := SortBy(LiteralText, values);
    forall v | v in sorted ensures WfLiteral(v) {
      assert v in multiset(sorted);
    }
  }

  predicate IsLeaf(a: Node) { a.Eq? || a.Ne? || a.In? || a.Range? }

  lemma RangeIsNotIn(op: RangeOp, rest: string)
    ensures Keyword(OpText(op) + " " + rest, "in").None?
    ensures Keyword("= " + rest, "in").None?
    ensures Keyword("!= " + rest, "in").None?
  {
    LowerStarts(OpText(op) + " " + rest, "in");
    LowerStarts("= " + rest, "in");
    LowerStarts("!= " + rest, "in");
  }

  /** A printed comparison is read back, and counted. */
  lemma LeafReads(a: Node, context: nat, rest: string, leaves: nat, lim: Limits)
    requires Wf(a) && IsLeaf(a) && Delimited(rest)
    ensures Comparison(Print(a, context) + rest, leaves, lim) == Counted(Canon(a), rest, leaves, lim)
  {
    hide Comparison, WfField, WfLiteral, LiteralText, RoundedLiteral, Keyword, Operator, Value, Join, Counted;
    if !a.In? { LiteralReads(a.value, rest); }
    match a
    case Eq(field, value) =>
      EqReads(LiteralText(value) + rest);
      RangeIsNotIn(Lt, LiteralText(value) + rest);
      assert "=" + " " + (LiteralText(value) + rest) == "= " + (LiteralText(value) + rest);
      ValueComparisonReads(field, "=", IsEq, LiteralText(value), RoundedLiteral(value), rest, leaves, lim);
      assert field + " " + "=" + " " + LiteralText(value) + rest == Print(a, context) + rest;
    case Ne(field, value) =>
      EqReads(LiteralText(value) + rest);
      RangeIsNotIn(Lt, LiteralText(value) + rest);
      assert "!=" + " " + (LiteralText(value) + rest) == "!= " + (LiteralText(value) + rest);
      ValueComparisonReads(field, "!=", IsNe, LiteralText(value), RoundedLiteral(value), rest, leaves, lim);
      assert field + " " + "!=" + " " + LiteralText(value) + rest == Print(a, context) + rest;
    case Range(field, op, value) =>
      RangeReads(op, LiteralText(value) + rest);
      RangeIsNotIn(op, LiteralText(value) + rest);
      ValueComparisonReads(field, OpText(op), IsRange(op), LiteralText(value), RoundedLiteral(value), rest, leaves, lim);
    case In(field, values) =>
      SortedLiterals(values);
      InReads(field, SortBy(LiteralText, values), rest, leaves, lim);
  }

  lemma LeafStart(a: Node, context: nat)
    requires Wf(a) && IsLeaf(a)
    ensures var s := Print(a, context);
            s != "" && !IsWs(s[0]) && s[0] != '(' && LowerChar(s[0]) != 'n'
  {
    hide WfLiteral, LiteralText, Join;
    FieldStart(a.field);
  }

  // ----- whole trees -------------------------------------------------------

  /** A comparison or a negation, before anything that delimits it. */
  lemma {:induction false} ReadPlain(a: Node, context: nat, rest: string, depth: nat, leaves: nat, lim: Limits)
    requires Wf(a) && (IsLeaf(a) || a.Not?) && Delimited(rest) && depth <= lim.depth && leaves <= lim.leaves
    ensures NotExpr(Print(a, context) + rest, depth, leaves, lim)
            == Verdict(Canon(a), rest, depth, leaves, Depth(a, context), Leaves(a), lim)
    decreases Size(a), 0
  {
    if a.Not? {
      hide Wf, Canon, Leaves, Depth, Print;
      NotReads(a, context, rest, depth, leaves, lim);
      UnfoldNot(a, context);
      ReadNot(a.child, rest, depth, leaves, lim);
    } else {
      hide Comparison, Print, NotExpr;
      LeafStart(a, context);
      var s := Print(a, context) + rest;
      assert s[0] == Print(a, context)[0];
      ComparisonNext(s, depth, leaves, lim);
      LeafReads(a, context, rest, leaves, lim);
    }
  }

  lemma UnfoldNot(a: Node, context: nat)
    requires a.Not?
    ensures Wf(a) ==> Wf(a.child)
    ensures Canon(a) == Not(Canon(a.child))
    ensures Leaves(a) == Leaves(a.child)
    ensures Depth(a, context) == Depth(a.child, UNDER_NOT)
    ensures Size(a) == 1 + Size(a.child)
    ensures Print(a, context) == "not " + PlainText(a.child)
  {
  }

  lemma NotReads(a: Node, context: nat, rest: string, depth: nat, leaves: nat, lim: Limits)
    requires a.Not?
    ensures var child := NotExpr(PlainText(a.child) + rest, depth, leaves, lim);
            NotExpr(Print(a, context) + rest, depth, leaves, lim) ==
            if child.Got? then Got(Not(child.value), child.rest, child.leaves) else child
  {
    hide Keyword, Primary;
    var s := PlainText(a.child) + rest;
    KeywordReads("not", s);
    assert Print(a, context) + rest == "not" + " " + s;
    NotSkips(s, depth, leaves, lim);
  }

  lemma NotSkips(s: string, depth: nat, leaves: nat, lim: Limits)
    ensures NotExpr(" " + s, depth, leaves, lim) == NotExpr(s, depth, leaves, lim)
  {
    hide Keyword, Primary;
    SkipSpace(s);
    KeywordSkips(s, "not");
    KeywordSkips(" " + s, "not");
    PrimarySkips(s, depth, leaves, lim);
    PrimarySkips(" " + s, depth, leaves, lim);
  }

  /** Anything, as it stands under a Not. */
  lemma {:induction false} ReadNot(a: Node, rest: string, depth: nat, leaves: nat, lim: Limits)
    requires Wf(a) && Delimited(rest) && depth <= lim.depth && leaves <= lim.leaves
    ensures NotExpr(PlainText(a) + rest, depth, leaves, lim)
            == Verdict(Canon(a), rest, depth, leaves, Depth(a, UNDER_NOT), Leaves(a), lim)
    decreases Size(a), 5
  {
    hide NotExpr, Canon, Wf, Leaves, OrExpr, Print, Depth;
    if a.And? || a.Or? {
      UnfoldParentheses(a);
      ParenthesesRead(PrintFilter(a), rest, depth, leaves, lim);
      if depth + 1 <= lim.depth {
        ReadExpr(a, ")" + rest, depth + 1, leaves, lim);
        CloseReads(rest);
      }
    } else {
      ReadPlain(a, UNDER_NOT, rest, depth, leaves, lim);
    }
  }

  lemma UnfoldParentheses(a: Node)
    requires a.And? || a.Or?
    ensures PlainText(a) == "(" + PrintFilter(a) + ")"
    ensures Depth(a, UNDER_NOT) == 1 + Depth(a, TOP)
  {
  }

  lemma ParenthesesRead(inner: string, rest: string, depth: nat, leaves: nat, lim: Limits)
    ensures NotExpr("(" + inner + ")" + rest, depth, leaves, lim) ==
            if depth + 1 > lim.depth then TooLarge
            else
              var o := OrExpr(inner + (")" + rest), depth + 1, leaves, lim);
              if !o.Got? then o
              else
                var close := Expect(o.rest, ')');
                if close.Bad? then Syntax(close.rest) else Got(o.value, close.rest, o.leaves)
  {
    hide OrExpr, Expect, Comparison, Keyword;
    var s := "(" + inner + ")" + rest;
    assert s[0] == '(';
    LowerStarts(s, "not");
    SkipNothing(s);
    assert s[1..] == inner + (")" + rest);
    assert NotExpr(s, depth, leaves, lim) == Primary(s, depth, leaves, lim);
    var e := Expr(s[1..], depth, leaves, lim);
    assert e.IsFailure() ==> Primary(s, depth, leaves, lim) == e.PropagateFailure();
  }

  /** Anything but an Or, as it stands under an Or. */
  lemma {:induction false} ReadAnd(a: Node, rest: string, depth: nat, leaves: nat, lim: Limits)
    requires Wf(a) && !a.Or? && EndsAnd(rest) && depth <= lim.depth && leaves <= lim.leaves
    ensures AndExpr(OrText(a) + rest, depth, leaves, lim)
            == Verdict(Canon(a), rest, depth, leaves, Depth(a, UNDER_OR), Leaves(a), lim)
    decreases Size(a), 3
  {
    hide AndExpr, OrText, Verdict, EndsAnd, Canon, Wf, Leaves, Depth, Print, Size;
    if a.And? {
      ReadConjunction(a, rest, depth, leaves, lim);
    } else {
      ReadAndOne(a, rest, depth, leaves, lim);
    }
  }

  lemma {:induction false} ReadConjunction(a: Node, rest: string, depth: nat, leaves: nat, lim: Limits)
    requires Wf(a) && a.And? && EndsAnd(rest) && depth <= lim.depth && leaves <= lim.leaves
    ensures AndExpr(OrText(a) + rest, depth, leaves, lim)
            == Verdict(Canon(a), rest, depth, leaves, Depth(a, UNDER_OR), Leaves(a), lim)
    decreases Size(a), 2
  {
    hide Wf, WfAll, Leaves, LeavesAll, Canon, CanonAll, Depth, DepthAll, AndExpr, NotExpr, EndsAnd, AndTail,
         AndText, OrText, PlainText, Map, Glue, Verdict, Size, SizeAll, AndItems;
    var items := AndItems(a);
    ConjunctionFacts(a);
    AndTextSplits(a, rest);
    var tail := Glue(Map(PlainText, items[1..]), " and ") + rest;
    ReadNot(items[0], tail, depth, leaves, lim);
    if depth + Depth(items[0], UNDER_NOT) <= lim.depth && leaves + Leaves(items[0]) <= lim.leaves {
      ReadAndTail(items[1..], rest, depth, leaves + Leaves(items[0]), lim);
    }
    AndJoins(PlainText(items[0]) + tail, tail, rest, Canon(items[0]), CanonAll(items[1..]), depth, leaves,
             Depth(items[0], UNDER_NOT), Leaves(items[0]), DepthAll(items[1..], UNDER_NOT), LeavesAll(items[1..]), lim);
    assert AndExpr(PlainText(items[0]) + tail, depth, leaves, lim)
        == Verdict(Canon(a), rest, depth, leaves, Depth(a, UNDER_OR), Leaves(a), lim);
    assert AndExpr(OrText(a) + rest, depth, leaves, lim) == AndExpr(PlainText(items[0]) + tail, depth, leaves, lim);
  }

  /** A conjunction, measured by its first operand and the rest. */
  lemma ConjunctionFacts(a: Node)
    requires Wf(a) && a.And?
    ensures var items := AndItems(a);
            && |items| >= 2 && Wf(items[0]) && !items[0].And? && WfAll(items[1..])
            && (forall i | 0 <= i < |items[1..]| :: !items[1..][i].And?)
            && Size(items[0]) < Size(a) && SizeAll(items[1..]) < Size(a)
            && Leaves(a) == Leaves(items[0]) + LeavesAll(items[1..])
            && Depth(a, UNDER_OR) == Max(Depth(items[0], UNDER_NOT), DepthAll(items[1..], UNDER_NOT))
            && Canon(a) == And([Canon(items[0])] + CanonAll(items[1..]))
  {
    hide Wf, Leaves, Canon, Depth, Size;
    AndItemsFacts(a);
    UnfoldAnd(a);
  }

  /** An operand and a tail make a conjunction, if both fit. */
  lemma AndJoins(s: string, tail: string, rest: string, x: Node, xs: seq<Node>, depth: nat, leaves: nat,
                 d1: nat, l1: nat, dn: nat, ln: nat, lim: Limits)
    requires NotExpr(s, depth, leaves, lim) == Verdict(x, tail, depth, leaves, d1, l1, lim) && xs != []
    requires depth + d1 <= lim.depth && leaves + l1 <= lim.leaves ==>
               AndTail(tail, depth, leaves + l1, lim) == Verdict(xs, rest, depth, leaves + l1, dn, ln, lim)
    ensures AndExpr(s, depth, leaves, lim)
            == Verdict(And([x] + xs), rest, depth, leaves, Max(d1, dn), l1 + ln, lim)
  {
    hide NotExpr, AndTail;
  }

  /** Anything but a conjunction stands alone. */
  lemma {:induction false} ReadAndOne(a: Node, rest: string, depth: nat, leaves: nat, lim: Limits)
    requires Wf(a) && !a.Or? && !a.And? && EndsAnd(rest) && depth <= lim.depth && leaves <= lim.leaves
    ensures AndExpr(OrText(a) + rest, depth, leaves, lim)
            == Verdict(Canon(a), rest, depth, leaves, Depth(a, UNDER_OR), Leaves(a), lim)
    decreases Size(a), 1
  {
    hide NotExpr, Print, Canon, Wf, Leaves, Depth;
    ReadPlain(a, UNDER_OR, rest, depth, leaves, lim);
  }

  lemma UnfoldAnd(a: Node)
    requires a.And?
    ensures Canon(a) == And(CanonAll(AndItems(a)))
    ensures Depth(a, UNDER_OR) == Depth(a, UNDER_AND)
  {
  }

  /** The text of an And: its first operand, then the glued rest. */
  lemma AndTextSplits(a: Node, rest: string)
    requires Wf(a) && a.And? && |AndItems(a)| >= 1 && EndsAnd(rest)
    ensures var tail := Glue(Map(PlainText, AndItems(a)[1..]), " and ") + rest;
            OrText(a) + rest == PlainText(AndItems(a)[0]) + tail && Delimited(tail)
  {
    hide Wf, AndItems, Keyword, AndText, OrText, PlainText, Map, Glue, Join, Delimited;
    var items := AndItems(a);
    var texts := Map(PlainText, items);
    AndGlue(a);
    AndUnderOr(a);
    GlueIsJoin(texts, " and ");
    JoinIsGlue(texts, " and ");
    SameAfter(" and ", AndText(a), Join(texts, " and "));
    assert texts[1..] == Map(PlainText, items[1..]);
    Reassociate(texts[0], Glue(texts[1..], " and "), rest);
    GlueDelimits(texts[1..], rest);
  }

  lemma GlueDelimits(texts: seq<string>, rest: string)
    requires Delimited(rest)
    ensures Delimited(Glue(texts, " and ") + rest)
  {
    if texts == [] {
      assert Glue(texts, " and ") + rest == rest;
    }
  }

  lemma AndUnderOr(a: Node)
    requires a.And?
    ensures OrText(a) == AndText(a)
  {
  }

  lemma SameAfter(prefix: string, a: string, b: string)
    requires prefix + a == prefix + b
    ensures a == b
  {
    assert (prefix + a)[|prefix|..] == a;
    assert (prefix + b)[|prefix|..] == b;
  }

  /** A glued operand stands behind its keyword. */
  lemma GlueReads(key: Node -> string, items: seq<Node>, word: string, rest: string)
    requires items != []
    ensures var sep := " " + word + " ";
            Glue(Map(key, items), sep) + rest
            == " " + word + " " + (key(items[0]) + (Glue(Map(key, items[1..]), sep) + rest))
  {
    hide Glue, Map;
    var sep := " " + word + " ";
    GlueFirst(key, items, sep);
    var tail := Glue(Map(key, items[1..]), sep);
    Reassociate(sep, key(items[0]) + tail, rest);
    Reassociate(key(items[0]), tail, rest);
  }

  lemma {:induction false} ReadAndTail(items: seq<Node>, rest: string, depth: nat, leaves: nat, lim: Limits)
    requires WfAll(items) && EndsAnd(rest) && depth <= lim.depth && leaves <= lim.leaves
    ensures AndTail(Glue(Map(PlainText, items), " and ") + rest, depth, leaves, lim)
            == Verdict(CanonAll(items), rest, depth, leaves, DepthAll(items, UNDER_NOT), LeavesAll(items), lim)
    decreases SizeAll(items), 6
  {
    hide Wf, Leaves, Canon, Depth, NotExpr, Print, PlainText, Keyword, Size, Glue, Map, Delimited;
    if items == [] {
      GlueNothing(PlainText, " and ");
      assert "" + rest == rest;
    } else {
      var tail := Glue(Map(PlainText, items[1..]), " and ") + rest;
      var s := PlainText(items[0]) + tail;
      assert " " + "and" + " " == " and ";
      GlueReads(PlainText, items, "and", rest);
      KeywordReads("and", s);
      NotSkips(s, depth, leaves, lim);
      GlueDelimits(Map(PlainText, items[1..]), rest);
      ReadNot(items[0], tail, depth, leaves, lim);
      if depth + Depth(items[0], UNDER_NOT) <= lim.depth && leaves + Leaves(items[0]) <= lim.leaves {
        ReadAndTail(items[1..], rest, depth, leaves + Leaves(items[0]), lim);
      }
    }
  }

  /** Anything, as a whole expression. */
  lemma {:induction false} ReadExpr(a: Node, rest: string, depth: nat, leaves: nat, lim: Limits)
    requires Wf(a) && EndsExpr(rest) && depth <= lim.depth && leaves <= lim.leaves
    ensures OrExpr(PrintFilter(a) + rest, depth, leaves, lim)
            == Verdict(Canon(a), rest, depth, leaves, Depth(a, TOP), Leaves(a), lim)
    decreases Size(a), 4
  {
    EndsExprEndsAll(rest);
    TopIsUnderOr(a);
    if a.Or? {
      ReadOr(a, rest, depth, leaves, lim);
    } else {
      hide AndExpr, Print, Canon, Wf, Leaves, Depth, Keyword;
      ReadAnd(a, rest, depth, leaves, lim);
    }
  }

  lemma {:induction false} ReadOr(a: Node, rest: string, depth: nat, leaves: nat, lim: Limits)
    requires Wf(a) && a.Or? && EndsAnd(rest) && Keyword(rest, "or").None?
    requires depth <= lim.depth && leaves <= lim.leaves
    ensures OrExpr(OrText(a) + rest, depth, leaves, lim)
            == Verdict(Canon(a), rest, depth, leaves, Depth(a, UNDER_OR), Leaves(a), lim)
    decreases Size(a), 3
  {
    hide Wf, Leaves, Canon, Depth, AndExpr, Print, EndsAnd, OrTail, OrText, Keyword;
    var items := OrItems(a);
    OrItemsFacts(a);
    OrTextSplits(a, rest);
    var tail := Glue(Map(OrText, items[1..]), " or ") + rest;
    ReadAnd(items[0], tail, depth, leaves, lim);
    if depth + Depth(items[0], UNDER_OR) <= lim.depth && leaves + Leaves(items[0]) <= lim.leaves {
      ReadOrTail(items[1..], rest, depth, leaves + Leaves(items[0]), lim);
    }
    UnfoldOr(a);
  }

  lemma UnfoldOr(a: Node)
    requires a.Or?
    ensures Canon(a) == Or(CanonAll(OrItems(a)))
  {
  }

  lemma TopIsUnderOr(a: Node)
    ensures PrintFilter(a) == OrText(a) && Depth(a, TOP) == Depth(a, UNDER_OR)
  {
  }

  lemma OrTextSplits(a: Node, rest: string)
    requires Wf(a) && a.Or? && |OrItems(a)| >= 1 && EndsAnd(rest)
    ensures var tail := Glue(Map(OrText, OrItems(a)[1..]), " or ") + rest;
            OrText(a) + rest == OrText(OrItems(a)[0]) + tail && EndsAnd(tail)
  {
    hide Print, Wf, OrItems, Keyword, Map, Glue, Join, EndsAnd, OrText;
    var items := OrItems(a);
    var texts := Map(OrText, items);
    OrGlue(a);
    GlueIsJoin(texts, " or ");
    JoinIsGlue(texts, " or ");
    SameAfter(" or ", OrText(a), Join(texts, " or "));
    assert texts[1..] == Map(OrText, items[1..]);
    Reassociate(texts[0], Glue(texts[1..], " or "), rest);
    OrTailEndsAnd(texts[1..], rest);
  }

  lemma OrTailEndsAnd(texts: seq<string>, rest: string)
    requires EndsAnd(rest)
    ensures EndsAnd(Glue(texts, " or ") + rest)
  {
    var s := Glue(texts, " or ") + rest;
    if texts == [] {
      assert s == rest;
    } else {
      var t := "or " + (texts[0] + (Glue(texts[1..], " or ") + rest));
      assert s == " " + t;
      SkipSpace(t);
      LowerStarts(t, "and");
      KeywordSkips(t, "and");
      KeywordSkips(" " + t, "and");
    }
  }

  lemma {:induction false} ReadOrTail(items: seq<Node>, rest: string, depth: nat, leaves: nat, lim: Limits)
    requires WfAll(items) && EndsAnd(rest) && Keyword(rest, "or").None?
    requires forall i | 0 <= i < |items| :: !items[i].Or?
    requires depth <= lim.depth && leaves <= lim.leaves
    ensures OrTail(Glue(Map(OrText, items), " or ") + rest, depth, leaves, lim)
            == Verdict(CanonAll(items), rest, depth, leaves, DepthAll(items, UNDER_OR), LeavesAll(items), lim)
    decreases SizeAll(items), 6
  {
    hide Wf, Leaves, Canon, Depth, AndExpr, Print, OrText, Keyword, Size, Glue, Map, EndsAnd;
    if items == [] {
      GlueNothing(OrText, " or ");
      assert "" + rest == rest;
    } else {
      var tail := Glue(Map(OrText, items[1..]), " or ") + rest;
      var s := OrText(items[0]) + tail;
      assert " " + "or" + " " == " or ";
      GlueReads(OrText, items, "or", rest);
      KeywordReads("or", s);
      AndSkips(s, depth, leaves, lim);
      OrTailEndsAnd(Map(OrText, items[1..]), rest);
      ReadAnd(items[0], tail, depth, leaves, lim);
      if depth + Depth(items[0], UNDER_OR) <= lim.depth && leaves + Leaves(items[0]) <= lim.leaves {
        ReadOrTail(items[1..], rest, depth, leaves + Leaves(items[0]), lim);
      }
    }
  }

  lemma AndSkips(s: string, depth: nat, leaves: nat, lim: Limits)
    ensures AndExpr(" " + s, depth, leaves, lim) == AndExpr(s, depth, leaves, lim)
  {
    hide NotExpr, AndTail;
    NotSkips(s, depth, leaves, lim);
  }

  // ----- the theorem -------------------------------------------------------

  /** The printed text is within every limit of the parser. */
  predicate Fits(a: Node) {
    |PrintFilter(a)| <= MAX_INPUT_LENGTH && Depth(a, TOP) + 1 <= LIMITS.depth && Leaves(a) <= LIMITS.leaves
  }

  predicate Starts(s: string) { s != "" && !IsSpace(s[0]) }

  lemma PlainStarts(a: Node)
    requires Wf(a)
    ensures Starts(PlainText(a))
    ensures !a.And? && !a.Or? ==> OrText(a) == PlainText(a)
  {
    hide WfLiteral, LiteralText, Join;
    if IsLeaf(a) {
      FieldReads(a.field, "");
      assert PlainText(a)[0] == a.field[0];
    }
  }

  lemma AndStarts(a: Node)
    requires Wf(a) && !a.Or?
    ensures Starts(OrText(a))
  {
    hide Wf, Print, OrText, PlainText, AndText;
    if a.And? {
      AndItemsFacts(a);
      SkipNothing("");
      AndTextSplits(a, "");
      PlainStarts(AndItems(a)[0]);
      assert OrText(a) + "" == OrText(a);
    } else {
      PlainStarts(a);
    }
  }

  lemma PrintedIsNotBlank(a: Node)
    requires Wf(a)
    ensures !Blank(PrintFilter(a))
  {
    hide Wf, Print, OrText;
    TopIsUnderOr(a);
    if a.Or? {
      OrItemsFacts(a);
      OrTextSplits(a, "");
      AndStarts(OrItems(a)[0]);
      assert OrText(a) + "" == OrText(a);
    } else {
      AndStarts(a);
    }
    assert Starts(PrintFilter(a));
  }

  /** A comparison at the end of the input is a whole expression. */
  lemma OneComparison(s: string, a: Node)
    requires |s| <= MAX_INPUT_LENGTH && Starts(s) && NotExpr(s, 1, 0, LIMITS) == Got(a, "", 1)
    ensures Parse(s) == Success(a)
  {
    hide NotExpr, AndTail, OrTail;
    EmptyTails();
    assert AndExpr(s, 1, 0, LIMITS) == Got(a, "", 1);
    hide AndExpr;
    assert OrExpr(s, 1, 0, LIMITS) == Got(a, "", 1);
    hide OrExpr;
    assert SkipWs("") == "";
  }

  lemma EmptyTails()
    ensures AndTail("", 1, 1, LIMITS) == Got([], "", 1) && OrTail("", 1, 1, LIMITS) == Got([], "", 1)
  {
    EndsExprEndsAll("");
  }

  /** Printing and parsing: exactly the filters that fit come back, each as its
      canonical tree; all others are refused as too large. */
  lemma ParsePrinted(a: Node)
    requires Wf(a)
    ensures Parse(PrintFilter(a)) == if Fits(a) then Success(Canon(a)) else Failure(TOO_LARGE)
  {
    hide Wf, OrExpr, Print, Canon, Leaves, Depth;
    PrintedIsNotBlank(a);
    ReadExpr(a, "", 1, 0, LIMITS);
    assert PrintFilter(a) + "" == PrintFilter(a);
  }
}
