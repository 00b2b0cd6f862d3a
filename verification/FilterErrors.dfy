/** Which inputs are refused, and where: the scan decides both. A syntax error is
    reported exactly where the scan stops, and an input is too large exactly if
    it is too long or the scan goes over a limit. */
module FilterErrors {
  import opened Text
  import opened FilterAst
  import opened FilterLexer
  import opened FilterGrammar
  import opened FilterScan

  // ----- what is left of a text --------------------------------------------

  predicate IsTail(t: string, s: string) { |t| <= |s| && s[|s| - |t|..] == t }

  lemma TailOfTail(t: string, u: string, s: string)
    requires IsTail(t, u) && IsTail(u, s)
    ensures IsTail(t, s)
  {
    assert s[|s| - |u|..][|u| - |t|..] == s[|s| - |t|..];
  }

  lemma CutIsTail(s: string, n: nat)
    requires n <= |s|
    ensures IsTail(s[n..], s)
  {
  }

  lemma WholeIsTail(s: string)
    ensures IsTail(s, s)
  {
  }

  // ----- every token leaves a tail -----------------------------------------

  lemma {:induction false} SkipTail(s: string)
    ensures IsTail(SkipWs(s), s)
  {
    if s != "" && IsWs(s[0]) {
      SkipTail(s[1..]);
      TailOfTail(SkipWs(s[1..]), s[1..], s);
    }
  }

  /** Cutting after skipping whitespace. */
  lemma SkippedCut(s: string, n: nat)
    requires n <= |SkipWs(s)|
    ensures IsTail(SkipWs(s)[n..], s) && IsTail(SkipWs(s), s)
  {
    SkipTail(s);
    CutIsTail(SkipWs(s), n);
    TailOfTail(SkipWs(s)[n..], SkipWs(s), s);
  }

  lemma KeywordTail(s: string, word: string)
    requires Keyword(s, word).Some?
    ensures IsTail(Keyword(s, word).value, s)
  {
    SkippedCut(s, |word|);
  }

  lemma ExpectTail(s: string, c: char)
    ensures IsTail(Expect(s, c).rest, s)
  {
    SkippedCut(s, if Expect(s, c).Tok? then 1 else 0);
  }

  lemma IdentifierTail(s: string)
    ensures IsTail(Identifier(s).rest, s)
  {
    SkippedCut(s, if Identifier(s).Tok? then 1 + IdentRun(SkipWs(s)[1..]) else 0);
  }

  lemma {:induction false} SegmentsTail(s: string)
    ensures IsTail(Segments(s).rest, s)
    decreases |s|
  {
    hide Identifier;
    if s != "" && s[0] == '.' {
      CutIsTail(s, 1);
      IdentifierTail(s[1..]);
      var first := Identifier(s[1..]);
      TailOfTail(first.rest, s[1..], s);
      if first.Tok? {
        SegmentsTail(first.rest);
        TailOfTail(Segments(first.rest).rest, first.rest, s);
      }
    }
  }

  lemma FieldTail(s: string)
    ensures IsTail(Field(s).rest, s)
  {
    hide Identifier, Segments, FieldAllowed, Join;
    IdentifierTail(s);
    if Identifier(s).Tok? {
      SegmentsTail(Identifier(s).rest);
      TailOfTail(Segments(Identifier(s).rest).rest, Identifier(s).rest, s);
    }
  }

  lemma OperatorRest(s: string)
    ensures var t, r := SkipWs(s), Operator(s).rest;
            || r == t
            || (|t| >= 1 && r == t[1..])
            || (|t| >= 2 && r == t[2..])
            || AfterWord(t, "lt", r) || AfterWord(t, "le", r) || AfterWord(t, "gt", r) || AfterWord(t, "ge", r)
  {
    hide Keyword, SkipWs;
  }

  predicate AfterWord(t: string, word: string, r: string) { Keyword(t, word) == Some(r) }

  lemma OperatorTail(s: string)
    ensures IsTail(Operator(s).rest, s)
  {
    hide Keyword, Operator, SkipWs, IsTail;
    var t := SkipWs(s);
    OperatorRest(s);
    SkippedCut(s, 0);
    if |t| >= 1 { SkippedCut(s, 1); }
    if |t| >= 2 { SkippedCut(s, 2); }
    WordTail(s, "lt");
    WordTail(s, "le");
    WordTail(s, "gt");
    WordTail(s, "ge");
  }

  lemma WordTail(s: string, word: string)
    ensures Keyword(SkipWs(s), word).Some? ==> IsTail(Keyword(SkipWs(s), word).value, s)
  {
    if Keyword(SkipWs(s), word).Some? {
      SkipTail(s);
      KeywordTail(SkipWs(s), word);
      TailOfTail(Keyword(SkipWs(s), word).value, SkipWs(s), s);
    }
  }

  lemma {:induction false} BodyTail(s: string)
    ensures IsTail(StringBody(s).rest, s)
  {
    if s == "" || s[0] == '"' || (s[0] == '\\' && |s| == 1) {
    } else {
      var n := if s[0] == '\\' then 2 else 1;
      BodyTail(s[n..]);
      TailOfTail(StringBody(s[n..]).rest, s[n..], s);
    }
  }

  lemma DigitsTail(s: string)
    ensures IsTail(Digits(s).rest, s)
  {
  }

  lemma FractionTail(s: string)
    ensures IsTail(FractionPart(s).rest, s)
  {
    hide Digits;
    if s != "" {
      DigitsTail(s[1..]);
      TailOfTail(Digits(s[1..]).rest, s[1..], s);
    }
  }

  lemma ExponentTail(s: string)
    ensures IsTail(ExponentPart(s).rest, s)
  {
    hide Digits, NatValue;
    if s != "" && (s[0] == 'e' || s[0] == 'E') {
      var n := if 1 < |s| && (s[1] == '+' || s[1] == '-') then 2 else 1;
      DigitsTail(s[n..]);
      CutIsTail(s, n);
      TailOfTail(Digits(s[n..]).rest, s[n..], s);
    }
  }

  lemma UnsignedTail(negative: bool, s: string)
    ensures IsTail(Unsigned(negative, s).rest, s)
  {
    hide Digits, FractionPart, ExponentPart;
    DigitsTail(s);
    var s1 := Digits(s).rest;
    if Digits(s).Tok? {
      FractionTail(s1);
      var s2 := FractionPart(s1).rest;
      TailOfTail(s2, s1, s);
      if FractionPart(s1).Tok? {
        ExponentTail(s2);
        TailOfTail(ExponentPart(s2).rest, s2, s);
      }
    }
  }

  lemma NumberTail(s: string)
    ensures IsTail(Number(s).rest, s)
  {
    hide Unsigned;
    if s != "" && s[0] == '-' {
      UnsignedTail(true, s[1..]);
      CutIsTail(s, 1);
      TailOfTail(Unsigned(true, s[1..]).rest, s[1..], s);
    } else {
      UnsignedTail(false, s);
    }
  }

  lemma ValueTail(s: string)
    ensures IsTail(Value(s).rest, s)
  {
    hide StringBody, Number, TimestampLength;
    var t := SkipWs(s);
    SkipTail(s);
    if t != "" && t[0] == '"' {
      BodyTail(t[1..]);
      CutIsTail(t, 1);
      TailOfTail(StringBody(t[1..]).rest, t[1..], t);
    } else {
      NumberTail(t);
      if TimestampLength(t) >= 10 { CutIsTail(t, TimestampLength(t)); }
    }
    TailOfTail(Value(s).rest, t, s);
  }

  // ----- the scan moves forward through one text ---------------------------

  /** The text left after a move, or at the place where it stops. */
  function MoveRest(m: Move): string {
    match m
    case Next(q) => q.rest
    case Stop(t) => t
    case Done => ""
  }

  lemma OperandTail(p: Place)
    ensures IsTail(MoveRest(OperandStep(p)), p.rest)
  {
    hide SkipWs, Keyword, Field;
    var t := SkipWs(p.rest);
    SkippedCut(p.rest, 0);
    if Keyword(p.rest, "not").Some? {
      KeywordTail(p.rest, "not");
    } else if t != "" && t[0] == '(' {
      SkippedCut(p.rest, 1);
    } else {
      FieldTail(t);
      TailOfTail(Field(t).rest, t, p.rest);
    }
  }

  lemma SeparatorTail(p: Place, members: nat)
    ensures IsTail(MoveRest(SeparatorStep(p, members)), p.rest)
  {
    hide SkipWs, Expect;
    var t := SkipWs(p.rest);
    SkippedCut(p.rest, 0);
    if t != "" && t[0] == ',' {
      SkippedCut(p.rest, 1);
    } else {
      ExpectTail(t, ')');
      TailOfTail(Expect(t, ')').rest, t, p.rest);
    }
  }

  lemma JoinerTail(p: Place)
    ensures IsTail(MoveRest(JoinerStep(p)), p.rest)
  {
    hide SkipWs, Expect, Keyword;
    SkippedCut(p.rest, 0);
    if Keyword(p.rest, "and").Some? { KeywordTail(p.rest, "and"); }
    if Keyword(p.rest, "or").Some? { KeywordTail(p.rest, "or"); }
    ExpectTail(p.rest, ')');
    CutIsTail(p.rest, |p.rest|);
  }

  lemma StepTail(p: Place)
    ensures IsTail(MoveRest(Step(p)), p.rest)
  {
    hide SkipWs, Expect, Keyword, Operator, Value, Field, IsTail, OperandStep, SeparatorStep, JoinerStep;
    OperandTail(p);
    JoinerTail(p);
    ValueTail(p.rest);
    OperatorTail(p.rest);
    ExpectTail(p.rest, '(');
    if Keyword(p.rest, "in").Some? { KeywordTail(p.rest, "in"); }
    if p.expects.ASeparator? { SeparatorTail(p, p.expects.members); }
  }

  lemma {:induction false} AfterTail(p: Place, n: nat)
    requires After(p, n).Some?
    ensures IsTail(After(p, n).value.rest, p.rest)
    decreases n
  {
    hide Step;
    WholeIsTail(p.rest);
    if n > 0 {
      StepTail(p);
      AfterTail(Step(p).place, n - 1);
      TailOfTail(After(p, n).value.rest, Step(p).place.rest, p.rest);
    }
  }

  lemma StopTail(p: Place, t: string)
    requires Makes(p, Stop(t))
    ensures IsTail(t, p.rest)
  {
    hide Step;
    var n: nat :| After(p, n).Some? && Step(After(p, n).value) == Stop(t);
    AfterTail(p, n);
    StepTail(After(p, n).value);
    TailOfTail(t, After(p, n).value.rest, p.rest);
  }

  /** The scan stops at the next character that is no whitespace, except behind
      the beginning of a field or of a literal that is not one, and behind a set
      with too many members. */
  lemma StopMeaning(p: Place, t: string)
    requires Step(p) == Stop(t) && t != SkipWs(p.rest)
    ensures SkipWs(p.rest) != ""
    ensures var c := SkipWs(p.rest)[0];
            match p.expects
            case AnOperand => IsIdentStart(c)
            case AValue => c == '"' || c == '-' || IsDigit(c)
            case AMember(_) => c == '"' || c == '-' || IsDigit(c)
            case ASeparator(n) => c == ')' && n > 256 && t == SkipWs(p.rest)[1..]
            case _ => false
  {
    hide Keyword, Segments, StringLiteral, NumberOrTimestamp;
    SkipTwice(p.rest);
  }

  // ----- positions ---------------------------------------------------------

  /** Different positions have different lines or columns. */
  lemma {:induction false} PositionsDiffer(s: string, i: nat, j: nat)
    requires i < j <= |s|
    ensures LineAfter(s[..i]) <= LineAfter(s[..j])
    ensures LineAfter(s[..i]) == LineAfter(s[..j]) ==> ColumnAfter(s[..i]) < ColumnAfter(s[..j])
    decreases j
  {
    assert s[..j][..j - 1] == s[..j - 1];
    if i < j - 1 { PositionsDiffer(s, i, j - 1); }
  }

  lemma ErrorsTellPositions(s: string, i: nat, j: nat)
    requires i <= |s| && j <= |s| && ErrorAt(s, i) == ErrorAt(s, j)
    ensures i == j
  {
    if i < j { PositionsDiffer(s, i, j); }
    if j < i { PositionsDiffer(s, j, i); }
  }

  // ----- whole inputs ------------------------------------------------------

  /** An input is accepted if and only if it is short enough, its scan comes to
      the end, and no place of the scan is beyond a limit. */
  lemma AcceptedIff(s: string)
    ensures Parse(s).Success?
            <==> |s| <= 16384 && Makes(Start(s), Done) && !GoesOver(Start(s), Limits(32, 1024))
  {
    hide Run, Makes, GoesOver, Expr, Blank, LineAfter, ColumnAfter;
    if Blank(s) {
      BlankStops(s);
    } else if |s| <= MAX_INPUT_LENGTH {
      ParseFollowsScan(s);
    }
    RunMeaning(Start(s), LIMITS);
  }

  /** Nothing in a blank text can be read. */
  lemma BlankStops(s: string)
    requires Blank(s)
    ensures Step(Start(s)).Stop? && !Makes(Start(s), Done)
  {
    hide Makes;
    SkipTail(s);
    var t := SkipWs(s);
    if t != "" { assert t[0] == s[|s| - |t|]; assert IsSpace(t[0]); }
    assert Keyword(s, "not").None? by {
      if |t| >= 3 { assert Lower(t[..3])[0] == LowerChar(t[0]); }
    }
    SkipTwice(s);
    MakesLater(Start(s), Done);
  }

  /** An input is too large if and only if it is too long or some place of its
      scan is in a 33rd level of expressions or behind a 1025th comparison. */
  lemma TooLargeIff(s: string)
    ensures Parse(s) == Failure(ParseError(FilterTooLarge, 1, 1))
            <==> !Blank(s) && (|s| > 16384 || GoesOver(Start(s), Limits(32, 1024)))
    ensures Parse(s).Failure? && Parse(s).error.code.FilterTooLarge? ==> Parse(s) == Failure(TOO_LARGE)
  {
    hide Run, GoesOver, Expr, Blank, LineAfter, ColumnAfter;
    if !Blank(s) && |s| <= MAX_INPUT_LENGTH { ParseFollowsScan(s); }
    RunMeaning(Start(s), LIMITS);
  }

  /** A syntax error is reported at a position if and only if the scan stops
      there and goes over no limit. */
  lemma SyntaxErrorIff(s: string, pos: nat)
    requires pos <= |s|
    ensures Parse(s) == Failure(ErrorAt(s, pos))
            <==> && !Blank(s) && |s| <= MAX_INPUT_LENGTH
                 && !GoesOver(Start(s), LIMITS) && Makes(Start(s), Stop(s[pos..]))
  {
    hide Run, GoesOver, Makes, Expr, Blank, LineAfter, ColumnAfter;
    RunMeaning(Start(s), LIMITS);
    if !Blank(s) && |s| <= MAX_INPUT_LENGTH {
      ParseFollowsScan(s);
      var end := Run(Start(s), LIMITS);
      if end.Stopped? {
        StopTail(Start(s), end.at);
        if ErrorAt(s, |s| - |end.at|) == ErrorAt(s, pos) { ErrorsTellPositions(s, |s| - |end.at|, pos); }
      }
    }
  }

  /** Input is blank if and only if all its characters are whitespace: space, tab,
      line feed, vertical tab, form feed, carriage return, or one of the four
      separators from 28 on. */
  lemma BlankIff(s: string)
    ensures Parse(s) == Failure(ParseError(EmptyInput, 1, 1))
            <==> forall i | 0 <= i < |s| :: s[i] as int in {9, 10, 11, 12, 13, 28, 29, 30, 31, 32}
  {
    hide Expr, LineAfter, ColumnAfter;
    assert forall c: char :: IsSpace(c) <==> c as int in {9, 10, 11, 12, 13, 28, 29, 30, 31, 32};
  }

  /** Every error is for blank input, for one that is too large, or a syntax error
      at the one position where the scan stops. */
  lemma ErrorsAreLocated(s: string)
    requires Parse(s).Failure?
    ensures var e := Parse(s).error;
            match e.code
            case EmptyInput => Blank(s) && e.line == 1 && e.column == 1
            case FilterTooLarge => e.line == 1 && e.column == 1 && (|s| > MAX_INPUT_LENGTH || GoesOver(Start(s), LIMITS))
            case SyntaxError => exists pos: nat :: pos <= |s| && e == ErrorAt(s, pos) && Makes(Start(s), Stop(s[pos..]))
  {
    hide Run, GoesOver, Makes, Expr, Blank, LineAfter, ColumnAfter;
    TooLargeIff(s);
    RunMeaning(Start(s), LIMITS);
    if !Blank(s) && |s| <= MAX_INPUT_LENGTH {
      ParseFollowsScan(s);
      var end := Run(Start(s), LIMITS);
      if end.Stopped? {
        StopTail(Start(s), end.at);
        assert s[|s| - |end.at|..] == end.at;
      }
    }
  }

  // ----- limits only refuse ------------------------------------------------

  /** Wider limits change nothing but a refusal. */
  ghost predicate Agrees<T>(o: Out<T>, wide: Out<T>) { !o.TooLarge? ==> o == wide }

  lemma {:induction false} PrimaryAgrees(s: string, depth: nat, leaves: nat, lim: Limits, wide: Limits)
    requires lim.depth <= wide.depth && lim.leaves <= wide.leaves
    ensures Agrees(Primary(s, depth, leaves, lim), Primary(s, depth, leaves, wide))
    decreases |s|, 1
  {
    hide Expr, Expect, Field, Keyword, Operator, Value, Values, SkipWs;
    var t := SkipWs(s);
    if t != "" && t[0] == '(' { ExprAgrees(t[1..], depth, leaves, lim, wide); }
  }

  lemma {:induction false} NotAgrees(s: string, depth: nat, leaves: nat, lim: Limits, wide: Limits)
    requires lim.depth <= wide.depth && lim.leaves <= wide.leaves
    ensures Agrees(NotExpr(s, depth, leaves, lim), NotExpr(s, depth, leaves, wide))
    decreases |s|, 2
  {
    hide Primary, Keyword;
    if Keyword(s, "not").Some? {
      NotAgrees(Keyword(s, "not").value, depth, leaves, lim, wide);
    } else {
      PrimaryAgrees(s, depth, leaves, lim, wide);
    }
  }

  lemma {:induction false} AndTailAgrees(s: string, depth: nat, leaves: nat, lim: Limits, wide: Limits)
    requires lim.depth <= wide.depth && lim.leaves <= wide.leaves
    ensures Agrees(AndTail(s, depth, leaves, lim), AndTail(s, depth, leaves, wide))
    decreases |s|, 3
  {
    hide NotExpr, Keyword;
    if Keyword(s, "and").Some? {
      var s1 := Keyword(s, "and").value;
      NotAgrees(s1, depth, leaves, lim, wide);
      var first := NotExpr(s1, depth, leaves, lim);
      if first.Got? { AndTailAgrees(first.rest, depth, first.leaves, lim, wide); }
    }
  }

  lemma {:induction false} AndAgrees(s: string, depth: nat, leaves: nat, lim: Limits, wide: Limits)
    requires lim.depth <= wide.depth && lim.leaves <= wide.leaves
    ensures Agrees(AndExpr(s, depth, leaves, lim), AndExpr(s, depth, leaves, wide))
    decreases |s|, 3
  {
    hide NotExpr, AndTail;
    NotAgrees(s, depth, leaves, lim, wide);
    var first := NotExpr(s, depth, leaves, lim);
    if first.Got? { AndTailAgrees(first.rest, depth, first.leaves, lim, wide); }
  }

  lemma {:induction false} OrTailAgrees(s: string, depth: nat, leaves: nat, lim: Limits, wide: Limits)
    requires lim.depth <= wide.depth && lim.leaves <= wide.leaves
    ensures Agrees(OrTail(s, depth, leaves, lim), OrTail(s, depth, leaves, wide))
    decreases |s|, 4
  {
    hide AndExpr, Keyword;
    if Keyword(s, "or").Some? {
      var s1 := Keyword(s, "or").value;
      AndAgrees(s1, depth, leaves, lim, wide);
      var first := AndExpr(s1, depth, leaves, lim);
      if first.Got? { OrTailAgrees(first.rest, depth, first.leaves, lim, wide); }
    }
  }

  lemma {:induction false} OrAgrees(s: string, depth: nat, leaves: nat, lim: Limits, wide: Limits)
    requires lim.depth <= wide.depth && lim.leaves <= wide.leaves
    ensures Agrees(OrExpr(s, depth, leaves, lim), OrExpr(s, depth, leaves, wide))
    decreases |s|, 4
  {
    hide AndExpr, OrTail;
    AndAgrees(s, depth, leaves, lim, wide);
    var first := AndExpr(s, depth, leaves, lim);
    if first.Got? { OrTailAgrees(first.rest, depth, first.leaves, lim, wide); }
  }

  /** Under wider limits the grammar reads the same tree and fails at the same
      place; only what was too large may come out otherwise. */
  lemma {:induction false} ExprAgrees(s: string, depth: nat, leaves: nat, lim: Limits, wide: Limits)
    requires lim.depth <= wide.depth && lim.leaves <= wide.leaves
    ensures Agrees(Expr(s, depth, leaves, lim), Expr(s, depth, leaves, wide))
    decreases |s|, 5
  {
    hide OrExpr;
    if depth + 1 <= lim.depth { OrAgrees(s, depth + 1, leaves, lim, wide); }
  }

  /** A syntax error names the line of its position, counted from one, and the
      column, one more than the characters of that line before it. */
  lemma PositionMeaning(s: string, pos: nat)
    requires pos <= |s|
    ensures var lines := Split(s[..pos], '\n');
            ErrorAt(s, pos) == ParseError(SyntaxError, |lines|, |lines[|lines| - 1]| + 1)
  {
    LinesAndColumns(s[..pos]);
  }

  lemma {:induction false} LinesAndColumns(s: string)
    ensures LineAfter(s) == |Split(s, '\n')|
    ensures ColumnAfter(s) == |Split(s, '\n')[|Split(s, '\n')| - 1]| + 1
  {
    if s != "" {
      var front, last := s[..|s| - 1], s[|s| - 1..];
      LinesAndColumns(front);
      assert s == front + last;
      SplitAppend(front, last, '\n');
      assert last[1..] == "";
    }
  }
}
