/** What the scan has read is always the beginning of an accepted filter. Tokens
    are read in the same way whatever comes after the text that ends them, so
    the rest of an input can be exchanged for the shortest way to end it. */
module FilterViable {
  import opened Text
  import opened FilterNumber
  import opened FilterAst
  import opened FilterPrinter
  import opened FilterLexer
  import opened FilterTokens
  import opened FilterGrammar
  import opened FilterRoundTrip
  import opened FilterScan
  import opened FilterErrors

  /** `s` with its tail `v` exchanged for `w`. */
  function Swap(s: string, v: string, w: string): string
    requires IsTail(v, s)
  {
    s[..|s| - |v|] + w
  }

  lemma SwapTwice(s: string, r: string, v: string, w: string)
    requires IsTail(r, s) && IsTail(v, r)
    ensures IsTail(v, s) && Swap(s, v, w) == Swap(s, r, Swap(r, v, w))
  {
    TailOfTail(v, r, s);
    assert s[|s| - |r|..][..|r| - |v|] == s[|s| - |r|..|s| - |v|];
  }

  lemma SwapFront(x: string, v: string, w: string)
    ensures IsTail(v, x + v) && Swap(x + v, v, w) == x + w
  {
  }

  /** Exchanging a tail changes no character before it. */
  lemma SwapStarts(s: string, v: string, w: string)
    requires IsTail(v, s)
    ensures |v| <= |s|
    ensures |v| < |s| ==> Swap(s, v, w) != "" && Swap(s, v, w)[0] == s[0]
    ensures |v| == |s| ==> v == s && Swap(s, v, w) == w
  {
  }

  lemma SwapBehind(s: string, v: string, w: string)
    requires s != "" && IsTail(v, s[1..])
    ensures IsTail(v, s)
    ensures var s1 := Swap(s, v, w);
            s1 != "" && s1[0] == s[0] && s1[1..] == Swap(s[1..], v, w)
  {
  }

  lemma SwapBehindTwo(s: string, v: string, w: string)
    requires |s| >= 2 && IsTail(v, s[2..])
    ensures IsTail(v, s)
    ensures var s1 := Swap(s, v, w);
            |s1| >= 2 && s1[0] == s[0] && s1[1] == s[1] && s1[2..] == Swap(s[2..], v, w)
  {
  }

  lemma SwapWhole(w: string, v: string)
    ensures IsTail(v, v) && Swap(v, v, w) == w
  {
  }

  /** Skipping whitespace before something that stays. */
  lemma {:induction false} SkipSwap(s: string, v: string, w: string)
    requires IsTail(v, s) && |v| < |SkipWs(s)|
    ensures IsTail(v, SkipWs(s)) && SkipWs(Swap(s, v, w)) == Swap(SkipWs(s), v, w)
    ensures Swap(SkipWs(s), v, w) != "" && Swap(SkipWs(s), v, w)[0] == SkipWs(s)[0]
  {
    if IsWs(s[0]) {
      assert IsTail(v, s[1..]);
      SkipSwap(s[1..], v, w);
      assert Swap(s, v, w)[1..] == Swap(s[1..], v, w);
    }
  }

  /** `w` ends every token, or begins as `v` does. */
  predicate Alike(v: string, w: string) { Delimited(w) || (w != "" && v != "" && w[0] == v[0]) }

  // ----- words and single characters ---------------------------------------

  predicate NoIdentChar(w: string) { w == "" || !IsIdentChar(w[0]) }

  lemma KeywordFits(s: string, word: string, w: string)
    requires word != "" && Keyword(s, word).Some? && NoIdentChar(w)
    ensures var v := Keyword(s, word).value;
            IsTail(v, s) && NoIdentChar(v) && Keyword(Swap(s, v, w), word) == Some(w)
  {
    KeywordTail(s, word);
    var t, v := SkipWs(s), Keyword(s, word).value;
    SkipSwap(s, v, w);
    assert Swap(t, v, w)[..|word|] == t[..|word|];
    assert Swap(t, v, w)[|word|..] == w;
  }

  lemma ExpectFits(s: string, c: char, w: string)
    requires Expect(s, c).Tok?
    ensures var v := Expect(s, c).rest;
            IsTail(v, s) && Expect(Swap(s, v, w), c) == Tok((), w)
  {
    ExpectTail(s, c);
    SkipSwap(s, Expect(s, c).rest, w);
  }

  /** A first character that no keyword has. */
  lemma NoKeyword(s: string, word: string)
    requires word != "" && (SkipWs(s) == "" || LowerChar(SkipWs(s)[0]) != word[0])
    ensures Keyword(s, word).None?
  {
    KeywordSkips(s, word);
    if SkipWs(s) != "" { LowerStarts(SkipWs(s), word); }
  }

  // ----- fields ------------------------------------------------------------

  /** Text that ends a field. */
  predicate EndsField(w: string) { NoIdentChar(w) && (w == "" || w[0] != '.') }

  lemma IdentifierFits(s: string, w: string)
    requires Identifier(s).Tok? && NoIdentChar(w)
    ensures var v := Identifier(s).rest;
            IsTail(v, s) && NoIdentChar(v) && Identifier(Swap(s, v, w)) == Tok(Identifier(s).value, w)
  {
    var t, id, v := SkipWs(s), Identifier(s).value, Identifier(s).rest;
    IdentifierTail(s);
    SkippedIdentifier(s);
    assert t == id + v;
    SkipSwap(s, v, w);
    SwapFront(id, v, w);
    SkippedIdentifier(Swap(s, v, w));
    IdentifierReads(id, w);
  }

  lemma FirstSegment(s: string)
    requires s != "" && s[0] == '.' && Segments(s).Tok?
    ensures Identifier(s[1..]).Tok?
  {
    hide Identifier;
  }

  lemma SegmentsNext(s: string, first: string, rest: string)
    requires s != "" && s[0] == '.' && Identifier(s[1..]) == Tok(first, rest)
    ensures var others := Segments(rest);
            Segments(s) == if others.Bad? then Bad(others.rest) else Tok([first] + others.value, others.rest)
  {
    hide Identifier;
  }

  lemma {:induction false} SegmentsFit(s: string, w: string)
    requires Segments(s).Tok? && NoIdentChar(s) && EndsField(w)
    ensures var v := Segments(s).rest;
            IsTail(v, s) && EndsField(v) && Segments(Swap(s, v, w)) == Tok(Segments(s).value, w)
    decreases |s|
  {
    if s != "" && s[0] == '.' {
      hide Identifier, Segments, IsTail, Swap;
      var first := Identifier(s[1..]);
      FirstSegment(s);
      SegmentsNext(s, first.value, first.rest);
      IdentifierFits(s[1..], w);
      SegmentsFit(first.rest, w);
      SegmentSwapped(s, first.value, first.rest, Segments(first.rest).rest, w);
      SegmentsNext(Swap(s, Segments(s).rest, w), first.value, Swap(first.rest, Segments(s).rest, w));
    }
  }

  /** The first of several segments. */
  lemma SegmentSwapped(s: string, first: string, rest: string, v: string, w: string)
    requires s != "" && s[0] == '.' && Identifier(s[1..]) == Tok(first, rest)
    requires IsTail(v, rest) && EndsField(w)
    ensures IsTail(v, s)
    ensures var s1 := Swap(s, v, w);
            s1 != "" && s1[0] == '.' && Identifier(s1[1..]) == Tok(first, Swap(rest, v, w))
  {
    hide Identifier, Swap, IsTail, IsIdentChar;
    IdentifierTail(s[1..]);
    IdentifierFits(s[1..], "");
    SwapStarts(rest, v, w);
    IdentifierFits(s[1..], Swap(rest, v, w));
    SwapTwice(s[1..], rest, v, w);
    SwapBehind(s, v, w);
  }

  lemma FieldFits(s: string, w: string)
    requires Field(s).Tok? && EndsField(w)
    ensures var v := Field(s).rest;
            IsTail(v, s) && EndsField(v) && Field(Swap(s, v, w)) == Tok(Field(s).value, w)
  {
    hide Identifier, Segments, FieldAllowed, Join;
    var first, v := Identifier(s), Field(s).rest;
    IdentifierTail(s);
    SegmentsTail(first.rest);
    IdentifierFits(s, "");
    SegmentsFit(first.rest, w);
    var w1 := Swap(first.rest, v, w);
    SwapStarts(first.rest, v, w);
    IdentifierFits(s, w1);
    SwapTwice(s, first.rest, v, w);
  }

  /** The first character of a field is that of its text. */
  lemma FieldFirst(s: string)
    requires Field(s).Tok?
    ensures var t := SkipWs(s);
            t != "" && IsIdentStart(t[0]) && LowerChar(t[0]) != 'n'
  {
    hide Segments, Split;
    FieldWf(s);
    FieldStart(Field(s).value);
    var parts := [Identifier(s).value] + Segments(Identifier(s).rest).value;
    JoinIsGlue(parts, ".");
    assert Field(s).value[0] == Identifier(s).value[0];
  }

  // ----- operators ---------------------------------------------------------

  predicate IsSymbol(c: char) { c == '!' || c == '<' || c == '>' || c == '=' }

  lemma SymbolFits(t: string, w: string)
    requires t != "" && IsSymbol(t[0]) && Operator(t).Tok? && Alike(Operator(t).rest, w)
    ensures var v := Operator(t).rest;
            IsTail(v, t) && Operator(Swap(t, v, w)) == Tok(Operator(t).value, w)
  {
    hide Keyword;
    OperatorTail(t);
    var v := Operator(t).rest;
    var t1 := Swap(t, v, w);
    SkipNothing(t);
    SkipNothing(t1);
    LowerStarts(t, "lt");
    LowerStarts(t, "le");
    LowerStarts(t, "gt");
    LowerStarts(t, "ge");
    if |v| + 1 == |t| {
      assert t1[1..] == w;
    } else {
      assert t1[..2] == t[..2] && t1[2..] == w;
    }
  }

  /** The word operators. */
  const WORDS: seq<string> := ["lt", "le", "gt", "ge"]
  const WORD_OPS: seq<RangeOp> := [Lt, Le, Gt, Ge]

  lemma WordRead(t: string, k: nat)
    requires t != "" && !IsSymbol(t[0]) && !IsWs(t[0]) && k < 4 && Keyword(t, WORDS[k]).Some?
    ensures Operator(t) == Tok(IsRange(WORD_OPS[k]), Keyword(t, WORDS[k]).value)
  {
    hide Keyword;
    SkipNothing(t);
    forall j | 0 <= j < k ensures Keyword(t, WORDS[j]).None? { OneWord(t, WORDS[j], WORDS[k]); }
    assert WORDS[0] == "lt" && WORDS[1] == "le" && WORDS[2] == "gt" && WORDS[3] == "ge";
  }

  lemma OneWord(t: string, word: string, other: string)
    requires |word| == |other| && word != other && Keyword(t, other).Some?
    ensures Keyword(t, word).None?
  {
  }

  lemma WhichWord(t: string) returns (k: nat)
    requires t != "" && !IsSymbol(t[0]) && !IsWs(t[0]) && Operator(t).Tok?
    ensures k < 4 && Keyword(t, WORDS[k]).Some? && LowerChar(t[0]) != 'i'
  {
    SkipNothing(t);
    k := if Keyword(t, "lt").Some? then 0 else if Keyword(t, "le").Some? then 1 else if Keyword(t, "gt").Some? then 2 else 3;
    assert WORDS[0] == "lt" && WORDS[1] == "le" && WORDS[2] == "gt" && WORDS[3] == "ge";
    assert Lower(t[..2])[0] == LowerChar(t[0]);
  }

  lemma WordFits(t: string, w: string)
    requires t != "" && !IsSymbol(t[0]) && !IsWs(t[0]) && Operator(t).Tok? && Alike(Operator(t).rest, w)
    ensures var v := Operator(t).rest;
            IsTail(v, t) && Operator(Swap(t, v, w)) == Tok(Operator(t).value, w)
    ensures LowerChar(t[0]) != 'i'
  {
    hide Keyword, Operator;
    var k := WhichWord(t);
    WordRead(t, k);
    KeywordFits(t, WORDS[k], "");
    KeywordFits(t, WORDS[k], w);
    var v := Operator(t).rest;
    KeywordLonger(t, WORDS[k]);
    SwapStarts(t, v, w);
    WordRead(Swap(t, v, w), k);
  }

  lemma KeywordLonger(t: string, word: string)
    requires Keyword(t, word).Some? && word != ""
    ensures |Keyword(t, word).value| < |t|
  {
  }

  lemma OperatorFits(s: string, w: string)
    requires Operator(s).Tok? && Alike(Operator(s).rest, w)
    ensures var v := Operator(s).rest;
            && IsTail(v, s) && Operator(Swap(s, v, w)) == Tok(Operator(s).value, w)
            && SkipWs(s) != "" && LowerChar(SkipWs(s)[0]) != 'i'
  {
    hide Operator, Swap;
    var t, v := SkipWs(s), Operator(s).rest;
    OperatorTail(s);
    OperatorSkips(s);
    OperatorShorter(t);
    SkipSwap(s, v, w);
    OperatorSkips(Swap(s, v, w));
    if IsSymbol(t[0]) { SymbolFits(t, w); } else { WordFits(t, w); }
  }

  lemma OperatorShorter(t: string)
    requires Operator(t).Tok?
    ensures |Operator(t).rest| < |t|
  {
  }

  // ----- values ------------------------------------------------------------

  predicate NoDigit(w: string) { w == "" || !IsDigit(w[0]) }

  lemma DigitsFit(s: string, w: string)
    requires Digits(s).Tok? && NoDigit(w)
    ensures var v := Digits(s).rest;
            IsTail(v, s) && NoDigit(v) && Digits(Swap(s, v, w)) == Tok(Digits(s).value, w)
  {
    var d, v := Digits(s).value, Digits(s).rest;
    SwapFront(d, v, w);
    DigitsRead(d, w);
  }

  lemma FractionFits(s: string, w: string)
    requires FractionPart(s).Tok? && NoDigit(w) && (w == "" || w[0] != '.')
    ensures var v := FractionPart(s).rest;
            IsTail(v, s) && FractionPart(Swap(s, v, w)) == Tok(FractionPart(s).value, w)
  {
    hide Digits, Swap, IsTail;
    FractionTail(s);
    SwapStarts(s, FractionPart(s).rest, w);
    if s != "" && s[0] == '.' {
      DigitsFit(s[1..], w);
      SwapBehind(s, FractionPart(s).rest, w);
    }
  }

  /** Where the digits of an exponent begin. */
  function ExponentStart(s: string): nat { if 1 < |s| && (s[1] == '+' || s[1] == '-') then 2 else 1 }

  lemma ExponentNext(s: string)
    requires s != "" && (s[0] == 'e' || s[0] == 'E')
    ensures ExponentStart(s) <= |s|
    ensures var n := ExponentStart(s);
            var digits := Digits(s[n..]);
            ExponentPart(s) == if digits.Bad? then Bad(digits.rest)
                               else Tok(Signed(n == 2 && s[1] == '-', NatValue(digits.value)), digits.rest)
  {
    hide Digits, NatValue;
  }

  lemma DigitsStart(s: string)
    requires Digits(s).Tok?
    ensures s != "" && IsDigit(s[0]) && |Digits(s).rest| < |s|
  {
  }

  /** The digits of an exponent begin in the same place. */
  lemma ExponentSwapped(s: string, v: string, w: string)
    requires s != "" && Digits(s[ExponentStart(s)..]).Tok? && v == Digits(s[ExponentStart(s)..]).rest
    ensures IsTail(v, s[ExponentStart(s)..]) && IsTail(v, s)
    ensures var s1, n := Swap(s, v, w), ExponentStart(s);
            && s1 != "" && s1[0] == s[0] && ExponentStart(s1) == n && n <= |s1|
            && s1[n..] == Swap(s[n..], v, w) && (n == 2 ==> s1[1] == s[1])
  {
    hide Digits, IsTail, Swap;
    var n := ExponentStart(s);
    DigitsTail(s[n..]);
    DigitsStart(s[n..]);
    if n == 2 {
      SwapBehindTwo(s, v, w);
    } else {
      SwapBehind(s, v, w);
      SwapStarts(s[1..], v, w);
    }
  }

  lemma ExponentFits(s: string, w: string)
    requires ExponentPart(s).Tok? && EndsValue(w)
    ensures var v := ExponentPart(s).rest;
            IsTail(v, s) && ExponentPart(Swap(s, v, w)) == Tok(ExponentPart(s).value, w)
    ensures ExponentPart(s).rest == s || (s[0] == 'e' || s[0] == 'E')
  {
    var v := ExponentPart(s).rest;
    if s != "" && (s[0] == 'e' || s[0] == 'E') {
      hide Digits, ExponentPart, IsTail, Swap, NatValue, ExponentStart;
      ExponentNext(s);
      ExponentSwapped(s, v, w);
      DigitsFit(s[ExponentStart(s)..], w);
      ExponentNext(Swap(s, v, w));
    } else {
      SwapWhole(w, v);
    }
  }

  lemma UnsignedFits(negative: bool, s: string, w: string)
    requires Unsigned(negative, s).Tok? && EndsValue(w)
    ensures var v := Unsigned(negative, s).rest;
            IsTail(v, s) && Unsigned(negative, Swap(s, v, w)) == Tok(Unsigned(negative, s).value, w)
  {
    hide Digits, FractionPart, ExponentPart, Swap, IsTail, NumeralValue;
    var v, s1 := Unsigned(negative, s).rest, Digits(s).rest;
    var s2 := FractionPart(s1).rest;
    ExponentFits(s2, w);
    var w2 := Swap(s2, v, w);
    SwapStarts(s2, v, w);
    FractionFits(s1, w2);
    DigitsFit(s, "");
    SwapTwice(s1, s2, v, w);
    SwapStarts(s1, v, w);
    DigitsFit(s, Swap(s1, v, w));
    SwapTwice(s, s1, v, w);
  }

  lemma NumberFits(s: string, w: string)
    requires Number(s).Tok? && EndsValue(w)
    ensures var v := Number(s).rest;
            IsTail(v, s) && Number(Swap(s, v, w)) == Tok(Number(s).value, w)
  {
    hide Unsigned, Swap, IsTail;
    NumberTail(s);
    var negative := s != "" && s[0] == '-';
    UnsignedFits(negative, if negative then s[1..] else s, w);
    SwapStarts(s, Number(s).rest, w);
    if negative { SwapBehind(s, Number(s).rest, w); }
  }

  /** A text that is no timestamp but a number is none before another ending. */
  lemma NumberStaysNumber(s: string, v: string, w: string)
    requires IsTail(v, s) && EndsValue(w) && TimestampLength(s) == 0
    ensures TimestampLength(Swap(s, v, w)) == 0
  {
    hide ClockLength;
    var x := s[..|s| - |v|];
    ShapeBeforeEnd(x, w, DATE);
    if 10 <= |x| { ShapeOfPrefix(s, |x|, DATE); }
  }

  lemma NumberOrTimestampFits(s: string, w: string)
    requires s != "" && NumberOrTimestamp(s).Tok? && EndsValue(w)
    ensures var v := NumberOrTimestamp(s).rest;
            IsTail(v, s) && NumberOrTimestamp(Swap(s, v, w)) == Tok(NumberOrTimestamp(s).value, w)
  {
    hide Number, TimestampLength;
    var n, v := TimestampLength(s), NumberOrTimestamp(s).rest;
    if n >= 10 {
      TimestampPrefix(s);
      TimestampReadsBack(s[..n], w);
      assert s[..n] + w == Swap(s, v, w);
    } else {
      NumberFits(s, w);
      NumberStaysNumber(s, v, w);
    }
  }

  /** The characters of a string that the first character, or escape, gives. */
  lemma BodyNext(s: string, n: nat)
    requires s != "" && s[0] != '"' && n == (if s[0] == '\\' then 2 else 1) && n <= |s|
    ensures var tail := StringBody(s[n..]);
            StringBody(s) == if tail.Bad? then Bad(tail.rest) else Tok([if n == 2 then Unescape(s[1]) else s[0]] + tail.value, tail.rest)
  {
  }

  lemma EscapeComplete(s: string)
    requires s != "" && s[0] == '\\' && StringBody(s).Tok?
    ensures |s| >= 2
  {
  }

  lemma {:induction false} StringBodyFits(s: string, w: string)
    requires StringBody(s).Tok?
    ensures var v := StringBody(s).rest;
            IsTail(v, s) && |v| < |s| && StringBody(Swap(s, v, w)) == Tok(StringBody(s).value, w)
    decreases |s|
  {
    var v := StringBody(s).rest;
    if s[0] == '"' {
      assert Swap(s, v, w) == "\"" + w;
    } else {
      if s[0] == '\\' { EscapeComplete(s); }
      hide StringBody, Swap, IsTail;
      var n := if s[0] == '\\' then 2 else 1;
      BodyNext(s, n);
      StringBodyFits(s[n..], w);
      if n == 2 { SwapBehindTwo(s, v, w); } else { SwapBehind(s, v, w); }
      BodyNext(Swap(s, v, w), n);
    }
  }

  lemma StringLiteralFits(s: string, w: string)
    requires s != "" && s[0] == '"' && StringLiteral(s).Tok?
    ensures var v := StringLiteral(s).rest;
            && IsTail(v, s) && |v| < |s| && Swap(s, v, w) != "" && Swap(s, v, w)[0] == '"'
            && StringLiteral(Swap(s, v, w)) == Tok(StringLiteral(s).value, w)
  {
    hide StringBody, Swap, IsTail;
    StringBodyFits(s[1..], w);
    SwapBehind(s, StringLiteral(s).rest, w);
  }

  lemma ValueFits(s: string, w: string)
    requires Value(s).Tok? && EndsValue(w)
    ensures var v := Value(s).rest;
            IsTail(v, s) && Value(Swap(s, v, w)) == Tok(Value(s).value, w)
  {
    hide StringLiteral, NumberOrTimestamp, Swap, IsTail, EndsValue;
    var t, v := SkipWs(s), Value(s).rest;
    ValueTail(s);
    SkipSwap(s, v, w);
    if t[0] == '"' { StringLiteralFits(t, w); } else { NumberOrTimestampFits(t, w); }
  }

  // ----- moves -------------------------------------------------------------

  /** `w` may come at the place `q` instead of what is left there: it ends every
      token, or begins like what is left, which goes on. */
  predicate MayFollow(q: Place, w: string) {
    Alike(q.rest, w) && (Delimited(w) || Step(q).Next?)
  }

  lemma KeywordStarts(s: string, word: string)
    requires word != "" && Keyword(s, word).Some?
    ensures s != "" && (IsWs(s[0]) || LowerChar(s[0]) == word[0])
  {
    var t := SkipWs(s);
    assert Lower(t[..|word|])[0] == LowerChar(t[0]);
  }

  /** What goes on behind a value ends it. */
  lemma JoinerEnds(q: Place)
    requires Step(q).Next? && (q.expects.AJoiner? || q.expects.ASeparator?)
    ensures EndsValue(q.rest)
  {
    hide Keyword;
    if q.expects.AJoiner? {
      if Keyword(q.rest, "and").Some? { KeywordStarts(q.rest, "and"); }
      if Keyword(q.rest, "or").Some? { KeywordStarts(q.rest, "or"); }
    }
  }

  lemma MayFollowValue(q: Place, w: string)
    requires MayFollow(q, w) && (q.expects.AJoiner? || q.expects.ASeparator?)
    ensures EndsValue(w)
  {
    hide Step;
    if Step(q).Next? { JoinerEnds(q); }
  }

  lemma OperandFits(p: Place, q: Place, w: string)
    requires OperandStep(p) == Next(q) && MayFollow(q, w)
    ensures IsTail(q.rest, p.rest)
    ensures OperandStep(p.(rest := Swap(p.rest, q.rest, w))) == Next(q.(rest := w))
  {
    hide Keyword, Field, SkipWs, Swap, IsTail, Step;
    OperandTail(p);
    var t, s1 := SkipWs(p.rest), Swap(p.rest, q.rest, w);
    if Keyword(p.rest, "not").Some? {
      KeywordFits(p.rest, "not", "");
      KeywordFits(p.rest, "not", w);
    } else {
      if t == "" || t[0] != '(' {
        FieldFirst(t);
        SkipTwice(p.rest);
        FieldFits(t, "");
        FieldFits(t, w);
      }
      OperandShorter(p);
      SkipSwap(p.rest, q.rest, w);
      NoKeyword(s1, "not");
      if t[0] == '(' { SwapAfterOne(t, w); }
    }
  }

  lemma OperandShorter(p: Place)
    requires OperandStep(p).Next? && Keyword(p.rest, "not").None?
    ensures |OperandStep(p).place.rest| < |SkipWs(p.rest)|
  {
    hide Keyword, Field, SkipWs;
  }

  lemma SwapAfterOne(t: string, w: string)
    requires t != ""
    ensures IsTail(t[1..], t) && Swap(t, t[1..], w)[1..] == w
  {
  }

  lemma OperatorStepFits(p: Place, q: Place, w: string)
    requires OperatorStep(p) == Next(q) && MayFollow(q, w)
    ensures IsTail(q.rest, p.rest)
    ensures OperatorStep(p.(rest := Swap(p.rest, q.rest, w))) == Next(q.(rest := w))
  {
    hide Keyword, Operator, SkipWs, Swap, IsTail, Step;
    if Keyword(p.rest, "in").Some? {
      KeywordFits(p.rest, "in", "");
      KeywordFits(p.rest, "in", w);
    } else {
      OperatorFits(p.rest, w);
      OperatorTail(p.rest);
      OperatorSkips(p.rest);
      OperatorShorter(SkipWs(p.rest));
      SkipSwap(p.rest, q.rest, w);
      NoKeyword(Swap(p.rest, q.rest, w), "in");
    }
  }

  lemma SeparatorFits(p: Place, q: Place, members: nat, w: string)
    requires SeparatorStep(p, members) == Next(q)
    ensures IsTail(q.rest, p.rest)
    ensures SeparatorStep(p.(rest := Swap(p.rest, q.rest, w)), members) == Next(q.(rest := w))
  {
    hide SkipWs, Swap, IsTail;
    var t := SkipWs(p.rest);
    SkipTwice(p.rest);
    SeparatorTail(p, members);
    SkipSwap(p.rest, q.rest, w);
    SwapAfterOne(t, w);
    SkipTwice(Swap(p.rest, q.rest, w));
  }

  lemma JoinerFits(p: Place, q: Place, w: string)
    requires JoinerStep(p) == Next(q) && MayFollow(q, w)
    ensures IsTail(q.rest, p.rest)
    ensures JoinerStep(p.(rest := Swap(p.rest, q.rest, w))) == Next(q.(rest := w))
  {
    hide Keyword, Expect, SkipWs, Swap, IsTail, Step;
    JoinerTail(p);
    var s1 := Swap(p.rest, q.rest, w);
    if Keyword(p.rest, "and").Some? {
      KeywordFits(p.rest, "and", "");
      KeywordFits(p.rest, "and", w);
    } else if Keyword(p.rest, "or").Some? {
      KeywordFits(p.rest, "or", "");
      KeywordFits(p.rest, "or", w);
      WordFirst(s1, "or");
      NoKeyword(s1, "and");
    } else {
      ExpectFits(p.rest, ')', w);
      CloserFirst(s1);
      NoKeyword(s1, "and");
      NoKeyword(s1, "or");
    }
  }

  lemma WordFirst(s: string, word: string)
    requires word != "" && Keyword(s, word).Some?
    ensures SkipWs(s) != "" && LowerChar(SkipWs(s)[0]) == word[0]
  {
    assert Lower(SkipWs(s)[..|word|])[0] == LowerChar(SkipWs(s)[0]);
  }

  lemma CloserFirst(s: string)
    requires Expect(s, ')').Tok?
    ensures SkipWs(s) != "" && SkipWs(s)[0] == ')'
  {
  }

  /** A move is the same whatever may follow it. */
  lemma StepFits(p: Place, q: Place, w: string)
    requires Step(p) == Next(q) && MayFollow(q, w)
    ensures IsTail(q.rest, p.rest) && Step(p.(rest := Swap(p.rest, q.rest, w))) == Next(q.(rest := w))
  {
    hide OperandStep, OperatorStep, SeparatorStep, JoinerStep, Value, Expect, MayFollow, Swap, IsTail;
    match p.expects
    case AnOperand => OperandFits(p, q, w);
    case AnOperator => OperatorStepFits(p, q, w);
    case AValue =>
      MayFollowValue(q, w);
      ValueFits(p.rest, w);
    case ASet => ExpectFits(p.rest, '(', w);
    case AMember(_) =>
      MayFollowValue(q, w);
      ValueFits(p.rest, w);
    case ASeparator(n) => SeparatorFits(p, q, n, w);
    case AJoiner => JoinerFits(p, q, w);
  }

  /** No place up to the `n`th is beyond a limit. */
  ghost predicate Keeps(p: Place, n: nat, lim: Limits)
    requires After(p, n).Some?
    decreases n
  {
    !Over(p, lim) && (n > 0 ==> Keeps(Step(p).place, n - 1, lim))
  }

  /** The scan comes to the same place, with anything behind it, and goes on. */
  lemma {:induction false} ScanFits(p: Place, n: nat, w: string, lim: Limits)
    requires After(p, n).Some? && Delimited(w) && Keeps(p, n, lim)
    ensures var q := After(p, n).value;
            IsTail(q.rest, p.rest) && Run(p.(rest := Swap(p.rest, q.rest, w)), lim) == Run(q.(rest := w), lim)
    decreases n
  {
    var q := After(p, n).value;
    if n == 0 {
      assert Swap(p.rest, p.rest, w) == w;
    } else {
      hide Step, Delimited, IsTail, Swap, Run;
      var next := Step(p).place;
      ScanFits(next, n - 1, w, lim);
      var w1 := Swap(next.rest, q.rest, w);
      SwapStarts(next.rest, q.rest, w);
      if n == 1 { assert w1 == w by { SwapWhole(w, q.rest); } }
      assert MayFollow(next, w1);
      StepFits(p, next, w1);
      SwapTwice(p.rest, next.rest, q.rest, w);
      RunOn(p.(rest := Swap(p.rest, next.rest, w1)), next.(rest := w1), lim);
    }
  }

  // ----- the end of an input -----------------------------------------------

  function Closers(n: nat): string { if n == 0 then "" else ")" + Closers(n - 1) }

  /** A way to end an input from a place on. */
  function Rest(q: Place): string
    requires q.depth >= 1
  {
    Needed(q.expects) + Closers(q.depth - 1)
  }

  /** What is still needed there before closing parentheses. */
  function Needed(e: Expected): string {
    match e
    case AnOperand => " url = 1"
    case AnOperator => " = 1"
    case AValue => " 1"
    case ASet => " (1)"
    case AMember(_) => " 1)"
    case ASeparator(_) => ")"
    case AJoiner => ""
  }

  /** The limits leave room for one more comparison, or value of a set, where
      one is needed. */
  predicate HasRoom(q: Place, lim: Limits) {
    && q.depth <= lim.depth
    && q.leaves + (if q.expects.AJoiner? then 0 else 1) <= lim.leaves
    && (q.expects.AMember? ==> q.expects.members < 256)
    && (q.expects.ASeparator? ==> q.expects.members <= 256)
  }

  lemma ClosersEnd(n: nat)
    ensures Delimited(Closers(n)) && SkipWs(Closers(n)) == Closers(n)
    ensures Keyword(Closers(n), "and").None? && Keyword(Closers(n), "or").None?
    ensures n > 0 ==> Expect(Closers(n), ')') == Tok((), Closers(n - 1))
  {
    hide Keyword;
    SkipNothing(Closers(n));
    NoKeyword(Closers(n), "and");
    NoKeyword(Closers(n), "or");
    if n > 0 { assert Closers(n)[1..] == Closers(n - 1); }
  }

  lemma {:induction false} JoinerEndsRun(depth: nat, leaves: nat, lim: Limits)
    requires 1 <= depth <= lim.depth && leaves <= lim.leaves
    ensures Run(Place(AJoiner, Closers(depth - 1), depth, leaves), lim) == Accepted
  {
    hide Keyword, SkipWs, Expect, Closers;
    var p := Place(AJoiner, Closers(depth - 1), depth, leaves);
    ClosersEnd(depth - 1);
    if depth == 1 {
      assert Closers(0) == "" by { NoClosers(); }
      assert Step(p) == Done;
    } else {
      JoinerEndsRun(depth - 1, leaves, lim);
      RunOn(p, Place(AJoiner, Closers(depth - 2), depth - 1, leaves), lim);
    }
  }

  lemma NoClosers()
    ensures Closers(0) == ""
  {
  }

  const ONE: Literal := NumberLit(Decimal(1, 0))

  lemma OneReads(rest: string)
    requires Delimited(rest)
    ensures Value(" 1" + rest) == Tok(ONE, rest) && Value("1" + rest) == Tok(ONE, rest)
  {
    hide Value;
    OneIsOne();
    SpacedLiteralReads(ONE, rest);
    LiteralReads(ONE, rest);
    assert " " + "1" + rest == " 1" + rest;
  }

  lemma OneIsOne()
    ensures LiteralText(ONE) == "1" && WfLiteral(ONE) && RoundedLiteral(ONE) == ONE
  {
    assert Pow10(0) == 1;
    assert NumberText(Decimal(1, 0)) == "1";
  }

  lemma ValueRestReads(c: string)
    requires Delimited(c)
    ensures Value(" 1" + c) == Tok(ONE, c) && Value(" 1)" + c) == Tok(ONE, ")" + c)
    ensures Value("1)" + c) == Tok(ONE, ")" + c)
  {
    hide Value;
    OneReads(c);
    OneReads(")" + c);
    assert " 1" + (")" + c) == " 1)" + c && "1" + (")" + c) == "1)" + c;
  }

  lemma OperatorRestReads(c: string)
    ensures Operator(" = 1" + c) == Tok(IsEq, " 1" + c) && Keyword(" = 1" + c, "in").None?
  {
    hide Operator, Keyword;
    EqReads("1" + c);
    SpaceSkips("= 1" + c);
    assert "= " + ("1" + c) == "= 1" + c && " " + ("= 1" + c) == " = 1" + c && " " + ("1" + c) == " 1" + c;
    SkipSpace("= 1" + c);
    NoKeyword(" = 1" + c, "in");
  }

  lemma SetRestReads(c: string)
    ensures Expect(" (1)" + c, '(') == Tok((), "1)" + c)
  {
    var s := "(1)" + c;
    SkipSpace(s);
    SkipNothing(s);
    assert " " + s == " (1)" + c && s[1..] == "1)" + c;
  }

  lemma CloserReads(c: string)
    ensures Expect(")" + c, ')') == Tok((), c) && SkipWs(")" + c) == ")" + c
  {
    SkipNothing(")" + c);
    assert (")" + c)[1..] == c;
  }

  lemma FieldRestReads(c: string)
    ensures Field(" url = 1" + c) == Tok("url", " = 1" + c) && Keyword(" url = 1" + c, "not").None?
    ensures SkipWs(" url = 1" + c) == "url = 1" + c && Field("url = 1" + c) == Tok("url", " = 1" + c)
  {
    hide Field, Keyword;
    SplitNoSep("url", '.');
    FieldReads("url", " = 1" + c);
    var s := "url = 1" + c;
    assert "url" + (" = 1" + c) == s && " " + s == " url = 1" + c;
    SkipSpace(s);
    FieldSkips(" " + s);
    NoKeyword(" " + s, "not");
  }

  /** Such an end is accepted, here behind a set. */
  lemma SeparatorEndsRun(members: nat, depth: nat, leaves: nat, lim: Limits)
    requires 1 <= depth <= lim.depth && leaves + 1 <= lim.leaves && members <= MAX_IN_SET
    ensures Run(Place(ASeparator(members), ")" + Closers(depth - 1), depth, leaves), lim) == Accepted
  {
    hide Expect, SkipWs, Closers;
    var c := Closers(depth - 1);
    CloserReads(c);
    JoinerEndsRun(depth, leaves + 1, lim);
    RunOn(Place(ASeparator(members), ")" + c, depth, leaves), Place(AJoiner, c, depth, leaves + 1), lim);
  }

  lemma MemberEndsRun(text: string, members: nat, depth: nat, leaves: nat, lim: Limits)
    requires 1 <= depth <= lim.depth && leaves + 1 <= lim.leaves && members < MAX_IN_SET
    requires text == "1)" || text == " 1)"
    ensures Run(Place(AMember(members), text + Closers(depth - 1), depth, leaves), lim) == Accepted
  {
    hide Value, Closers;
    var c := Closers(depth - 1);
    ClosersEnd(depth - 1);
    ValueRestReads(c);
    SeparatorEndsRun(members + 1, depth, leaves, lim);
    RunOn(Place(AMember(members), text + c, depth, leaves), Place(ASeparator(members + 1), ")" + c, depth, leaves), lim);
  }

  lemma ValueEndsRun(depth: nat, leaves: nat, lim: Limits)
    requires 1 <= depth <= lim.depth && leaves + 1 <= lim.leaves
    ensures Run(Place(AValue, " 1" + Closers(depth - 1), depth, leaves), lim) == Accepted
  {
    hide Value, Closers;
    var c := Closers(depth - 1);
    ClosersEnd(depth - 1);
    ValueRestReads(c);
    JoinerEndsRun(depth, leaves + 1, lim);
    RunOn(Place(AValue, " 1" + c, depth, leaves), Place(AJoiner, c, depth, leaves + 1), lim);
  }

  lemma OperatorEndsRun(depth: nat, leaves: nat, lim: Limits)
    requires 1 <= depth <= lim.depth && leaves + 1 <= lim.leaves
    ensures Run(Place(AnOperator, " = 1" + Closers(depth - 1), depth, leaves), lim) == Accepted
  {
    hide Operator, Keyword, Closers;
    var c := Closers(depth - 1);
    OperatorRestReads(c);
    ValueEndsRun(depth, leaves, lim);
    RunOn(Place(AnOperator, " = 1" + c, depth, leaves), Place(AValue, " 1" + c, depth, leaves), lim);
  }

  lemma OperandEndsRun(depth: nat, leaves: nat, lim: Limits)
    requires 1 <= depth <= lim.depth && leaves + 1 <= lim.leaves
    ensures Run(Place(AnOperand, " url = 1" + Closers(depth - 1), depth, leaves), lim) == Accepted
  {
    hide Field, Keyword, SkipWs, Closers;
    var c := Closers(depth - 1);
    FieldRestReads(c);
    OperatorEndsRun(depth, leaves, lim);
    RunOn(Place(AnOperand, " url = 1" + c, depth, leaves), Place(AnOperator, " = 1" + c, depth, leaves), lim);
  }

  lemma SetEndsRun(depth: nat, leaves: nat, lim: Limits)
    requires 1 <= depth <= lim.depth && leaves + 1 <= lim.leaves
    ensures Run(Place(ASet, " (1)" + Closers(depth - 1), depth, leaves), lim) == Accepted
  {
    hide Expect, Closers;
    var c := Closers(depth - 1);
    SetRestReads(c);
    MemberEndsRun("1)", 0, depth, leaves, lim);
    RunOn(Place(ASet, " (1)" + c, depth, leaves), Place(AMember(0), "1)" + c, depth, leaves), lim);
  }

  /** From every place with room the rest of an input is accepted. */
  lemma RestEndsRun(q: Place, lim: Limits)
    requires q.depth >= 1 && HasRoom(q, lim)
    ensures Run(q.(rest := Rest(q)), lim) == Accepted && Delimited(Rest(q))
  {
    hide Run, Closers;
    ClosersEnd(q.depth - 1);
    match q.expects
    case AnOperand => OperandEndsRun(q.depth, q.leaves, lim);
    case AnOperator => OperatorEndsRun(q.depth, q.leaves, lim);
    case AValue => ValueEndsRun(q.depth, q.leaves, lim);
    case ASet => SetEndsRun(q.depth, q.leaves, lim);
    case AMember(n) => MemberEndsRun(" 1)", n, q.depth, q.leaves, lim);
    case ASeparator(n) => SeparatorEndsRun(n, q.depth, q.leaves, lim);
    case AJoiner =>
      assert Rest(q) == Closers(q.depth - 1);
      JoinerEndsRun(q.depth, q.leaves, lim);
  }

  lemma {:induction false} DepthStays(p: Place, n: nat)
    requires p.depth >= 1 && After(p, n).Some?
    ensures After(p, n).value.depth >= 1
    decreases n
  {
    hide SkipWs, Keyword, Field, Operator, Value, Expect;
    if n > 0 { DepthStays(Step(p).place, n - 1); }
  }

  /** Without room nothing is accepted. */
  lemma {:induction false} NoRoomFails(q: Place, lim: Limits)
    requires !HasRoom(q, lim)
    ensures Run(q, lim) != Accepted
    decreases |q.rest|
  {
    if !Over(q, lim) && Step(q).Next? {
      RoomStaysOut(q, lim);
      NoRoomFails(Step(q).place, lim);
    }
  }

  lemma RoomStaysOut(q: Place, lim: Limits)
    requires !HasRoom(q, lim) && !Over(q, lim) && Step(q).Next?
    ensures !HasRoom(Step(q).place, lim)
  {
    hide SkipWs, Keyword, Field, Operator, Value, Expect;
  }

  lemma RoomIgnoresRest(q: Place, w: string, lim: Limits)
    ensures HasRoom(q.(rest := w), lim) == HasRoom(q, lim)
  {
  }

  /** The text of `s` before the place `q` is the beginning of an accepted filter
      if and only if the limits leave room for what is needed there. */
  ghost predicate Endable(s: string, q: Place) {
    && q.depth >= 1 && |q.rest| <= |s|
    && var read := s[..|s| - |q.rest|];
    && (HasRoom(q, LIMITS) && |read + Rest(q)| <= MAX_INPUT_LENGTH ==> Parse(read + Rest(q)).Success?)
    && (forall w | Delimited(w) && Parse(read + w).Success? :: HasRoom(q, LIMITS))
  }

  /** Everything read is the beginning of an accepted filter, as long as there is
      room, wherever the scan of an input comes within the limits. */
  lemma ReadTextIsViable(s: string, n: nat)
    requires After(Start(s), n).Some? && Keeps(Start(s), n, LIMITS)
    ensures Endable(s, After(Start(s), n).value)
  {
    hide After, Run, Step, Rest, Keeps, HasRoom, Delimited;
    DepthStays(Start(s), n);
    var q := After(Start(s), n).value;
    AfterTail(Start(s), n);
    if HasRoom(q, LIMITS) {
      RestEndsRun(q, LIMITS);
      ReadTextEnds(s, n, Rest(q));
    }
    forall w | Delimited(w) && Parse(s[..|s| - |q.rest|] + w).Success? ensures HasRoom(q, LIMITS) {
      ReadTextEnds(s, n, w);
      RoomIgnoresRest(q, w, LIMITS);
      if !HasRoom(q, LIMITS) { NoRoomFails(q.(rest := w), LIMITS); }
    }
  }

  lemma ReadTextEnds(s: string, n: nat, w: string)
    requires After(Start(s), n).Some? && Keeps(Start(s), n, LIMITS) && Delimited(w)
    ensures var q := After(Start(s), n).value;
            && |q.rest| <= |s|
            && var t := s[..|s| - |q.rest|] + w;
            Parse(t).Success? <==> |t| <= MAX_INPUT_LENGTH && Run(q.(rest := w), LIMITS) == Accepted
  {
    hide After, Run, Step, Keeps, Delimited, Makes, GoesOver, Parse;
    var q := After(Start(s), n).value;
    AfterTail(Start(s), n);
    ScanFits(Start(s), n, w, LIMITS);
    var t := Swap(s, q.rest, w);
    RunMeaning(Start(t), LIMITS);
    AcceptedIff(t);
  }

  lemma {:induction false} NothingOverKeeps(p: Place, n: nat, lim: Limits)
    requires After(p, n).Some? && !GoesOver(p, lim)
    ensures Keeps(p, n, lim)
    decreases n
  {
    hide Step, Over, GoesOver;
    GoesOverLater(p, lim);
    if n > 0 { NothingOverKeeps(Step(p).place, n - 1, lim); }
  }

  /** The scan stops at `t` in its `n`th place. */
  ghost predicate StopsIn(p: Place, n: nat, t: string) {
    After(p, n).Some? && Step(After(p, n).value) == Stop(t)
  }

  /** A syntax error is reported at the first token that is wrong: the one
      expected at a place up to which everything read is the beginning of an
      accepted filter. */
  lemma SyntaxErrorsAreEarliest(s: string)
    requires Parse(s).Failure? && Parse(s).error.code.SyntaxError?
    ensures exists n: nat, pos: nat ::
              && pos <= |s| && Parse(s) == Failure(ErrorAt(s, pos)) && StopsIn(Start(s), n, s[pos..])
              && Endable(s, After(Start(s), n).value)
  {
    hide After, Step, GoesOver, Keeps, Parse, Makes, Endable, LineAfter, ColumnAfter;
    ErrorsAreLocated(s);
    var pos: nat :| pos <= |s| && Parse(s).error == ErrorAt(s, pos) && Makes(Start(s), Stop(s[pos..]));
    SyntaxErrorIff(s, pos);
    var n := MovesSomewhere(Start(s), s[pos..]);
    NothingOverKeeps(Start(s), n, LIMITS);
    ReadTextIsViable(s, n);
  }

  lemma MovesSomewhere(p: Place, t: string) returns (n: nat)
    requires Makes(p, Stop(t))
    ensures StopsIn(p, n, t)
  {
    n :| After(p, n).Some? && Step(After(p, n).value) == Stop(t);
  }
}
