/** The recursive-descent parser: an object whose methods move `pos`, keep the
    nesting `depth` and count comparisons. Each method is proved to read what
    the grammar function of the same name reads. */
module FilterParser {
  import opened Text
  import opened FilterNumber
  import opened FilterAst
  import opened FilterLexer
  import opened FilterGrammar

  /** A list whose first elements have been read already. */
  ghost function After<T>(read: seq<T>, tail: Lex<seq<T>>): Lex<seq<T>> {
    match tail
    case Tok(others, t) => Tok(read + others, t)
    case Bad(t) => Bad(t)
  }

  lemma AfterNone<T>(tail: Lex<seq<T>>)
    ensures After([], tail) == tail
  {
    if tail.Tok? {
      assert [] + tail.value == tail.value;
    }
  }

  lemma AfterMore<T>(read: seq<T>, next: T, tail: Lex<seq<T>>)
    ensures tail.Tok? ==> After(read, Tok([next] + tail.value, tail.rest)) == After(read + [next], tail)
    ensures tail.Bad? ==> After(read, tail) == After(read + [next], tail)
  {
    if tail.Tok? {
      assert read + ([next] + tail.value) == read + [next] + tail.value;
    }
  }

  lemma IdentifierAt(source: string, start: nat, pos: nat)
    requires start < pos <= |source| && IsIdentStart(source[start])
    requires IdentRun(source[start..][1..]) == pos - start - 1
    ensures Identifier(source[start..]) == Tok(source[start..pos], source[pos..])
  {
    var t := source[start..];
    assert SkipWs(t) == t;
    assert t[..pos - start] == source[start..pos] && t[pos - start..] == source[pos..];
  }

  lemma NoIdentifier(s: string)
    requires SkipWs(s) == "" || !IsIdentStart(SkipWs(s)[0])
    ensures Identifier(s) == Bad(SkipWs(s))
  {
  }

  lemma RunStep(s: string)
    ensures IdentRun(s) == if s == "" || !IsIdentChar(s[0]) then 0 else 1 + IdentRun(s[1..])
  {
  }

  /** One dotted segment, or the end of them. */
  lemma SegmentsStep(parts: seq<string>, s: string)
    ensures s == "" || s[0] != '.' ==> After(parts, Segments(s)) == Tok(parts, s)
    ensures s != "" && s[0] == '.' ==>
              var part := Identifier(s[1..]);
              After(parts, Segments(s))
              == if part.Bad? then Bad(part.rest) else After(parts + [part.value], Segments(part.rest))
  {
    hide Identifier;
    if s == "" || s[0] != '.' {
      assert parts + [] == parts;
    } else {
      var part := Identifier(s[1..]);
      if part.Tok? { AfterMore(parts, part.value, Segments(part.rest)); }
    }
  }

  lemma FieldIs(s: string)
    ensures Identifier(s).Bad? ==> Field(s) == Bad(Identifier(s).rest)
    ensures Identifier(s).Tok? ==>
              var all := After([Identifier(s).value], Segments(Identifier(s).rest));
              Field(s) == if all.Bad? then Bad(all.rest)
                          else if FieldAllowed(all.value) then Tok(Join(all.value, "."), all.rest)
                          else Bad(all.rest)
  {
    hide Identifier, FieldAllowed, Join, Segments;
  }

  /** One more listed value, or the end of them. */
  lemma MoreValuesStep(values: seq<Literal>, s: string)
    ensures var t := SkipWs(s);
            && (t == "" || t[0] != ',' ==> After(values, MoreValues(s)) == Tok(values, t))
            && (t != "" && t[0] == ',' ==>
                  var value := Value(t[1..]);
                  After(values, MoreValues(s))
                  == if value.Bad? then Bad(value.rest) else After(values + [value.value], MoreValues(value.rest)))
  {
    hide Value, SkipWs;
    var t := SkipWs(s);
    if t == "" || t[0] != ',' {
      assert values + [] == values;
    } else {
      var value := Value(t[1..]);
      if value.Tok? { AfterMore(values, value.value, MoreValues(value.rest)); }
    }
  }

  lemma ValuesAre(s: string)
    ensures Values(s) == if Value(s).Bad? then Bad(Value(s).rest) else After([Value(s).value], MoreValues(Value(s).rest))
  {
    hide Value, MoreValues;
  }

  /** One character of a string body. */
  lemma BodyStep(read: string, s: string)
    requires s != ""
    ensures s[0] == '\\' && |s| == 1 ==> After(read, StringBody(s)) == Bad("")
    ensures s[0] == '\\' && |s| > 1 ==>
              After(read, StringBody(s)) == After(read + [Unescape(s[1])], StringBody(s[2..]))
    ensures s[0] == '"' ==> After(read, StringBody(s)) == Tok(read, s[1..])
    ensures s[0] != '\\' && s[0] != '"' ==> After(read, StringBody(s)) == After(read + [s[0]], StringBody(s[1..]))
  {
    hide Unescape;
    if s[0] == '\\' {
      if |s| > 1 { AfterMore(read, Unescape(s[1]), StringBody(s[2..])); }
    } else if s[0] == '"' {
      assert read + "" == read;
    } else {
      AfterMore(read, s[0], StringBody(s[1..]));
    }
  }

  lemma BodyEnds(read: string)
    ensures After(read, StringBody("")) == Bad("")
  {
  }

  /** The operators that are not words. */
  ghost function SymbolAt(t: string): Lex<Comparator> {
    if "!=" <= t then Tok(IsNe, t[2..])
    else if "<=" <= t then Tok(IsRange(Le), t[2..])
    else if ">=" <= t then Tok(IsRange(Ge), t[2..])
    else if "=" <= t then Tok(IsEq, t[1..])
    else if "<" <= t then Tok(IsRange(Lt), t[1..])
    else if ">" <= t then Tok(IsRange(Gt), t[1..])
    else Bad(t)
  }

  lemma OperatorIs(s: string)
    ensures var t := SkipWs(s);
            Operator(s) == if t == "" then Bad("") else if SymbolAt(t).Tok? then SymbolAt(t) else WordOperator(t)
  {
    hide Keyword, SkipWs;
  }

  /** The operators that are words. */
  ghost function WordOperator(t: string): Lex<Comparator> {
    if Keyword(t, "lt").Some? then Tok(IsRange(Lt), Keyword(t, "lt").value)
    else if Keyword(t, "le").Some? then Tok(IsRange(Le), Keyword(t, "le").value)
    else if Keyword(t, "gt").Some? then Tok(IsRange(Gt), Keyword(t, "gt").value)
    else if Keyword(t, "ge").Some? then Tok(IsRange(Ge), Keyword(t, "ge").value)
    else Bad(t)
  }

  /** A list of operands whose first ones have been read already. */
  ghost function Joined(read: seq<Node>, tail: Out<seq<Node>>): Out<seq<Node>> {
    match tail
    case Got(others, t, l) => Got(read + others, t, l)
    case _ => tail
  }

  lemma JoinedNone(tail: Out<seq<Node>>)
    ensures Joined([], tail) == tail
  {
    if tail.Got? {
      assert [] + tail.value == tail.value;
    }
  }

  lemma JoinedTwice(a: seq<Node>, b: seq<Node>, tail: Out<seq<Node>>)
    ensures Joined(a, Joined(b, tail)) == Joined(a + b, tail)
  {
    if tail.Got? {
      assert a + (b + tail.value) == a + b + tail.value;
    }
  }

  lemma AndTailStep(s: string, depth: nat, leaves: nat, lim: Limits)
    ensures var k := Keyword(s, "and");
            AndTail(s, depth, leaves, lim) ==
            if k.None? then Got([], s, leaves)
            else
              var o := NotExpr(k.value, depth, leaves, lim);
              if o.Got? then Joined([o.value], AndTail(o.rest, depth, o.leaves, lim))
              else o.PropagateFailure()
  {
    hide NotExpr, Keyword;
  }

  lemma OrTailStep(s: string, depth: nat, leaves: nat, lim: Limits)
    ensures var k := Keyword(s, "or");
            OrTail(s, depth, leaves, lim) ==
            if k.None? then Got([], s, leaves)
            else
              var o := AndExpr(k.value, depth, leaves, lim);
              if o.Got? then Joined([o.value], OrTail(o.rest, depth, o.leaves, lim))
              else o.PropagateFailure()
  {
    hide AndExpr, Keyword;
  }

  class Parser {
    const source: string
    var pos: nat
    var depth: nat
    var leafCount: nat

    constructor (source: string)
      ensures this.source == source && pos == 0 && depth == 0 && leafCount == 0
    {
      this.source := source;
      pos, depth, leafCount := 0, 0, 0;
    }

    ghost predicate Valid()
      reads this
    {
      pos <= |source|
    }

    /** The text that is left. */
    ghost function Rest(): string
      requires Valid()
      reads this
    {
      source[pos..]
    }

    /** Result `r` and the current position are what a token function returned. */
    ghost predicate Read<T>(r: Result<T>, token: Lex<T>)
      requires Valid()
      reads this
    {
      match token
      case Tok(v, t) => r == Success(v) && Rest() == t
      case Bad(t) => |t| <= |source| && r == Failure(ErrorAt(source, |source| - |t|))
    }

    /** Result `r`, the position and the count are what a grammar function returned. */
    ghost predicate Parsed<T>(r: Result<T>, out: Out<T>)
      requires Valid()
      reads this
    {
      match out
      case Got(v, t, l) => r == Success(v) && Rest() == t && leafCount == l
      case Syntax(t) => |t| <= |source| && r == Failure(ErrorAt(source, |source| - |t|))
      case TooLarge => r == Failure(TOO_LARGE)
    }

    /** Line and column of the current position. */
    method GetPosition() returns (line: nat, column: nat)
      requires Valid()
      ensures line == LineAfter(source[..pos]) && column == ColumnAfter(source[..pos])
    {
      line, column := 1, 1;
      for i := 0 to pos
        invariant line == LineAfter(source[..i]) && column == ColumnAfter(source[..i])
      {
        assert source[..i + 1][..i] == source[..i];
        if source[i] == '\n' {
          line, column := line + 1, 1;
        } else {
          column := column + 1;
        }
      }
    }

    method Error() returns (e: ParseError)
      requires Valid()
      ensures e == ErrorAt(source, pos)
    {
      var line, column := GetPosition();
      e := ParseError(SyntaxError, line, column);
    }

    method SkipWhitespace()
      requires Valid()
      modifies `pos
      ensures Valid() && Rest() == SkipWs(old(Rest()))
      ensures pos >= old(pos)
    {
      while pos < |source| && IsWs(source[pos])
        invariant Valid() && pos >= old(pos) && SkipWs(Rest()) == SkipWs(old(Rest()))
      {
        assert Rest()[1..] == source[pos + 1..];
        pos := pos + 1;
      }
    }

    method MatchKeyword(word: string) returns (matched: bool)
      requires Valid()
      modifies `pos
      ensures Valid() && pos >= old(pos)
      ensures matched == Keyword(old(Rest()), word).Some?
      ensures matched ==> Rest() == Keyword(old(Rest()), word).value
    {
      SkipWhitespace();
      var end := pos + |word|;
      if end > |source| { return false; }
      assert Rest()[..|word|] == source[pos..end];
      assert Rest()[|word|..] == source[end..];
      if Lower(source[pos..end]) != word { return false; }
      if end < |source| && IsIdentChar(source[end]) { return false; }
      pos := end;
      return true;
    }

    method ExpectChar(c: char) returns (r: Result<()>)
      requires Valid()
      modifies `pos
      ensures Valid() && Read(r, Expect(old(Rest()), c))
    {
      SkipWhitespace();
      if pos >= |source| || source[pos] != c {
        var e := Error();
        return Failure(e);
      }
      pos := pos + 1;
      return Success(());
    }

    method ParseIdentifier() returns (r: Result<string>)
      requires Valid()
      modifies `pos
      ensures Valid() && Read(r, Identifier(old(Rest())))
    {
      hide Identifier, IdentRun, SkipWs, IsIdentStart, IsIdentChar;
      ghost var s := Rest();
      SkipWhitespace();
      if pos >= |source| || !IsIdentStart(source[pos]) {
        NoIdentifier(s);
        var e := Error();
        return Failure(e);
      }
      var start := pos;
      ghost var t := Rest();
      SkippedIdentifier(s);
      pos := pos + 1;
      assert t[1..] == source[pos..];
      while pos < |source| && IsIdentChar(source[pos])
        invariant start < pos <= |source|
        invariant IdentRun(t[1..]) == pos - start - 1 + IdentRun(source[pos..])
      {
        assert source[pos..][1..] == source[pos + 1..];
        RunStep(source[pos..]);
        pos := pos + 1;
      }
      RunStep(source[pos..]);
      IdentifierAt(source, start, pos);
      return Success(source[start..pos]);
    }

    method ParseField() returns (r: Result<string>)
      requires Valid()
      modifies `pos
      ensures Valid() && Read(r, Field(old(Rest())))
    {
      hide Identifier, FieldAllowed, IsIdentifier, Join, Segments, Field, After;
      ghost var s := Rest();
      FieldIs(s);
      var ident :- ParseIdentifier();
      var parts := [ident];
      ghost var s1 := Rest();
      while pos < |source| && source[pos] == '.'
        invariant Valid() && |parts| >= 1
        invariant After([ident], Segments(s1)) == After(parts, Segments(Rest()))
        decreases |source| - pos
      {
        SegmentsStep(parts, Rest());
        assert Rest()[1..] == source[pos + 1..];
        pos := pos + 1;
        var part :- ParseIdentifier();
        parts := parts + [part];
      }
      SegmentsStep(parts, Rest());
      if !FieldAllowed(parts) {
        var e := Error();
        return Failure(e);
      }
      return Success(Join(parts, "."));
    }

    method ParseOperator() returns (r: Result<Comparator>)
      requires Valid()
      modifies `pos
      ensures Valid() && Read(r, Operator(old(Rest())))
    {
      hide Keyword, Operator, SkipWs, WordOperator, SymbolAt, ErrorAt;
      OperatorIs(Rest());
      SkipWhitespace();
      if pos >= |source| {
        var e := Error();
        return Failure(e);
      }
      var symbol := ParseSymbol();
      if symbol.Some? { return Success(symbol.value); }
      r := ParseWordOperator();
    }

    /** The first part of `parse_operator`: two characters, then one. */
    method ParseSymbol() returns (r: Option<Comparator>)
      requires Valid() && pos < |source|
      modifies `pos
      ensures Valid()
      ensures r.Some? ==> SymbolAt(old(Rest())) == Tok(r.value, Rest())
      ensures r.None? ==> SymbolAt(old(Rest())).Bad? && Rest() == old(Rest())
    {
      ghost var t := Rest();
      if pos + 1 < |source| {
        var two := source[pos..pos + 2];
        assert two == t[..2] && t[2..] == source[pos + 2..];
        if two == "!=" { pos := pos + 2; return Some(IsNe); }
        if two == "<=" { pos := pos + 2; return Some(IsRange(Le)); }
        if two == ">=" { pos := pos + 2; return Some(IsRange(Ge)); }
      }
      assert t[0] == source[pos] && t[1..] == source[pos + 1..];
      if source[pos] == '=' { pos := pos + 1; return Some(IsEq); }
      if source[pos] == '<' { pos := pos + 1; return Some(IsRange(Lt)); }
      if source[pos] == '>' { pos := pos + 1; return Some(IsRange(Gt)); }
      r := None;
    }

    /** The rest of `parse_operator`: the words, each from the same position. */
    method ParseWordOperator() returns (r: Result<Comparator>)
      requires Valid()
      modifies `pos
      ensures Valid() && Read(r, WordOperator(old(Rest())))
    {
      hide Keyword;
      var saved := pos;
      var matched := MatchKeyword("lt");
      if matched { return Success(IsRange(Lt)); }
      pos := saved;
      matched := MatchKeyword("le");
      if matched { return Success(IsRange(Le)); }
      pos := saved;
      matched := MatchKeyword("gt");
      if matched { return Success(IsRange(Gt)); }
      pos := saved;
      matched := MatchKeyword("ge");
      if matched { return Success(IsRange(Ge)); }
      pos := saved;
      var e := Error();
      return Failure(e);
    }

    /** The characters up to the closing quote, escapes resolved. */
    method ParseStringBody() returns (r: Result<string>)
      requires Valid()
      modifies `pos
      ensures Valid() && Read(r, StringBody(old(Rest())))
    {
      hide StringBody, After, Unescape;
      var result: string := "";
      ghost var body := Rest();
      AfterNone(StringBody(body));
      while pos < |source|
        invariant Valid() && StringBody(body) == After(result, StringBody(Rest()))
      {
        ghost var s := Rest();
        BodyStep(result, s);
        var c := source[pos];
        assert s[0] == c && s[1..] == source[pos + 1..];
        pos := pos + 1;
        if c == '\\' {
          if pos >= |source| {
            var e := Error();
            return Failure(e);
          }
          assert s[1] == source[pos] && s[2..] == source[pos + 1..];
          result := result + [Unescape(source[pos])];
          pos := pos + 1;
        } else if c == '"' {
          return Success(result);
        } else {
          result := result + [c];
        }
      }
      BodyEnds(result);
      assert Rest() == "";
      var e := Error();
      return Failure(e);
    }

    method ParseStringLiteral() returns (r: Result<Literal>)
      requires Valid() && pos < |source| && source[pos] == '"'
      modifies `pos
      ensures Valid() && Read(r, StringLiteral(old(Rest())))
    {
      hide StringBody;
      assert Rest()[1..] == source[pos + 1..];
      pos := pos + 1;
      var text :- ParseStringBody();
      if |text| > MAX_STRING {
        var e := Error();
        return Failure(e);
      }
      return Success(StringLit(text));
    }

    /** Moves past the digits that stand next. */
    method SkipDigits()
      requires Valid()
      modifies `pos
      ensures Valid() && pos == old(pos) + DigitRun(old(Rest()))
    {
      ghost var s := Rest();
      while pos < |source| && IsDigit(source[pos])
        invariant old(pos) <= pos <= |source|
        invariant DigitRun(s) == pos - old(pos) + DigitRun(source[pos..])
      {
        assert source[pos..][1..] == source[pos + 1..];
        pos := pos + 1;
      }
    }

    /** At least one digit. */
    method ParseDigits() returns (r: Result<string>)
      requires Valid()
      modifies `pos
      ensures Valid() && Read(r, Digits(old(Rest())))
    {
      if pos >= |source| || !IsDigit(source[pos]) {
        var e := Error();
        return Failure(e);
      }
      var start := pos;
      ghost var s := Rest();
      SkipDigits();
      assert s[..pos - start] == source[start..pos] && s[pos - start..] == source[pos..];
      return Success(source[start..pos]);
    }

    /** The digits after a decimal point, if there is one. */
    method ParseFraction() returns (r: Result<string>)
      requires Valid()
      modifies `pos
      ensures Valid() && Read(r, FractionPart(old(Rest())))
    {
      hide Digits;
      if pos >= |source| || source[pos] != '.' { return Success(""); }
      assert Rest()[1..] == source[pos + 1..];
      pos := pos + 1;
      r := ParseDigits();
    }

    /** The exponent, if there is one. */
    method ParseExponent() returns (r: Result<int>)
      requires Valid()
      modifies `pos
      ensures Valid() && Read(r, ExponentPart(old(Rest())))
    {
      hide Digits, NatValue;
      if pos >= |source| || (source[pos] != 'e' && source[pos] != 'E') { return Success(0); }
      ghost var s := Rest();
      pos := pos + 1;
      var negative := false;
      if pos < |source| && (source[pos] == '+' || source[pos] == '-') {
        negative := source[pos] == '-';
        pos := pos + 1;
        assert s[2..] == Rest();
      } else {
        assert s[1..] == Rest();
      }
      var digits :- ParseDigits();
      return Success(Signed(negative, NatValue(digits)));
    }

    method ParseNumber() returns (r: Result<Literal>)
      requires Valid()
      modifies `pos
      ensures Valid() && Read(r, Number(old(Rest())))
    {
      hide Digits, FractionPart, ExponentPart, NumeralValue;
      var negative := pos < |source| && source[pos] == '-';
      if negative {
        assert Rest()[1..] == source[pos + 1..];
        pos := pos + 1;
      }
      var whole :- ParseDigits();
      var fraction :- ParseFraction();
      var exponent :- ParseExponent();
      return Success(NumberLit(NumeralValue(negative, whole, fraction, exponent)));
    }

    method ParseNumberOrTimestamp() returns (r: Result<Literal>)
      requires Valid()
      modifies `pos
      ensures Valid() && Read(r, NumberOrTimestamp(old(Rest())))
    {
      hide Number, TimestampLength;
      ghost var s := Rest();
      var length := TimestampLength(source[pos..]);
      if length >= 10 {
        var stamp := source[pos..pos + length];
        assert s[..length] == stamp && s[length..] == source[pos + length..];
        pos := pos + length;
        return Success(TimestampLit(stamp));
      }
      r := ParseNumber();
    }

    method ParseValue() returns (r: Result<Literal>)
      requires Valid()
      modifies `pos
      ensures Valid() && Read(r, Value(old(Rest())))
    {
      hide NumberOrTimestamp, StringLiteral;
      SkipWhitespace();
      if pos >= |source| {
        var e := Error();
        return Failure(e);
      }
      var c := source[pos];
      if c == '"' {
        r := ParseStringLiteral();
      } else if c == '-' || IsDigit(c) {
        r := ParseNumberOrTimestamp();
      } else {
        var e := Error();
        return Failure(e);
      }
    }

    method ParseValueList() returns (r: Result<seq<Literal>>)
      requires Valid()
      modifies `pos
      ensures Valid() && Read(r, Values(old(Rest())))
    {
      hide Value, Values, MoreValues, SkipWs, After;
      ValuesAre(Rest());
      var first :- ParseValue();
      var values := [first];
      ghost var s1 := Rest();
      while true
        invariant Valid()
        invariant After([first], MoreValues(s1)) == After(values, MoreValues(Rest()))
        decreases |source| - pos
      {
        MoreValuesStep(values, Rest());
        SkipWhitespace();
        if pos < |source| && source[pos] == ',' {
          assert Rest()[1..] == source[pos + 1..];
          pos := pos + 1;
          var value :- ParseValue();
          values := values + [value];
        } else {
          break;
        }
      }
      return Success(values);
    }

    /** One more comparison, unless there are too many. */
    method Count(node: Node) returns (r: Result<Node>)
      requires Valid()
      modifies `leafCount
      ensures Valid() && Parsed(r, Counted(node, Rest(), old(leafCount), LIMITS))
    {
      leafCount := leafCount + 1;
      if leafCount > LIMITS.leaves { return Failure(TOO_LARGE); }
      return Success(node);
    }

    method ParseIn(field: string) returns (r: Result<Node>)
      requires Valid()
      modifies this
      ensures Valid() && depth == old(depth)
      ensures Parsed(r, InSet(field, old(Rest()), old(leafCount), LIMITS))
    {
      hide Expect, Values, Counted;
      var _ :- ExpectChar('(');
      var values :- ParseValueList();
      var _ :- ExpectChar(')');
      if |values| > MAX_IN_SET {
        var e := Error();
        return Failure(e);
      }
      r := Count(In(field, values));
    }

    method ParseComparison() returns (r: Result<Node>)
      requires Valid()
      modifies this
      ensures Valid() && depth == old(depth)
      ensures Parsed(r, Comparison(old(Rest()), old(leafCount), LIMITS))
    {
      hide Field, Keyword, Operator, Value, InSet, Counted, SkipWs, MakeComparison, ErrorAt;
      SkipWhitespace();
      FieldSkips(old(Rest()));
      var field :- ParseField();
      ghost var s1 := Rest();
      SkipWhitespace();
      KeywordSkips(s1, "in");
      OperatorSkips(s1);
      var saved := pos;
      var isIn := MatchKeyword("in");
      if isIn {
        r := ParseIn(field);
        return;
      }
      pos := saved;
      var op :- ParseOperator();
      var value :- ParseValue();
      r := Count(MakeComparison(field, op, value));
    }

    method ParsePrimary() returns (r: Result<Node>)
      requires Valid()
      modifies this
      ensures Valid() && depth == old(depth)
      ensures Parsed(r, Primary(old(Rest()), old(depth), old(leafCount), LIMITS))
      decreases |source| - pos, 1
    {
      hide Expr, Expect, Comparison;
      SkipWhitespace();
      if pos < |source| && source[pos] == '(' {
        assert Rest()[1..] == source[pos + 1..];
        pos := pos + 1;
        var node :- ParseExpr();
        var _ :- ExpectChar(')');
        return Success(node);
      }
      r := ParseComparison();
    }

    method ParseNotExpr() returns (r: Result<Node>)
      requires Valid()
      modifies this
      ensures Valid() && depth == old(depth)
      ensures Parsed(r, NotExpr(old(Rest()), old(depth), old(leafCount), LIMITS))
      decreases |source| - pos, 2
    {
      hide Primary, Keyword, SkipWs;
      ghost var s := Rest();
      SkipWhitespace();
      KeywordSkips(s, "not");
      PrimarySkips(s, depth, leafCount, LIMITS);
      var saved := pos;
      var isNot := MatchKeyword("not");
      if isNot {
        var child :- ParseNotExpr();
        return Success(Not(child));
      }
      pos := saved;
      r := ParsePrimary();
    }

    method ParseAndExpr() returns (r: Result<Node>)
      requires Valid()
      modifies this
      ensures Valid() && depth == old(depth)
      ensures Parsed(r, AndExpr(old(Rest()), old(depth), old(leafCount), LIMITS))
      decreases |source| - pos, 3
    {
      hide NotExpr, AndTail, Keyword, SkipWs;
      var first :- ParseNotExpr();
      var children := [first];
      ghost var s1, l1 := Rest(), leafCount;
      assert children[1..] == [];
      JoinedNone(AndTail(s1, depth, l1, LIMITS));
      while true
        invariant Valid() && depth == old(depth) && |Rest()| < |old(Rest())|
        invariant |children| >= 1 && children[0] == first
        invariant AndTail(s1, depth, l1, LIMITS) == Joined(children[1..], AndTail(Rest(), depth, leafCount, LIMITS))
        decreases |source| - pos
      {
        AndTailStep(Rest(), depth, leafCount, LIMITS);
        ghost var s := Rest();
        var saved := pos;
        SkipWhitespace();
        KeywordSkips(s, "and");
        var more := MatchKeyword("and");
        if more {
          ghost var others := children[1..];
          var child :- ParseNotExpr();
          JoinedTwice(others, [child], AndTail(Rest(), depth, leafCount, LIMITS));
          assert others + [child] == (children + [child])[1..];
          children := children + [child];
        } else {
          pos := saved;
          assert children[1..] + [] == children[1..];
          break;
        }
      }
      assert children == [first] + children[1..];
      if |children| == 1 { return Success(children[0]); }
      return Success(And(children));
    }

    method ParseOrExpr() returns (r: Result<Node>)
      requires Valid()
      modifies this
      ensures Valid() && depth == old(depth)
      ensures Parsed(r, OrExpr(old(Rest()), old(depth), old(leafCount), LIMITS))
      decreases |source| - pos, 4
    {
      hide AndExpr, OrTail, Keyword, SkipWs;
      var first :- ParseAndExpr();
      var children := [first];
      ghost var s1, l1 := Rest(), leafCount;
      assert children[1..] == [];
      JoinedNone(OrTail(s1, depth, l1, LIMITS));
      while true
        invariant Valid() && depth == old(depth) && |Rest()| < |old(Rest())|
        invariant |children| >= 1 && children[0] == first
        invariant OrTail(s1, depth, l1, LIMITS) == Joined(children[1..], OrTail(Rest(), depth, leafCount, LIMITS))
        decreases |source| - pos
      {
        OrTailStep(Rest(), depth, leafCount, LIMITS);
        ghost var s := Rest();
        var saved := pos;
        SkipWhitespace();
        KeywordSkips(s, "or");
        var more := MatchKeyword("or");
        if more {
          ghost var others := children[1..];
          var child :- ParseAndExpr();
          JoinedTwice(others, [child], OrTail(Rest(), depth, leafCount, LIMITS));
          assert others + [child] == (children + [child])[1..];
          children := children + [child];
        } else {
          pos := saved;
          assert children[1..] + [] == children[1..];
          break;
        }
      }
      assert children == [first] + children[1..];
      if |children| == 1 { return Success(children[0]); }
      return Success(Or(children));
    }

    method ParseExpr() returns (r: Result<Node>)
      requires Valid()
      modifies this
      ensures Valid() && depth == old(depth)
      ensures Parsed(r, Expr(old(Rest()), old(depth), old(leafCount), LIMITS))
      decreases |source| - pos, 5
    {
      hide OrExpr;
      depth := depth + 1;
      if depth > LIMITS.depth {
        r := Failure(TOO_LARGE);
      } else {
        r := ParseOrExpr();
      }
      depth := depth - 1;
    }
  }

  /** Parses a whole input. */
  method ParseInput(input: string) returns (r: Result<Node>)
    ensures r == Parse(input)
  {
    hide Expr, SkipWs;
    if Blank(input) { return Failure(ParseError(EmptyInput, 1, 1)); }
    if |input| > MAX_INPUT_LENGTH { return Failure(TOO_LARGE); }
    var parser := new Parser(input);
    assert parser.Rest() == input;
    var result :- parser.ParseExpr();
    parser.SkipWhitespace();
    if parser.pos < |parser.source| {
      var e := parser.Error();
      return Failure(e);
    }
    return Success(result);
  }
}
