/** Tokens of the filter language: each function reads one token from the text
    that is left and returns the text after it, or the text at the error. */
module FilterLexer {
  import opened Text
  import opened FilterNumber
  import opened FilterAst

  datatype Lex<+T> = Tok(value: T, rest: string) | Bad(rest: string) {
    predicate IsFailure() { Bad? }

    function PropagateFailure<U>(): Lex<U>
      requires Bad?
    {
      Bad(rest)
    }

    function Extract(): (T, string)
      requires Tok?
    {
      (value, rest)
    }
  }

  datatype Option<+T> = None | Some(value: T)

  predicate IsWs(c: char) { c == ' ' || c == '\t' || c == '\r' || c == '\n' }

  function SkipWs(s: string): (r: string)
    ensures |r| <= |s|
    ensures r != "" ==> !IsWs(r[0])
  {
    if s != "" && IsWs(s[0]) then SkipWs(s[1..]) else s
  }

  /** The text after the keyword, if it stands next as a whole word. */
  function Keyword(s: string, word: string): (r: Option<string>)
    ensures r.Some? ==> |r.value| + |word| <= |s|
  {
    var t := SkipWs(s);
    if |t| < |word| then None
    else if Lower(t[..|word|]) != word then None
    else if |word| < |t| && IsIdentChar(t[|word|]) then None
    else Some(t[|word|..])
  }

  function Expect(s: string, c: char): (r: Lex<()>)
    ensures r.Tok? ==> |r.rest| < |s|
    ensures |r.rest| <= |s|
  {
    var t := SkipWs(s);
    if t == "" || t[0] != c then Bad(t) else Tok((), t[1..])
  }

  // ----- identifiers and fields ------------------------------------------

  function IdentRun(s: string): (n: nat)
    ensures n <= |s|
    ensures forall i | 0 <= i < n :: IsIdentChar(s[i])
    ensures n < |s| ==> !IsIdentChar(s[n])
  {
    if s == "" || !IsIdentChar(s[0]) then 0 else 1 + IdentRun(s[1..])
  }

  function Identifier(s: string): (r: Lex<string>)
    ensures r.Tok? ==> |r.rest| < |s| && IsIdentifier(r.value)
    ensures |r.rest| <= |s|
  {
    var t := SkipWs(s);
    if t == "" || !IsIdentStart(t[0]) then Bad(t)
    else
      var n := 1 + IdentRun(t[1..]);
      Tok(t[..n], t[n..])
  }

  /** The dotted segments after the first. */
  function Segments(s: string): (r: Lex<seq<string>>)
    ensures |r.rest| <= |s|
    ensures r.Tok? ==> forall i | 0 <= i < |r.value| :: IsIdentifier(r.value[i])
    decreases |s|
  {
    if s == "" || s[0] != '.' then Tok([], s)
    else
      var (first, s1) :- Identifier(s[1..]);
      var (others, s2) :- Segments(s1);
      Tok([first] + others, s2)
  }

  function Field(s: string): (r: Lex<string>)
    ensures r.Tok? ==> |r.rest| < |s|
    ensures |r.rest| <= |s|
  {
    var (first, s1) :- Identifier(s);
    var (others, s2) :- Segments(s1);
    if FieldAllowed([first] + others) then Tok(Join([first] + others, "."), s2) else Bad(s2)
  }

  // ----- operators ---------------------------------------------------------

  datatype Comparator = IsEq | IsNe | IsRange(op: RangeOp)

  function Operator(s: string): (r: Lex<Comparator>)
    ensures r.Tok? ==> |r.rest| < |s|
    ensures |r.rest| <= |s|
  {
    var t := SkipWs(s);
    if t == "" then Bad(t)
    else if "!=" <= t then Tok(IsNe, t[2..])
    else if "<=" <= t then Tok(IsRange(Le), t[2..])
    else if ">=" <= t then Tok(IsRange(Ge), t[2..])
    else if t[0] == '=' then Tok(IsEq, t[1..])
    else if t[0] == '<' then Tok(IsRange(Lt), t[1..])
    else if t[0] == '>' then Tok(IsRange(Gt), t[1..])
    else if Keyword(t, "lt").Some? then Tok(IsRange(Lt), Keyword(t, "lt").value)
    else if Keyword(t, "le").Some? then Tok(IsRange(Le), Keyword(t, "le").value)
    else if Keyword(t, "gt").Some? then Tok(IsRange(Gt), Keyword(t, "gt").value)
    else if Keyword(t, "ge").Some? then Tok(IsRange(Ge), Keyword(t, "ge").value)
    else Bad(t)
  }

  // ----- literals ----------------------------------------------------------

  function Unescape(c: char): char {
    if c == 'n' then '\n' else if c == 't' then '\t' else if c == 'r' then '\r' else c
  }

  /** The characters of a string up to its closing quote. */
  function StringBody(s: string): (r: Lex<string>)
    ensures r.Tok? ==> |r.rest| < |s|
    ensures |r.rest| <= |s|
  {
    if s == "" then Bad("")
    else if s[0] == '\\' then
      if |s| == 1 then Bad("")
      else
        var (tail, t) :- StringBody(s[2..]);
        Tok([Unescape(s[1])] + tail, t)
    else if s[0] == '"' then Tok("", s[1..])
    else
      var (tail, t) :- StringBody(s[1..]);
      Tok([s[0]] + tail, t)
  }

  function StringLiteral(s: string): (r: Lex<Literal>)
    requires s != "" && s[0] == '"'
    ensures r.Tok? ==> |r.rest| < |s| && WfLiteral(r.value)
    ensures |r.rest| <= |s|
  {
    var (text, t) :- StringBody(s[1..]);
    if |text| > MAX_STRING then Bad(t) else Tok(StringLit(text), t)
  }

  /** At least one digit, and every digit that follows. */
  function Digits(s: string): (r: Lex<string>)
    ensures r.Tok? ==> |r.rest| < |s| && AllDigits(r.value) && r.value != "" && s == r.value + r.rest
    ensures |r.rest| <= |s|
  {
    var n := DigitRun(s);
    if n == 0 then Bad(s) else Tok(s[..n], s[n..])
  }

  /** The digits after a decimal point, if there is one. */
  function FractionPart(s: string): (r: Lex<string>)
    ensures r.Tok? ==> AllDigits(r.value)
    ensures |r.rest| <= |s|
  {
    if s != "" && s[0] == '.' then Digits(s[1..]) else Tok("", s)
  }

  /** The exponent, if there is one. */
  function ExponentPart(s: string): (r: Lex<int>)
    ensures |r.rest| <= |s|
  {
    if s != "" && (s[0] == 'e' || s[0] == 'E') then
      var signed := 1 < |s| && (s[1] == '+' || s[1] == '-');
      var negative := signed && s[1] == '-';
      var (digits, t) :- Digits(s[if signed then 2 else 1..]);
      Tok(Signed(negative, NatValue(digits)), t)
    else
      Tok(0, s)
  }

  /** A numeral after its sign. */
  function Unsigned(negative: bool, s: string): (r: Lex<Literal>)
    ensures r.Tok? ==> |r.rest| < |s| && WfLiteral(r.value)
    ensures |r.rest| <= |s|
  {
    var (whole, s1) :- Digits(s);
    var (fraction, s2) :- FractionPart(s1);
    var (exponent, s3) :- ExponentPart(s2);
    Tok(NumberLit(NumeralValue(negative, whole, fraction, exponent)), s3)
  }

  function Number(s: string): (r: Lex<Literal>)
    ensures r.Tok? ==> |r.rest| < |s| && WfLiteral(r.value)
    ensures |r.rest| <= |s|
  {
    if s != "" && s[0] == '-' then Unsigned(true, s[1..]) else Unsigned(false, s)
  }

  function NumberOrTimestamp(s: string): (r: Lex<Literal>)
    ensures r.Tok? ==> |r.rest| < |s| && WfLiteral(r.value)
    ensures |r.rest| <= |s|
  {
    var n := TimestampLength(s);
    if n >= 10 then
      TimestampPrefix(s);
      Tok(TimestampLit(s[..n]), s[n..])
    else Number(s)
  }

  function Value(s: string): (r: Lex<Literal>)
    ensures r.Tok? ==> |r.rest| < |s| && WfLiteral(r.value)
    ensures |r.rest| <= |s|
  {
    var t := SkipWs(s);
    if t == "" then Bad(t)
    else if t[0] == '"' then StringLiteral(t)
    else if t[0] == '-' || IsDigit(t[0]) then NumberOrTimestamp(t)
    else Bad(t)
  }

  /** The values after the first, each behind a comma. */
  function MoreValues(s: string): (r: Lex<seq<Literal>>)
    ensures r.Tok? ==> forall i | 0 <= i < |r.value| :: WfLiteral(r.value[i])
    ensures |r.rest| <= |s|
    decreases |s|
  {
    var t := SkipWs(s);
    if t == "" || t[0] != ',' then Tok([], t)
    else
      var (first, s1) :- Value(t[1..]);
      var (others, s2) :- MoreValues(s1);
      Tok([first] + others, s2)
  }

  function Values(s: string): (r: Lex<seq<Literal>>)
    ensures r.Tok? ==> |r.rest| < |s| && r.value != []
    ensures |r.rest| <= |s|
  {
    var (first, s1) :- Value(s);
    var (others, s2) :- MoreValues(s1);
    Tok([first] + others, s2)
  }

  lemma {:induction false} MoreValuesWf(s: string)
    requires MoreValues(s).Tok?
    ensures forall v | v in MoreValues(s).value :: WfLiteral(v)
    decreases |s|
  {
    var t := SkipWs(s);
    if t != "" && t[0] == ',' {
      MoreValuesWf(Value(t[1..]).rest);
    }
  }

  // ----- what a token's own text is followed by ----------------------------

  /** Text that ends the token before it. */
  predicate Delimited(s: string) { s == "" || s[0] == ' ' || s[0] == ',' || s[0] == ')' }

  /** Text that ends a value before it: any that goes on with a separator, a
      closing parenthesis, or "and" or "or". */
  predicate EndsValue(s: string) { s == "" || IsWs(s[0]) || s[0] in {',', ')', 'a', 'A', 'o', 'O'} }

  lemma {:induction false} DigitRunStops(d: string, rest: string)
    requires AllDigits(d) && (rest == "" || !IsDigit(rest[0]))
    ensures DigitRun(d + rest) == |d|
  {
    if d == "" {
      assert d + rest == rest;
    } else {
      assert (d + rest)[1..] == d[1..] + rest;
      DigitRunStops(d[1..], rest);
    }
  }

  lemma {:induction false} DigitRunOfPrefix(s: string, n: nat)
    requires DigitRun(s) <= n <= |s|
    ensures DigitRun(s[..n]) == DigitRun(s)
  {
    if n > 0 && IsDigit(s[0]) {
      assert s[..n][1..] == s[1..][..n - 1];
      DigitRunOfPrefix(s[1..], n - 1);
    }
  }

  lemma ShapeOfPrefix(s: string, n: nat, shape: string)
    requires |shape| <= n <= |s|
    ensures StartsWithShape(s[..n], shape) == StartsWithShape(s, shape)
  {
    if StartsWithShape(s[..n], shape) {
      forall i | 0 <= i < |shape| ensures if shape[i] == '#' then IsDigit(s[i]) else s[i] == shape[i] {
        assert s[i] == s[..n][i];
      }
    }
  }

  lemma ShapeBeforeEnd(s: string, rest: string, shape: string)
    requires EndsValue(rest)
    requires forall i | 0 <= i < |shape| :: !EndsValue([shape[i]])
    ensures StartsWithShape(s + rest, shape) == StartsWithShape(s, shape)
  {
    if |s| < |shape| && |shape| <= |s + rest| {
      assert (s + rest)[|s|] == rest[0];
      assert !StartsWithShape(s + rest, shape);
    } else if |shape| <= |s| {
      ShapeOfPrefix(s + rest, |s|, shape);
      assert (s + rest)[..|s|] == s;
    }
  }

  lemma FractionOfPrefix(s: string, n: nat)
    requires FractionLength(s) <= n <= |s|
    ensures FractionLength(s[..n]) == FractionLength(s)
  {
    if s != "" && s[0] == '.' && n >= 1 {
      assert s[..n][1..] == s[1..][..n - 1];
      if DigitRun(s[1..]) == 0 {
        if n >= 2 { assert s[..n][1] == s[1]; }
      } else {
        DigitRunOfPrefix(s[1..], n - 1);
      }
    }
  }

  lemma FractionBeforeEnd(s: string, rest: string)
    requires EndsValue(rest)
    ensures FractionLength(s + rest) == FractionLength(s)
  {
    if s != "" && s[0] == '.' {
      assert (s + rest)[1..] == s[1..] + rest;
      var n := DigitRun(s[1..]);
      DigitRunStops(s[1..][..n], s[1..][n..] + rest);
      assert s[1..] + rest == s[1..][..n] + (s[1..][n..] + rest);
    } else if s == "" {
      assert s + rest == rest;
    }
  }

  lemma ClockOfPrefix(s: string)
    ensures ClockLength(s[..ClockLength(s)]) == ClockLength(s)
  {
    var n := ClockLength(s);
    if n > 0 {
      var t := s[..n];
      ShapeOfPrefix(s, n, TIME);
      assert t[9..] == s[9..][..n - 9];
      FractionOfPrefix(s[9..], n - 9);
      var k := 9 + FractionLength(s[9..]);
      assert t[k..] == s[k..][..n - k];
      if n - k == 6 {
        ShapeOfPrefix(s[k..], 6, "+##:##");
        ShapeOfPrefix(s[k..], 6, "-##:##");
      }
    }
  }

  lemma ClockBeforeEnd(s: string, rest: string)
    requires EndsValue(rest)
    ensures ClockLength(s + rest) == ClockLength(s)
  {
    ShapeBeforeEnd(s, rest, TIME);
    if StartsWithShape(s, TIME) {
      assert (s + rest)[9..] == s[9..] + rest;
      FractionBeforeEnd(s[9..], rest);
      var k := 9 + FractionLength(s[9..]);
      assert (s + rest)[k..] == s[k..] + rest;
      ZoneBeforeEnd(s[k..], rest);
    }
  }

  lemma ZoneBeforeEnd(s: string, rest: string)
    requires EndsValue(rest)
    ensures ZoneLength(s + rest) == ZoneLength(s)
  {
    ShapeBeforeEnd(s, rest, "+##:##");
    ShapeBeforeEnd(s, rest, "-##:##");
    if s == "" {
      assert s + rest == rest;
    }
  }

  /** The timestamp at the front of a text is a timestamp on its own. */
  lemma TimestampPrefix(s: string)
    requires TimestampLength(s) > 0
    ensures IsTimestamp(s[..TimestampLength(s)])
  {
    var n := TimestampLength(s);
    ShapeOfPrefix(s, n, DATE);
    ClockOfPrefix(s[10..]);
    assert s[..n][10..] == s[10..][..n - 10];
  }

  /** A timestamp is read back whole from in front of what ends a value. */
  lemma TimestampReadsBack(t: string, rest: string)
    requires IsTimestamp(t) && EndsValue(rest)
    ensures TimestampLength(t + rest) == |t|
  {
    ShapeBeforeEnd(t, rest, DATE);
    assert (t + rest)[10..] == t[10..] + rest;
    ClockBeforeEnd(t[10..], rest);
  }
}
