/** How each token may be spelled, and that every spelling means the same:
    keywords in any case, operators as symbols or words, escapes in strings,
    numerals with signs, fractions and exponents, and the shapes of timestamps. */
module FilterSpelling {
  import opened Text
  import opened FilterNumber
  import opened FilterAst
  import opened FilterLexer
  import opened FilterPrinter
  import opened FilterTokens
  import opened FilterGrammar
  import opened FilterRoundTrip
  import opened FilterViable

  /** The whitespace that may stand before a token. */
  predicate Blanks(gap: string) { forall i | 0 <= i < |gap| :: gap[i] in {' ', '\t', '\r', '\n'} }

  /** Not a character of a word. */
  predicate EndsWord(rest: string) {
    rest != "" ==> var c := rest[0];
      !('a' <= c <= 'z') && !('A' <= c <= 'Z') && !('0' <= c <= '9') && c != '_'
  }

  lemma {:induction false} SkipsGap(gap: string, s: string)
    requires Blanks(gap) && (s == "" || !IsWs(s[0]))
    ensures SkipWs(gap + s) == s
  {
    if gap == "" {
      assert gap + s == s;
    } else {
      assert (gap + s)[1..] == gap[1..] + s;
      SkipsGap(gap[1..], s);
    }
  }

  lemma {:induction false} GapBefore(s: string) returns (gap: string)
    ensures Blanks(gap) && s == gap + SkipWs(s)
  {
    if s != "" && IsWs(s[0]) {
      var rest := GapBefore(s[1..]);
      gap := [s[0]] + rest;
      assert s == [s[0]] + s[1..];
    } else {
      gap := "";
    }
  }

  /** `s` is a token's own text `y` behind whitespace, with `rest` after it. */
  predicate Reads(s: string, gap: string, y: string, rest: string) { Blanks(gap) && s == gap + (y + rest) }

  lemma ReadsSkips(s: string, gap: string, y: string, rest: string)
    requires Reads(s, gap, y, rest) && y != "" && !IsWs(y[0])
    ensures SkipWs(s) == y + rest && SkipWs(s) != "" && SkipWs(s)[0] == y[0]
    ensures SkipWs(s)[..|y|] == y && SkipWs(s)[|y|..] == rest
  {
    SkipsGap(gap, y + rest);
  }

  // ----- words -------------------------------------------------------------

  const KEYWORDS: set<string> := {"and", "or", "not", "in", "lt", "le", "gt", "ge"}

  lemma WordStarts(y: string, word: string)
    requires word in KEYWORDS && AnyCase(y, word)
    ensures y != "" && !IsWs(y[0]) && Lower(y) == word
  {
    LowerIsAnyCase(y, word);
  }

  /** A keyword is read if and only if it stands next in any case and ends there. */
  lemma KeywordIff(s: string, word: string, rest: string)
    requires word in KEYWORDS
    ensures Keyword(s, word) == Some(rest)
            <==> exists gap, y :: Reads(s, gap, y, rest) && AnyCase(y, word) && EndsWord(rest)
  {
    hide SkipWs, Lower;
    if gap, y :| Reads(s, gap, y, rest) && AnyCase(y, word) && EndsWord(rest) {
      WordStarts(y, word);
      ReadsSkips(s, gap, y, rest);
    }
    if Keyword(s, word) == Some(rest) {
      var gap := GapBefore(s);
      var y := SkipWs(s)[..|word|];
      assert SkipWs(s) == y + rest;
      LowerIsAnyCase(y, word);
      assert Reads(s, gap, y, rest);
    }
  }

  /** An identifier is the longest run of letters, digits and underscores, and does
      not start with a digit. */
  lemma IdentifierIff(s: string, id: string, rest: string)
    ensures Identifier(s) == Tok(id, rest)
            <==> exists gap :: Reads(s, gap, id, rest) && Word(id) && EndsWord(rest)
  {
    hide SkipWs;
    if gap :| Reads(s, gap, id, rest) && Word(id) && EndsWord(rest) {
      ReadsSkips(s, gap, id, rest);
      SkippedIdentifier(s);
      IdentifierReads(id, rest);
    }
    if Identifier(s) == Tok(id, rest) {
      var gap := GapBefore(s);
      assert SkipWs(s) == id + rest;
      assert Reads(s, gap, id, rest);
    }
  }

  predicate Word(id: string) {
    && id != "" && !('0' <= id[0] <= '9')
    && forall i | 0 <= i < |id| ::
         'a' <= id[i] <= 'z' || 'A' <= id[i] <= 'Z' || '0' <= id[i] <= '9' || id[i] == '_'
  }

  /** A name and keys behind dots. */
  predicate Dotted(field: string, name: string, keys: seq<string>) {
    field == name + Glue(keys, ".") && Word(name) && forall i | 0 <= i < |keys| :: Word(keys[i])
  }

  /** The names with keys behind dots that are fields: five names with any keys, and
      metadata with at least one, none longer than 128 characters. */
  predicate Legal(name: string, keys: seq<string>) {
    name in {"domain", "url", "published_at", "language", "category"}
    || (name == "metadata" && |keys| >= 1 && forall i | 0 <= i < |keys| :: |keys[i]| <= 128)
  }

  lemma FieldsAre(field: string)
    ensures WfField(field) <==> exists name, keys :: Dotted(field, name, keys) && Legal(name, keys)
  {
    hide Split, Glue, Dotted, Legal;
    if WfField(field) {
      var parts := Split(field, '.');
      WfFieldIsDotted(field, parts[0], parts[1..]);
    }
    if name, keys :| Dotted(field, name, keys) && Legal(name, keys) {
      DottedIsField(field, name, keys);
    }
  }

  lemma WfFieldIsDotted(field: string, name: string, keys: seq<string>)
    requires WfField(field) && [name] + keys == Split(field, '.')
    ensures Dotted(field, name, keys) && Legal(name, keys)
  {
    hide Split, Glue;
    var parts := Split(field, '.');
    JoinSplit(field, '.');
    JoinIsGlue(parts, ".");
    assert name == parts[0] && keys == parts[1..];
    assert IsIdentifier(name);
    forall i | 0 <= i < |keys| ensures IsIdentifier(keys[i]) && (name == "metadata" ==> |keys[i]| <= 128) {
      assert keys[i] == parts[i + 1];
    }
  }

  lemma DottedIsField(field: string, name: string, keys: seq<string>)
    requires Dotted(field, name, keys) && Legal(name, keys)
    ensures WfField(field)
  {
    hide Split, Glue;
    var parts := [name] + keys;
    assert parts[1..] == keys;
    JoinIsGlue(parts, ".");
    forall i | 0 <= i < |parts| ensures '.' !in parts[i] && IsIdentifier(parts[i]) {
      if i > 0 { assert parts[i] == keys[i - 1]; }
      assert Word(parts[i]);
    }
    SplitJoin(parts, '.');
    LegalIsAllowed(name, keys);
  }

  lemma LegalIsAllowed(name: string, keys: seq<string>)
    requires Legal(name, keys) && forall i | 0 <= i < |keys| :: Word(keys[i])
    ensures FieldAllowed([name] + keys)
  {
    var parts := [name] + keys;
    forall i | 1 <= i < |parts| ensures parts[i] != "" && (name == "metadata" ==> |parts[i]| <= 128) {
      assert parts[i] == keys[i - 1];
    }
  }

  // ----- operators ---------------------------------------------------------

  /** The spellings of an operator: a symbol, or for a comparison its word. */
  predicate Spells(y: string, op: Comparator) {
    match op
    case IsEq => y == "="
    case IsNe => y == "!="
    case IsRange(o) =>
      match o
      case Lt => y == "<" || AnyCase(y, "lt")
      case Le => y == "<=" || AnyCase(y, "le")
      case Gt => y == ">" || AnyCase(y, "gt")
      case Ge => y == ">=" || AnyCase(y, "ge")
  }

  /** The text after it does not make it another one. */
  predicate EndsOperator(y: string, rest: string) {
    if y == "<" || y == ">" then rest == "" || rest[0] != '='
    else if y == "=" || y == "!=" || y == "<=" || y == ">=" then true
    else EndsWord(rest)
  }

  lemma SymbolRead(y: string, op: Comparator, rest: string)
    requires Spells(y, op) && EndsOperator(y, rest) && y in {"=", "!=", "<", "<=", ">", ">="}
    ensures Operator(y + rest) == Tok(op, rest)
  {
    var t := y + rest;
    SkipNothing(t);
    assert !AnyCase(y, "lt") && !AnyCase(y, "le") && !AnyCase(y, "gt") && !AnyCase(y, "ge");
    assert t[|y|..] == rest && t[0] == y[0];
    if |y| == 1 {
      assert |rest| > 0 ==> t[1] == rest[0];
    } else {
      assert t[..2] == y;
    }
    hide Keyword, AnyCase;
  }

  lemma WordOperatorRead(y: string, k: nat, rest: string)
    requires k < 4 && AnyCase(y, WORDS[k]) && EndsWord(rest)
    ensures Operator(y + rest) == Tok(IsRange(WORD_OPS[k]), rest)
  {
    hide Keyword, Operator, Lower;
    var t := y + rest;
    assert WORDS[0] == "lt" && WORDS[1] == "le" && WORDS[2] == "gt" && WORDS[3] == "ge";
    WordStarts(y, WORDS[k]);
    assert t[0] == y[0] && !IsSymbol(t[0]);
    assert Reads(t, "", y, rest);
    KeywordIff(t, WORDS[k], rest);
    WordRead(t, k);
  }

  /** The operator of a text, once read, in one of its spellings. */
  lemma SpellingRead(t: string) returns (y: string)
    requires t != "" && !IsWs(t[0]) && Operator(t).Tok?
    ensures t == y + Operator(t).rest && Spells(y, Operator(t).value) && EndsOperator(y, Operator(t).rest)
  {
    if IsSymbol(t[0]) {
      y := SymbolSpelling(t);
    } else {
      hide Operator, Keyword, AnyCase;
      var k := WhichWord(t);
      WordRead(t, k);
      y := WordSpelling(t, WORDS[k], Operator(t).rest);
      WordSpells(y, k);
      WordIsNoSymbol(y, WORDS[k]);
    }
  }

  lemma WordSpelling(t: string, word: string, rest: string) returns (y: string)
    requires t != "" && !IsWs(t[0]) && word in KEYWORDS && Keyword(t, word) == Some(rest)
    ensures t == y + rest && AnyCase(y, word) && EndsWord(rest)
  {
    hide Keyword, AnyCase, EndsWord;
    KeywordIff(t, word, rest);
    var gap, found :| Reads(t, gap, found, rest) && AnyCase(found, word) && EndsWord(rest);
    NoGap(t, gap, found, rest);
    y := found;
  }

  lemma NoGap(t: string, gap: string, y: string, rest: string)
    requires Reads(t, gap, y, rest) && t != "" && !IsWs(t[0])
    ensures gap == "" && t == y + rest
  {
  }

  lemma WordSpells(y: string, k: nat)
    requires k < 4 && AnyCase(y, WORDS[k])
    ensures Spells(y, IsRange(WORD_OPS[k])) && WORDS[k] in {"lt", "le", "gt", "ge"}
  {
    hide AnyCase;
    assert WORDS[0] == "lt" && WORDS[1] == "le" && WORDS[2] == "gt" && WORDS[3] == "ge";
  }

  lemma WordIsNoSymbol(y: string, word: string)
    requires word in {"lt", "le", "gt", "ge"} && AnyCase(y, word)
    ensures y !in {"=", "!=", "<", "<=", ">", ">="}
  {
    assert y[0] == word[0] || 'A' <= y[0] <= 'Z';
  }

  lemma SymbolSpelling(t: string) returns (y: string)
    requires t != "" && IsSymbol(t[0]) && Operator(t).Tok?
    ensures t == y + Operator(t).rest && Spells(y, Operator(t).value) && EndsOperator(y, Operator(t).rest)
  {
    hide Keyword, AnyCase;
    SkipNothing(t);
    LowerStarts(t, "lt");
    LowerStarts(t, "le");
    LowerStarts(t, "gt");
    LowerStarts(t, "ge");
    y := if "!=" <= t || "<=" <= t || ">=" <= t then t[..2] else t[..1];
  }

  /** An operator is read if and only if one of its spellings stands next. */
  lemma OperatorIff(s: string, op: Comparator, rest: string)
    ensures Operator(s) == Tok(op, rest)
            <==> exists gap, y :: Reads(s, gap, y, rest) && Spells(y, op) && EndsOperator(y, rest)
  {
    hide SkipWs, Operator, AnyCase, Spells, EndsOperator;
    OperatorSkips(s);
    if gap, y :| Reads(s, gap, y, rest) && Spells(y, op) && EndsOperator(y, rest) {
      SpellingStarts(y, op);
      ReadsSkips(s, gap, y, rest);
      OneSpelling(y, op, rest);
    }
    if Operator(s) == Tok(op, rest) {
      var gap := GapBefore(s);
      OperatorStarts(s);
      var y := SpellingRead(SkipWs(s));
      assert s == gap + (y + rest);
      assert Reads(s, gap, y, rest);
    }
  }

  lemma OperatorStarts(s: string)
    requires Operator(s).Tok?
    ensures SkipWs(s) != "" && !IsWs(SkipWs(s)[0])
  {
  }

  lemma SpellingStarts(y: string, op: Comparator)
    requires Spells(y, op)
    ensures y != "" && !IsWs(y[0])
  {
  }

  lemma OneSpelling(y: string, op: Comparator, rest: string)
    requires Spells(y, op) && EndsOperator(y, rest)
    ensures Operator(y + rest) == Tok(op, rest)
  {
    hide Operator, AnyCase;
    if y in {"=", "!=", "<", "<=", ">", ">="} {
      SymbolRead(y, op, rest);
    } else {
      assert WORDS[0] == "lt" && WORDS[1] == "le" && WORDS[2] == "gt" && WORDS[3] == "ge";
      assert WORD_OPS[0] == Lt && WORD_OPS[1] == Le && WORD_OPS[2] == Gt && WORD_OPS[3] == Ge;
      WordOperatorRead(y, match op.op case Lt => 0 case Le => 1 case Gt => 2 case Ge => 3, rest);
    }
  }

  // ----- strings -----------------------------------------------------------

  /** What the character behind a backslash stands for. */
  predicate EscapeMeans(e: char, c: char) {
    if e == 'n' then c == '\n' else if e == 't' then c == '\t' else if e == 'r' then c == '\r' else c == e
  }

  /** The text between quotes spells the string: an escape or any character but a
      quote for each of its characters. */
  predicate SpellsString(raw: string, text: string)
    decreases |raw|
  {
    if raw == "" then text == ""
    else if raw[0] == '\\' then |raw| >= 2 && text != "" && EscapeMeans(raw[1], text[0]) && SpellsString(raw[2..], text[1..])
    else raw[0] != '"' && text != "" && text[0] == raw[0] && SpellsString(raw[1..], text[1..])
  }

  lemma {:induction false} SpelledIsRead(raw: string, text: string, rest: string)
    requires SpellsString(raw, text)
    ensures StringBody(raw + ("\"" + rest)) == Tok(text, rest)
    decreases |raw|
  {
    var s := raw + ("\"" + rest);
    if raw == "" {
      assert s == "\"" + rest;
    } else {
      var n := if raw[0] == '\\' then 2 else 1;
      assert s[n..] == raw[n..] + ("\"" + rest) && s[0] == raw[0];
      SpelledIsRead(raw[n..], text[1..], rest);
      BodyNext(s, n);
      assert text == [text[0]] + text[1..];
    }
  }

  lemma SpelledNext(first: string, c: char, tail: string, text: string)
    requires if |first| == 2 then first[0] == '\\' && EscapeMeans(first[1], c)
             else |first| == 1 && first[0] == c && c != '\\' && c != '"'
    requires SpellsString(tail, text)
    ensures SpellsString(first + tail, [c] + text)
  {
    assert (first + tail)[|first|..] == tail && ([c] + text)[1..] == text;
    hide EscapeMeans;
  }

  lemma {:induction false} ReadIsSpelled(s: string) returns (raw: string)
    requires StringBody(s).Tok?
    ensures s == raw + ("\"" + StringBody(s).rest) && SpellsString(raw, StringBody(s).value)
    decreases |s|
  {
    if s[0] == '"' {
      raw := "";
    } else {
      if s[0] == '\\' { EscapeComplete(s); }
      hide StringBody, SpellsString;
      var n := if s[0] == '\\' then 2 else 1;
      BodyNext(s, n);
      var tail := ReadIsSpelled(s[n..]);
      raw := s[..n] + tail;
      Reassociate(s[..n], tail, "\"" + StringBody(s).rest);
      assert s == s[..n] + s[n..];
      SpelledNext(s[..n], if n == 2 then Unescape(s[1]) else s[0], tail, StringBody(s[n..]).value);
    }
  }

  /** A string is read if and only if a spelling of it stands between quotes, and it
      has at most 1024 characters. */
  lemma StringIff(s: string, text: string, rest: string)
    ensures Value(s) == Tok(StringLit(text), rest)
            <==> exists gap, raw :: Reads(s, gap, "\"" + raw + "\"", rest) && SpellsString(raw, text) && |text| <= 1024
  {
    hide SkipWs, StringBody, NumberOrTimestamp, SpellsString;
    if gap, raw :| Reads(s, gap, "\"" + raw + "\"", rest) && SpellsString(raw, text) && |text| <= 1024 {
      ReadsSkips(s, gap, "\"" + raw + "\"", rest);
      SpelledIsRead(raw, text, rest);
      assert ("\"" + raw + "\"" + rest)[1..] == raw + ("\"" + rest);
    }
    if Value(s) == Tok(StringLit(text), rest) {
      OnlyQuotesAreStrings(s);
      var gap := GapBefore(s);
      var raw := ReadIsSpelled(SkipWs(s)[1..]);
      assert SkipWs(s) == "\"" + raw + "\"" + rest;
      assert Reads(s, gap, "\"" + raw + "\"", rest);
    }
  }

  lemma OnlyQuotesAreStrings(s: string)
    requires Value(s).Tok? && Value(s).value.StringLit?
    ensures SkipWs(s) != "" && SkipWs(s)[0] == '"'
    ensures StringBody(SkipWs(s)[1..]) == Tok(Value(s).value.text, Value(s).rest) && |Value(s).value.text| <= 1024
  {
    hide StringBody, Digits, FractionPart, ExponentPart, NumeralValue, TimestampLength;
  }

  // ----- numerals ----------------------------------------------------------

  /** A numeral: sign, digits, perhaps a fraction, perhaps an exponent. */
  datatype Numeral = Numeral(negative: bool, whole: string, fraction: Option<string>, power: Option<Power>)

  datatype Power = Power(letter: char, sign: string, digits: string)

  predicate WfNumeral(n: Numeral) {
    && n.whole != "" && AllDigits(n.whole)
    && (n.fraction.Some? ==> n.fraction.value != "" && AllDigits(n.fraction.value))
    && (n.power.Some? ==>
          && n.power.value.letter in {'e', 'E'} && n.power.value.sign in {"", "+", "-"}
          && n.power.value.digits != "" && AllDigits(n.power.value.digits))
  }

  function FractionSpelled(n: Numeral): string { if n.fraction.Some? then "." + n.fraction.value else "" }

  function PowerSpelled(n: Numeral): string {
    if n.power.Some? then [n.power.value.letter] + (n.power.value.sign + n.power.value.digits) else ""
  }

  function Spelled(n: Numeral): string {
    (if n.negative then "-" else "") + (n.whole + (FractionSpelled(n) + PowerSpelled(n)))
  }

  /** The digits without the point, and by how many places it moves. */
  function AllOf(n: Numeral): string { n.whole + (if n.fraction.Some? then n.fraction.value else "") }

  function Places(n: Numeral): int
    requires WfNumeral(n)
  {
    (if n.power.None? then 0
     else if n.power.value.sign == "-" then -(NatValue(n.power.value.digits) as int) else NatValue(n.power.value.digits))
    - (if n.fraction.Some? then |n.fraction.value| else 0)
  }

  /** The decimal is worth `m` times ten to the `e`: trailing zeros may have moved
      from the mantissa to the exponent. */
  ghost predicate Worth(d: Decimal, m: int, e: int) {
    if m == 0 then d == Decimal(0, 0)
    else exists k: nat :: d.exponent == e + k && d.mantissa * Pow10(k) == m
  }

  lemma {:induction false} NormalizeIsWorth(m: int, e: int)
    ensures Worth(Normalize(m, e), m, e)
    decreases Abs(m)
  {
    if m != 0 {
      if m % 10 == 0 {
        NormalizeIsWorth(m / 10, e + 1);
        var d := Normalize(m, e);
        var k: nat :| d.exponent == e + 1 + k && d.mantissa * Pow10(k) == m / 10;
        TenthPower(d.mantissa, Pow10(k));
        assert d.mantissa * Pow10(k + 1) == m;
      } else {
        assert Pow10(0) == 1;
        assert Normalize(m, e).mantissa * Pow10(0) == m;
      }
    }
  }

  lemma NoDigitEnds(rest: string)
    requires EndsValue(rest)
    ensures rest == "" || !IsDigit(rest[0])
  {
  }

  /** An exponent after its letter. */
  lemma ExponentRead(s: string, letter: char, sign: string, digits: string, rest: string)
    requires letter in {'e', 'E'} && sign in {"", "+", "-"} && digits != "" && AllDigits(digits) && EndsValue(rest)
    requires s == [letter] + (sign + (digits + rest))
    ensures ExponentPart(s) == Tok(if sign == "-" then -(NatValue(digits) as int) else NatValue(digits), rest)
  {
    hide NatValue, Digits;
    NoDigitEnds(rest);
    DigitsRead(digits, rest);
    if sign == "" {
      assert s[1..] == digits + rest && s[1] == digits[0];
    } else {
      assert s[2..] == digits + rest && s[1] == sign[0];
    }
  }

  lemma PowerRead(n: Numeral, rest: string)
    requires WfNumeral(n) && EndsValue(rest)
    ensures ExponentPart(PowerSpelled(n) + rest)
            == Tok(if n.power.None? then 0
                   else if n.power.value.sign == "-" then -(NatValue(n.power.value.digits) as int)
                   else NatValue(n.power.value.digits), rest)
  {
    hide NatValue;
    if n.power.Some? {
      var p := n.power.value;
      var s := PowerSpelled(n) + rest;
      assert s == [p.letter] + (p.sign + (p.digits + rest));
      hide ExponentPart;
      ExponentRead(s, p.letter, p.sign, p.digits, rest);
    } else {
      assert PowerSpelled(n) + rest == rest;
    }
  }

  lemma FractionRead(n: Numeral, s2: string)
    requires WfNumeral(n) && (s2 == "" || (!IsDigit(s2[0]) && s2[0] != '.'))
    ensures FractionPart(FractionSpelled(n) + s2) == Tok(if n.fraction.Some? then n.fraction.value else "", s2)
  {
    hide Digits;
    if n.fraction.Some? {
      DigitsRead(n.fraction.value, s2);
      assert (FractionSpelled(n) + s2)[1..] == n.fraction.value + s2;
    } else {
      assert FractionSpelled(n) + s2 == s2;
    }
  }

  lemma PowerStarts(n: Numeral, rest: string)
    requires WfNumeral(n) && EndsValue(rest)
    ensures var s := PowerSpelled(n) + rest; s == "" || (!IsDigit(s[0]) && s[0] != '.')
  {
    if n.power.None? { assert PowerSpelled(n) + rest == rest; }
  }

  lemma FractionStarts(n: Numeral, s2: string)
    requires WfNumeral(n) && (s2 == "" || !IsDigit(s2[0]))
    ensures var s := FractionSpelled(n) + s2; s == "" || !IsDigit(s[0])
  {
    if n.fraction.None? { assert FractionSpelled(n) + s2 == s2; }
  }

  lemma UnsignedRead(n: Numeral, rest: string)
    requires WfNumeral(n) && EndsValue(rest)
    ensures Unsigned(n.negative, n.whole + (FractionSpelled(n) + (PowerSpelled(n) + rest)))
            == Tok(NumberLit(Normalize(Signed(n.negative, NatValue(AllOf(n))), Places(n))), rest)
  {
    hide Digits, FractionPart, ExponentPart, Normalize, NatValue, PowerSpelled, FractionSpelled, EndsValue, IsDigit;
    var s2 := PowerSpelled(n) + rest;
    PowerStarts(n, rest);
    FractionStarts(n, s2);
    DigitsRead(n.whole, FractionSpelled(n) + s2);
    FractionRead(n, s2);
    PowerRead(n, rest);
  }

  /** Every numeral, before whatever ends a value, is read as its exact value: the
      signed number of all its digits, moved by its exponent and its fraction. */
  lemma NumeralIsRead(n: Numeral, rest: string)
    requires WfNumeral(n) && EndsValue(rest)
    ensures var r := Number(Spelled(n) + rest);
            && r.Tok? && r.rest == rest && r.value.NumberLit?
            && Worth(r.value.number, if n.negative then -(NatValue(AllOf(n)) as int) else NatValue(AllOf(n)), Places(n))
  {
    hide Unsigned, Normalize, NatValue, Worth, PowerSpelled, FractionSpelled, EndsValue, Number;
    UnsignedRead(n, rest);
    NormalizeIsWorth(Signed(n.negative, NatValue(AllOf(n))), Places(n));
    SignedRead(n, rest);
  }

  lemma SignedRead(n: Numeral, rest: string)
    requires WfNumeral(n)
    ensures Number(Spelled(n) + rest) == Unsigned(n.negative, n.whole + (FractionSpelled(n) + (PowerSpelled(n) + rest)))
  {
    hide Unsigned, PowerSpelled, FractionSpelled;
    var digits := n.whole + (FractionSpelled(n) + (PowerSpelled(n) + rest));
    var s := Spelled(n) + rest;
    if n.negative {
      assert s == "-" + digits && s[1..] == digits;
    } else {
      assert s == digits && s[0] == n.whole[0];
    }
  }

  // ----- timestamps --------------------------------------------------------

  predicate IsDate(s: string) {
    && |s| == 10 && s[4] == '-' && s[7] == '-'
    && IsDigit(s[0]) && IsDigit(s[1]) && IsDigit(s[2]) && IsDigit(s[3])
    && IsDigit(s[5]) && IsDigit(s[6]) && IsDigit(s[8]) && IsDigit(s[9])
  }

  predicate IsTime(s: string) {
    && |s| == 9 && s[0] == 'T' && s[3] == ':' && s[6] == ':'
    && IsDigit(s[1]) && IsDigit(s[2]) && IsDigit(s[4]) && IsDigit(s[5]) && IsDigit(s[7]) && IsDigit(s[8])
  }

  predicate IsFraction(s: string) { s == "" || (|s| >= 2 && s[0] == '.' && AllDigits(s[1..])) }

  predicate IsZone(s: string) {
    s == "" || s == "Z"
    || (|s| == 6 && (s[0] == '+' || s[0] == '-') && s[3] == ':'
        && IsDigit(s[1]) && IsDigit(s[2]) && IsDigit(s[4]) && IsDigit(s[5]))
  }

  /** A timestamp is a date, or a date and a time, perhaps with a fraction of a
      second and a zone. */
  lemma TimestampsAre(s: string)
    ensures IsTimestamp(s)
            <==> IsDate(s)
                 || exists date, time, fraction, zone ::
                      IsDate(date) && IsTime(time) && IsFraction(fraction) && IsZone(zone)
                      && s == date + (time + (fraction + zone))
  {
    hide ClockLength;
    if IsTimestamp(s) {
      TimestampParts(s);
    }
    if IsDate(s) {
      assert s[10..] == "";
      assert ClockLength("") == 0 by { NoClock(); }
    }
    if date, time, fraction, zone :| IsDate(date) && IsTime(time) && IsFraction(fraction) && IsZone(zone)
                                     && s == date + (time + (fraction + zone)) {
      PartsMakeTimestamp(s, date, time, fraction, zone);
    }
  }

  lemma NoClock()
    ensures ClockLength("") == 0
  {
  }

  lemma FractionParts(s: string)
    ensures FractionLength(s) <= |s| && IsFraction(s[..FractionLength(s)])
  {
    var n := FractionLength(s);
    if n > 0 { assert s[..n][1..] == s[1..][..n - 1]; }
  }

  lemma ClockParts(t: string) returns (time: string, fraction: string, zone: string)
    requires t != "" && ClockLength(t) == |t|
    ensures IsTime(time) && IsFraction(fraction) && IsZone(zone) && t == time + (fraction + zone)
  {
    hide FractionLength, IsFraction;
    var n := FractionLength(t[9..]);
    FractionParts(t[9..]);
    time, fraction, zone := t[..9], t[9..][..n], t[9 + n..];
    assert t[9..][n..] == zone;
  }

  lemma TimestampParts(s: string)
    requires IsTimestamp(s)
    ensures IsDate(s)
            || exists date, time, fraction, zone ::
                 IsDate(date) && IsTime(time) && IsFraction(fraction) && IsZone(zone)
                 && s == date + (time + (fraction + zone))
  {
    hide ClockLength, IsTime, IsFraction, IsZone;
    assert IsDate(s[..10]);
    if s[10..] == "" {
      assert s == s[..10];
    } else {
      var time, fraction, zone := ClockParts(s[10..]);
      assert s == s[..10] + (time + (fraction + zone));
    }
  }

  lemma ZonesAreRead(zone: string)
    requires IsZone(zone)
    ensures ZoneLength(zone) == |zone|
    ensures zone == "" || (!IsDigit(zone[0]) && zone[0] != '.')
  {
  }

  lemma FractionsAreRead(fraction: string, zone: string)
    requires IsFraction(fraction) && (zone == "" || (!IsDigit(zone[0]) && zone[0] != '.'))
    ensures FractionLength(fraction + zone) == |fraction|
  {
    if fraction != "" {
      assert (fraction + zone)[1..] == fraction[1..] + zone;
      DigitRunStops(fraction[1..], zone);
    } else {
      assert fraction + zone == zone;
    }
  }

  lemma ClockIsRead(time: string, fraction: string, zone: string)
    requires IsTime(time) && IsFraction(fraction) && IsZone(zone)
    ensures ClockLength(time + (fraction + zone)) == |time + (fraction + zone)|
  {
    hide ZoneLength, FractionLength, IsZone, IsFraction;
    var t, rest := time + (fraction + zone), fraction + zone;
    ZonesAreRead(zone);
    FractionsAreRead(fraction, zone);
    assert t[9..] == rest && t[9 + |fraction|..] == zone;
    forall i | 0 <= i < 9 ensures t[i] == time[i] {
    }
    assert StartsWithShape(t, TIME);
  }

  lemma PartsMakeTimestamp(s: string, date: string, time: string, fraction: string, zone: string)
    requires IsDate(date) && IsTime(time) && IsFraction(fraction) && IsZone(zone)
    requires s == date + (time + (fraction + zone))
    ensures IsTimestamp(s)
  {
    hide ClockLength, IsTime, IsFraction, IsZone;
    ClockIsRead(time, fraction, zone);
    assert s[10..] == time + (fraction + zone);
    forall i | 0 <= i < 10 ensures s[i] == date[i] {
    }
    assert StartsWithShape(s, DATE);
  }

  // ----- comparisons, however they are spelled ------------------------------

  function CanonicalSpelling(op: Comparator): string {
    match op
    case IsEq => "="
    case IsNe => "!="
    case IsRange(o) => OpText(o)
  }

  /** A field, an operator in any spelling, and any text, with any whitespace between
      them, where it is not needed also none. */
  predicate SpelledComparison(s: string, field: string, op: Comparator, y: string, gap1: string, gap2: string, v: string) {
    && WfField(field) && Spells(y, op) && Blanks(gap1) && Blanks(gap2) && EndsOperator(y, gap2 + v)
    && (gap1 != "" || y in {"=", "!=", "<", "<=", ">", ">="})
    && s == field + (gap1 + (y + (gap2 + v)))
  }

  lemma FieldBefore(field: string, w: string)
    requires WfField(field) && EndsField(w)
    ensures Field(field + w) == Tok(field, w)
  {
    hide Field;
    FieldReads(field, "");
    assert field + "" == field;
    FieldFits(field, w);
    assert Swap(field, "", w) == field + w;
  }

  lemma GapEndsField(gap: string, y: string, op: Comparator, rest: string)
    requires Spells(y, op) && Blanks(gap) && (gap != "" || y in {"=", "!=", "<", "<=", ">", ">="})
    ensures EndsField(gap + (y + rest))
  {
  }

  lemma SpellingIsNotIn(s: string, gap: string, y: string, op: Comparator, rest: string)
    requires Spells(y, op) && Reads(s, gap, y, rest)
    ensures Keyword(s, "in").None?
  {
    SpellingStarts(y, op);
    ReadsSkips(s, gap, y, rest);
    FirstIsNotI(y, op);
    NoKeyword(s, "in");
  }

  lemma FirstIsNotI(y: string, op: Comparator)
    requires Spells(y, op)
    ensures y != "" && LowerChar(y[0]) != 'i'
  {
  }

  lemma ValueBehindGap(gap: string, v: string)
    requires Blanks(gap)
    ensures Value(gap + v) == Value(v)
  {
    hide StringLiteral, NumberOrTimestamp;
    var front := GapBefore(v);
    assert gap + v == (gap + front) + SkipWs(v);
    SkipsGap(gap + front, SkipWs(v));
  }

  lemma SpelledReads(s: string, field: string, op: Comparator, y: string, gap1: string, gap2: string, v: string,
                     leaves: nat, lim: Limits)
    requires SpelledComparison(s, field, op, y, gap1, gap2, v)
    ensures Comparison(s, leaves, lim)
            == match Value(v)
               case Bad(t) => Syntax(t)
               case Tok(value, rest) => Counted(MakeComparison(field, op, value), rest, leaves, lim)
  {
    hide Field, Operator, Keyword, Value, WfField, Spells, EndsOperator;
    var s1 := gap1 + (y + (gap2 + v));
    GapEndsField(gap1, y, op, gap2 + v);
    FieldBefore(field, s1);
    SpellingIsNotIn(s1, gap1, y, op, gap2 + v);
    assert Reads(s1, gap1, y, gap2 + v);
    OperatorIff(s1, op, gap2 + v);
    ValueBehindGap(gap2, v);
  }

  /** Only what is read of the first comparison matters. */
  lemma SameStart(s: string, t: string)
    requires |s| <= MAX_INPUT_LENGTH && |t| <= MAX_INPUT_LENGTH && Starts(s) && Starts(t)
    requires NotExpr(s, 1, 0, LIMITS) == NotExpr(t, 1, 0, LIMITS)
    ensures Parse(s).Success? <==> Parse(t).Success?
    ensures Parse(s).Success? ==> Parse(s) == Parse(t)
  {
    hide NotExpr, AndTail, OrTail, LineAfter, ColumnAfter;
    assert AndExpr(s, 1, 0, LIMITS) == AndExpr(t, 1, 0, LIMITS);
    hide AndExpr;
    assert OrExpr(s, 1, 0, LIMITS) == OrExpr(t, 1, 0, LIMITS);
    hide OrExpr;
  }

  lemma SpelledStarts(s: string, field: string, op: Comparator, y: string, gap1: string, gap2: string, v: string)
    requires SpelledComparison(s, field, op, y, gap1, gap2, v)
    ensures Starts(s) && NotExpr(s, 1, 0, LIMITS) == Comparison(s, 0, LIMITS)
  {
    hide Comparison, NotExpr, Spells, EndsOperator, WfField;
    FieldStart(field);
    FieldReads(field, "");
    assert s[0] == field[0];
    ComparisonNext(s, 1, 0, LIMITS);
  }

  /** Every spelling of a comparison means the same: whatever follows, with a symbol
      or with the word in any case, and with any whitespace, the input is parsed as
      with the canonical spelling and single spaces, if both are short enough. */
  lemma SpellingsAgree(s: string, field: string, op: Comparator, y: string, gap1: string, gap2: string, v: string)
    requires SpelledComparison(s, field, op, y, gap1, gap2, v)
    requires var c := field + " " + CanonicalSpelling(op) + " " + v; |s| <= MAX_INPUT_LENGTH && |c| <= MAX_INPUT_LENGTH
    ensures var c := field + " " + CanonicalSpelling(op) + " " + v;
            && (Parse(s).Success? <==> Parse(c).Success?)
            && (Parse(s).Success? ==> Parse(s) == Parse(c))
  {
    hide Parse, Comparison, NotExpr, Spells, EndsOperator, WfField, Value;
    var word := CanonicalSpelling(op);
    var c := field + " " + word + " " + v;
    CanonicalSpells(op, " " + v);
    assert c == field + (" " + (word + (" " + v)));
    assert SpelledComparison(c, field, op, word, " ", " ", v);
    SpelledReads(s, field, op, y, gap1, gap2, v, 0, LIMITS);
    SpelledReads(c, field, op, word, " ", " ", v, 0, LIMITS);
    SpelledStarts(s, field, op, y, gap1, gap2, v);
    SpelledStarts(c, field, op, word, " ", " ", v);
    SameStart(s, c);
  }

  lemma CanonicalSpells(op: Comparator, rest: string)
    ensures Spells(CanonicalSpelling(op), op)
    ensures rest != "" && rest[0] == ' ' ==> EndsOperator(CanonicalSpelling(op), rest)
  {
  }

  /** And a comparison alone is the tree it says: "<" is less than, ">" is greater
      than, and so on. */
  lemma SpelledComparisonMeans(s: string, field: string, op: Comparator, y: string, gap1: string, gap2: string, v: string,
                               value: Literal)
    requires SpelledComparison(s, field, op, y, gap1, gap2, v) && |s| <= MAX_INPUT_LENGTH && Value(v) == Tok(value, "")
    ensures Parse(s) == Success(match op
                                case IsEq => Eq(field, value)
                                case IsNe => Ne(field, value)
                                case IsRange(o) => Range(field, o, value))
  {
    hide Parse, Comparison, NotExpr, Spells, EndsOperator, WfField, Value, SpelledComparison;
    SpelledReads(s, field, op, y, gap1, gap2, v, 0, LIMITS);
    SpelledStarts(s, field, op, y, gap1, gap2, v);
    OneComparison(s, MakeComparison(field, op, value));
  }
}
