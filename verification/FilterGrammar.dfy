/** The grammar of filters, as functions from the text that is left to a tree
    and the text after it. `depth` counts the enclosing expressions and
    `leaves` the comparisons read so far. */
module FilterGrammar {
  import opened Text
  import opened FilterAst
  import opened FilterLexer

  datatype Limits = Limits(depth: nat, leaves: nat)

  const MAX_INPUT_LENGTH: nat := 16384
  const LIMITS: Limits := Limits(32, 1024)

  /** A tree (or list of trees), the text where no grammar rule fits, or a limit exceeded. */
  datatype Out<+T> = Got(value: T, rest: string, leaves: nat) | Syntax(at: string) | TooLarge {
    predicate IsFailure() { !Got? }

    function PropagateFailure<U>(): Out<U>
      requires IsFailure()
    {
      match this
      case Syntax(t) => Syntax(t)
      case _ => TooLarge
    }

    function Extract(): (T, string, nat)
      requires Got?
    {
      (value, rest, leaves)
    }

    /** Text only gets shorter, and a success consumes at least `least` characters. */
    ghost predicate Within(s: string, least: nat) {
      (Got? ==> |rest| + least <= |s|) && (Syntax? ==> |at| <= |s|)
    }
  }

  /** One more comparison. */
  function Counted(node: Node, rest: string, leaves: nat, lim: Limits): Out<Node> {
    if leaves + 1 > lim.leaves then TooLarge else Got(node, rest, leaves + 1)
  }

  function MakeComparison(field: string, op: Comparator, value: Literal): Node {
    match op
    case IsEq => Eq(field, value)
    case IsNe => Ne(field, value)
    case IsRange(o) => Range(field, o, value)
  }

  function InSet(field: string, s: string, leaves: nat, lim: Limits): (r: Out<Node>)
    ensures r.Within(s, 0)
  {
    match Expect(s, '(')
    case Bad(t) => Syntax(t)
    case Tok(_, s1) =>
      match Values(s1)
      case Bad(t) => Syntax(t)
      case Tok(values, s2) =>
        match Expect(s2, ')')
        case Bad(t) => Syntax(t)
        case Tok(_, s3) =>
          if |values| > MAX_IN_SET then Syntax(s3) else Counted(In(field, values), s3, leaves, lim)
  }

  function Comparison(s: string, leaves: nat, lim: Limits): (r: Out<Node>)
    ensures r.Within(s, 1)
  {
    match Field(s)
    case Bad(t) => Syntax(t)
    case Tok(field, s1) =>
      match Keyword(s1, "in")
      case Some(s2) => InSet(field, s2, leaves, lim)
      case None =>
        match Operator(s1)
        case Bad(t) => Syntax(t)
        case Tok(op, s2) =>
          match Value(s2)
          case Bad(t) => Syntax(t)
          case Tok(value, s3) => Counted(MakeComparison(field, op, value), s3, leaves, lim)
  }

  function Primary(s: string, depth: nat, leaves: nat, lim: Limits): (r: Out<Node>)
    ensures r.Within(s, 1)
    decreases |s|, 1
  {
    var t := SkipWs(s);
    if t != "" && t[0] == '(' then
      var (node, s1, l1) :- Expr(t[1..], depth, leaves, lim);
      match Expect(s1, ')')
      case Bad(s2) => Syntax(s2)
      case Tok(_, s2) => Got(node, s2, l1)
    else
      Comparison(t, leaves, lim)
  }

  function NotExpr(s: string, depth: nat, leaves: nat, lim: Limits): (r: Out<Node>)
    ensures r.Within(s, 1)
    decreases |s|, 2
  {
    match Keyword(s, "not")
    case Some(s1) =>
      var (child, s2, l2) :- NotExpr(s1, depth, leaves, lim);
      Got(Not(child), s2, l2)
    case None => Primary(s, depth, leaves, lim)
  }

  /** The operands after the first, each behind "and". */
  function AndTail(s: string, depth: nat, leaves: nat, lim: Limits): (r: Out<seq<Node>>)
    ensures r.Within(s, 0)
    decreases |s|, 3
  {
    match Keyword(s, "and")
    case None => Got([], s, leaves)
    case Some(s1) =>
      var (first, s2, l2) :- NotExpr(s1, depth, leaves, lim);
      var (others, s3, l3) :- AndTail(s2, depth, l2, lim);
      Got([first] + others, s3, l3)
  }

  function AndExpr(s: string, depth: nat, leaves: nat, lim: Limits): (r: Out<Node>)
    ensures r.Within(s, 1)
    decreases |s|, 3
  {
    var (first, s1, l1) :- NotExpr(s, depth, leaves, lim);
    var (others, s2, l2) :- AndTail(s1, depth, l1, lim);
    Got(if others == [] then first else And([first] + others), s2, l2)
  }

  /** The operands after the first, each behind "or". */
  function OrTail(s: string, depth: nat, leaves: nat, lim: Limits): (r: Out<seq<Node>>)
    ensures r.Within(s, 0)
    decreases |s|, 4
  {
    match Keyword(s, "or")
    case None => Got([], s, leaves)
    case Some(s1) =>
      var (first, s2, l2) :- AndExpr(s1, depth, leaves, lim);
      var (others, s3, l3) :- OrTail(s2, depth, l2, lim);
      Got([first] + others, s3, l3)
  }

  function OrExpr(s: string, depth: nat, leaves: nat, lim: Limits): (r: Out<Node>)
    ensures r.Within(s, 1)
    decreases |s|, 4
  {
    var (first, s1, l1) :- AndExpr(s, depth, leaves, lim);
    var (others, s2, l2) :- OrTail(s1, depth, l1, lim);
    Got(if others == [] then first else Or([first] + others), s2, l2)
  }

  function Expr(s: string, depth: nat, leaves: nat, lim: Limits): (r: Out<Node>)
    ensures r.Within(s, 1)
    decreases |s|, 5
  {
    if depth + 1 > lim.depth then TooLarge else OrExpr(s, depth + 1, leaves, lim)
  }

  // ----- whole inputs ------------------------------------------------------

  datatype ErrorCode = EmptyInput | FilterTooLarge | SyntaxError

  /** Line and column count from 1. */
  datatype ParseError = ParseError(code: ErrorCode, line: nat, column: nat)

  datatype Result<+T> = Success(value: T) | Failure(error: ParseError) {
    predicate IsFailure() { Failure? }

    function PropagateFailure<U>(): Result<U>
      requires Failure?
    {
      Failure(error)
    }

    function Extract(): T
      requires Success?
    {
      value
    }
  }

  function LineAfter(s: string): nat {
    if s == "" then 1 else LineAfter(s[..|s| - 1]) + (if s[|s| - 1] == '\n' then 1 else 0)
  }

  function ColumnAfter(s: string): nat {
    if s == "" || s[|s| - 1] == '\n' then 1 else ColumnAfter(s[..|s| - 1]) + 1
  }

  function ErrorAt(source: string, pos: nat): ParseError
    requires pos <= |source|
  {
    ParseError(SyntaxError, LineAfter(source[..pos]), ColumnAfter(source[..pos]))
  }

  const TOO_LARGE: ParseError := ParseError(FilterTooLarge, 1, 1)

  predicate Blank(s: string) { forall i | 0 <= i < |s| :: IsSpace(s[i]) }

  /** `parse`: a tree for the whole input, or an error. */
  function Parse(s: string): Result<Node> {
    if Blank(s) then Failure(ParseError(EmptyInput, 1, 1))
    else if |s| > MAX_INPUT_LENGTH then Failure(TOO_LARGE)
    else
      match Expr(s, 0, 0, LIMITS)
      case TooLarge => Failure(TOO_LARGE)
      case Syntax(t) => Failure(ErrorAt(s, |s| - |t|))
      case Got(node, rest, _) =>
        var t := SkipWs(rest);
        if t == "" then Success(node) else Failure(ErrorAt(s, |s| - |t|))
  }

  // ----- leading whitespace makes no difference to any token --------------

  lemma SkippedIdentifier(s: string)
    ensures Identifier(s) == Identifier(SkipWs(s))
  {
    SkipTwice(s);
  }

  lemma {:induction false} SkipTwice(s: string)
    ensures SkipWs(SkipWs(s)) == SkipWs(s)
  {
    if s != "" && IsWs(s[0]) {
      SkipTwice(s[1..]);
    }
  }

  lemma KeywordSkips(s: string, word: string)
    ensures Keyword(SkipWs(s), word) == Keyword(s, word)
  {
    SkipTwice(s);
  }

  lemma FieldSkips(s: string)
    ensures Field(SkipWs(s)) == Field(s)
  {
    hide Identifier;
    SkippedIdentifier(s);
  }

  lemma OperatorSkips(s: string)
    ensures Operator(SkipWs(s)) == Operator(s)
  {
    hide Keyword;
    SkipTwice(s);
  }

  lemma PrimarySkips(s: string, depth: nat, leaves: nat, lim: Limits)
    ensures Primary(SkipWs(s), depth, leaves, lim) == Primary(s, depth, leaves, lim)
  {
    hide Comparison, Expr;
    SkipTwice(s);
  }
}
