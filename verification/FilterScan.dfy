/** A flat reading of filters: one token after the other, remembering only what
    may come next, how many parentheses are open and how many comparisons were
    read. The grammar accepts, refuses and fails exactly as this scan does. */
module FilterScan {
  import opened FilterAst
  import opened FilterLexer
  import opened FilterGrammar

  /** What may come next. Members are those of the set read so far. */
  datatype Expected =
    | AnOperand                // "not", an opening parenthesis or a field
    | AnOperator               // "in" or a comparison operator
    | AValue
    | ASet                     // the parenthesis that opens a set
    | AMember(members: nat)
    | ASeparator(members: nat) // a comma, or the parenthesis that closes the set
    | AJoiner                  // "and", "or", a closing parenthesis or the end

  /** A place in the scan: what is expected there, the text that is left, the
      expressions entered and not left, the whole one included, and the
      comparisons read. */
  datatype Place = Place(expects: Expected, rest: string, depth: nat, leaves: nat)

  datatype Move = Next(place: Place) | Stop(at: string) | Done

  function Start(s: string): Place { Place(AnOperand, s, 1, 0) }

  /** On to `expects` behind a token that was read; stop where it was not. */
  function Onward<T>(token: Lex<T>, p: Place, expects: Expected): Move {
    match token
    case Bad(t) => Stop(t)
    case Tok(_, rest) => Next(p.(expects := expects, rest := rest))
  }

  function Compared(token: Lex<Literal>, p: Place): Move {
    Onward(token, p.(leaves := p.leaves + 1), AJoiner)
  }

  function OperandStep(p: Place): (m: Move)
    ensures m.Next? ==> |m.place.rest| < |p.rest|
  {
    var t := SkipWs(p.rest);
    if Keyword(p.rest, "not").Some? then Next(p.(rest := Keyword(p.rest, "not").value))
    else if t != "" && t[0] == '(' then Next(p.(rest := t[1..], depth := p.depth + 1))
    else Onward(Field(t), p, AnOperator)
  }

  function OperatorStep(p: Place): (m: Move)
    ensures m.Next? ==> |m.place.rest| < |p.rest|
  {
    match Keyword(p.rest, "in")
    case Some(t) => Next(p.(expects := ASet, rest := t))
    case None => Onward(Operator(p.rest), p, AValue)
  }

  function SeparatorStep(p: Place, members: nat): (m: Move)
    ensures m.Next? ==> |m.place.rest| < |p.rest|
  {
    var t := SkipWs(p.rest);
    if t != "" && t[0] == ',' then Next(p.(expects := AMember(members), rest := t[1..]))
    else
      match Expect(t, ')')
      case Bad(u) => Stop(u)
      case Tok(_, u) =>
        if members > MAX_IN_SET then Stop(u) else Next(p.(expects := AJoiner, rest := u, leaves := p.leaves + 1))
  }

  function JoinerStep(p: Place): (m: Move)
    ensures m.Next? ==> |m.place.rest| < |p.rest|
  {
    if Keyword(p.rest, "and").Some? then Next(p.(expects := AnOperand, rest := Keyword(p.rest, "and").value))
    else if Keyword(p.rest, "or").Some? then Next(p.(expects := AnOperand, rest := Keyword(p.rest, "or").value))
    else if p.depth > 1 then
      Onward(Expect(p.rest, ')'), p.(depth := p.depth - 1), AJoiner)
    else if SkipWs(p.rest) == "" then Done
    else Stop(SkipWs(p.rest))
  }

  function Step(p: Place): (m: Move)
    ensures m.Next? ==> |m.place.rest| < |p.rest|
  {
    match p.expects
    case AnOperand => OperandStep(p)
    case AnOperator => OperatorStep(p)
    case AValue => Compared(Value(p.rest), p)
    case ASet => Onward(Expect(p.rest, '('), p, AMember(0))
    case AMember(n) => Onward(Value(p.rest), p, ASeparator(n + 1))
    case ASeparator(n) => SeparatorStep(p, n)
    case AJoiner => JoinerStep(p)
  }

  datatype Ending = Accepted | Stopped(at: string) | Exceeded

  predicate Over(p: Place, lim: Limits) { p.depth > lim.depth || p.leaves > lim.leaves }

  /** The whole scan from a place on. */
  function Run(p: Place, lim: Limits): Ending
    decreases |p.rest|
  {
    if Over(p, lim) then Exceeded
    else
      match Step(p)
      case Next(q) => Run(q, lim)
      case Stop(t) => Stopped(t)
      case Done => Accepted
  }

  // ----- the scan as a sequence of places ----------------------------------

  /** The place after `n` tokens, whatever the limits. */
  function After(p: Place, n: nat): Option<Place>
    decreases n
  {
    if n == 0 then Some(p)
    else if Step(p).Next? then After(Step(p).place, n - 1)
    else None
  }

  /** Some place of the scan makes the given move. */
  ghost predicate Makes(p: Place, m: Move) {
    exists n: nat :: After(p, n).Some? && Step(After(p, n).value) == m
  }

  /** Some place of the scan is beyond a limit. */
  ghost predicate GoesOver(p: Place, lim: Limits) {
    exists n: nat :: After(p, n).Some? && Over(After(p, n).value, lim)
  }

  lemma MakesLater(p: Place, m: Move)
    ensures Step(p).Next? && Makes(Step(p).place, m) ==> Makes(p, m)
    ensures Makes(p, m) ==> Step(p) == m || (Step(p).Next? && Makes(Step(p).place, m))
    ensures Step(p) == m ==> Makes(p, m)
  {
    hide Step;
    if Step(p).Next? && Makes(Step(p).place, m) {
      var n: nat :| After(Step(p).place, n).Some? && Step(After(Step(p).place, n).value) == m;
      assert After(p, n + 1) == After(Step(p).place, n);
    }
    if Makes(p, m) {
      var n: nat :| After(p, n).Some? && Step(After(p, n).value) == m;
      if n > 0 { assert After(p, n) == After(Step(p).place, n - 1); }
    }
    assert After(p, 0) == Some(p);
  }

  lemma GoesOverLater(p: Place, lim: Limits)
    ensures GoesOver(p, lim) <==> Over(p, lim) || (Step(p).Next? && GoesOver(Step(p).place, lim))
  {
    hide Step, Over;
    if Step(p).Next? && GoesOver(Step(p).place, lim) {
      var n: nat :| After(Step(p).place, n).Some? && Over(After(Step(p).place, n).value, lim);
      assert After(p, n + 1) == After(Step(p).place, n);
    }
    if GoesOver(p, lim) {
      var n: nat :| After(p, n).Some? && Over(After(p, n).value, lim);
      if n > 0 { assert After(p, n) == After(Step(p).place, n - 1); }
    }
    assert After(p, 0) == Some(p);
  }

  /** The scan exceeds a limit if and only if some place does; otherwise it ends
      as the scan without limits. */
  lemma {:induction false} RunMeaning(p: Place, lim: Limits)
    ensures Run(p, lim) == Exceeded <==> GoesOver(p, lim)
    ensures !GoesOver(p, lim) ==> (Run(p, lim) == Accepted <==> Makes(p, Done))
    ensures !GoesOver(p, lim) ==> forall t :: Run(p, lim) == Stopped(t) <==> Makes(p, Stop(t))
    decreases |p.rest|
  {
    hide Step, Over, Makes, GoesOver;
    GoesOverLater(p, lim);
    forall m: Move
      ensures Step(p).Next? && Makes(Step(p).place, m) ==> Makes(p, m)
      ensures Makes(p, m) ==> Step(p) == m || (Step(p).Next? && Makes(Step(p).place, m))
      ensures Step(p) == m ==> Makes(p, m)
    {
      MakesLater(p, m);
    }
    if Step(p).Next? { RunMeaning(Step(p).place, lim); }
  }

  // ----- the grammar follows the scan --------------------------------------

  /** A result of the grammar says how the scan goes on from `p`. */
  ghost predicate Tracks<T>(o: Out<T>, p: Place, depth: nat, lim: Limits) {
    match o
    case Got(_, rest, leaves) =>
      leaves <= lim.leaves && Run(p, lim) == Run(Place(AJoiner, rest, depth, leaves), lim)
    case Syntax(t) => Run(p, lim) == Stopped(t)
    case TooLarge => Run(p, lim) == Exceeded
  }

  lemma RunOn(p: Place, q: Place, lim: Limits)
    requires !Over(p, lim) && Step(p) == Next(q)
    ensures Run(p, lim) == Run(q, lim)
  {
  }

  lemma {:induction false} SetTracks(s: string, members: nat, depth: nat, leaves: nat, lim: Limits)
    requires depth <= lim.depth && leaves <= lim.leaves
    ensures var more, run := MoreValues(s), Run(Place(ASeparator(members), s, depth, leaves), lim);
            if more.Bad? then run == Stopped(more.rest)
            else
              && run == Run(Place(ASeparator(members + |more.value|), more.rest, depth, leaves), lim)
              && (more.rest == "" || more.rest[0] != ',') && SkipWs(more.rest) == more.rest
    decreases |s|
  {
    hide Value, Expect, SkipWs;
    SkipTwice(s);
    var t := SkipWs(s);
    if t != "" && t[0] == ',' {
      var value := Value(t[1..]);
      if value.Tok? {
        SetTracks(value.rest, members + 1, depth, leaves, lim);
      }
    }
  }

  /** The values of a set. */
  lemma ValuesTrack(s: string, depth: nat, leaves: nat, lim: Limits)
    requires depth <= lim.depth && leaves <= lim.leaves
    ensures var values, run := Values(s), Run(Place(AMember(0), s, depth, leaves), lim);
            if values.Bad? then run == Stopped(values.rest)
            else
              && run == Run(Place(ASeparator(|values.value|), values.rest, depth, leaves), lim)
              && (values.rest == "" || values.rest[0] != ',') && SkipWs(values.rest) == values.rest
  {
    hide Value, SkipWs, MoreValues;
    if Value(s).Tok? {
      SetTracks(Value(s).rest, 1, depth, leaves, lim);
    }
  }

  lemma InSetTracks(field: string, s: string, depth: nat, leaves: nat, lim: Limits)
    requires depth <= lim.depth && leaves <= lim.leaves
    ensures Tracks(InSet(field, s, leaves, lim), Place(ASet, s, depth, leaves), depth, lim)
  {
    hide Values, Expect, SkipWs;
    var from, s1 := Place(ASet, s, depth, leaves), Expect(s, '(').rest;
    if Expect(s, '(').Tok? {
      assert Step(from) == Next(Place(AMember(0), s1, depth, leaves));
      ValuesTrack(s1, depth, leaves, lim);
      if Values(s1).Tok? {
        CountedTracks(In(field, Values(s1).value), Expect(Values(s1).rest, ')').rest, depth, leaves, lim);
      }
    }
  }

  /** The place behind a comparison. */
  lemma CountedTracks(node: Node, s: string, depth: nat, leaves: nat, lim: Limits)
    requires depth <= lim.depth && leaves <= lim.leaves
    ensures Tracks(Counted(node, s, leaves, lim), Place(AJoiner, s, depth, leaves + 1), depth, lim)
  {
    hide Step;
  }

  /** An operator and a value. */
  lemma OperationTracks(s: string, depth: nat, leaves: nat, lim: Limits)
    requires depth <= lim.depth && leaves <= lim.leaves && Keyword(s, "in").None?
    ensures var op, run := Operator(s), Run(Place(AnOperator, s, depth, leaves), lim);
            if op.Bad? then run == Stopped(op.rest)
            else if Value(op.rest).Bad? then run == Stopped(Value(op.rest).rest)
            else run == Run(Place(AJoiner, Value(op.rest).rest, depth, leaves + 1), lim)
  {
    hide Keyword, Operator, Value;
  }

  lemma ComparisonTracks(s: string, depth: nat, leaves: nat, lim: Limits)
    requires depth <= lim.depth && leaves <= lim.leaves
    requires Keyword(s, "not").None? && (SkipWs(s) == "" || SkipWs(s)[0] != '(')
    ensures Tracks(Comparison(SkipWs(s), leaves, lim), Place(AnOperand, s, depth, leaves), depth, lim)
  {
    hide Field, Keyword, Operator, Value, InSet, SkipWs;
    var field := Field(SkipWs(s));
    if field.Tok? {
      RunOn(Place(AnOperand, s, depth, leaves), Place(AnOperator, field.rest, depth, leaves), lim);
      if Keyword(field.rest, "in").Some? {
        var s2 := Keyword(field.rest, "in").value;
        RunOn(Place(AnOperator, field.rest, depth, leaves), Place(ASet, s2, depth, leaves), lim);
        InSetTracks(field.value, s2, depth, leaves, lim);
      } else {
        OperationTracks(field.rest, depth, leaves, lim);
        var op := Operator(field.rest);
        if op.Tok? && Value(op.rest).Tok? {
          CountedTracks(MakeComparison(field.value, op.value, Value(op.rest).value), Value(op.rest).rest, depth, leaves, lim);
        }
      }
    }
  }

  /** The parenthesis behind an expression. */
  lemma CloseTracks(s: string, depth: nat, leaves: nat, lim: Limits)
    requires 1 <= depth < lim.depth && leaves <= lim.leaves
    requires Keyword(s, "and").None? && Keyword(s, "or").None?
    ensures var close, run := Expect(s, ')'), Run(Place(AJoiner, s, depth + 1, leaves), lim);
            if close.Bad? then run == Stopped(close.rest)
            else run == Run(Place(AJoiner, close.rest, depth, leaves), lim)
  {
    hide Keyword, Expect;
  }

  /** No operand of the same or a looser kind follows. */
  ghost predicate Ended<T>(o: Out<T>, word: string) { o.Got? ==> Keyword(o.rest, word).None? }

  lemma {:induction false} PrimaryTracks(s: string, depth: nat, leaves: nat, lim: Limits)
    requires 1 <= depth <= lim.depth && leaves <= lim.leaves && Keyword(s, "not").None?
    ensures Tracks(Primary(s, depth, leaves, lim), Place(AnOperand, s, depth, leaves), depth, lim)
    decreases |s|, 1
  {
    hide Expr, Comparison, Expect, Keyword, SkipWs, Field;
    var t := SkipWs(s);
    if t != "" && t[0] == '(' {
      ExprTracks(t[1..], depth, leaves, lim);
      var o := Expr(t[1..], depth, leaves, lim);
      if o.Got? { CloseTracks(o.rest, depth, o.leaves, lim); }
    } else {
      ComparisonTracks(s, depth, leaves, lim);
    }
  }

  lemma {:induction false} NotTracks(s: string, depth: nat, leaves: nat, lim: Limits)
    requires 1 <= depth <= lim.depth && leaves <= lim.leaves
    ensures Tracks(NotExpr(s, depth, leaves, lim), Place(AnOperand, s, depth, leaves), depth, lim)
    decreases |s|, 2
  {
    hide Primary, Keyword, SkipWs, Field;
    if Keyword(s, "not").Some? {
      NotTracks(Keyword(s, "not").value, depth, leaves, lim);
    } else {
      PrimaryTracks(s, depth, leaves, lim);
    }
  }

  lemma {:induction false} AndTailTracks(s: string, depth: nat, leaves: nat, lim: Limits)
    requires 1 <= depth <= lim.depth && leaves <= lim.leaves
    ensures var o := AndTail(s, depth, leaves, lim);
            Tracks(o, Place(AJoiner, s, depth, leaves), depth, lim) && Ended(o, "and")
    decreases |s|, 3
  {
    hide NotExpr, Keyword, Expect, SkipWs;
    if Keyword(s, "and").Some? {
      var s1 := Keyword(s, "and").value;
      NotTracks(s1, depth, leaves, lim);
      var first := NotExpr(s1, depth, leaves, lim);
      if first.Got? { AndTailTracks(first.rest, depth, first.leaves, lim); }
    }
  }

  lemma {:induction false} AndTracks(s: string, depth: nat, leaves: nat, lim: Limits)
    requires 1 <= depth <= lim.depth && leaves <= lim.leaves
    ensures var o := AndExpr(s, depth, leaves, lim);
            Tracks(o, Place(AnOperand, s, depth, leaves), depth, lim) && Ended(o, "and")
    decreases |s|, 3
  {
    hide NotExpr, AndTail, Keyword, Run;
    NotTracks(s, depth, leaves, lim);
    var first := NotExpr(s, depth, leaves, lim);
    if first.Got? { AndTailTracks(first.rest, depth, first.leaves, lim); }
  }

  lemma {:induction false} OrTailTracks(s: string, depth: nat, leaves: nat, lim: Limits)
    requires 1 <= depth <= lim.depth && leaves <= lim.leaves && Keyword(s, "and").None?
    ensures var o := OrTail(s, depth, leaves, lim);
            Tracks(o, Place(AJoiner, s, depth, leaves), depth, lim) && Ended(o, "and") && Ended(o, "or")
    decreases |s|, 4
  {
    hide AndExpr, Keyword, Expect, SkipWs;
    if Keyword(s, "or").Some? {
      var s1 := Keyword(s, "or").value;
      AndTracks(s1, depth, leaves, lim);
      var first := AndExpr(s1, depth, leaves, lim);
      if first.Got? { OrTailTracks(first.rest, depth, first.leaves, lim); }
    }
  }

  lemma {:induction false} OrTracks(s: string, depth: nat, leaves: nat, lim: Limits)
    requires 1 <= depth <= lim.depth && leaves <= lim.leaves
    ensures var o := OrExpr(s, depth, leaves, lim);
            Tracks(o, Place(AnOperand, s, depth, leaves), depth, lim) && Ended(o, "and") && Ended(o, "or")
    decreases |s|, 4
  {
    hide AndExpr, OrTail, Keyword, Run;
    AndTracks(s, depth, leaves, lim);
    var first := AndExpr(s, depth, leaves, lim);
    if first.Got? { OrTailTracks(first.rest, depth, first.leaves, lim); }
  }

  lemma {:induction false} ExprTracks(s: string, depth: nat, leaves: nat, lim: Limits)
    requires depth <= lim.depth && leaves <= lim.leaves
    ensures var o := Expr(s, depth, leaves, lim);
            && Tracks(o, Place(AnOperand, s, depth + 1, leaves), depth + 1, lim)
            && (o.Got? ==> depth < lim.depth) && Ended(o, "and") && Ended(o, "or")
    decreases |s|, 5
  {
    hide OrExpr, Keyword, Step;
    if depth + 1 <= lim.depth {
      OrTracks(s, depth + 1, leaves, lim);
    }
  }

  // ----- whole inputs ------------------------------------------------------

  /** The parser accepts, refuses and fails as the scan from the start does. */
  lemma ParseFollowsScan(s: string)
    requires !Blank(s) && |s| <= MAX_INPUT_LENGTH
    ensures match Run(Start(s), LIMITS)
            case Accepted => Parse(s).Success?
            case Exceeded => Parse(s) == Failure(TOO_LARGE)
            case Stopped(t) => |t| <= |s| && Parse(s) == Failure(ErrorAt(s, |s| - |t|))
  {
    hide Expr, Keyword, SkipWs, LineAfter, ColumnAfter, Blank, OperandStep, OperatorStep, SeparatorStep;
    ExprTracks(s, 0, 0, LIMITS);
  }
}
