/** What the parser accepts: well-formed trees within every limit. Then when
    printing a filter and parsing it again gives the filter back. */
module FilterAccepted {
  import opened FilterAst
  import opened FilterPrinter
  import opened FilterLexer
  import opened FilterTokens
  import opened FilterGrammar
  import opened FilterCanon
  import opened FilterRoundTrip
  import opened FilterEquality
  import opened FilterReprint
  import opened FilterStructural

  /** The most And and Or nodes on any path from the root to a comparison. */
  function Junctions(a: Node): nat {
    match a
    case Not(child) => Junctions(child)
    case And(children) => 1 + JunctionsAll(children)
    case Or(children) => 1 + JunctionsAll(children)
    case _ => 0
  }

  function JunctionsAll(nodes: seq<Node>): nat {
    if nodes == [] then 0 else Max(Junctions(nodes[0]), JunctionsAll(nodes[1..]))
  }

  /** A tree read at `depth` is well formed, counted, and within the limits. */
  ghost predicate Sound(o: Out<Node>, depth: nat, leaves: nat, context: nat, slack: nat, lim: Limits) {
    o.Got? ==>
      && Wf(o.value)
      && o.leaves == leaves + Leaves(o.value) <= lim.leaves
      && depth + Depth(o.value, context) <= lim.depth
      && Junctions(o.value) <= 2 * (lim.depth - depth) + slack
  }

  ghost predicate SoundAll(o: Out<seq<Node>>, depth: nat, leaves: nat, context: nat, slack: nat, lim: Limits) {
    o.Got? ==>
      && WfAll(o.value)
      && o.leaves == leaves + LeavesAll(o.value) <= lim.leaves
      && depth + DepthAll(o.value, context) <= lim.depth
      && JunctionsAll(o.value) <= 2 * (lim.depth - depth) + slack
  }

  lemma {:induction false} DepthGrows(a: Node, lower: nat, upper: nat)
    requires lower <= upper
    ensures Depth(a, lower) <= Depth(a, upper)
  {
  }

  lemma ValuesWf(s: string)
    requires Values(s).Tok?
    ensures forall v | v in Values(s).value :: WfLiteral(v)
  {
    hide Value;
    MoreValuesWf(Value(s).rest);
  }

  lemma ComparisonSound(s: string, depth: nat, leaves: nat, lim: Limits)
    requires depth <= lim.depth
    ensures Sound(Comparison(s, leaves, lim), depth, leaves, UNDER_NOT, 0, lim)
  {
    hide Field, Keyword, Operator, Value, Values, Expect, WfField, WfLiteral;
    if Comparison(s, leaves, lim).Got? {
      FieldWf(s);
      var s1 := Field(s).rest;
      if Keyword(s1, "in").Some? {
        var s2 := Expect(Keyword(s1, "in").value, '(').rest;
        ValuesWf(s2);
        assert Values(s2).value != [];
      }
    }
  }

  lemma {:induction false} PrimarySound(s: string, depth: nat, leaves: nat, lim: Limits)
    requires depth <= lim.depth && leaves <= lim.leaves
    ensures Sound(Primary(s, depth, leaves, lim), depth, leaves, UNDER_NOT, 0, lim)
    decreases |s|, 1
  {
    var t := SkipWs(s);
    if t != "" && t[0] == '(' {
      hide Expr, Expect, Wf, Leaves, Junctions, Comparison;
      ExprSound(t[1..], depth, leaves, lim);
    } else {
      hide Comparison;
      ComparisonSound(t, depth, leaves, lim);
    }
  }

  lemma {:induction false} NotSound(s: string, depth: nat, leaves: nat, lim: Limits)
    requires depth <= lim.depth && leaves <= lim.leaves
    ensures Sound(NotExpr(s, depth, leaves, lim), depth, leaves, UNDER_NOT, 0, lim)
    decreases |s|, 2
  {
    hide Primary, Keyword;
    if Keyword(s, "not").Some? {
      NotSound(Keyword(s, "not").value, depth, leaves, lim);
    } else {
      PrimarySound(s, depth, leaves, lim);
    }
  }

  lemma {:induction false} AndTailSound(s: string, depth: nat, leaves: nat, lim: Limits)
    requires depth <= lim.depth && leaves <= lim.leaves
    ensures SoundAll(AndTail(s, depth, leaves, lim), depth, leaves, UNDER_AND, 0, lim)
    decreases |s|, 3
  {
    hide NotExpr, Keyword, Wf, Leaves, Depth, Junctions;
    if Keyword(s, "and").Some? {
      var s1 := Keyword(s, "and").value;
      NotSound(s1, depth, leaves, lim);
      var first := NotExpr(s1, depth, leaves, lim);
      if first.Got? {
        DepthGrows(first.value, UNDER_AND, UNDER_NOT);
        AndTailSound(first.rest, depth, first.leaves, lim);
      }
    }
  }

  /** Joining the first operand with the others keeps everything sound. */
  lemma JoinSound(first: Node, others: seq<Node>, context: nat, node: Node)
    requires others != [] && Wf(first) && WfAll(others)
    requires node == And([first] + others) || node == Or([first] + others)
    ensures Wf(node)
    ensures Leaves(node) == Leaves(first) + LeavesAll(others)
    ensures Junctions(node) == 1 + Max(Junctions(first), JunctionsAll(others))
    ensures node.And? ==> Depth(node, UNDER_AND) == Max(Depth(first, UNDER_AND), DepthAll(others, UNDER_AND))
    ensures node.Or? ==> Depth(node, TOP) == Max(Depth(first, UNDER_OR), DepthAll(others, UNDER_OR))
  {
    var all := [first] + others;
    assert all[1..] == others && all[0] == first;
    assert forall c | c in all :: c == first || c in others;
  }

  lemma {:induction false} AndSound(s: string, depth: nat, leaves: nat, lim: Limits)
    requires depth <= lim.depth && leaves <= lim.leaves
    ensures Sound(AndExpr(s, depth, leaves, lim), depth, leaves, UNDER_AND, 1, lim)
    decreases |s|, 3
  {
    hide NotExpr, AndTail, Wf, Leaves, Depth, Junctions;
    NotSound(s, depth, leaves, lim);
    var first := NotExpr(s, depth, leaves, lim);
    if first.Got? {
      DepthGrows(first.value, UNDER_AND, UNDER_NOT);
      AndTailSound(first.rest, depth, first.leaves, lim);
      var others := AndTail(first.rest, depth, first.leaves, lim);
      if others.Got? && others.value != [] {
        JoinSound(first.value, others.value, 0, And([first.value] + others.value));
      }
    }
  }

  lemma {:induction false} OrTailSound(s: string, depth: nat, leaves: nat, lim: Limits)
    requires depth <= lim.depth && leaves <= lim.leaves
    ensures SoundAll(OrTail(s, depth, leaves, lim), depth, leaves, UNDER_OR, 1, lim)
    decreases |s|, 4
  {
    hide AndExpr, Keyword, Wf, Leaves, Depth, Junctions;
    if Keyword(s, "or").Some? {
      var s1 := Keyword(s, "or").value;
      AndSound(s1, depth, leaves, lim);
      var first := AndExpr(s1, depth, leaves, lim);
      if first.Got? {
        DepthGrows(first.value, UNDER_OR, UNDER_AND);
        OrTailSound(first.rest, depth, first.leaves, lim);
      }
    }
  }

  lemma {:induction false} OrSound(s: string, depth: nat, leaves: nat, lim: Limits)
    requires depth <= lim.depth && leaves <= lim.leaves
    ensures Sound(OrExpr(s, depth, leaves, lim), depth, leaves, TOP, 2, lim)
    decreases |s|, 4
  {
    hide AndExpr, OrTail, Wf, Leaves, Depth, Junctions;
    AndSound(s, depth, leaves, lim);
    var first := AndExpr(s, depth, leaves, lim);
    if first.Got? {
      DepthGrows(first.value, UNDER_OR, UNDER_AND);
      DepthGrows(first.value, TOP, UNDER_AND);
      OrTailSound(first.rest, depth, first.leaves, lim);
      var others := OrTail(first.rest, depth, first.leaves, lim);
      if others.Got? && others.value != [] {
        JoinSound(first.value, others.value, 0, Or([first.value] + others.value));
      }
    }
  }

  lemma {:induction false} ExprSound(s: string, depth: nat, leaves: nat, lim: Limits)
    requires depth <= lim.depth && leaves <= lim.leaves
    ensures Sound(Expr(s, depth, leaves, lim), depth, leaves, UNDER_NOT, 0, lim)
    ensures Expr(s, depth, leaves, lim).Got? ==>
              depth + 1 + Depth(Expr(s, depth, leaves, lim).value, TOP) <= lim.depth
    decreases |s|, 5
  {
    hide OrExpr, Wf, Leaves, Junctions;
    if depth + 1 <= lim.depth {
      OrSound(s, depth + 1, leaves, lim);
    }
  }

  /** Every accepted filter is well formed, has at most 1024 comparisons and at
      most 64 And and Or nodes on any path, and prints within 32 levels. */
  lemma AcceptedIsWellFormed(s: string)
    requires Parse(s).Success?
    ensures var a := Parse(s).value;
            && Wf(a)
            && Leaves(a) <= 1024
            && Junctions(a) <= 64
            && Depth(a, TOP) + 1 <= 32
  {
    hide Expr, Wf, Leaves, Junctions, Depth;
    ExprSound(s, 0, 0, LIMITS);
  }

  // ----- printing and parsing an accepted filter again ---------------------

  /** The printed filter is parsed to a structurally equal one. */
  ghost predicate RoundTripHolds(a: Node) {
    var r := Parse(PrintFilter(a));
    r.Success? && StructuralEq(a, r.value)
  }

  /** The printed filter is parsed to one that is printed alike. */
  ghost predicate ReprintHolds(a: Node) {
    var r := Parse(PrintFilter(a));
    r.Success? && PrintFilter(r.value) == PrintFilter(a)
  }

  /** The law of the round trip holds exactly of filters whose text is within the
      limits, and which round-trip in the sense of their shape and numbers. */
  lemma RoundTripHoldsIff(a: Node)
    requires Wf(a)
    ensures RoundTripHolds(a) <==> Fits(a) && RoundTrips(a)
  {
    hide Parse, Wf, Canon, StructuralEq, RoundTrips, PrintFilter, Fits;
    ParsePrinted(a);
    StructuralRoundTrip(a);
  }

  /** And the second text is the first exactly of filters whose text is within the
      limits, and which are settled and steady. */
  lemma ReprintHoldsIff(a: Node)
    requires Wf(a)
    ensures ReprintHolds(a) <==> Fits(a) && Settled(a) && Steady(a)
  {
    hide Parse, Wf, Canon, Settled, Steady, PrintFilter, Fits, Flat;
    ParsePrinted(a);
    ReprintIsStableIffSettled(a);
  }

  /** Of accepted filters both hold under the conditions on shape and numbers,
      unless the text has grown too long. */
  lemma ReparseAccepted(s: string)
    requires Parse(s).Success?
    ensures var a := Parse(s).value;
            && (Fits(a) <==> |PrintFilter(a)| <= MAX_INPUT_LENGTH)
            && Parse(PrintFilter(a)) == (if Fits(a) then Success(Canon(a)) else Failure(TOO_LARGE))
            && (RoundTripHolds(a) <==> Fits(a) && RoundTrips(a))
            && (ReprintHolds(a) <==> Fits(a) && Settled(a) && Steady(a))
            && (Flat(a) ==> Settled(a) && (RoundTrips(a) <==> NumbersKept(a)))
  {
    hide Parse, Wf, Canon, Exact, StructuralEq, RoundTrips, Flat, Settled, Steady, NumbersKept, Print, PrintFilter,
         Depth, Leaves, RoundTripHolds, ReprintHolds;
    var a := Parse(s).value;
    AcceptedIsWellFormed(s);
    ParsePrinted(a);
    RoundTripHoldsIff(a);
    ReprintHoldsIff(a);
    if Flat(a) {
      FlatRoundTrips(a);
      ReprintIsStableIffSettled(a);
    }
  }
}
