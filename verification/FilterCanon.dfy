/** The canonical tree: what a printed filter parses to. Operands stand in
    printed order, an And directly under an And (or an Or under an Or) is
    spliced into it, and numbers are rounded as printed. */
module FilterCanon {
  import opened Text
  import opened FilterAst
  import opened FilterPrinter
  import opened FilterTokens

  function AndText(a: Node): string { Print(a, UNDER_AND) }
  function OrText(a: Node): string { Print(a, UNDER_OR) }
  function PlainText(a: Node): string { Print(a, UNDER_NOT) }

  /** Nesting of parentheses in the printed text. */
  function Depth(a: Node, context: nat): nat {
    match a
    case Not(child) => Depth(child, UNDER_NOT)
    case And(children) => DepthAll(children, UNDER_AND) + (if context > UNDER_AND then 1 else 0)
    case Or(children) => DepthAll(children, UNDER_OR) + (if context > UNDER_OR then 1 else 0)
    case _ => 0
  }

  function DepthAll(nodes: seq<Node>, context: nat): nat {
    if nodes == [] then 0 else Max(Depth(nodes[0], context), DepthAll(nodes[1..], context))
  }

  // ----- sizes do not depend on the order of operands ----------------------

  lemma {:induction false} InsertTotals(key: Node -> string, x: Node, xs: seq<Node>, context: nat)
    ensures SizeAll(InsertBy(key, x, xs)) == Size(x) + SizeAll(xs)
    ensures LeavesAll(InsertBy(key, x, xs)) == Leaves(x) + LeavesAll(xs)
    ensures DepthAll(InsertBy(key, x, xs), context) == Max(Depth(x, context), DepthAll(xs, context))
  {
    hide Size, Leaves, Depth;
    if xs != [] && !Leq(key(x), key(xs[0])) {
      InsertTotals(key, x, xs[1..], context);
    }
  }

  lemma {:induction false} SortTotals(key: Node -> string, xs: seq<Node>, context: nat)
    ensures SizeAll(SortBy(key, xs)) == SizeAll(xs)
    ensures LeavesAll(SortBy(key, xs)) == LeavesAll(xs)
    ensures DepthAll(SortBy(key, xs), context) == DepthAll(xs, context)
  {
    hide Size, Leaves, Depth;
    if xs != [] {
      SortTotals(key, xs[1..], context);
      InsertTotals(key, xs[0], SortBy(key, xs[1..]), context);
    }
  }

  lemma {:induction false} AppendTotals(xs: seq<Node>, ys: seq<Node>, context: nat)
    ensures SizeAll(xs + ys) == SizeAll(xs) + SizeAll(ys)
    ensures LeavesAll(xs + ys) == LeavesAll(xs) + LeavesAll(ys)
    ensures DepthAll(xs + ys, context) == Max(DepthAll(xs, context), DepthAll(ys, context))
  {
    hide Size, Leaves, Depth;
    if xs == [] {
      assert xs + ys == ys;
    } else {
      assert (xs + ys)[1..] == xs[1..] + ys;
      AppendTotals(xs[1..], ys, context);
    }
  }

  // ----- operands after splicing -------------------------------------------

  /** The operands of an And as the parser will see them. */
  function AndItems(a: Node): (items: seq<Node>)
    ensures SizeAll(items) + (if a.And? then 1 else 0) <= Size(a)
    decreases Size(a), 0
  {
    if a.And? then
      SortTotals(AndText, a.children, 0);
      AndItemsAll(SortBy(AndText, a.children))
    else [a]
  }

  function AndItemsAll(nodes: seq<Node>): (items: seq<Node>)
    ensures SizeAll(items) <= SizeAll(nodes)
    decreases SizeAll(nodes), 1
  {
    if nodes == [] then []
    else
      AppendTotals(AndItems(nodes[0]), AndItemsAll(nodes[1..]), 0);
      AndItems(nodes[0]) + AndItemsAll(nodes[1..])
  }

  /** The operands of an Or as the parser will see them. */
  function OrItems(a: Node): (items: seq<Node>)
    ensures SizeAll(items) + (if a.Or? then 1 else 0) <= Size(a)
    decreases Size(a), 0
  {
    if a.Or? then
      SortTotals(OrText, a.children, 0);
      OrItemsAll(SortBy(OrText, a.children))
    else [a]
  }

  function OrItemsAll(nodes: seq<Node>): (items: seq<Node>)
    ensures SizeAll(items) <= SizeAll(nodes)
    decreases SizeAll(nodes), 1
  {
    if nodes == [] then []
    else
      AppendTotals(OrItems(nodes[0]), OrItemsAll(nodes[1..]), 0);
      OrItems(nodes[0]) + OrItemsAll(nodes[1..])
  }

  /** The tree a printed filter parses to. */
  function Canon(a: Node): Node
    decreases Size(a), 0
  {
    match a
    case Eq(field, value) => Eq(field, RoundedLiteral(value))
    case Ne(field, value) => Ne(field, RoundedLiteral(value))
    case Range(field, op, value) => Range(field, op, RoundedLiteral(value))
    case In(field, values) => In(field, Map(RoundedLiteral, SortBy(LiteralText, values)))
    case Not(child) => Not(Canon(child))
    case And(_) => And(CanonAll(AndItems(a)))
    case Or(_) => Or(CanonAll(OrItems(a)))
  }

  function CanonAll(nodes: seq<Node>): (r: seq<Node>)
    ensures |r| == |nodes|
    decreases SizeAll(nodes), 1
  {
    if nodes == [] then [] else [Canon(nodes[0])] + CanonAll(nodes[1..])
  }

  // ----- facts about the operands ------------------------------------------

  predicate WfAll(nodes: seq<Node>) { forall i | 0 <= i < |nodes| :: Wf(nodes[i]) }

  lemma SortedWf(key: Node -> string, nodes: seq<Node>)
    requires forall c | c in nodes :: Wf(c)
    ensures WfAll(SortBy(key, nodes))
  {
    hide Wf;
    var s := SortBy(key, nodes);
    forall i | 0 <= i < |s| ensures Wf(s[i]) {
      assert s[i] in multiset(s);
    }
  }

  /** Operands of an And: well formed, none of them an And, as many leaves and
      parentheses as the whole. */
  lemma {:induction false} AndItemsFacts(a: Node)
    requires Wf(a)
    ensures WfAll(AndItems(a)) && forall i | 0 <= i < |AndItems(a)| :: !AndItems(a)[i].And?
    ensures |AndItems(a)| >= if a.And? then 2 else 1
    ensures LeavesAll(AndItems(a)) == Leaves(a)
    ensures DepthAll(AndItems(a), UNDER_NOT) == Depth(a, UNDER_AND)
    decreases Size(a), 0
  {
    if a.And? {
      SortTotals(AndText, a.children, UNDER_AND);
      SortedWf(AndText, a.children);
      AndItemsAllFacts(SortBy(AndText, a.children));
    } else {
      assert LeavesAll([a][1..]) == 0 && DepthAll([a][1..], UNDER_NOT) == 0;
    }
  }

  lemma {:induction false} AndItemsAllFacts(nodes: seq<Node>)
    requires WfAll(nodes)
    ensures var items := AndItemsAll(nodes);
            WfAll(items) && forall i | 0 <= i < |items| :: !items[i].And?
    ensures |AndItemsAll(nodes)| >= |nodes|
    ensures LeavesAll(AndItemsAll(nodes)) == LeavesAll(nodes)
    ensures DepthAll(AndItemsAll(nodes), UNDER_NOT) == DepthAll(nodes, UNDER_AND)
    decreases SizeAll(nodes), 1
  {
    hide Wf, Leaves, Depth, AndItems;
    if nodes != [] {
      AndItemsFacts(nodes[0]);
      AndItemsAllFacts(nodes[1..]);
      AppendTotals(AndItems(nodes[0]), AndItemsAll(nodes[1..]), UNDER_NOT);
    }
  }

  lemma {:induction false} OrItemsFacts(a: Node)
    requires Wf(a)
    ensures WfAll(OrItems(a)) && forall i | 0 <= i < |OrItems(a)| :: !OrItems(a)[i].Or?
    ensures |OrItems(a)| >= if a.Or? then 2 else 1
    ensures LeavesAll(OrItems(a)) == Leaves(a)
    ensures DepthAll(OrItems(a), UNDER_OR) == Depth(a, UNDER_OR)
    decreases Size(a), 0
  {
    if a.Or? {
      SortTotals(OrText, a.children, UNDER_OR);
      SortedWf(OrText, a.children);
      OrItemsAllFacts(SortBy(OrText, a.children));
    } else {
      assert LeavesAll([a][1..]) == 0 && DepthAll([a][1..], UNDER_OR) == 0;
    }
  }

  lemma {:induction false} OrItemsAllFacts(nodes: seq<Node>)
    requires WfAll(nodes)
    ensures var items := OrItemsAll(nodes);
            WfAll(items) && forall i | 0 <= i < |items| :: !items[i].Or?
    ensures |OrItemsAll(nodes)| >= |nodes|
    ensures LeavesAll(OrItemsAll(nodes)) == LeavesAll(nodes)
    ensures DepthAll(OrItemsAll(nodes), UNDER_OR) == DepthAll(nodes, UNDER_OR)
    decreases SizeAll(nodes), 1
  {
    hide Wf, Leaves, Depth, OrItems;
    if nodes != [] {
      OrItemsFacts(nodes[0]);
      OrItemsAllFacts(nodes[1..]);
      AppendTotals(OrItems(nodes[0]), OrItemsAll(nodes[1..]), UNDER_OR);
    }
  }

  // ----- the printed text of the operands ----------------------------------

  lemma {:induction false} PrintAllIsMap(nodes: seq<Node>)
    ensures PrintAll(nodes, UNDER_AND) == Map(AndText, nodes)
    ensures PrintAll(nodes, UNDER_OR) == Map(OrText, nodes)
  {
    hide Print;
  }

  lemma AndTextJoins(a: Node)
    requires a.And?
    ensures AndText(a) == Join(Map(AndText, SortBy(AndText, a.children)), " and ")
  {
    PrintAllIsMap(a.children);
    MapSort(AndText, a.children);
  }

  /** An And prints as its spliced operands, each as it stands under a Not. */
  lemma {:induction false} AndGlue(a: Node)
    requires Wf(a)
    ensures " and " + AndText(a) == Glue(Map(PlainText, AndItems(a)), " and ")
    decreases Size(a), 0
  {
    if a.And? {
      hide Print, AndText, PlainText;
      var sorted := SortBy(AndText, a.children);
      SortTotals(AndText, a.children, 0);
      SortedWf(AndText, a.children);
      AndTextJoins(a);
      AndGlueAll(sorted);
      GlueIsJoin(Map(AndText, sorted), " and ");
    } else {
      assert AndText(a) == PlainText(a);
      hide Print;
      assert Map(PlainText, [a]) == [PlainText(a)];
      GlueIsJoin([PlainText(a)], " and ");
    }
  }

  lemma {:induction false} AndGlueAll(nodes: seq<Node>)
    requires WfAll(nodes)
    ensures Glue(Map(AndText, nodes), " and ") == Glue(Map(PlainText, AndItemsAll(nodes)), " and ")
    decreases SizeAll(nodes), 1
  {
    hide Wf, AndItems, Print;
    if nodes != [] {
      AndGlue(nodes[0]);
      AndGlueAll(nodes[1..]);
      MapAppend(PlainText, AndItems(nodes[0]), AndItemsAll(nodes[1..]));
      GlueAppend(Map(PlainText, AndItems(nodes[0])), Map(PlainText, AndItemsAll(nodes[1..])), " and ");
      assert Map(AndText, nodes)[1..] == Map(AndText, nodes[1..]);
    }
  }

  lemma OrTextJoins(a: Node)
    requires a.Or?
    ensures OrText(a) == Join(Map(OrText, SortBy(OrText, a.children)), " or ")
  {
    PrintAllIsMap(a.children);
    MapSort(OrText, a.children);
  }

  /** An Or prints as its spliced operands, each as it stands under an Or. */
  lemma {:induction false} OrGlue(a: Node)
    requires Wf(a)
    ensures " or " + OrText(a) == Glue(Map(OrText, OrItems(a)), " or ")
    decreases Size(a), 0
  {
    if a.Or? {
      hide Print, OrText;
      var sorted := SortBy(OrText, a.children);
      SortTotals(OrText, a.children, 0);
      SortedWf(OrText, a.children);
      OrTextJoins(a);
      OrGlueAll(sorted);
      GlueIsJoin(Map(OrText, sorted), " or ");
    } else {
      hide Print;
      assert Map(OrText, [a]) == [OrText(a)];
      GlueIsJoin([OrText(a)], " or ");
    }
  }

  lemma {:induction false} OrGlueAll(nodes: seq<Node>)
    requires WfAll(nodes)
    ensures Glue(Map(OrText, nodes), " or ") == Glue(Map(OrText, OrItemsAll(nodes)), " or ")
    decreases SizeAll(nodes), 1
  {
    hide Wf, OrItems, Print;
    if nodes != [] {
      OrGlue(nodes[0]);
      OrGlueAll(nodes[1..]);
      MapAppend(OrText, OrItems(nodes[0]), OrItemsAll(nodes[1..]));
      GlueAppend(Map(OrText, OrItems(nodes[0])), Map(OrText, OrItemsAll(nodes[1..])), " or ");
      assert Map(OrText, nodes)[1..] == Map(OrText, nodes[1..]);
    }
  }
}
