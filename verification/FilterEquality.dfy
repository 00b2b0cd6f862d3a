/** What a printed filter says of its tree: printing writes out an arranged tree,
    whose numbers the canonical tree rounds, and two filters print alike exactly
    when their arranged trees agree up to the texts of their literals. Also
    `structural_eq` itself and the conditions on nesting and numbers. */
module FilterEquality {
  import opened Text
  import opened FilterNumber
  import opened FilterAst
  import opened FilterPrinter
  import opened FilterLexer
  import opened FilterTokens
  import opened FilterGrammar
  import opened FilterCanon
  import opened FilterRoundTrip

  // ----- structural equality -----------------------------------------------

  predicate LiteralEq(a: Literal, b: Literal) {
    match (a, b)
    case (StringLit(s), StringLit(t)) => s == t
    case (NumberLit(m), NumberLit(n)) => m == n
    case (TimestampLit(s), TimestampLit(t)) => s == t
    case _ => false
  }

  function IntText(n: int): string { (if n < 0 then "-" else "") + NatText(Abs(n)) }

  /** A key for each literal; numbers by a text that tells them apart. */
  function LiteralKey(l: Literal): string {
    match l
    case StringLit(text) => "s:" + text
    case NumberLit(d) => "n:" + IntText(d.mantissa) + "e" + IntText(d.exponent)
    case TimestampLit(stamp) => "t:" + stamp
  }

  /** `structural_eq`: operands of And and Or are compared as multisets of
      their printed texts, values of an In as multisets of their keys. */
  predicate StructuralEq(a: Node, b: Node) {
    match (a, b)
    case (Eq(f, v), Eq(g, w)) => f == g && LiteralEq(v, w)
    case (Ne(f, v), Ne(g, w)) => f == g && LiteralEq(v, w)
    case (In(f, vs), In(g, ws)) =>
      f == g && |vs| == |ws| && Sort(Map(LiteralKey, vs)) == Sort(Map(LiteralKey, ws))
    case (Range(f, o, v), Range(g, p, w)) => f == g && o == p && LiteralEq(v, w)
    case (Not(c), Not(d)) => StructuralEq(c, d)
    case (And(cs), And(ds)) =>
      |cs| == |ds| && Sort(Map(PrintFilter, cs)) == Sort(Map(PrintFilter, ds))
    case (Or(cs), Or(ds)) =>
      |cs| == |ds| && Sort(Map(PrintFilter, cs)) == Sort(Map(PrintFilter, ds))
    case _ => false
  }

  // ----- nesting -----------------------------------------------------------

  /** No And directly under an And and no Or directly under an Or. */
  predicate Flat(a: Node) {
    match a
    case Not(child) => Flat(child)
    case And(children) => forall c | c in children :: !c.And? && Flat(c)
    case Or(children) => forall c | c in children :: !c.Or? && Flat(c)
    case _ => true
  }

  /** Below any negations, no And directly under an And nor Or under an Or. */
  predicate TopFlat(a: Node) {
    match a
    case Not(child) => TopFlat(child)
    case And(children) => forall c | c in children :: !c.And?
    case Or(children) => forall c | c in children :: !c.Or?
    case _ => true
  }

  /** The operands of every And and Or are still sorted once nested ones of the
      same kind have been spliced in. */
  predicate Settled(a: Node)
    decreases Size(a), 0
  {
    match a
    case Not(child) => Settled(child)
    case And(_) => Sorted(Map(PlainText, AndItems(a))) && SettledAll(AndItems(a))
    case Or(_) => Sorted(Map(OrText, OrItems(a))) && SettledAll(OrItems(a))
    case _ => true
  }

  predicate SettledAll(nodes: seq<Node>)
    decreases SizeAll(nodes), 1
  {
    nodes == [] || (Settled(nodes[0]) && SettledAll(nodes[1..]))
  }

  // ----- numbers that print alike once read back ---------------------------

  predicate SteadyLiteral(l: Literal) { l.NumberLit? ==> SteadyNumber(l.number) }

  /** Every number in the tree is printed as its printed value is. */
  predicate Steady(a: Node) {
    match a
    case Eq(_, value) => SteadyLiteral(value)
    case Ne(_, value) => SteadyLiteral(value)
    case Range(_, _, value) => SteadyLiteral(value)
    case In(_, values) => forall v | v in values :: SteadyLiteral(v)
    case Not(child) => Steady(child)
    case And(children) => forall c | c in children :: Steady(c)
    case Or(children) => forall c | c in children :: Steady(c)
  }

  lemma SteadyLiteralMeans(l: Literal)
    ensures SteadyLiteral(l) <==> LiteralText(RoundedLiteral(l)) == LiteralText(l)
  {
  }

  lemma ExactLiteralIsSteady(l: Literal)
    requires WfLiteral(l) && ExactLiteral(l)
    ensures SteadyLiteral(l)
  {
    if l.NumberLit? { RoundedIsExact(l.number); }
  }

  /** Numbers that survive printing are printed alike. */
  lemma {:induction false} ExactIsSteady(a: Node)
    requires Wf(a) && Exact(a)
    ensures Steady(a)
  {
    match a
    case Eq(_, value) => ExactLiteralIsSteady(value);
    case Ne(_, value) => ExactLiteralIsSteady(value);
    case Range(_, _, value) => ExactLiteralIsSteady(value);
    case In(_, values) =>
      forall v | v in values ensures SteadyLiteral(v) { ExactLiteralIsSteady(v); }
    case Not(child) => ExactIsSteady(child);
    case And(children) =>
      forall c | c in children ensures Steady(c) { ExactIsSteady(c); }
    case Or(children) =>
      forall c | c in children ensures Steady(c) { ExactIsSteady(c); }
  }

  // ----- the canonical tree ------------------------------------------------

  predicate SteadyAll(nodes: seq<Node>) { forall i | 0 <= i < |nodes| :: Steady(nodes[i]) }
  predicate FlatAll(nodes: seq<Node>) { forall i | 0 <= i < |nodes| :: Flat(nodes[i]) }

  predicate SameKind(a: Node, b: Node) {
    (a.And? <==> b.And?) && (a.Or? <==> b.Or?)
  }

  lemma {:induction false} CanonAllAt(nodes: seq<Node>, i: nat)
    requires i < |nodes|
    ensures CanonAll(nodes)[i] == Canon(nodes[i])
    decreases i
  {
    hide Canon;
    if i > 0 {
      CanonAllAt(nodes[1..], i - 1);
    }
  }

  /** Rounded literals are well formed, steady, and rounded once. */
  lemma RoundedLiteralFacts(l: Literal)
    requires WfLiteral(l)
    ensures WfLiteral(RoundedLiteral(l)) && SteadyLiteral(RoundedLiteral(l))
    ensures RoundedLiteral(RoundedLiteral(l)) == RoundedLiteral(l)
    ensures RoundedLiteral(l) == l <==> ExactLiteral(l)
  {
    if l.NumberLit? {
      RoundedIsExact(l.number);
      RoundedTwice(l.number);
    }
  }

  lemma CanonLeafFacts(a: Node)
    requires Wf(a) && IsLeaf(a)
    ensures Wf(Canon(a)) && Flat(Canon(a)) && IsLeaf(Canon(a)) && Steady(Canon(a))
  {
    hide WfField, WfLiteral, RoundedLiteral, SteadyLiteral, LiteralText;
    if a.In? {
      var sorted := SortBy(LiteralText, a.values);
      var values := Map(RoundedLiteral, sorted);
      forall v | v in values ensures WfLiteral(v) && SteadyLiteral(v) {
        var i :| 0 <= i < |values| && values[i] == v;
        assert sorted[i] in multiset(sorted);
        assert sorted[i] in a.values;
        RoundedLiteralFacts(sorted[i]);
      }
    } else {
      RoundedLiteralFacts(a.value);
    }
  }

  /** The canonical tree is well formed, flat, of the same kind, and steady. */
  lemma {:induction false} CanonFacts(a: Node)
    requires Wf(a)
    ensures Wf(Canon(a)) && Flat(Canon(a)) && SameKind(a, Canon(a)) && Steady(Canon(a))
    decreases Size(a), 0
  {
    if IsLeaf(a) {
      CanonLeafFacts(a);
    } else if a.Not? {
      CanonFacts(a.child);
    } else if a.And? {
      AndItemsFacts(a);
      CanonAllFacts(AndItems(a));
      AndOf(AndItems(a), CanonAll(AndItems(a)));
    } else {
      OrItemsFacts(a);
      CanonAllFacts(OrItems(a));
      OrOf(OrItems(a), CanonAll(OrItems(a)));
    }
  }

  /** Operands of an And that are well formed, flat and steady make such an And. */
  lemma AndOf(items: seq<Node>, cs: seq<Node>)
    requires |items| == |cs| >= 2 && WfAll(cs) && FlatAll(cs) && SteadyAll(cs)
    requires forall i | 0 <= i < |items| :: SameKind(items[i], cs[i]) && !items[i].And?
    ensures Wf(And(cs)) && Flat(And(cs)) && Steady(And(cs))
  {
    forall c | c in cs ensures Wf(c) && Flat(c) && Steady(c) && !c.And? {
      hide Wf, Flat, Steady;
      var i :| 0 <= i < |cs| && cs[i] == c;
      assert SameKind(items[i], cs[i]);
    }
  }

  lemma OrOf(items: seq<Node>, cs: seq<Node>)
    requires |items| == |cs| >= 2 && WfAll(cs) && FlatAll(cs) && SteadyAll(cs)
    requires forall i | 0 <= i < |items| :: SameKind(items[i], cs[i]) && !items[i].Or?
    ensures Wf(Or(cs)) && Flat(Or(cs)) && Steady(Or(cs))
  {
    forall c | c in cs ensures Wf(c) && Flat(c) && Steady(c) && !c.Or? {
      hide Wf, Flat, Steady;
      var i :| 0 <= i < |cs| && cs[i] == c;
      assert SameKind(items[i], cs[i]);
    }
  }

  lemma {:induction false} CanonAllFacts(nodes: seq<Node>)
    requires WfAll(nodes)
    ensures WfAll(CanonAll(nodes)) && FlatAll(CanonAll(nodes)) && SteadyAll(CanonAll(nodes))
    ensures forall i | 0 <= i < |nodes| :: SameKind(nodes[i], CanonAll(nodes)[i])
    decreases SizeAll(nodes), 1
  {
    hide Wf, Flat, Steady, Canon;
    if nodes != [] {
      CanonFacts(nodes[0]);
      CanonAllFacts(nodes[1..]);
    }
  }

  lemma SortedSteady(key: Node -> string, nodes: seq<Node>)
    ensures SteadyAll(SortBy(key, nodes)) <==> forall c | c in nodes :: Steady(c)
  {
    hide Steady;
    var s := SortBy(key, nodes);
    assert forall c :: c in nodes <==> c in multiset(s);
    if SteadyAll(s) {
      forall c | c in nodes ensures Steady(c) {
        assert c in multiset(s);
      }
    }
    if forall c | c in nodes :: Steady(c) {
      forall i | 0 <= i < |s| ensures Steady(s[i]) {
        assert s[i] in multiset(s);
      }
    }
  }

  lemma {:induction false} AndItemsSteady(a: Node)
    ensures SteadyAll(AndItems(a)) <==> Steady(a)
    decreases Size(a), 0
  {
    if a.And? {
      SortTotals(AndText, a.children, 0);
      SortedSteady(AndText, a.children);
      AndItemsAllSteady(SortBy(AndText, a.children));
    }
  }

  lemma {:induction false} AndItemsAllSteady(nodes: seq<Node>)
    ensures SteadyAll(AndItemsAll(nodes)) <==> SteadyAll(nodes)
    decreases SizeAll(nodes), 1
  {
    hide Steady, AndItems;
    if nodes != [] {
      AndItemsSteady(nodes[0]);
      AndItemsAllSteady(nodes[1..]);
      SteadyAppend(AndItems(nodes[0]), AndItemsAll(nodes[1..]));
      SteadyAppend([nodes[0]], nodes[1..]);
      assert nodes == [nodes[0]] + nodes[1..];
    }
  }

  lemma {:induction false} OrItemsSteady(a: Node)
    ensures SteadyAll(OrItems(a)) <==> Steady(a)
    decreases Size(a), 0
  {
    if a.Or? {
      SortTotals(OrText, a.children, 0);
      SortedSteady(OrText, a.children);
      OrItemsAllSteady(SortBy(OrText, a.children));
    }
  }

  lemma {:induction false} OrItemsAllSteady(nodes: seq<Node>)
    ensures SteadyAll(OrItemsAll(nodes)) <==> SteadyAll(nodes)
    decreases SizeAll(nodes), 1
  {
    hide Steady, OrItems;
    if nodes != [] {
      OrItemsSteady(nodes[0]);
      OrItemsAllSteady(nodes[1..]);
      SteadyAppend(OrItems(nodes[0]), OrItemsAll(nodes[1..]));
      SteadyAppend([nodes[0]], nodes[1..]);
      assert nodes == [nodes[0]] + nodes[1..];
    }
  }

  lemma SteadyAppend(a: seq<Node>, b: seq<Node>)
    ensures SteadyAll(a + b) <==> SteadyAll(a) && SteadyAll(b)
    ensures SteadyAll([]) && (|a| == 1 ==> (SteadyAll(a) <==> Steady(a[0])))
  {
    hide Steady;
    if SteadyAll(a + b) {
      forall i | 0 <= i < |a| ensures Steady(a[i]) { assert (a + b)[i] == a[i]; }
      forall i | 0 <= i < |b| ensures Steady(b[i]) { assert (a + b)[|a| + i] == b[i]; }
    }
  }

  // ----- the arranged tree -------------------------------------------------

  /** The tree in the order it is printed: operands sorted and spliced, values
      sorted, nothing rounded. */
  function Arranged(a: Node): Node
    decreases Size(a), 0
  {
    match a
    case In(field, values) => In(field, SortBy(LiteralText, values))
    case Not(child) => Not(Arranged(child))
    case And(_) => And(ArrangedAll(AndItems(a)))
    case Or(_) => Or(ArrangedAll(OrItems(a)))
    case _ => a
  }

  function ArrangedAll(nodes: seq<Node>): (r: seq<Node>)
    ensures |r| == |nodes|
    decreases SizeAll(nodes), 1
  {
    if nodes == [] then [] else [Arranged(nodes[0])] + ArrangedAll(nodes[1..])
  }

  /** The tree with every number rounded to six significant digits. */
  function RoundedTree(a: Node): Node {
    match a
    case Eq(field, value) => Eq(field, RoundedLiteral(value))
    case Ne(field, value) => Ne(field, RoundedLiteral(value))
    case Range(field, op, value) => Range(field, op, RoundedLiteral(value))
    case In(field, values) => In(field, Map(RoundedLiteral, values))
    case Not(child) => Not(RoundedTree(child))
    case And(children) => And(RoundedTrees(children))
    case Or(children) => Or(RoundedTrees(children))
  }

  function RoundedTrees(nodes: seq<Node>): (r: seq<Node>)
    ensures |r| == |nodes|
  {
    if nodes == [] then [] else [RoundedTree(nodes[0])] + RoundedTrees(nodes[1..])
  }

  /** The canonical tree is the arranged tree, rounded. */
  lemma {:induction false} CanonIsRounded(a: Node)
    ensures Canon(a) == RoundedTree(Arranged(a))
    decreases Size(a), 0
  {
    hide RoundedLiteral, LiteralText;
    if a.Not? {
      CanonIsRounded(a.child);
    } else if a.And? {
      CanonsAreRounded(AndItems(a));
    } else if a.Or? {
      CanonsAreRounded(OrItems(a));
    }
  }

  lemma {:induction false} CanonsAreRounded(nodes: seq<Node>)
    ensures CanonAll(nodes) == RoundedTrees(ArrangedAll(nodes))
    decreases SizeAll(nodes), 1
  {
    hide Canon, Arranged, RoundedTree;
    if nodes != [] {
      CanonIsRounded(nodes[0]);
      CanonsAreRounded(nodes[1..]);
    }
  }

  // ----- printing is writing out the arranged tree -------------------------

  /** The text of a tree with its operands in the order they stand in. */
  function Render(a: Node, context: nat): string {
    match a
    case Eq(field, value) => field + " = " + LiteralText(value)
    case Ne(field, value) => field + " != " + LiteralText(value)
    case In(field, values) => field + " in (" + Join(Map(LiteralText, values), ", ") + ")"
    case Range(field, op, value) => field + " " + OpText(op) + " " + LiteralText(value)
    case Not(child) => "not " + Render(child, UNDER_NOT)
    case And(children) => Parenthesized(Join(RenderAll(children, UNDER_AND), " and "), context > UNDER_AND)
    case Or(children) => Parenthesized(Join(RenderAll(children, UNDER_OR), " or "), context > UNDER_OR)
  }

  function RenderAll(nodes: seq<Node>, context: nat): (r: seq<string>)
    ensures |r| == |nodes|
  {
    if nodes == [] then [] else [Render(nodes[0], context)] + RenderAll(nodes[1..], context)
  }

  /** What is printed is the arranged tree, in its own order. */
  lemma {:induction false} PrintRenders(a: Node, context: nat)
    requires Wf(a)
    ensures Print(a, context) == Render(Arranged(a), context)
    decreases Size(a), 0
  {
    if IsLeaf(a) {
      hide LiteralText, Join;
    } else if a.Not? {
      PrintRenders(a.child, UNDER_NOT);
    } else if a.And? {
      AndItemsFacts(a);
      AndGlue(a);
      GlueIsJoin(Map(PlainText, AndItems(a)), " and ");
      SameAfter(" and ", AndText(a), Join(Map(PlainText, AndItems(a)), " and "));
      AndItemsRender(AndItems(a));
    } else {
      OrItemsFacts(a);
      OrGlue(a);
      GlueIsJoin(Map(OrText, OrItems(a)), " or ");
      SameAfter(" or ", OrText(a), Join(Map(OrText, OrItems(a)), " or "));
      OrItemsRender(OrItems(a));
    }
  }

  lemma {:induction false} AndItemsRender(items: seq<Node>)
    requires WfAll(items) && forall i | 0 <= i < |items| :: !items[i].And?
    ensures Map(PlainText, items) == RenderAll(ArrangedAll(items), UNDER_AND)
    decreases SizeAll(items), 1
  {
    hide Wf, Arranged, Render;
    if items != [] {
      assert PlainText(items[0]) == AndText(items[0]) by { PlainUnderAnd(items[0]); }
      hide Print;
      PrintRenders(items[0], UNDER_AND);
      AndItemsRender(items[1..]);
    }
  }

  lemma PlainUnderAnd(a: Node)
    requires !a.And?
    ensures PlainText(a) == AndText(a)
  {
  }

  lemma {:induction false} OrItemsRender(items: seq<Node>)
    requires WfAll(items)
    ensures Map(OrText, items) == RenderAll(ArrangedAll(items), UNDER_OR)
    decreases SizeAll(items), 1
  {
    hide Wf, Arranged, Render, Print;
    if items != [] {
      PrintRenders(items[0], UNDER_OR);
      OrItemsRender(items[1..]);
    }
  }

  // ----- steady trees print as their canonical trees -----------------------

  lemma {:induction false} ArrangedSteady(a: Node)
    ensures Steady(Arranged(a)) <==> Steady(a)
    decreases Size(a), 0
  {
    if a.In? {
      SortedValuesSteady(a);
    } else if a.Not? {
      ArrangedSteady(a.child);
    } else if a.And? || a.Or? {
      hide AndItems, OrItems, ArrangedAll, Steady;
      AndItemsSteady(a);
      OrItemsSteady(a);
      var items := if a.And? then AndItems(a) else OrItems(a);
      ArrangedAllSteady(items);
      SteadyMembers(ArrangedAll(items));
    }
  }

  lemma SortedValuesSteady(a: Node)
    requires a.In?
    ensures Steady(Arranged(a)) <==> Steady(a)
  {
    hide SteadyLiteral, LiteralText;
    var sorted := SortBy(LiteralText, a.values);
    assert forall v :: v in a.values <==> v in multiset(sorted);
    assert forall v :: v in a.values <==> v in sorted;
  }

  lemma SteadyMembers(nodes: seq<Node>)
    ensures Steady(And(nodes)) <==> SteadyAll(nodes)
    ensures Steady(Or(nodes)) <==> SteadyAll(nodes)
  {
    if forall c | c in nodes :: Steady(c) {
      forall i | 0 <= i < |nodes| ensures Steady(nodes[i]) {
        assert nodes[i] in nodes;
      }
    }
  }

  lemma {:induction false} ArrangedAllSteady(nodes: seq<Node>)
    ensures SteadyAll(ArrangedAll(nodes)) <==> SteadyAll(nodes)
    decreases SizeAll(nodes), 1
  {
    hide Steady, Arranged;
    if nodes != [] {
      ArrangedSteady(nodes[0]);
      ArrangedAllSteady(nodes[1..]);
      SteadyAppend([Arranged(nodes[0])], ArrangedAll(nodes[1..]));
      SteadyAppend([nodes[0]], nodes[1..]);
      assert nodes == [nodes[0]] + nodes[1..];
    }
  }

  /** Rounding does not change the text of a steady tree. */
  lemma {:induction false} RoundedRenders(a: Node, context: nat)
    requires Steady(a)
    ensures Render(RoundedTree(a), context) == Render(a, context)
    decreases a
  {
    hide SteadyLiteral, LiteralText, RoundedLiteral, Join;
    match a
    case Eq(_, value) => SteadyLiteralMeans(value);
    case Ne(_, value) => SteadyLiteralMeans(value);
    case Range(_, _, value) => SteadyLiteralMeans(value);
    case In(_, values) =>
      forall i | 0 <= i < |values| ensures LiteralText(RoundedLiteral(values[i])) == LiteralText(values[i]) {
        assert values[i] in values;
        SteadyLiteralMeans(values[i]);
      }
      assert Map(LiteralText, Map(RoundedLiteral, values)) == Map(LiteralText, values);
    case Not(child) => RoundedRenders(child, UNDER_NOT);
    case And(children) => RoundedTreesRender(children, UNDER_AND);
    case Or(children) => RoundedTreesRender(children, UNDER_OR);
  }

  lemma {:induction false} RoundedTreesRender(nodes: seq<Node>, context: nat)
    requires forall c | c in nodes :: Steady(c)
    ensures RenderAll(RoundedTrees(nodes), context) == RenderAll(nodes, context)
    decreases nodes
  {
    hide Steady, Render, RoundedTree;
    if nodes != [] {
      RoundedRenders(nodes[0], context);
      RoundedTreesRender(nodes[1..], context);
    }
  }

  lemma SteadyPrints(a: Node, context: nat)
    requires Wf(a) && Steady(a)
    ensures Print(a, context) == Render(Canon(a), context)
  {
    hide Wf, Steady, Print, Render, Canon, Arranged, RoundedTree;
    PrintRenders(a, context);
    CanonIsRounded(a);
    ArrangedSteady(a);
    RoundedRenders(Arranged(a), context);
  }

  // ----- a text determines its pieces --------------------------------------

  lemma SameEnds(a: string, x: string, b: string, y: string)
    requires a + x == b + y && x == y
    ensures a == b
  {
    assert |a| == |b|;
    assert (a + x)[..|a|] == a && (b + y)[..|b|] == b;
  }

  /** Reading stops at the same place, so the printed operand is determined. */
  lemma PlainReadsOnce(x: Node, tx: string, y: Node, ty: string)
    requires Wf(x) && Wf(y) && Delimited(tx) && Delimited(ty)
    requires PlainText(x) + tx == PlainText(y) + ty
    ensures PlainText(x) == PlainText(y) && tx == ty && Canon(x) == Canon(y)
  {
    hide Wf, Canon, PlainText, NotExpr, Depth, Leaves, Delimited;
    var lim := Limits(Max(Depth(x, UNDER_NOT), Depth(y, UNDER_NOT)), Max(Leaves(x), Leaves(y)));
    ReadNot(x, tx, 0, 0, lim);
    ReadNot(y, ty, 0, 0, lim);
    SameEnds(PlainText(x), tx, PlainText(y), ty);
  }

  lemma OrReadsOnce(x: Node, tx: string, y: Node, ty: string)
    requires Wf(x) && Wf(y) && !x.Or? && !y.Or? && EndsAnd(tx) && EndsAnd(ty)
    requires OrText(x) + tx == OrText(y) + ty
    ensures OrText(x) == OrText(y) && tx == ty && Canon(x) == Canon(y)
  {
    hide Wf, Canon, OrText, AndExpr, Depth, Leaves, EndsAnd;
    var lim := Limits(Max(Depth(x, UNDER_OR), Depth(y, UNDER_OR)), Max(Leaves(x), Leaves(y)));
    ReadAnd(x, tx, 0, 0, lim);
    ReadAnd(y, ty, 0, 0, lim);
    SameEnds(OrText(x), tx, OrText(y), ty);
  }

  /** The printed operands of an And, one by one. */
  lemma {:induction false} PlainListSame(xs: seq<Node>, ys: seq<Node>)
    requires WfAll(xs) && WfAll(ys)
    requires Glue(Map(PlainText, xs), " and ") == Glue(Map(PlainText, ys), " and ")
    ensures |xs| == |ys| && forall i | 0 <= i < |xs| :: PlainText(xs[i]) == PlainText(ys[i])
    decreases |xs|
  {
    hide Wf, PlainText, Glue, Map, Delimited;
    if xs == [] || ys == [] {
      GlueNothing(PlainText, " and ");
      if xs != [] { GlueFirst(PlainText, xs, " and "); }
      if ys != [] { GlueFirst(PlainText, ys, " and "); }
    } else {
      var tx, ty := Glue(Map(PlainText, xs[1..]), " and "), Glue(Map(PlainText, ys[1..]), " and ");
      GlueFirst(PlainText, xs, " and ");
      GlueFirst(PlainText, ys, " and ");
      SameAfter(" and ", PlainText(xs[0]) + tx, PlainText(ys[0]) + ty);
      GlueDelimits(Map(PlainText, xs[1..]), "");
      GlueDelimits(Map(PlainText, ys[1..]), "");
      assert tx + "" == tx && ty + "" == ty;
      PlainReadsOnce(xs[0], tx, ys[0], ty);
      PlainListSame(xs[1..], ys[1..]);
      forall i | 1 <= i < |xs| ensures PlainText(xs[i]) == PlainText(ys[i]) {
        assert PlainText(xs[1..][i - 1]) == PlainText(ys[1..][i - 1]);
      }
    }
  }

  lemma {:induction false} OrListSame(xs: seq<Node>, ys: seq<Node>)
    requires WfAll(xs) && WfAll(ys)
    requires forall i | 0 <= i < |xs| :: !xs[i].Or?
    requires forall i | 0 <= i < |ys| :: !ys[i].Or?
    requires Glue(Map(OrText, xs), " or ") == Glue(Map(OrText, ys), " or ")
    ensures |xs| == |ys| && forall i | 0 <= i < |xs| :: OrText(xs[i]) == OrText(ys[i])
    decreases |xs|
  {
    hide Wf, OrText, EndsAnd, Glue, Map;
    if xs == [] || ys == [] {
      GlueNothing(OrText, " or ");
      if xs != [] { GlueFirst(OrText, xs, " or "); }
      if ys != [] { GlueFirst(OrText, ys, " or "); }
    } else {
      var tx, ty := Glue(Map(OrText, xs[1..]), " or "), Glue(Map(OrText, ys[1..]), " or ");
      GlueFirst(OrText, xs, " or ");
      GlueFirst(OrText, ys, " or ");
      SameAfter(" or ", OrText(xs[0]) + tx, OrText(ys[0]) + ty);
      EndsExprEndsAll("");
      OrTailEndsAnd(Map(OrText, xs[1..]), "");
      OrTailEndsAnd(Map(OrText, ys[1..]), "");
      assert tx + "" == tx && ty + "" == ty;
      OrReadsOnce(xs[0], tx, ys[0], ty);
      OrListSame(xs[1..], ys[1..]);
      forall i | 1 <= i < |xs| ensures OrText(xs[i]) == OrText(ys[i]) {
        assert OrText(xs[1..][i - 1]) == OrText(ys[1..][i - 1]);
      }
    }
  }

  predicate WfValues(values: seq<Literal>) { forall v | v in values :: WfLiteral(v) }

  /** The texts of listed values, one by one; equal texts read back equally and
      are steady alike. */
  lemma {:induction false} ValueListSame(vs: seq<Literal>, ws: seq<Literal>)
    requires WfValues(vs) && WfValues(ws)
    requires Glue(Map(LiteralText, vs), ", ") == Glue(Map(LiteralText, ws), ", ")
    ensures |vs| == |ws| && forall i | 0 <= i < |vs| :: LiteralText(vs[i]) == LiteralText(ws[i])
    decreases |vs|
  {
    hide WfLiteral, LiteralText, Value, RoundedLiteral;
    if vs == [] || ws == [] {
      if vs != [] { GlueFirst(LiteralText, vs, ", "); }
      if ws != [] { GlueFirst(LiteralText, ws, ", "); }
    } else {
      var tx, ty := Glue(Map(LiteralText, vs[1..]), ", "), Glue(Map(LiteralText, ws[1..]), ", ");
      GlueFirst(LiteralText, vs, ", ");
      GlueFirst(LiteralText, ws, ", ");
      SameAfter(", ", LiteralText(vs[0]) + tx, LiteralText(ws[0]) + ty);
      LiteralReads(vs[0], tx);
      LiteralReads(ws[0], ty);
      SameEnds(LiteralText(vs[0]), tx, LiteralText(ws[0]), ty);
      ValueListSame(vs[1..], ws[1..]);
      forall i | 1 <= i < |vs| ensures LiteralText(vs[i]) == LiteralText(ws[i]) {
        assert LiteralText(vs[1..][i - 1]) == LiteralText(ws[1..][i - 1]);
      }
    }
  }

  lemma SameTextSteady(l: Literal, m: Literal)
    requires WfLiteral(l) && WfLiteral(m) && LiteralText(l) == LiteralText(m)
    ensures RoundedLiteral(l) == RoundedLiteral(m) && (SteadyLiteral(l) <==> SteadyLiteral(m))
  {
    hide WfLiteral, LiteralText, RoundedLiteral, SteadyLiteral, Value;
    LiteralReads(l, "");
    LiteralReads(m, "");
    SteadyLiteralMeans(l);
    SteadyLiteralMeans(m);
  }

  /** A context adds at most parentheses. */
  lemma InContext(a: Node, context: nat)
    ensures Print(a, context)
            == Parenthesized(PrintFilter(a), (a.And? && context > UNDER_AND) || (a.Or? && context > UNDER_OR))
  {
  }

  lemma SameInside(a: string, b: string, needed: bool)
    requires Parenthesized(a, needed) == Parenthesized(b, needed)
    ensures a == b
  {
    if needed {
      assert ("(" + a + ")")[1..|a| + 1] == a && ("(" + b + ")")[1..|b| + 1] == b;
    }
  }

  /** The kind of a tree is that of its canonical tree. */
  lemma CanonKind(a: Node)
    ensures (a.Eq? <==> Canon(a).Eq?) && (a.Ne? <==> Canon(a).Ne?) && (a.Range? <==> Canon(a).Range?)
    ensures (a.In? <==> Canon(a).In?) && (a.Not? <==> Canon(a).Not?)
    ensures (a.And? <==> Canon(a).And?) && (a.Or? <==> Canon(a).Or?)
    ensures IsLeaf(a) ==> Canon(a).field == a.field
    ensures a.Range? ==> Canon(a).op == a.op
  {
  }

  lemma SameTextSameCanon(a: Node, b: Node)
    requires Wf(a) && Wf(b) && PrintFilter(a) == PrintFilter(b)
    ensures Canon(a) == Canon(b)
  {
    hide Wf, Canon, Print, PrintFilter, Depth, Leaves, OrExpr;
    var lim := Limits(Max(Depth(a, TOP), Depth(b, TOP)), Max(Leaves(a), Leaves(b)));
    ReadExpr(a, "", 0, 0, lim);
    ReadExpr(b, "", 0, 0, lim);
  }

  /** Filters that print alike on their own do so in every context. */
  lemma SamePrintEverywhere(a: Node, b: Node, context: nat)
    requires Wf(a) && Wf(b) && PrintFilter(a) == PrintFilter(b)
    ensures Print(a, context) == Print(b, context)
  {
    hide Wf, Print, Canon, PrintFilter;
    InContext(a, context);
    InContext(b, context);
    SameTextSameCanon(a, b);
    CanonKind(a);
    CanonKind(b);
  }

  /** And those that do so in the tightest context do so on their own. */
  lemma PlainSame(a: Node, b: Node)
    requires Wf(a) && Wf(b) && PlainText(a) == PlainText(b)
    ensures PrintFilter(a) == PrintFilter(b)
  {
    hide Wf, Print, Canon, PrintFilter;
    InContext(a, UNDER_NOT);
    InContext(b, UNDER_NOT);
    PlainReadsOnce(a, "", b, "");
    CanonKind(a);
    CanonKind(b);
    SameInside(PrintFilter(a), PrintFilter(b), a.And? || a.Or?);
  }

  lemma OrSame(a: Node, b: Node)
    requires !a.Or? && !b.Or? && OrText(a) == OrText(b)
    ensures PrintFilter(a) == PrintFilter(b)
  {
    hide Print, PrintFilter;
    InContext(a, UNDER_OR);
    InContext(b, UNDER_OR);
  }

  // ----- which filters print alike -----------------------------------------

  /** The same tree up to the texts of its literals. */
  predicate Alike(a: Node, b: Node) {
    match (a, b)
    case (Eq(f, v), Eq(g, w)) => f == g && LiteralText(v) == LiteralText(w)
    case (Ne(f, v), Ne(g, w)) => f == g && LiteralText(v) == LiteralText(w)
    case (Range(f, o, v), Range(g, p, w)) => f == g && o == p && LiteralText(v) == LiteralText(w)
    case (In(f, vs), In(g, ws)) => f == g && Map(LiteralText, vs) == Map(LiteralText, ws)
    case (Not(c), Not(d)) => Alike(c, d)
    case (And(cs), And(ds)) => AlikeAll(cs, ds)
    case (Or(cs), Or(ds)) => AlikeAll(cs, ds)
    case _ => false
  }

  predicate AlikeAll(cs: seq<Node>, ds: seq<Node>) {
    if cs == [] || ds == [] then cs == ds else Alike(cs[0], ds[0]) && AlikeAll(cs[1..], ds[1..])
  }

  lemma {:induction false} AlikeRenders(a: Node, b: Node, context: nat)
    requires Alike(a, b)
    ensures Render(a, context) == Render(b, context)
    decreases a
  {
    hide LiteralText, Join;
    match a
    case Not(child) => AlikeRenders(child, b.child, UNDER_NOT);
    case And(children) => AllAlikeRender(children, b.children, UNDER_AND);
    case Or(children) => AllAlikeRender(children, b.children, UNDER_OR);
    case _ =>
  }

  lemma {:induction false} AllAlikeRender(cs: seq<Node>, ds: seq<Node>, context: nat)
    requires AlikeAll(cs, ds)
    ensures RenderAll(cs, context) == RenderAll(ds, context)
    decreases cs
  {
    hide Alike, Render;
    if cs != [] {
      AlikeRenders(cs[0], ds[0], context);
      AllAlikeRender(cs[1..], ds[1..], context);
    }
  }

  /** Comparisons that print alike. */
  lemma SameLeafAlike(a: Node, b: Node)
    requires Wf(a) && Wf(b) && IsLeaf(a) && PrintFilter(a) == PrintFilter(b)
    ensures IsLeaf(b) && Alike(Arranged(a), Arranged(b)) && (Steady(a) <==> Steady(b))
  {
    hide Wf, Canon, LiteralText, SteadyLiteral, PrintFilter, Front;
    SameTextSameCanon(a, b);
    CanonKind(a);
    CanonKind(b);
    if a.In? {
      SameSetAlike(a, b);
    } else {
      ValueText(a);
      ValueText(b);
      SameFront(a, b);
      SameValueText(Front(a), a.value, b.value);
    }
  }

  /** The text of a comparison before its value. */
  function Front(a: Node): string
    requires a.Eq? || a.Ne? || a.Range?
  {
    a.field + if a.Eq? then " = " else if a.Ne? then " != " else " " + OpText(a.op) + " "
  }

  lemma ValueText(a: Node)
    requires a.Eq? || a.Ne? || a.Range?
    ensures PrintFilter(a) == Front(a) + LiteralText(a.value)
  {
    hide LiteralText, OpText;
    if a.Range? {
      Reassociate(a.field, " ", OpText(a.op));
      Reassociate(a.field, " " + OpText(a.op), " ");
    }
  }

  lemma SameFront(a: Node, b: Node)
    requires a.Eq? || a.Ne? || a.Range?
    requires (a.Eq? && b.Eq?) || (a.Ne? && b.Ne?) || (a.Range? && b.Range? && a.op == b.op)
    requires a.field == b.field
    ensures Front(a) == Front(b)
    ensures Wf(a) && Wf(b) ==> WfLiteral(a.value) && WfLiteral(b.value)
  {
    hide WfField, WfLiteral;
  }

  lemma SameValueText(front: string, l: Literal, m: Literal)
    requires WfLiteral(l) && WfLiteral(m) && front + LiteralText(l) == front + LiteralText(m)
    ensures LiteralText(l) == LiteralText(m) && (SteadyLiteral(l) <==> SteadyLiteral(m))
  {
    hide WfLiteral, LiteralText, SteadyLiteral;
    SameAfter(front, LiteralText(l), LiteralText(m));
    SameTextSteady(l, m);
  }

  lemma SameSetAlike(a: Node, b: Node)
    requires Wf(a) && Wf(b) && PrintFilter(a) == PrintFilter(b) && a.In? && b.In? && a.field == b.field
    ensures Alike(Arranged(a), Arranged(b)) && (Steady(a) <==> Steady(b))
  {
    hide WfField, WfLiteral, LiteralText, SteadyLiteral, Join, Glue, Map;
    var vs, ws := SortBy(LiteralText, a.values), SortBy(LiteralText, b.values);
    SortedLiterals(a.values);
    SortedLiterals(b.values);
    SetText(a);
    SetText(b);
    SameAfter(a.field + " in (", Join(Map(LiteralText, vs), ", ") + ")", Join(Map(LiteralText, ws), ", ") + ")");
    SameEnds(Join(Map(LiteralText, vs), ", "), ")", Join(Map(LiteralText, ws), ", "), ")");
    GlueIsJoin(Map(LiteralText, vs), ", ");
    GlueIsJoin(Map(LiteralText, ws), ", ");
    ValueListSame(vs, ws);
    assert Map(LiteralText, vs) == Map(LiteralText, ws);
    SortedValuesSteady(a);
    SortedValuesSteady(b);
    SameListSteady(vs, ws);
  }

  lemma SetText(a: Node)
    requires Wf(a) && a.In?
    ensures PrintFilter(a) == a.field + " in (" + (Join(Map(LiteralText, SortBy(LiteralText, a.values)), ", ") + ")")
    ensures |Map(LiteralText, SortBy(LiteralText, a.values))| >= 1
    ensures Steady(Arranged(a)) <==> forall v | v in SortBy(LiteralText, a.values) :: SteadyLiteral(v)
  {
    hide WfField, WfLiteral, LiteralText, SteadyLiteral, Join;
    var sorted := SortBy(LiteralText, a.values);
    assert |multiset(sorted)| == |multiset(a.values)|;
    Reassociate(a.field + " in (", Join(Map(LiteralText, sorted), ", "), ")");
  }

  lemma SameListSteady(vs: seq<Literal>, ws: seq<Literal>)
    requires WfValues(vs) && WfValues(ws) && |vs| == |ws|
    requires forall i | 0 <= i < |vs| :: LiteralText(vs[i]) == LiteralText(ws[i])
    ensures (forall v | v in vs :: SteadyLiteral(v)) <==> (forall w | w in ws :: SteadyLiteral(w))
  {
    hide WfLiteral, LiteralText, SteadyLiteral;
    forall i | 0 <= i < |vs| ensures SteadyLiteral(vs[i]) <==> SteadyLiteral(ws[i]) {
      SameTextSteady(vs[i], ws[i]);
    }
    if forall v | v in vs :: SteadyLiteral(v) {
      forall w | w in ws ensures SteadyLiteral(w) {
        var i :| 0 <= i < |ws| && ws[i] == w;
        assert vs[i] in vs;
      }
    }
    if forall w | w in ws :: SteadyLiteral(w) {
      forall v | v in vs ensures SteadyLiteral(v) {
        var i :| 0 <= i < |vs| && vs[i] == v;
        assert ws[i] in ws;
      }
    }
  }

  /** The operands of junctions that print alike print alike, one by one. */
  lemma SameAndItems(a: Node, b: Node)
    requires Wf(a) && Wf(b) && a.And? && b.And? && PrintFilter(a) == PrintFilter(b)
    ensures |AndItems(a)| == |AndItems(b)|
    ensures forall i | 0 <= i < |AndItems(a)| :: PrintFilter(AndItems(a)[i]) == PrintFilter(AndItems(b)[i])
  {
    hide Wf, Print, PlainText, PrintFilter;
    AndGlue(a);
    AndGlue(b);
    InContext(a, UNDER_AND);
    InContext(b, UNDER_AND);
    AndItemsFacts(a);
    AndItemsFacts(b);
    PlainListSame(AndItems(a), AndItems(b));
    forall i | 0 <= i < |AndItems(a)| ensures PrintFilter(AndItems(a)[i]) == PrintFilter(AndItems(b)[i]) {
      PlainSame(AndItems(a)[i], AndItems(b)[i]);
    }
  }

  lemma SameOrItems(a: Node, b: Node)
    requires Wf(a) && Wf(b) && a.Or? && b.Or? && PrintFilter(a) == PrintFilter(b)
    ensures |OrItems(a)| == |OrItems(b)|
    ensures forall i | 0 <= i < |OrItems(a)| :: PrintFilter(OrItems(a)[i]) == PrintFilter(OrItems(b)[i])
  {
    hide Wf, Print, PrintFilter;
    OrGlue(a);
    OrGlue(b);
    InContext(a, UNDER_OR);
    InContext(b, UNDER_OR);
    OrItemsFacts(a);
    OrItemsFacts(b);
    OrListSame(OrItems(a), OrItems(b));
    forall i | 0 <= i < |OrItems(a)| ensures PrintFilter(OrItems(a)[i]) == PrintFilter(OrItems(b)[i]) {
      OrSame(OrItems(a)[i], OrItems(b)[i]);
    }
  }

  lemma UnfoldNots(a: Node, b: Node)
    requires a.Not? && b.Not?
    ensures Alike(Arranged(a), Arranged(b)) <==> Alike(Arranged(a.child), Arranged(b.child))
  {
  }

  lemma UnfoldAnds(a: Node, b: Node)
    requires a.And? && b.And?
    ensures Alike(Arranged(a), Arranged(b)) <==> AlikeAll(ArrangedAll(AndItems(a)), ArrangedAll(AndItems(b)))
  {
    hide AlikeAll, ArrangedAll, AndItems;
  }

  lemma UnfoldOrs(a: Node, b: Node)
    requires a.Or? && b.Or?
    ensures Alike(Arranged(a), Arranged(b)) <==> AlikeAll(ArrangedAll(OrItems(a)), ArrangedAll(OrItems(b)))
  {
    hide AlikeAll, ArrangedAll, OrItems;
  }

  lemma NotPrints(a: Node, b: Node)
    requires a.Not? && b.Not? && Wf(a) && Wf(b) && PrintFilter(a) == PrintFilter(b)
    ensures Wf(a.child) && Wf(b.child) && PrintFilter(a.child) == PrintFilter(b.child)
    ensures (Steady(a) <==> Steady(a.child)) && (Steady(b) <==> Steady(b.child)) && Size(a.child) < Size(a)
  {
    SameAfter("not ", PlainText(a.child), PlainText(b.child));
    PlainSame(a.child, b.child);
  }

  lemma {:induction false} SamePrintAlike(a: Node, b: Node)
    requires Wf(a) && Wf(b) && PrintFilter(a) == PrintFilter(b)
    ensures Alike(Arranged(a), Arranged(b)) && (Steady(a) <==> Steady(b))
    decreases Size(a), 1
  {
    hide Canon, Wf, Print, PrintFilter, Alike, AlikeAll, Arranged, ArrangedAll, Steady, AndItems, OrItems, Size;
    SameTextSameCanon(a, b);
    CanonKind(a);
    CanonKind(b);
    if IsLeaf(a) {
      SameLeafAlike(a, b);
    } else {
      if a.Not? {
        UnfoldNots(a, b);
        NotPrints(a, b);
        SamePrintAlike(a.child, b.child);
      } else if a.And? {
        UnfoldAnds(a, b);
        SameAndItems(a, b);
        AndItemsAreLess(a);
        AndItemsFacts(b);
        SamePrintAllAlike(AndItems(a), AndItems(b));
        AndItemsSteady(a);
        AndItemsSteady(b);
      } else {
        UnfoldOrs(a, b);
        SameOrItems(a, b);
        OrItemsAreLess(a);
        OrItemsFacts(b);
        SamePrintAllAlike(OrItems(a), OrItems(b));
        OrItemsSteady(a);
        OrItemsSteady(b);
      }
    }
  }

  lemma AndItemsAreLess(a: Node)
    requires Wf(a) && a.And?
    ensures WfAll(AndItems(a)) && SizeAll(AndItems(a)) < Size(a)
  {
    AndItemsFacts(a);
  }

  lemma OrItemsAreLess(a: Node)
    requires Wf(a) && a.Or?
    ensures WfAll(OrItems(a)) && SizeAll(OrItems(a)) < Size(a)
  {
    OrItemsFacts(a);
  }

  lemma {:induction false} SamePrintAllAlike(xs: seq<Node>, ys: seq<Node>)
    requires WfAll(xs) && WfAll(ys) && |xs| == |ys|
    requires forall i | 0 <= i < |xs| :: PrintFilter(xs[i]) == PrintFilter(ys[i])
    ensures AlikeAll(ArrangedAll(xs), ArrangedAll(ys)) && (SteadyAll(xs) <==> SteadyAll(ys))
    decreases SizeAll(xs), 2
  {
    hide Wf, PrintFilter, Alike, Arranged, Steady;
    if xs != [] {
      SamePrintAlike(xs[0], ys[0]);
      SamePrintAllAlike(xs[1..], ys[1..]);
      SteadyAppend([xs[0]], xs[1..]);
      SteadyAppend([ys[0]], ys[1..]);
      assert xs == [xs[0]] + xs[1..] && ys == [ys[0]] + ys[1..];
    }
  }

  /** Two filters print alike exactly when their arranged trees are the same up to
      the texts of their literals: the printer is injective up to the order of
      operands and set members. */
  lemma SamePrintIffAlike(a: Node, b: Node)
    requires Wf(a) && Wf(b)
    ensures PrintFilter(a) == PrintFilter(b) <==> Alike(Arranged(a), Arranged(b))
  {
    hide Wf, Print, Arranged, Alike, Render;
    PrintRenders(a, TOP);
    PrintRenders(b, TOP);
    if PrintFilter(a) == PrintFilter(b) { SamePrintAlike(a, b); }
    if Alike(Arranged(a), Arranged(b)) { AlikeRenders(Arranged(a), Arranged(b), TOP); }
  }

  /** Filters that print alike have the same canonical tree and are both steady or
      neither; steady filters with the same canonical tree print alike. */
  lemma SamePrintIffSameCanon(a: Node, b: Node)
    requires Wf(a) && Wf(b)
    ensures PrintFilter(a) == PrintFilter(b) ==> Canon(a) == Canon(b) && (Steady(a) <==> Steady(b))
    ensures Steady(a) && Steady(b) ==> (PrintFilter(a) == PrintFilter(b) <==> Canon(a) == Canon(b))
  {
    hide Wf, Print, PrintFilter, Canon, Steady, Render, Arranged, Alike;
    if PrintFilter(a) == PrintFilter(b) {
      SameTextSameCanon(a, b);
      SamePrintAlike(a, b);
    }
    if Steady(a) && Steady(b) {
      SteadyPrints(a, TOP);
      SteadyPrints(b, TOP);
      FilterIs(a);
      FilterIs(b);
    }
  }

  lemma FilterIs(a: Node)
    ensures PrintFilter(a) == Print(a, TOP)
  {
  }
}
