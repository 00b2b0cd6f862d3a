/** A tree and its canonical tree are printed alike exactly when spliced operands
    stay sorted and every number is printed as its printed value is; from the
    second canonical tree on nothing changes. */
module FilterReprint {
  import opened Text
  import opened FilterAst
  import opened FilterPrinter
  import opened FilterTokens
  import opened FilterCanon
  import opened FilterRoundTrip
  import opened FilterEquality

  /** Taking the canonical tree once more changes nothing. */
  predicate Fixed(a: Node) { Canon(Canon(a)) == Canon(a) }

  predicate FixedAll(nodes: seq<Node>) { forall i | 0 <= i < |nodes| :: Fixed(nodes[i]) }

  // ----- sorted lists stay as they are -------------------------------------

  lemma {:induction false} SortByOfSorted<T>(key: T -> string, xs: seq<T>)
    requires Sorted(Map(key, xs))
    ensures SortBy(key, xs) == xs
  {
    if xs != [] {
      assert Map(key, xs)[1..] == Map(key, xs[1..]);
      SortByOfSorted(key, xs[1..]);
      if |xs| > 1 {
        assert Leq(Map(key, xs)[0], Map(key, xs)[1]);
      }
    }
  }

  lemma SortBySorts<T>(key: T -> string, xs: seq<T>)
    ensures Sorted(Map(key, SortBy(key, xs)))
  {
    MapSort(key, xs);
    SortSorts(Map(key, xs));
  }

  lemma {:induction false} AndItemsAllPlain(nodes: seq<Node>)
    requires forall i | 0 <= i < |nodes| :: !nodes[i].And?
    ensures AndItemsAll(nodes) == nodes
  {
    if nodes != [] {
      AndItemsAllPlain(nodes[1..]);
    }
  }

  lemma {:induction false} OrItemsAllPlain(nodes: seq<Node>)
    requires forall i | 0 <= i < |nodes| :: !nodes[i].Or?
    ensures OrItemsAll(nodes) == nodes
  {
    if nodes != [] {
      OrItemsAllPlain(nodes[1..]);
    }
  }

  /** Without nested operands of the same kind, the operands are just sorted. */
  lemma AndItemsSorted(children: seq<Node>)
    requires forall c | c in children :: !c.And?
    ensures AndItems(And(children)) == SortBy(AndText, children)
  {
    hide AndText;
    var sorted := SortBy(AndText, children);
    forall i | 0 <= i < |sorted| ensures !sorted[i].And? {
      assert sorted[i] in multiset(sorted);
    }
    AndItemsAllPlain(sorted);
  }

  lemma OrItemsSorted(children: seq<Node>)
    requires forall c | c in children :: !c.Or?
    ensures OrItems(Or(children)) == SortBy(OrText, children)
  {
    hide OrText;
    var sorted := SortBy(OrText, children);
    forall i | 0 <= i < |sorted| ensures !sorted[i].Or? {
      assert sorted[i] in multiset(sorted);
    }
    OrItemsAllPlain(sorted);
  }

  /** A fixed filter prints, in any context, like its canonical tree. */
  lemma FixedPrints(a: Node, context: nat)
    requires Wf(a) && Steady(a) && Fixed(a)
    ensures Print(Canon(a), context) == Print(a, context)
  {
    hide Wf, Steady, Canon, Print, Render;
    CanonFacts(a);
    SteadyPrints(a, context);
    SteadyPrints(Canon(a), context);
  }

  lemma FixedAndTexts(items: seq<Node>)
    requires WfAll(items) && SteadyAll(items) && FixedAll(items)
    requires forall i | 0 <= i < |items| :: !items[i].And?
    ensures Map(AndText, CanonAll(items)) == Map(PlainText, items)
  {
    hide Wf, Steady, Canon, Print, Fixed;
    forall i | 0 <= i < |items| ensures AndText(CanonAll(items)[i]) == PlainText(items[i]) {
      CanonAllAt(items, i);
      FixedPrints(items[i], UNDER_AND);
      PlainUnderAnd(items[i]);
    }
  }

  lemma FixedOrTexts(items: seq<Node>)
    requires WfAll(items) && SteadyAll(items) && FixedAll(items)
    ensures Map(OrText, CanonAll(items)) == Map(OrText, items)
  {
    hide Wf, Steady, Canon, Print, Fixed;
    forall i | 0 <= i < |items| ensures OrText(CanonAll(items)[i]) == OrText(items[i]) {
      CanonAllAt(items, i);
      FixedPrints(items[i], UNDER_OR);
    }
  }

  lemma FixedCanons(items: seq<Node>)
    requires FixedAll(items)
    ensures CanonAll(CanonAll(items)) == CanonAll(items)
  {
    hide Canon;
    var cs := CanonAll(items);
    forall i | 0 <= i < |items| ensures CanonAll(cs)[i] == cs[i] {
      CanonAllAt(items, i);
      CanonAllAt(cs, i);
      assert Fixed(items[i]);
    }
  }

  // ----- settled filters are fixed -----------------------------------------

  lemma LeafFixed(a: Node)
    requires Wf(a) && Steady(a) && IsLeaf(a)
    ensures Fixed(a)
  {
    hide WfField, WfLiteral, RoundedLiteral, SteadyLiteral, LiteralText;
    if a.In? {
      RoundedStaysSorted(a.values);
    } else {
      RoundedLiteralFacts(a.value);
    }
  }

  /** Steady values stay sorted when rounded, and are rounded once. */
  lemma RoundedStaysSorted(values: seq<Literal>)
    requires forall v | v in values :: WfLiteral(v) && SteadyLiteral(v)
    ensures var rounded := Map(RoundedLiteral, SortBy(LiteralText, values));
            Map(RoundedLiteral, SortBy(LiteralText, rounded)) == rounded
  {
    hide WfLiteral, RoundedLiteral, SteadyLiteral, LiteralText;
    var sorted := SortBy(LiteralText, values);
    var rounded := Map(RoundedLiteral, sorted);
    forall i | 0 <= i < |sorted|
      ensures LiteralText(rounded[i]) == LiteralText(sorted[i]) && RoundedLiteral(rounded[i]) == rounded[i]
    {
      assert sorted[i] in multiset(sorted);
      assert sorted[i] in values;
      RoundedLiteralFacts(sorted[i]);
      SteadyLiteralMeans(sorted[i]);
    }
    assert Map(LiteralText, rounded) == Map(LiteralText, sorted);
    SortBySorts(LiteralText, values);
    SortByOfSorted(LiteralText, rounded);
    assert Map(RoundedLiteral, rounded) == rounded;
  }

  lemma {:induction false} SettledIsFixed(a: Node)
    requires Wf(a) && Steady(a) && Settled(a)
    ensures Fixed(a)
    decreases Size(a), 0
  {
    if IsLeaf(a) {
      LeafFixed(a);
    } else if a.Not? {
      SettledIsFixed(a.child);
    } else if a.And? {
      hide Wf, Steady, Print, AndText, PlainText;
      var items := AndItems(a);
      AndItemsFacts(a);
      AndItemsSteady(a);
      AllSettledAreFixed(items);
      AndListFixed(items);
    } else {
      hide Wf, Steady, Print, OrText;
      var items := OrItems(a);
      OrItemsFacts(a);
      OrItemsSteady(a);
      AllSettledAreFixed(items);
      OrListFixed(items);
    }
  }

  lemma {:induction false} AllSettledAreFixed(nodes: seq<Node>)
    requires WfAll(nodes) && SteadyAll(nodes) && SettledAll(nodes)
    ensures FixedAll(nodes)
    decreases SizeAll(nodes), 1
  {
    hide Wf, Steady, Settled, Fixed, Size;
    if nodes != [] {
      SettledIsFixed(nodes[0]);
      AllSettledAreFixed(nodes[1..]);
    }
  }

  /** Sorted, fixed operands make a fixed And. */
  lemma AndListFixed(items: seq<Node>)
    requires WfAll(items) && SteadyAll(items) && FixedAll(items)
    requires forall i | 0 <= i < |items| :: !items[i].And?
    requires Sorted(Map(PlainText, items))
    ensures Canon(And(CanonAll(items))) == And(CanonAll(items))
  {
    hide Wf, Steady, Print, Fixed, AndText, PlainText, Canon, AndItems, CanonAll;
    var cs := CanonAll(items);
    FixedAndTexts(items);
    SortByOfSorted(AndText, cs);
    CanonAllFacts(items);
    forall c | c in cs ensures !c.And? {
      var i :| 0 <= i < |cs| && cs[i] == c;
      assert SameKind(items[i], cs[i]);
    }
    AndItemsSorted(cs);
    FixedCanons(items);
    UnfoldAnd(And(cs));
  }

  lemma OrListFixed(items: seq<Node>)
    requires WfAll(items) && SteadyAll(items) && FixedAll(items)
    requires forall i | 0 <= i < |items| :: !items[i].Or?
    requires Sorted(Map(OrText, items))
    ensures Canon(Or(CanonAll(items))) == Or(CanonAll(items))
  {
    hide Wf, Steady, Print, Fixed, OrText, Canon, OrItems, CanonAll;
    var cs := CanonAll(items);
    FixedOrTexts(items);
    SortByOfSorted(OrText, cs);
    CanonAllFacts(items);
    forall c | c in cs ensures !c.Or? {
      var i :| 0 <= i < |cs| && cs[i] == c;
      assert SameKind(items[i], cs[i]);
    }
    OrItemsSorted(cs);
    FixedCanons(items);
    UnfoldOr(Or(cs));
  }

  // ----- flat filters are settled ------------------------------------------

  lemma {:induction false} FlatIsSettled(a: Node)
    requires Flat(a)
    ensures Settled(a)
    decreases Size(a), 0
  {
    if a.Not? {
      FlatIsSettled(a.child);
    } else if a.And? {
      AndItemsSorted(a.children);
      var items := SortBy(AndText, a.children);
      SortBySorts(AndText, a.children);
      SortTotals(AndText, a.children, 0);
      forall i | 0 <= i < |items| ensures Flat(items[i]) && PlainText(items[i]) == AndText(items[i]) {
        assert items[i] in multiset(items);
        PlainUnderAnd(items[i]);
      }
      assert Map(PlainText, items) == Map(AndText, items);
      FlatAllSettled(items);
    } else if a.Or? {
      OrItemsSorted(a.children);
      var items := SortBy(OrText, a.children);
      SortBySorts(OrText, a.children);
      SortTotals(OrText, a.children, 0);
      forall i | 0 <= i < |items| ensures Flat(items[i]) {
        assert items[i] in multiset(items);
      }
      FlatAllSettled(items);
    }
  }

  lemma {:induction false} FlatAllSettled(nodes: seq<Node>)
    requires FlatAll(nodes)
    ensures SettledAll(nodes)
    decreases SizeAll(nodes), 1
  {
    hide Flat, Settled;
    if nodes != [] {
      FlatIsSettled(nodes[0]);
      FlatAllSettled(nodes[1..]);
    }
  }

  /** From the second canonical tree on nothing changes, whatever the numbers were. */
  lemma CanonIsFixed(a: Node)
    requires Wf(a)
    ensures Fixed(Canon(a))
  {
    hide Wf, Steady, Canon, Flat, Settled;
    CanonFacts(a);
    FlatIsSettled(Canon(a));
    SettledIsFixed(Canon(a));
  }

  // ----- fixed filters are settled -----------------------------------------

  lemma {:induction false} FixedIsSettled(a: Node)
    requires Wf(a) && Steady(a) && Fixed(a)
    ensures Settled(a)
    decreases Size(a), 0
  {
    if a.Not? {
      FixedIsSettled(a.child);
    } else if a.And? {
      hide Wf, Steady, Print, AndText, PlainText;
      var items := AndItems(a);
      AndItemsFacts(a);
      AndItemsSteady(a);
      AndListUnfixed(items);
      AllFixedAreSettled(items);
    } else if a.Or? {
      hide Wf, Steady, Print, OrText;
      var items := OrItems(a);
      OrItemsFacts(a);
      OrItemsSteady(a);
      OrListUnfixed(items);
      AllFixedAreSettled(items);
    }
  }

  lemma {:induction false} AllFixedAreSettled(nodes: seq<Node>)
    requires WfAll(nodes) && SteadyAll(nodes) && FixedAll(nodes)
    ensures SettledAll(nodes)
    decreases SizeAll(nodes), 1
  {
    hide Wf, Steady, Settled, Fixed, Size;
    if nodes != [] {
      FixedIsSettled(nodes[0]);
      AllFixedAreSettled(nodes[1..]);
    }
  }

  /** If sorting and canonizing canonical trees gives them back, each is its
      own canonical tree and they were sorted. */
  lemma ListOfFixed(key: Node -> string, items: seq<Node>)
    requires WfAll(items)
    requires CanonAll(SortBy(key, CanonAll(items))) == CanonAll(items)
    ensures FixedAll(items) && SortBy(key, CanonAll(items)) == CanonAll(items)
  {
    hide Wf, Steady, Canon, Fixed;
    var cs := CanonAll(items);
    var sorted := SortBy(key, cs);
    forall i | 0 <= i < |cs| ensures Canon(cs[i]) == cs[i] {
      assert sorted[i] in multiset(sorted);
      assert sorted[i] in cs;
      var j :| 0 <= j < |cs| && cs[j] == sorted[i];
      CanonAllAt(items, j);
      CanonAllAt(sorted, i);
      CanonIsFixed(items[j]);
      assert Fixed(sorted[i]);
      FixedMeans(sorted[i]);
    }
    forall i | 0 <= i < |items| ensures Fixed(items[i]) {
      CanonAllAt(items, i);
      MeansFixed(items[i]);
    }
    forall i | 0 <= i < |sorted| ensures sorted[i] == cs[i] {
      assert sorted[i] in multiset(sorted);
      assert sorted[i] in cs;
      CanonAllAt(sorted, i);
    }
  }

  lemma FixedMeans(a: Node)
    requires Fixed(a)
    ensures Canon(Canon(a)) == Canon(a)
  {
  }

  lemma MeansFixed(a: Node)
    requires Canon(Canon(a)) == Canon(a)
    ensures Fixed(a)
  {
  }

  lemma AndListUnfixed(items: seq<Node>)
    requires WfAll(items) && SteadyAll(items) && forall i | 0 <= i < |items| :: !items[i].And?
    requires Canon(And(CanonAll(items))) == And(CanonAll(items))
    ensures FixedAll(items) && Sorted(Map(PlainText, items))
  {
    hide Wf, Steady, Print, Fixed, AndText, PlainText, Canon, CanonAll, AndItems;
    var cs := CanonAll(items);
    UnfoldAnd(And(cs));
    CanonAllFacts(items);
    forall c | c in cs ensures !c.And? {
      var i :| 0 <= i < |cs| && cs[i] == c;
      assert SameKind(items[i], cs[i]);
    }
    AndItemsSorted(cs);
    ListOfFixed(AndText, items);
    SortBySorts(AndText, cs);
    FixedAndTexts(items);
  }

  lemma OrListUnfixed(items: seq<Node>)
    requires WfAll(items) && SteadyAll(items) && forall i | 0 <= i < |items| :: !items[i].Or?
    requires Canon(Or(CanonAll(items))) == Or(CanonAll(items))
    ensures FixedAll(items) && Sorted(Map(OrText, items))
  {
    hide Wf, Steady, Print, Fixed, OrText, Canon, CanonAll, OrItems;
    var cs := CanonAll(items);
    UnfoldOr(Or(cs));
    CanonAllFacts(items);
    forall c | c in cs ensures !c.Or? {
      var i :| 0 <= i < |cs| && cs[i] == c;
      assert SameKind(items[i], cs[i]);
    }
    OrItemsSorted(cs);
    ListOfFixed(OrText, items);
    SortBySorts(OrText, cs);
    FixedOrTexts(items);
  }

  lemma FixedIffSettled(a: Node)
    requires Wf(a) && Steady(a)
    ensures Fixed(a) <==> Settled(a)
  {
    hide Fixed, Settled;
    if Fixed(a) { FixedIsSettled(a); }
    if Settled(a) { SettledIsFixed(a); }
  }

  /** The canonical tree is printed as the tree itself exactly when the operands of every And and Or stay sorted through splicing and every number
      is printed as its printed value is. */
  lemma ReprintIsStableIffSettled(a: Node)
    requires Wf(a)
    ensures PrintFilter(Canon(a)) == PrintFilter(a) <==> Settled(a) && Steady(a)
    ensures Flat(a) ==> Settled(a)
  {
    hide Wf, Steady, Canon, Print, PrintFilter, Settled, Flat, Fixed;
    CanonFacts(a);
    SamePrintIffSameCanon(Canon(a), a);
    if Steady(a) {
      FixedIffSettled(a);
      if Fixed(a) { FixedMeans(a); }
      if Canon(Canon(a)) == Canon(a) { MeansFixed(a); }
    }
    if Flat(a) { FlatIsSettled(a); }
  }

  /** A filter that prints like some canonical tree prints like its own. */
  lemma CanonicalTextIsStable(a: Node, b: Node)
    requires Wf(a) && Wf(b) && PrintFilter(a) == PrintFilter(Canon(b))
    ensures PrintFilter(Canon(a)) == PrintFilter(a)
  {
    hide Wf, Steady, Canon, Print, PrintFilter, Flat;
    CanonFacts(a);
    CanonFacts(b);
    SamePrintIffSameCanon(a, Canon(b));
    CanonIsFixed(b);
    FixedMeans(Canon(b));
    SamePrintIffSameCanon(Canon(a), a);
  }
}
