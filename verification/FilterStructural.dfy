/** Structural equality and printing: structurally equal filters print alike,
    the converse holds where nothing is spliced at the top and the values there
    agree, and a filter is structurally equal to its canonical tree exactly when it
    `RoundTrips`. */
module FilterStructural {
  import opened Text
  import opened FilterNumber
  import opened FilterAst
  import opened FilterPrinter
  import opened FilterTokens
  import opened FilterCanon
  import opened FilterRoundTrip
  import opened FilterEquality
  import opened FilterReprint

  // ----- multisets of texts ------------------------------------------------

  function Without<T>(xs: seq<T>, i: nat): (r: seq<T>)
    requires i < |xs|
    ensures |r| == |xs| - 1
  {
    xs[..i] + xs[i + 1..]
  }

  lemma WithoutAt<T>(xs: seq<T>, i: nat, k: nat)
    requires i < |xs| && k < |xs| - 1
    ensures Without(xs, i)[k] == xs[if k < i then k else k + 1]
  {
  }

  lemma MultisetWithout<T>(xs: seq<T>, i: nat)
    requires i < |xs|
    ensures multiset(xs) == multiset{xs[i]} + multiset(Without(xs, i))
  {
    assert xs == xs[..i] + ([xs[i]] + xs[i + 1..]);
    assert multiset(xs) == multiset(xs[..i]) + multiset([xs[i]] + xs[i + 1..]);
  }

  lemma MapWithout<T, U>(f: T -> U, xs: seq<T>, i: nat)
    requires i < |xs|
    ensures multiset(Map(f, xs)) == multiset{f(xs[i])} + multiset(Map(f, Without(xs, i)))
  {
    hide Map, Without;
    var m, w := Map(f, xs), Without(xs, i);
    forall k | 0 <= k < |w| ensures Map(f, w)[k] == Without(m, i)[k] {
      WithoutAt(xs, i, k);
      WithoutAt(m, i, k);
    }
    assert Map(f, w) == Without(m, i);
    MultisetWithout(Map(f, xs), i);
  }

  /** `g` tells apart no more than `f` does. */
  ghost predicate Determines<T, U, V>(f: T -> U, g: T -> V, xs: seq<T>, ys: seq<T>) {
    forall i, j | 0 <= i < |xs| && 0 <= j < |ys| && f(xs[i]) == f(ys[j]) :: g(xs[i]) == g(ys[j])
  }

  lemma DeterminesWithout<T, U, V>(f: T -> U, g: T -> V, xs: seq<T>, ys: seq<T>, j: nat)
    requires xs != [] && j < |ys| && Determines(f, g, xs, ys)
    ensures Determines(f, g, xs[1..], Without(ys, j))
  {
    var ys' := Without(ys, j);
    forall i, k | 0 <= i < |xs[1..]| && 0 <= k < |ys'| && f(xs[1..][i]) == f(ys'[k])
      ensures g(xs[1..][i]) == g(ys'[k])
    {
      assert ys'[k] == ys[if k < j then k else k + 1];
      assert xs[1..][i] == xs[i + 1];
    }
  }

  lemma Cancel<U>(x: U, a: multiset<U>, b: multiset<U>)
    requires multiset{x} + a == multiset{x} + b
    ensures a == b
  {
    assert a == (multiset{x} + a) - multiset{x};
    assert b == (multiset{x} + b) - multiset{x};
  }

  lemma WithoutFirst<T>(xs: seq<T>)
    requires xs != []
    ensures Without(xs, 0) == xs[1..]
  {
  }

  /** Where `f` gives the same things equally often, so does what it determines. */
  lemma {:induction false} SameTexts<T, U, V>(f: T -> U, g: T -> V, xs: seq<T>, ys: seq<T>)
    requires multiset(Map(f, xs)) == multiset(Map(f, ys)) && Determines(f, g, xs, ys)
    ensures multiset(Map(g, xs)) == multiset(Map(g, ys))
    decreases |xs|
  {
    hide Map, Without;
    assert |multiset(Map(f, xs))| == |xs| && |multiset(Map(f, ys))| == |ys|;
    if xs != [] {
      assert Map(f, xs)[0] in multiset(Map(f, ys));
      var j :| 0 <= j < |ys| && Map(f, ys)[j] == f(xs[0]);
      WithoutFirst(xs);
      MapWithout(f, xs, 0);
      MapWithout(f, ys, j);
      MapWithout(g, xs, 0);
      MapWithout(g, ys, j);
      assert g(xs[0]) == g(ys[j]);
      DeterminesWithout(f, g, xs, ys, j);
      Cancel(f(xs[0]), multiset(Map(f, xs[1..])), multiset(Map(f, Without(ys, j))));
      SameTexts(f, g, xs[1..], Without(ys, j));
    }
  }

  lemma {:induction false} SortKeepsTexts<T>(key: T -> string, f: T -> string, xs: seq<T>)
    ensures multiset(Map(f, SortBy(key, xs))) == multiset(Map(f, xs))
    decreases |xs|
  {
    if xs != [] {
      SortKeepsTexts(key, f, xs[1..]);
      InsertKeepsTexts(key, f, xs[0], SortBy(key, xs[1..]));
      assert Map(f, xs) == [f(xs[0])] + Map(f, xs[1..]);
    }
  }

  lemma {:induction false} InsertKeepsTexts<T>(key: T -> string, f: T -> string, x: T, xs: seq<T>)
    ensures multiset(Map(f, InsertBy(key, x, xs))) == multiset{f(x)} + multiset(Map(f, xs))
  {
    if xs == [] {
    } else if Leq(key(x), key(xs[0])) {
      assert Map(f, [x] + xs) == [f(x)] + Map(f, xs);
    } else {
      InsertKeepsTexts(key, f, x, xs[1..]);
      var tail := InsertBy(key, x, xs[1..]);
      assert Map(f, [xs[0]] + tail) == [f(xs[0])] + Map(f, tail);
      assert Map(f, xs) == [f(xs[0])] + Map(f, xs[1..]);
    }
  }

  // ----- literal keys are injective ----------------------------------------

  lemma IntTextInjective(m: int, n: int)
    ensures IntText(m) == IntText(n) <==> m == n
    ensures 'e' !in IntText(m)
  {
    NatTextValue(Abs(m));
    NatTextValue(Abs(n));
    if IntText(m) == IntText(n) {
      assert IntText(m)[0] == '-' <==> m < 0;
      assert IntText(n)[0] == '-' <==> n < 0;
      if m < 0 {
        assert IntText(m)[1..] == NatText(Abs(m)) && IntText(n)[1..] == NatText(Abs(n));
      } else {
        assert IntText(m) == NatText(Abs(m)) && IntText(n) == NatText(Abs(n));
      }
    }
  }

  lemma DecimalKeyInjective(a: Decimal, b: Decimal)
    requires IntText(a.mantissa) + "e" + IntText(a.exponent) == IntText(b.mantissa) + "e" + IntText(b.exponent)
    ensures a == b
  {
    hide IntText;
    IntTextInjective(a.mantissa, b.mantissa);
    IntTextInjective(a.exponent, b.exponent);
    IntTextInjective(b.mantissa, b.mantissa);
    IntTextInjective(b.exponent, b.exponent);
    var p, q := [IntText(a.mantissa), IntText(a.exponent)], [IntText(b.mantissa), IntText(b.exponent)];
    SplitJoin(p, 'e');
    SplitJoin(q, 'e');
    assert Join(p, "e") == p[0] + "e" + p[1] by { assert p[1..] == [p[1]]; }
    assert Join(q, "e") == q[0] + "e" + q[1] by { assert q[1..] == [q[1]]; }
    assert p == q;
    assert p[0] == q[0] && p[1] == q[1];
  }

  lemma LiteralKeyInjective(a: Literal, b: Literal)
    ensures LiteralKey(a) == LiteralKey(b) <==> a == b
  {
    hide IntText;
    if LiteralKey(a) == LiteralKey(b) {
      assert LiteralKey(a)[0] == LiteralKey(b)[0];
      assert LiteralKey(a)[2..] == LiteralKey(b)[2..];
      match a
      case StringLit(text) => assert LiteralKey(a)[2..] == text;
      case TimestampLit(stamp) => assert LiteralKey(a)[2..] == stamp;
      case NumberLit(d) =>
        assert LiteralKey(a)[2..] == IntText(d.mantissa) + "e" + IntText(d.exponent);
        assert LiteralKey(b)[2..] == IntText(b.number.mantissa) + "e" + IntText(b.number.exponent);
        DecimalKeyInjective(d, b.number);
    }
  }

  function Self(l: Literal): Literal { l }

  /** Value lists have the same keys equally often exactly when they have the same
      values equally often; then they have the same texts. */
  lemma KeysCompare(vs: seq<Literal>, ws: seq<Literal>)
    ensures Sort(Map(LiteralKey, vs)) == Sort(Map(LiteralKey, ws)) <==> multiset(vs) == multiset(ws)
    ensures multiset(vs) == multiset(ws) ==>
              |vs| == |ws|
              && Map(LiteralText, SortBy(LiteralText, vs)) == Map(LiteralText, SortBy(LiteralText, ws))
  {
    hide LiteralText, LiteralKey, Map;
    SortComparesMultisets(Map(LiteralKey, vs), Map(LiteralKey, ws));
    assert Map(Self, vs) == vs && Map(Self, ws) == ws;
    KeysDetermine(vs, ws);
    if multiset(Map(LiteralKey, vs)) == multiset(Map(LiteralKey, ws)) {
      SameTexts(LiteralKey, Self, vs, ws);
    }
    if multiset(vs) == multiset(ws) {
      SameTexts(Self, LiteralKey, vs, ws);
      SameTexts(Self, LiteralText, vs, ws);
      SortedTextsAgree(vs, ws);
    }
  }

  lemma KeysDetermine(vs: seq<Literal>, ws: seq<Literal>)
    ensures Determines(LiteralKey, Self, vs, ws)
    ensures Determines(Self, LiteralKey, vs, ws) && Determines(Self, LiteralText, vs, ws)
  {
    hide LiteralText, LiteralKey;
    forall i, j | 0 <= i < |vs| && 0 <= j < |ws| ensures LiteralKey(vs[i]) == LiteralKey(ws[j]) <==> vs[i] == ws[j] {
      LiteralKeyInjective(vs[i], ws[j]);
    }
  }

  lemma SortedTextsAgree(vs: seq<Literal>, ws: seq<Literal>)
    requires multiset(Map(LiteralText, vs)) == multiset(Map(LiteralText, ws)) && multiset(vs) == multiset(ws)
    ensures |vs| == |ws| && Map(LiteralText, SortBy(LiteralText, vs)) == Map(LiteralText, SortBy(LiteralText, ws))
  {
    hide LiteralText, Map;
    MapSort(LiteralText, vs);
    MapSort(LiteralText, ws);
    SortComparesMultisets(Map(LiteralText, vs), Map(LiteralText, ws));
    assert |multiset(vs)| == |vs| && |multiset(ws)| == |ws|;
  }

  /** Value sets with the same keys print the same list; if their numbers survive
      printing, only those do. */
  lemma SetsCompare(vs: seq<Literal>, ws: seq<Literal>)
    requires WfValues(vs) && WfValues(ws)
    ensures var sameKeys := Sort(Map(LiteralKey, vs)) == Sort(Map(LiteralKey, ws));
            var sameTexts := Map(LiteralText, SortBy(LiteralText, vs)) == Map(LiteralText, SortBy(LiteralText, ws));
            && (sameKeys ==> sameTexts)
            && ((forall v | v in vs + ws :: ExactLiteral(v)) ==> (sameKeys <==> sameTexts))
  {
    hide WfLiteral, ExactLiteral, LiteralText, LiteralKey, Map, RoundedLiteral;
    KeysCompare(vs, ws);
    var xs, ys := SortBy(LiteralText, vs), SortBy(LiteralText, ws);
    if Map(LiteralText, xs) == Map(LiteralText, ys) && forall v | v in vs + ws :: ExactLiteral(v) {
      forall i | 0 <= i < |xs| ensures xs[i] == ys[i] {
        assert xs[i] in multiset(xs) && ys[i] in multiset(ys);
        assert xs[i] in vs + ws && ys[i] in vs + ws;
        assert Map(LiteralText, xs)[i] == Map(LiteralText, ys)[i];
        SameTextSteady(xs[i], ys[i]);
        RoundedLiteralFacts(xs[i]);
        RoundedLiteralFacts(ys[i]);
      }
      assert xs == ys;
      assert multiset(xs) == multiset(vs) && multiset(ys) == multiset(ws);
    }
  }

  // ----- structural equality implies printing alike ------------------------

  lemma TopTextDetermines(cs: seq<Node>, ds: seq<Node>)
    requires WfMembers(cs) && WfMembers(ds)
    ensures Determines(PrintFilter, AndText, cs, ds) && Determines(PrintFilter, OrText, cs, ds)
  {
    hide Wf, Print, PrintFilter;
    forall i, j | 0 <= i < |cs| && 0 <= j < |ds| && PrintFilter(cs[i]) == PrintFilter(ds[j])
      ensures AndText(cs[i]) == AndText(ds[j]) && OrText(cs[i]) == OrText(ds[j])
    {
      SamePrintEverywhere(cs[i], ds[j], UNDER_AND);
      SamePrintEverywhere(cs[i], ds[j], UNDER_OR);
    }
  }

  predicate WfMembers(nodes: seq<Node>) { forall c | c in nodes :: Wf(c) }

  lemma OperandsPrintAlike(cs: seq<Node>, ds: seq<Node>)
    requires WfMembers(cs) && WfMembers(ds)
    requires Sort(Map(PrintFilter, cs)) == Sort(Map(PrintFilter, ds))
    ensures Sort(PrintAll(cs, UNDER_AND)) == Sort(PrintAll(ds, UNDER_AND))
    ensures Sort(PrintAll(cs, UNDER_OR)) == Sort(PrintAll(ds, UNDER_OR))
  {
    hide Wf, Print, AndText, OrText, PrintFilter;
    SortComparesMultisets(Map(PrintFilter, cs), Map(PrintFilter, ds));
    TopTextDetermines(cs, ds);
    SameTexts(PrintFilter, AndText, cs, ds);
    SameTexts(PrintFilter, OrText, cs, ds);
    PrintAllIsMap(cs);
    PrintAllIsMap(ds);
    SortComparesMultisets(Map(AndText, cs), Map(AndText, ds));
    SortComparesMultisets(Map(OrText, cs), Map(OrText, ds));
  }

  /** Structurally equal filters print alike. */
  lemma {:induction false} StructuralEqPrints(a: Node, b: Node, context: nat)
    requires Wf(a) && Wf(b) && StructuralEq(a, b)
    ensures Print(a, context) == Print(b, context)
    decreases Size(a)
  {
    if a.In? {
      hide LiteralKey, LiteralText, Sort, SortBy;
      KeysCompare(a.values, b.values);
    } else if a.Not? {
      StructuralEqPrints(a.child, b.child, UNDER_NOT);
    } else if a.And? || a.Or? {
      OperandsPrintAlike(a.children, b.children);
    }
  }

  // ----- and conversely, where nothing is spliced at the top ---------------

  /** Below any negations, the values of a comparison; none for an And or Or. */
  function TopValues(a: Node): multiset<Literal> {
    match a
    case Eq(_, value) => multiset{value}
    case Ne(_, value) => multiset{value}
    case Range(_, _, value) => multiset{value}
    case In(_, values) => multiset(values)
    case Not(child) => TopValues(child)
    case _ => multiset{}
  }

  lemma {:induction false} StructuralEqSameValues(a: Node, b: Node)
    requires StructuralEq(a, b)
    ensures TopValues(a) == TopValues(b)
  {
    hide LiteralKey, LiteralText;
    if a.In? {
      KeysCompare(a.values, b.values);
    } else if a.Not? {
      StructuralEqSameValues(a.child, b.child);
    }
  }

  /** Operands that print alike once sorted print alike in some order. */
  lemma SortedOperandsSame(key: Node -> string, cs: seq<Node>, ds: seq<Node>)
    requires var xs, ys := SortBy(key, cs), SortBy(key, ds);
             |xs| == |ys| && forall i | 0 <= i < |xs| :: PrintFilter(xs[i]) == PrintFilter(ys[i])
    ensures |cs| == |ds| && Sort(Map(PrintFilter, cs)) == Sort(Map(PrintFilter, ds))
  {
    hide Print, PrintFilter;
    var xs, ys := SortBy(key, cs), SortBy(key, ds);
    assert Map(PrintFilter, xs) == Map(PrintFilter, ys);
    SortKeepsTexts(key, PrintFilter, cs);
    SortKeepsTexts(key, PrintFilter, ds);
    SortComparesMultisets(Map(PrintFilter, cs), Map(PrintFilter, ds));
    assert |multiset(xs)| == |multiset(cs)| && |multiset(ys)| == |multiset(ds)|;
  }

  lemma SameLeaf(a: Node, b: Node)
    requires Wf(a) && Wf(b) && IsLeaf(a) && PrintFilter(a) == PrintFilter(b) && TopValues(a) == TopValues(b)
    ensures StructuralEq(a, b)
  {
    hide Wf, Canon, Print, LiteralKey, LiteralText;
    SameTextSameCanon(a, b);
    CanonKind(a);
    CanonKind(b);
    if a.In? {
      KeysCompare(a.values, b.values);
    } else {
      assert a.value in multiset{b.value};
      assert LiteralEq(a.value, a.value);
    }
  }

  lemma {:induction false} SamePrintStructural(a: Node, b: Node)
    requires Wf(a) && Wf(b) && TopFlat(a) && TopFlat(b)
    requires PrintFilter(a) == PrintFilter(b) && TopValues(a) == TopValues(b)
    ensures StructuralEq(a, b)
    decreases Size(a)
  {
    SameTextSameCanon(a, b);
    CanonKind(a);
    CanonKind(b);
    hide Canon, Print, PrintFilter, AndText, OrText;
    if IsLeaf(a) {
      SameLeaf(a, b);
    } else if a.Not? {
      NotPrints(a, b);
      SamePrintStructural(a.child, b.child);
    } else if a.And? {
      hide Wf;
      SameAndItems(a, b);
      AndItemsSorted(a.children);
      AndItemsSorted(b.children);
      SortedOperandsSame(AndText, a.children, b.children);
    } else {
      hide Wf;
      SameOrItems(a, b);
      OrItemsSorted(a.children);
      OrItemsSorted(b.children);
      SortedOperandsSame(OrText, a.children, b.children);
    }
  }

  /** Structurally equal filters print alike and have the same values at the top;
      the converse holds where no And stands directly under an And nor Or under an
      Or at the top. */
  lemma StructuralEqIffSamePrint(a: Node, b: Node)
    requires Wf(a) && Wf(b)
    ensures StructuralEq(a, b) ==> PrintFilter(a) == PrintFilter(b) && TopValues(a) == TopValues(b)
    ensures TopFlat(a) && TopFlat(b) ==>
              (StructuralEq(a, b) <==> PrintFilter(a) == PrintFilter(b) && TopValues(a) == TopValues(b))
  {
    hide Wf, Canon, Print, PrintFilter, TopFlat, StructuralEq, TopValues;
    if StructuralEq(a, b) {
      StructuralEqPrints(a, b, TOP);
      FilterIs(a);
      FilterIs(b);
      StructuralEqSameValues(a, b);
    }
    if TopFlat(a) && TopFlat(b) && PrintFilter(a) == PrintFilter(b) && TopValues(a) == TopValues(b) {
      SamePrintStructural(a, b);
    }
  }

  /** If all numbers survive printing, the text alone decides about the values. */
  lemma {:induction false} SamePrintSameValues(a: Node, b: Node)
    requires Wf(a) && Wf(b) && Exact(a) && Exact(b) && PrintFilter(a) == PrintFilter(b)
    ensures TopValues(a) == TopValues(b)
    decreases Size(a)
  {
    SameTextSameCanon(a, b);
    CanonKind(a);
    CanonKind(b);
    if a.Not? {
      hide Canon, Print;
      NotPrints(a, b);
      SamePrintSameValues(a.child, b.child);
    } else if IsLeaf(a) {
      hide WfField, WfLiteral, ExactLiteral, RoundedLiteral, LiteralText;
      ExactLeafKeepsValues(a);
      ExactLeafKeepsValues(b);
    }
  }

  lemma ExactLeafKeepsValues(a: Node)
    requires Wf(a) && IsLeaf(a)
    ensures TopValues(Canon(a)) == TopValues(a) <==> Exact(a)
  {
    hide WfField, WfLiteral, ExactLiteral, RoundedLiteral, LiteralText;
    if a.In? {
      SetKeepsValues(a.values);
    } else {
      RoundedLiteralFacts(a.value);
      assert multiset{RoundedLiteral(a.value)} == multiset{a.value} <==> RoundedLiteral(a.value) == a.value by {
        assert RoundedLiteral(a.value) in multiset{RoundedLiteral(a.value)};
      }
    }
  }

  /** A set keeps its values through rounding exactly when every one survives: a
      value that does not is no rounded one. */
  lemma SetKeepsValues(values: seq<Literal>)
    requires WfValues(values)
    ensures multiset(Map(RoundedLiteral, SortBy(LiteralText, values))) == multiset(values)
            <==> forall v | v in values :: ExactLiteral(v)
  {
    hide WfLiteral, ExactLiteral, RoundedLiteral, LiteralText;
    var sorted := SortBy(LiteralText, values);
    var rounded := Map(RoundedLiteral, sorted);
    forall i | 0 <= i < |sorted|
      ensures RoundedLiteral(sorted[i]) == sorted[i] <==> ExactLiteral(sorted[i])
      ensures sorted[i] in values && ExactLiteral(rounded[i])
    {
      assert sorted[i] in multiset(sorted);
      RoundedLiteralFacts(sorted[i]);
      RoundedLiteralFacts(RoundedLiteral(sorted[i]));
    }
    if forall v | v in values :: ExactLiteral(v) {
      assert rounded == sorted;
    }
    if multiset(rounded) == multiset(values) {
      forall v | v in values ensures ExactLiteral(v) {
        assert v in multiset(rounded);
        var i :| 0 <= i < |rounded| && rounded[i] == v;
      }
    }
  }

  // ----- the round trip up to structural equality --------------------------

  /** Below any negations: the numbers of a comparison survive printing; no operand
      of an And is an And, no operand of an Or is an Or, and every operand of
      either is settled and steady. */
  predicate RoundTrips(a: Node) {
    match a
    case Not(child) => RoundTrips(child)
    case And(children) => forall c | c in children :: !c.And? && Settled(c) && Steady(c)
    case Or(children) => forall c | c in children :: !c.Or? && Settled(c) && Steady(c)
    case _ => Exact(a)
  }

  lemma {:induction false} SplicingAddsAnd(nodes: seq<Node>)
    requires WfAll(nodes)
    ensures |AndItemsAll(nodes)| == |nodes| ==> forall c | c in nodes :: !c.And?
  {
    hide Wf;
    if nodes != [] {
      AndItemsFacts(nodes[0]);
      AndItemsAllFacts(nodes[1..]);
      SplicingAddsAnd(nodes[1..]);
    }
  }

  lemma {:induction false} SplicingAddsOr(nodes: seq<Node>)
    requires WfAll(nodes)
    ensures |OrItemsAll(nodes)| == |nodes| ==> forall c | c in nodes :: !c.Or?
  {
    hide Wf;
    if nodes != [] {
      OrItemsFacts(nodes[0]);
      OrItemsAllFacts(nodes[1..]);
      SplicingAddsOr(nodes[1..]);
    }
  }

  /** The filter and its canonical tree print alike. */
  predicate Stable(a: Node) { PrintFilter(Canon(a)) == PrintFilter(a) }

  predicate StableAll(nodes: seq<Node>) { forall i | 0 <= i < |nodes| :: Stable(nodes[i]) }

  /** Operands print like their canonical trees, in some order, exactly when each
      prints like its own. */
  lemma CanonsPrintAlike(nodes: seq<Node>)
    requires WfAll(nodes)
    ensures Sort(Map(PrintFilter, nodes)) == Sort(Map(PrintFilter, CanonAll(nodes))) <==> StableAll(nodes)
  {
    hide Wf, Canon, CanonAll, Print, PrintFilter, Map;
    var cs := CanonAll(nodes);
    SortComparesMultisets(Map(PrintFilter, nodes), Map(PrintFilter, cs));
    forall i | 0 <= i < |nodes| ensures cs[i] == Canon(nodes[i]) {
      CanonAllAt(nodes, i);
    }
    if StableAll(nodes) {
      forall i | 0 <= i < |nodes| ensures PrintFilter(cs[i]) == PrintFilter(nodes[i]) {
        assert Stable(nodes[i]);
      }
      assert Map(PrintFilter, nodes) == Map(PrintFilter, cs);
    }
    if multiset(Map(PrintFilter, nodes)) == multiset(Map(PrintFilter, cs)) {
      forall i | 0 <= i < |nodes| ensures Stable(nodes[i]) {
        SomeCanonPrintsLike(nodes, i);
      }
    }
  }

  lemma SomeCanonPrintsLike(nodes: seq<Node>, i: nat)
    requires WfAll(nodes) && i < |nodes|
    requires multiset(Map(PrintFilter, nodes)) == multiset(Map(PrintFilter, CanonAll(nodes)))
    ensures Stable(nodes[i])
  {
    hide Wf, Canon, CanonAll, Print, PrintFilter, Map;
    var cs := CanonAll(nodes);
    assert Map(PrintFilter, nodes)[i] in multiset(Map(PrintFilter, cs));
    var j :| 0 <= j < |cs| && Map(PrintFilter, cs)[j] == PrintFilter(nodes[i]);
    CanonAllAt(nodes, j);
    CanonicalTextIsStable(nodes[i], nodes[j]);
  }

  lemma SameMembers(key: Node -> string, nodes: seq<Node>)
    ensures forall c :: c in nodes <==> c in SortBy(key, nodes)
    ensures |SortBy(key, nodes)| == |nodes|
  {
    var s := SortBy(key, nodes);
    assert |multiset(s)| == |multiset(nodes)|;
    forall c ensures c in nodes <==> c in s {
      assert c in multiset(nodes) <==> c in multiset(s);
    }
  }

  lemma StableMembers(key: Node -> string, nodes: seq<Node>)
    requires WfMembers(nodes)
    ensures StableAll(SortBy(key, nodes)) <==> forall c | c in nodes :: Settled(c) && Steady(c)
  {
    hide Wf, Settled, Steady, Stable;
    var s := SortBy(key, nodes);
    SameMembers(key, nodes);
    forall c | c in nodes ensures Stable(c) <==> Settled(c) && Steady(c) {
      StableIffSettled(c);
    }
    if forall c | c in nodes :: Settled(c) && Steady(c) {
      forall i | 0 <= i < |s| ensures Stable(s[i]) { assert s[i] in s; }
    }
    if StableAll(s) {
      forall c | c in nodes ensures Stable(c) { assert c in s; }
    }
  }

  lemma StableIffSettled(a: Node)
    requires Wf(a)
    ensures Stable(a) <==> Settled(a) && Steady(a)
  {
    hide Wf, Settled, Steady, Print, Canon, PrintFilter;
    ReprintIsStableIffSettled(a);
  }

  /** Without nested operands of its kind, it depends on each operand alone. */
  lemma FlatAndRoundTrip(children: seq<Node>)
    requires WfMembers(children) && forall c | c in children :: !c.And?
    ensures Sort(Map(PrintFilter, children)) == Sort(Map(PrintFilter, CanonAll(AndItems(And(children)))))
            <==> forall c | c in children :: Settled(c) && Steady(c)
    ensures |CanonAll(AndItems(And(children)))| == |children|
  {
    hide Wf, Print, PrintFilter, AndText, Settled, Steady, Canon, CanonAll, SortBy, Map, Stable, AndItems;
    var items := SortBy(AndText, children);
    SortedWf(AndText, children);
    SameMembers(AndText, children);
    AndItemsSorted(children);
    CanonsPrintAlike(items);
    StableMembers(AndText, children);
    SortKeepsTexts(AndText, PrintFilter, children);
    SortComparesMultisets(Map(PrintFilter, children), Map(PrintFilter, items));
  }

  lemma SplicedAndGrows(children: seq<Node>)
    requires WfMembers(children) && |AndItems(And(children))| == |children|
    ensures forall c | c in children :: !c.And?
  {
    hide Wf, AndText, SortBy;
    SortedWf(AndText, children);
    SameMembers(AndText, children);
    SplicingAddsAnd(SortBy(AndText, children));
  }

  lemma AndMeans(cs: seq<Node>, ds: seq<Node>)
    ensures StructuralEq(And(cs), And(ds))
            <==> |cs| == |ds| && Sort(Map(PrintFilter, cs)) == Sort(Map(PrintFilter, ds))
    ensures RoundTrips(And(cs)) <==> forall c | c in cs :: !c.And? && Settled(c) && Steady(c)
  {
    hide PrintFilter, Settled, Steady, Map, Sort;
  }

  lemma AndRoundTrip(children: seq<Node>)
    requires Wf(And(children))
    ensures StructuralEq(And(children), Canon(And(children))) <==> RoundTrips(And(children))
  {
    hide Wf, PrintFilter, Settled, Steady, Canon, CanonAll, Map, Sort, AndItems, StructuralEq, RoundTrips;
    WfChildren(And(children));
    UnfoldAnd(And(children));
    AndMeans(children, CanonAll(AndItems(And(children))));
    if forall c | c in children :: !c.And? {
      FlatAndRoundTrip(children);
    } else if |AndItems(And(children))| == |children| {
      SplicedAndGrows(children);
    }
  }

  /** Without nested operands of its kind, it depends on each operand alone. */
  lemma FlatOrRoundTrip(children: seq<Node>)
    requires WfMembers(children) && forall c | c in children :: !c.Or?
    ensures Sort(Map(PrintFilter, children)) == Sort(Map(PrintFilter, CanonAll(OrItems(Or(children)))))
            <==> forall c | c in children :: Settled(c) && Steady(c)
    ensures |CanonAll(OrItems(Or(children)))| == |children|
  {
    hide Wf, Print, PrintFilter, OrText, Settled, Steady, Canon, CanonAll, SortBy, Map, Stable, OrItems;
    var items := SortBy(OrText, children);
    SortedWf(OrText, children);
    SameMembers(OrText, children);
    OrItemsSorted(children);
    CanonsPrintAlike(items);
    StableMembers(OrText, children);
    SortKeepsTexts(OrText, PrintFilter, children);
    SortComparesMultisets(Map(PrintFilter, children), Map(PrintFilter, items));
  }

  lemma SplicedOrGrows(children: seq<Node>)
    requires WfMembers(children) && |OrItems(Or(children))| == |children|
    ensures forall c | c in children :: !c.Or?
  {
    hide Wf, OrText, SortBy;
    SortedWf(OrText, children);
    SameMembers(OrText, children);
    SplicingAddsOr(SortBy(OrText, children));
  }

  lemma OrMeans(cs: seq<Node>, ds: seq<Node>)
    ensures StructuralEq(Or(cs), Or(ds))
            <==> |cs| == |ds| && Sort(Map(PrintFilter, cs)) == Sort(Map(PrintFilter, ds))
    ensures RoundTrips(Or(cs)) <==> forall c | c in cs :: !c.Or? && Settled(c) && Steady(c)
  {
    hide PrintFilter, Settled, Steady, Map, Sort;
  }

  lemma OrRoundTrip(children: seq<Node>)
    requires Wf(Or(children))
    ensures StructuralEq(Or(children), Canon(Or(children))) <==> RoundTrips(Or(children))
  {
    hide Wf, PrintFilter, Settled, Steady, Canon, CanonAll, Map, Sort, OrItems, StructuralEq, RoundTrips;
    WfChildren(Or(children));
    UnfoldOr(Or(children));
    OrMeans(children, CanonAll(OrItems(Or(children))));
    if forall c | c in children :: !c.Or? {
      FlatOrRoundTrip(children);
    } else if |OrItems(Or(children))| == |children| {
      SplicedOrGrows(children);
    }
  }

  lemma WfChildren(a: Node)
    requires (a.And? || a.Or?) && Wf(a)
    ensures WfMembers(a.children)
  {
  }

  /** A comparison is structurally equal to its canonical tree exactly when its numbers
      survive printing. */
  lemma LeafRoundTrip(a: Node)
    requires Wf(a) && IsLeaf(a)
    ensures StructuralEq(a, Canon(a)) <==> Exact(a)
  {
    hide WfField, WfLiteral, ExactLiteral, RoundedLiteral, LiteralText, LiteralKey;
    CanonKind(a);
    if a.In? {
      KeysCompare(a.values, Canon(a).values);
      SetKeepsValues(a.values);
    } else {
      RoundedLiteralFacts(a.value);
      assert LiteralEq(a.value, RoundedLiteral(a.value)) <==> a.value == RoundedLiteral(a.value);
    }
  }

  /** A filter is structurally equal to its canonical tree exactly when it
      round-trips in the sense above. */
  lemma {:induction false} StructuralRoundTrip(a: Node)
    requires Wf(a)
    ensures StructuralEq(a, Canon(a)) <==> RoundTrips(a)
    decreases Size(a)
  {
    if IsLeaf(a) {
      LeafRoundTrip(a);
    } else if a.Not? {
      StructuralRoundTrip(a.child);
    } else if a.And? {
      AndRoundTrip(a.children);
    } else {
      OrRoundTrip(a.children);
    }
  }

  /** Below any negations, the numbers of a comparison survive printing, and those
      of operands are printed as their printed values are. */
  predicate NumbersKept(a: Node) {
    match a
    case Not(child) => NumbersKept(child)
    case And(children) => forall c | c in children :: Steady(c)
    case Or(children) => forall c | c in children :: Steady(c)
    case _ => Exact(a)
  }

  /** Flat filters round-trip exactly when their numbers allow it, always if all
      numbers survive printing. */
  lemma {:induction false} FlatRoundTrips(a: Node)
    requires Flat(a)
    ensures RoundTrips(a) <==> NumbersKept(a)
    ensures Wf(a) && Exact(a) ==> RoundTrips(a)
  {
    if a.Not? {
      FlatRoundTrips(a.child);
    } else if a.And? || a.Or? {
      forall c | c in a.children ensures Settled(c) && (Wf(c) && Exact(c) ==> Steady(c)) {
        hide Wf, Exact, Steady;
        FlatIsSettled(c);
        if Wf(c) && Exact(c) { ExactIsSteady(c); }
      }
    }
  }
}
