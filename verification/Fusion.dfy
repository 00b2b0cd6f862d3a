/** Reciprocal-rank fusion of two rankings, over exact reals. */
module Fusion {
  import opened Text

  datatype Candidate = Candidate(id: string, version: int)

  datatype Fused = Fused(id: string, version: int, score: real)

  // ----- what the fusion means ---------------------------------------------

  /** One over a rank shifted by the constant. */
  function Inv(n: nat): (r: real)
    requires n > 0
    ensures r > 0.0
  {
    1.0 / n as real
  }

  /** What one ranking contributes to a document, ranks counted from 1. */
  function Share(ranking: seq<Candidate>, id: string, k: nat): (r: real)
    ensures r >= 0.0
    ensures r > 0.0 <==> exists i | 0 <= i < |ranking| :: ranking[i].id == id
  {
    if ranking == [] then 0.0
    else
      var front := ranking[..|ranking| - 1];
      assert forall i | 0 <= i < |front| :: front[i] == ranking[i];
      Share(front, id, k) + if ranking[|ranking| - 1].id == id then Inv(k + |ranking|) else 0.0
  }

  function Raw(neural: seq<Candidate>, keyword: seq<Candidate>, id: string, k: nat): real {
    Share(neural, id, k) + Share(keyword, id, k)
  }

  predicate Listed(ranking: seq<Candidate>, id: string) { exists i | 0 <= i < |ranking| :: ranking[i].id == id }

  /** The version of the document's last place in the ranking. */
  function LastVersion(ranking: seq<Candidate>, id: string): int {
    if ranking == [] then 0
    else if ranking[|ranking| - 1].id == id then ranking[|ranking| - 1].version
    else LastVersion(ranking[..|ranking| - 1], id)
  }

  function FirstVersion(ranking: seq<Candidate>, id: string): int {
    if ranking == [] then 0
    else if Listed(ranking[..|ranking| - 1], id) || ranking[|ranking| - 1].id != id
    then FirstVersion(ranking[..|ranking| - 1], id)
    else ranking[|ranking| - 1].version
  }

  function VersionOf(neural: seq<Candidate>, keyword: seq<Candidate>, id: string): int {
    if Listed(neural, id) then LastVersion(neural, id) else FirstVersion(keyword, id)
  }

  /** The ids in the order a dictionary first sees them. */
  function Ids(ranking: seq<Candidate>): (ids: seq<string>)
    ensures forall i, j | 0 <= i < j < |ids| :: ids[i] != ids[j]
    ensures forall id :: id in ids <==> Listed(ranking, id)
  {
    if ranking == [] then []
    else
      var front := ranking[..|ranking| - 1];
      var last := ranking[|ranking| - 1].id;
      assert forall i | 0 <= i < |front| :: front[i] == ranking[i];
      if last in Ids(front) then Ids(front) else Ids(front) + [last]
  }

  function Largest(xs: seq<real>): (m: real)
    requires xs != []
    ensures m in xs && forall x | x in xs :: x <= m
  {
    if |xs| == 1 then xs[0]
    else
      var m := Largest(xs[1..]);
      assert forall x | x in xs :: x == xs[0] || x in xs[1..];
      if xs[0] > m then xs[0] else m
  }

  // ----- the order of the result -------------------------------------------

  /** The sort key (-score, id, version), strictly. */
  predicate Before(a: Fused, b: Fused) {
    a.score > b.score
    || (a.score == b.score
        && ((a.id != b.id && Leq(a.id, b.id)) || (a.id == b.id && a.version < b.version)))
  }

  predicate InOrder(xs: seq<Fused>) { forall i, j | 0 <= i < j < |xs| :: Before(xs[i], xs[j]) }

  predicate DistinctIds(xs: seq<Fused>) { forall i, j | 0 <= i < j < |xs| :: xs[i].id != xs[j].id }

  function Insert(c: Fused, xs: seq<Fused>): (r: seq<Fused>)
    ensures multiset(r) == multiset{c} + multiset(xs)
  {
    if xs == [] then [c]
    else if !Before(xs[0], c) then
      assert [c] + xs == [c] + xs;
      [c] + xs
    else
      assert xs == [xs[0]] + xs[1..];
      [xs[0]] + Insert(c, xs[1..])
  }

  function Sorted(xs: seq<Fused>): (r: seq<Fused>)
    ensures multiset(r) == multiset(xs)
  {
    if xs == [] then [] else
      assert xs == [xs[0]] + xs[1..];
      Insert(xs[0], Sorted(xs[1..]))
  }

  /** xs[:n] */
  function Slice<T>(xs: seq<T>, n: int): (r: seq<T>)
    ensures r <= xs
  {
    if n >= |xs| then xs else if n >= 0 then xs[..n] else if |xs| + n >= 0 then xs[..|xs| + n] else []
  }

  function Scored(neural: seq<Candidate>, keyword: seq<Candidate>, k: nat, ids: seq<string>, top: real): (r: seq<Fused>)
    ensures |r| == |ids|
    ensures forall i | 0 <= i < |ids| ::
              r[i] == Fused(ids[i], VersionOf(neural, keyword, ids[i]),
                            if top > 0.0 then Raw(neural, keyword, ids[i], k) / top else 0.0)
  {
    seq(|ids|, i requires 0 <= i < |ids| =>
      Fused(ids[i], VersionOf(neural, keyword, ids[i]),
            if top > 0.0 then Raw(neural, keyword, ids[i], k) / top else 0.0))
  }

  function Raws(neural: seq<Candidate>, keyword: seq<Candidate>, k: nat, ids: seq<string>): (r: seq<real>)
    ensures |r| == |ids| && forall i | 0 <= i < |ids| :: r[i] == Raw(neural, keyword, ids[i], k)
  {
    seq(|ids|, i requires 0 <= i < |ids| => Raw(neural, keyword, ids[i], k))
  }

  function TopRaw(neural: seq<Candidate>, keyword: seq<Candidate>, k: nat): real
    requires neural + keyword != []
  {
    AnyListed(neural + keyword);
    Largest(Raws(neural, keyword, k, Ids(neural + keyword)))
  }

  lemma AnyListed(ranking: seq<Candidate>)
    requires ranking != []
    ensures Ids(ranking) != []
  {
    assert Listed(ranking, ranking[0].id);
  }

  /** All fused documents in order, before the result is cut. */
  function FuseAll(neural: seq<Candidate>, keyword: seq<Candidate>, k: nat): seq<Fused> {
    if neural + keyword == [] then []
    else Sorted(Scored(neural, keyword, k, Ids(neural + keyword), TopRaw(neural, keyword, k)))
  }

  // ----- the code ----------------------------------------------------------

  /** The dictionaries, with their keys in the order first seen, hold what these
      rankings have contributed. */
  ghost predicate Holds(order: seq<string>, rrf: map<string, real>, versions: map<string, int>,
                        neural: seq<Candidate>, keyword: seq<Candidate>, k: nat)
  {
    && order == Ids(neural + keyword)
    && (forall id :: id in rrf <==> id in order)
    && (forall id :: id in versions <==> id in order)
    && (forall id | id in rrf :: rrf[id] == Raw(neural, keyword, id, k))
    && (forall id | id in versions :: versions[id] == VersionOf(neural, keyword, id))
  }

  function Get(rrf: map<string, real>, id: string): real { if id in rrf then rrf[id] else 0.0 }

  lemma NextIds(ranking: seq<Candidate>, c: Candidate)
    ensures Ids(ranking + [c]) == if c.id in Ids(ranking) then Ids(ranking) else Ids(ranking) + [c.id]
  {
    assert (ranking + [c])[..|ranking|] == ranking;
  }

  lemma NextShare(ranking: seq<Candidate>, c: Candidate, id: string, k: nat)
    ensures Share(ranking + [c], id, k) == Share(ranking, id, k) + if c.id == id then Inv(k + |ranking| + 1) else 0.0
  {
    assert (ranking + [c])[..|ranking|] == ranking;
  }

  lemma NextVersion(ranking: seq<Candidate>, c: Candidate, id: string)
    ensures LastVersion(ranking + [c], id) == if c.id == id then c.version else LastVersion(ranking, id)
    ensures FirstVersion(ranking + [c], id)
            == if Listed(ranking, id) || c.id != id then FirstVersion(ranking, id) else c.version
  {
    assert (ranking + [c])[..|ranking|] == ranking;
  }

  lemma ListedAppend(a: seq<Candidate>, b: seq<Candidate>, id: string)
    ensures Listed(a + b, id) <==> Listed(a, id) || Listed(b, id)
  {
    if i :| 0 <= i < |a| && a[i].id == id {
      assert (a + b)[i] == a[i];
    }
    if i :| 0 <= i < |b| && b[i].id == id {
      assert (a + b)[|a| + i] == b[i];
    }
  }

  lemma OneListed(c: Candidate, id: string)
    ensures Listed([c], id) <==> c.id == id
  {
    assert [c][0] == c;
  }

  lemma NothingHeld(k: nat)
    ensures Holds([], map[], map[], [], [], k)
  {
    var none: seq<Candidate> := [];
    assert none + none == none;
  }

  lemma UnlistedRaw(neural: seq<Candidate>, keyword: seq<Candidate>, id: string, k: nat)
    ensures !Listed(neural + keyword, id) ==> Raw(neural, keyword, id, k) == 0.0
  {
    ListedAppend(neural, keyword, id);
  }

  lemma NeuralRaw(front: seq<Candidate>, c: Candidate, id: string, k: nat)
    ensures Raw(front + [c], [], id, k) == Raw(front, [], id, k) + if c.id == id then Inv(k + |front| + 1) else 0.0
  {
    NextShare(front, c, id, k);
  }

  lemma KeywordRaw(neural: seq<Candidate>, front: seq<Candidate>, c: Candidate, id: string, k: nat)
    ensures Raw(neural, front + [c], id, k)
            == Raw(neural, front, id, k) + if c.id == id then Inv(k + |front| + 1) else 0.0
  {
    NextShare(front, c, id, k);
  }

  lemma NeuralVersion(front: seq<Candidate>, c: Candidate, id: string)
    ensures VersionOf(front + [c], [], id)
            == if c.id == id then c.version else if Listed(front, id) then VersionOf(front, [], id) else 0
  {
    hide LastVersion, Listed;
    NextVersion(front, c, id);
    ListedAppend(front, [c], id);
    OneListed(c, id);
  }

  lemma KeywordVersion(neural: seq<Candidate>, front: seq<Candidate>, c: Candidate, id: string)
    ensures VersionOf(neural, front + [c], id)
            == if c.id == id && !Listed(neural + front, id) then c.version else VersionOf(neural, front, id)
  {
    hide LastVersion, FirstVersion, Listed;
    NextVersion(front, c, id);
    ListedAppend(neural, front, id);
  }

  lemma NeuralNext(order: seq<string>, rrf: map<string, real>, versions: map<string, int>,
                   ranking: seq<Candidate>, i: nat, k: nat)
    requires i < |ranking| && Holds(order, rrf, versions, ranking[..i], [], k)
    ensures var id := ranking[i].id;
            Holds(if id in rrf then order else order + [id], rrf[id := Get(rrf, id) + Inv(k + i + 1)],
                  versions[id := ranking[i].version], ranking[..i + 1], [], k)
  {
    hide Inv, Ids, Raw, VersionOf, Listed;
    var front, c := ranking[..i], ranking[i];
    var rrf1, versions1 := rrf[c.id := Get(rrf, c.id) + Inv(k + i + 1)], versions[c.id := c.version];
    assert ranking[..i + 1] == front + [c] && front + [] == front && (front + [c]) + [] == front + [c];
    NextIds(front, c);
    UnlistedRaw(front, [], c.id, k);
    forall id | id in rrf1 ensures rrf1[id] == Raw(front + [c], [], id, k) {
      NeuralRaw(front, c, id, k);
    }
    forall id | id in versions1 ensures versions1[id] == VersionOf(front + [c], [], id) {
      NeuralVersion(front, c, id);
    }
  }

  lemma KeywordNext(order: seq<string>, rrf: map<string, real>, versions: map<string, int>,
                    neural: seq<Candidate>, ranking: seq<Candidate>, i: nat, k: nat)
    requires i < |ranking| && Holds(order, rrf, versions, neural, ranking[..i], k)
    ensures var id := ranking[i].id;
            Holds(if id in rrf then order else order + [id], rrf[id := Get(rrf, id) + Inv(k + i + 1)],
                  if id in versions then versions else versions[id := ranking[i].version],
                  neural, ranking[..i + 1], k)
  {
    hide Inv, Ids, Raw, VersionOf, Listed;
    var front, c := ranking[..i], ranking[i];
    var rrf1 := rrf[c.id := Get(rrf, c.id) + Inv(k + i + 1)];
    var versions1 := if c.id in versions then versions else versions[c.id := c.version];
    assert ranking[..i + 1] == front + [c];
    Reassociate(neural, front, [c]);
    NextIds(neural + front, c);
    UnlistedRaw(neural, front, c.id, k);
    forall id | id in rrf1 ensures rrf1[id] == Raw(neural, front + [c], id, k) {
      KeywordRaw(neural, front, c, id, k);
    }
    forall id | id in versions1 ensures versions1[id] == VersionOf(neural, front + [c], id) {
      KeywordVersion(neural, front, c, id);
    }
  }

  /** `reciprocal_rank_fusion`; a dictionary is a map with its keys in order. */
  method ReciprocalRankFusion(neural: seq<Candidate>, keyword: seq<Candidate>, numResults: int := 10, k: nat := 60)
      returns (result: seq<Fused>)
    ensures result == Slice(FuseAll(neural, keyword, k), numResults)
  {
    hide Holds, Ids, Raw, VersionOf, Sorted, Inv, Listed, Scored;
    var order: seq<string>, rrf: map<string, real>, versions: map<string, int> := [], map[], map[];
    NothingHeld(k);
    for i := 0 to |neural|
      invariant Holds(order, rrf, versions, neural[..i], [], k)
    {
      NeuralNext(order, rrf, versions, neural, i, k);
      var id := neural[i].id;
      if id !in rrf { order := order + [id]; }
      rrf := rrf[id := Get(rrf, id) + Inv(k + i + 1)];
      versions := versions[id := neural[i].version];
    }
    assert neural[..|neural|] == neural;
    for i := 0 to |keyword|
      invariant Holds(order, rrf, versions, neural, keyword[..i], k)
    {
      KeywordNext(order, rrf, versions, neural, keyword, i, k);
      var id := keyword[i].id;
      if id !in rrf { order := order + [id]; }
      rrf := rrf[id := Get(rrf, id) + Inv(k + i + 1)];
      if id !in versions { versions := versions[id := keyword[i].version]; }
    }
    assert keyword[..|keyword|] == keyword;
    HeldFacts(order, rrf, versions, neural, keyword, k);
    if |rrf| == 0 { return []; }
    var values := seq(|order|, i requires 0 <= i < |order| => rrf[order[i]]);
    assert values == Raws(neural, keyword, k, order);
    var top := Largest(values);
    var candidates := [];
    assert candidates == Scored(neural, keyword, k, order[..0], top) by { NothingScored(neural, keyword, k, order, top); }
    for i := 0 to |order|
      invariant candidates == Scored(neural, keyword, k, order[..i], top)
    {
      var id := order[i];
      ScoredNext(neural, keyword, k, order, i, top);
      candidates := candidates + [Fused(id, versions[id], if top > 0.0 then rrf[id] / top else 0.0)];
    }
    assert order[..|order|] == order;
    candidates := Sorted(candidates);
    result := Slice(candidates, numResults);
  }

  lemma NothingScored(neural: seq<Candidate>, keyword: seq<Candidate>, k: nat, ids: seq<string>, top: real)
    ensures Scored(neural, keyword, k, ids[..0], top) == []
  {
  }

  lemma ScoredNext(neural: seq<Candidate>, keyword: seq<Candidate>, k: nat, ids: seq<string>, i: nat, top: real)
    requires i < |ids|
    ensures Scored(neural, keyword, k, ids[..i + 1], top)
            == Scored(neural, keyword, k, ids[..i], top)
               + [Fused(ids[i], VersionOf(neural, keyword, ids[i]),
                        if top > 0.0 then Raw(neural, keyword, ids[i], k) / top else 0.0)]
  {
    hide Raw, VersionOf;
  }

  lemma HeldFacts(order: seq<string>, rrf: map<string, real>, versions: map<string, int>,
                  neural: seq<Candidate>, keyword: seq<Candidate>, k: nat)
    requires Holds(order, rrf, versions, neural, keyword, k)
    ensures order == Ids(neural + keyword)
    ensures |rrf| == 0 <==> neural + keyword == []
    ensures neural + keyword != [] ==> order != []
    ensures forall i | 0 <= i < |order| ::
              && order[i] in rrf && order[i] in versions
              && rrf[order[i]] == Raw(neural, keyword, order[i], k)
              && versions[order[i]] == VersionOf(neural, keyword, order[i])
  {
    if neural + keyword != [] {
      AnyListed(neural + keyword);
      assert order[0] in rrf;
    } else {
      assert order == [];
      assert forall id :: id !in rrf;
      assert rrf == map[];
    }
  }

  // ----- the order ---------------------------------------------------------

  lemma BeforeTransitive(a: Fused, b: Fused, c: Fused)
    requires Before(a, b) && Before(b, c) && a.id != c.id
    ensures Before(a, c)
  {
    hide Leq;
    if a.score == b.score == c.score && a.id != b.id && b.id != c.id {
      LeqTransitive(a.id, b.id, c.id);
    }
  }

  lemma BeforeTotal(a: Fused, b: Fused)
    requires a.id != b.id
    ensures Before(a, b) || Before(b, a)
  {
    hide Leq;
    LeqTotal(a.id, b.id);
  }

  lemma {:induction false} InsertInOrder(c: Fused, xs: seq<Fused>)
    requires InOrder(xs) && DistinctIds(xs) && forall i | 0 <= i < |xs| :: xs[i].id != c.id
    ensures InOrder(Insert(c, xs)) && DistinctIds(Insert(c, xs))
    ensures forall x :: x in Insert(c, xs) <==> x == c || x in xs
  {
    hide Before;
    if xs == [] {
    } else if !Before(xs[0], c) {
      BeforeTotal(xs[0], c);
      forall j | 0 <= j < |xs| ensures Before(c, xs[j]) {
        if j > 0 { BeforeTransitive(c, xs[0], xs[j]); }
      }
    } else {
      InsertInOrder(c, xs[1..]);
      var tail := Insert(c, xs[1..]);
      forall j | 0 <= j < |tail| ensures Before(xs[0], tail[j]) && xs[0].id != tail[j].id {
        assert tail[j] in tail;
        assert tail[j] == c || tail[j] in xs[1..];
      }
    }
  }

  lemma {:induction false} SortedInOrder(xs: seq<Fused>)
    requires DistinctIds(xs)
    ensures InOrder(Sorted(xs)) && DistinctIds(Sorted(xs))
    ensures forall x :: x in Sorted(xs) <==> x in xs
  {
    if xs != [] {
      SortedInOrder(xs[1..]);
      var tail := Sorted(xs[1..]);
      forall i | 0 <= i < |tail| ensures tail[i].id != xs[0].id {
        assert tail[i] in tail;
        var k :| 0 <= k < |xs| - 1 && xs[1..][k] == tail[i];
        assert xs[k + 1] == tail[i];
      }
      InsertInOrder(xs[0], Sorted(xs[1..]));
    }
  }

  // ----- what the result is ------------------------------------------------

  lemma QuotientBounds(x: real, top: real)
    requires 0.0 < x <= top
    ensures 0.0 < x / top <= 1.0
    ensures x == top ==> x / top == 1.0
  {
  }

  lemma QuotientGrows(x: real, y: real, top: real)
    requires x > y && top > 0.0
    ensures x / top > y / top
  {
  }

  lemma ListedHaveScore(neural: seq<Candidate>, keyword: seq<Candidate>, id: string, k: nat)
    ensures Listed(neural + keyword, id) <==> Raw(neural, keyword, id, k) > 0.0
  {
    ListedAppend(neural, keyword, id);
  }

  lemma TopBounds(neural: seq<Candidate>, keyword: seq<Candidate>, k: nat)
    requires neural + keyword != []
    ensures TopRaw(neural, keyword, k) > 0.0
    ensures forall id | Listed(neural + keyword, id) :: 0.0 < Raw(neural, keyword, id, k) <= TopRaw(neural, keyword, k)
    ensures exists id :: Listed(neural + keyword, id) && Raw(neural, keyword, id, k) == TopRaw(neural, keyword, k)
  {
    hide Raw, Listed;
    AnyListed(neural + keyword);
    var ids := Ids(neural + keyword);
    var raws := Raws(neural, keyword, k, ids);
    forall id | Listed(neural + keyword, id) ensures 0.0 < Raw(neural, keyword, id, k) <= TopRaw(neural, keyword, k) {
      ListedHaveScore(neural, keyword, id, k);
      var i :| 0 <= i < |ids| && ids[i] == id;
      assert raws[i] in raws;
    }
    var m := Largest(raws);
    var i :| 0 <= i < |raws| && raws[i] == m;
    assert Listed(neural + keyword, ids[i]);
  }

  /** The fused list has each listed document once, with its normalized score, in
      strict order of the sort key. */
  lemma FusedFacts(neural: seq<Candidate>, keyword: seq<Candidate>, k: nat)
    ensures var all := FuseAll(neural, keyword, k);
            && InOrder(all) && DistinctIds(all)
            && (forall id :: Listed(neural + keyword, id) <==> exists c :: c in all && c.id == id)
            && (forall c | c in all :: Listed(neural + keyword, c.id) && c.version == VersionOf(neural, keyword, c.id))
            && (neural + keyword != [] ==>
                  && TopRaw(neural, keyword, k) > 0.0
                  && forall c | c in all :: c.score == Raw(neural, keyword, c.id, k) / TopRaw(neural, keyword, k))
  {
    hide Raw, Listed, VersionOf, Sorted, TopRaw, Ids, InOrder, DistinctIds, Scored, FuseAll;
    if neural + keyword == [] {
      NothingFused(neural, keyword, k);
    } else {
      FusedIsSorted(neural, keyword, k);
      var ids, top := Ids(neural + keyword), TopRaw(neural, keyword, k);
      TopBounds(neural, keyword, k);
      var all, scored := FuseAll(neural, keyword, k), Scored(neural, keyword, k, ids, top);
      forall id | Listed(neural + keyword, id) ensures exists c :: c in all && c.id == id {
        var i :| 0 <= i < |ids| && ids[i] == id;
        assert scored[i] in scored && scored[i].id == id;
      }
      forall c | c in all
        ensures Listed(neural + keyword, c.id) && c.version == VersionOf(neural, keyword, c.id)
                && c.score == Raw(neural, keyword, c.id, k) / top
      {
        var i :| 0 <= i < |scored| && scored[i] == c;
        assert ids[i] in ids;
      }
    }
  }

  lemma NothingFused(neural: seq<Candidate>, keyword: seq<Candidate>, k: nat)
    requires neural + keyword == []
    ensures FuseAll(neural, keyword, k) == [] && InOrder([]) && DistinctIds([])
    ensures forall id :: !Listed(neural + keyword, id)
  {
  }

  lemma FusedIsSorted(neural: seq<Candidate>, keyword: seq<Candidate>, k: nat)
    requires neural + keyword != []
    ensures var all := FuseAll(neural, keyword, k);
            var scored := Scored(neural, keyword, k, Ids(neural + keyword), TopRaw(neural, keyword, k));
            InOrder(all) && DistinctIds(all) && forall c :: c in all <==> c in scored
  {
    hide Ids, TopRaw, InOrder, DistinctIds, Sorted, Scored;
    var ids, top := Ids(neural + keyword), TopRaw(neural, keyword, k);
    ScoredDistinct(neural, keyword, k, ids, top);
    SortedInOrder(Scored(neural, keyword, k, ids, top));
  }

  lemma ScoredDistinct(neural: seq<Candidate>, keyword: seq<Candidate>, k: nat, ids: seq<string>, top: real)
    requires forall i, j | 0 <= i < j < |ids| :: ids[i] != ids[j]
    ensures DistinctIds(Scored(neural, keyword, k, ids, top))
  {
  }

  lemma NoneListed(id: string)
    ensures !Listed([], id)
  {
  }

  /** Scores lie in (0, 1] and the first one is 1, unless nothing is returned. */
  lemma ScoresAreNormalized(neural: seq<Candidate>, keyword: seq<Candidate>, k: nat, numResults: int)
    ensures var result := Slice(FuseAll(neural, keyword, k), numResults);
            && InOrder(result) && DistinctIds(result)
            && (forall c | c in result :: 0.0 < c.score <= 1.0)
            && (result != [] ==> result[0].score == 1.0)
  {
    hide Raw, Listed, FuseAll, TopRaw, VersionOf;
    var all := FuseAll(neural, keyword, k);
    FusedFacts(neural, keyword, k);
    var result := Slice(all, numResults);
    if all != [] {
      assert neural + keyword != [] by {
        if neural + keyword == [] { NoneListed(all[0].id); }
      }
      var top := TopRaw(neural, keyword, k);
      TopBounds(neural, keyword, k);
      forall c | c in all ensures 0.0 < c.score <= 1.0 {
        QuotientBounds(Raw(neural, keyword, c.id, k), top);
      }
      var id :| Listed(neural + keyword, id) && Raw(neural, keyword, id, k) == top;
      var c :| c in all && c.id == id;
      QuotientBounds(top, top);
      var i :| 0 <= i < |all| && all[i] == c;
      assert c.score == 1.0 && all[0] in all;
    }
  }

  /** The ids that either ranking lists. */
  function DistinctIdsOf(neural: seq<Candidate>, keyword: seq<Candidate>): set<string> {
    set c | c in neural + keyword :: c.id
  }

  /** The order of the result: by score, and between equal scores by id. */
  predicate Precedes(a: Fused, b: Fused) { a.score > b.score || (a.score == b.score && a.id != b.id && Leq(a.id, b.id)) }

  /** As many documents are returned as were asked for, or all there are if they are
      fewer; a negative number leaves out so many. None that is left out precedes
      one that is returned. */
  lemma ReturnedAreTheFirst(neural: seq<Candidate>, keyword: seq<Candidate>, k: nat, numResults: int)
    ensures var all, result := FuseAll(neural, keyword, k), Slice(FuseAll(neural, keyword, k), numResults);
            var n := |DistinctIdsOf(neural, keyword)|;
            && |all| == n
            && |result| == (if numResults >= n then n else if numResults >= 0 then numResults
                            else if n + numResults >= 0 then n + numResults else 0)
            && (forall c | c in result :: c in all)
            && (forall c, d | c in result && d in all && d !in result :: Precedes(c, d))
            && (forall i, j | 0 <= i < j < |result| :: Precedes(result[i], result[j]))
  {
    hide FuseAll, Listed, Raw, TopRaw, VersionOf, Leq;
    var all, result := FuseAll(neural, keyword, k), Slice(FuseAll(neural, keyword, k), numResults);
    FusedFacts(neural, keyword, k);
    SameIds(neural, keyword, k);
    forall i, j | 0 <= i < j < |all| ensures Precedes(all[i], all[j]) {
      assert Before(all[i], all[j]) && all[i].id != all[j].id;
    }
    assert forall j | 0 <= j < |result| :: result[j] == all[j] && all[j] in result;
    forall c, d | c in result && d in all && d !in result ensures Precedes(c, d) {
      var i :| 0 <= i < |result| && result[i] == c;
      var j :| 0 <= j < |all| && all[j] == d;
    }
  }

  lemma SameIds(neural: seq<Candidate>, keyword: seq<Candidate>, k: nat)
    ensures |FuseAll(neural, keyword, k)| == |DistinctIdsOf(neural, keyword)|
  {
    hide FuseAll, Raw, TopRaw, VersionOf, InOrder;
    var all, ids := FuseAll(neural, keyword, k), DistinctIdsOf(neural, keyword);
    FusedFacts(neural, keyword, k);
    forall id ensures id in ids <==> exists c :: c in all && c.id == id {
      if id in ids {
        var c :| c in neural + keyword && c.id == id;
        var i :| 0 <= i < |neural + keyword| && (neural + keyword)[i] == c;
        assert Listed(neural + keyword, id);
      }
      if Listed(neural + keyword, id) {
        var i :| 0 <= i < |neural + keyword| && (neural + keyword)[i].id == id;
        assert (neural + keyword)[i] in neural + keyword;
      }
    }
    AsMany(all, ids);
  }

  /** A list without repeated ids is as long as the set of them. */
  lemma {:induction false} AsMany(xs: seq<Fused>, ids: set<string>)
    requires DistinctIds(xs) && forall id :: id in ids <==> exists c :: c in xs && c.id == id
    ensures |xs| == |ids|
  {
    if xs == [] {
      assert ids == {};
    } else {
      var id, rest := xs[0].id, xs[1..];
      assert xs[0] in xs;
      forall x ensures x in ids - {id} <==> exists c :: c in rest && c.id == x {
        if c :| c in xs && c.id == x && x != id { assert c in rest; }
        if c :| c in rest && c.id == x {
          var i :| 0 <= i < |rest| && rest[i] == c;
          assert xs[i + 1] == c && xs[0].id != xs[i + 1].id;
        }
      }
      AsMany(rest, ids - {id});
      assert ids == (ids - {id}) + {id};
    }
  }

  /** A document's version is the one of its last place in the neural ranking, or
      of its first place in the keyword ranking if it is not in the neural one. */
  lemma VersionIsTheLastOrFirst(neural: seq<Candidate>, keyword: seq<Candidate>, id: string, i: nat)
    ensures i < |neural| && neural[i].id == id && (forall j | i < j < |neural| :: neural[j].id != id)
            ==> VersionOf(neural, keyword, id) == neural[i].version
    ensures (forall j | 0 <= j < |neural| :: neural[j].id != id)
            && i < |keyword| && keyword[i].id == id && (forall j | 0 <= j < i :: keyword[j].id != id)
            ==> VersionOf(neural, keyword, id) == keyword[i].version
  {
    if i < |neural| && neural[i].id == id && forall j | i < j < |neural| :: neural[j].id != id {
      LastVersionAt(neural, id, i);
    }
    if i < |keyword| && keyword[i].id == id && forall j | 0 <= j < i :: keyword[j].id != id {
      FirstVersionAt(keyword, id, i);
    }
  }

  lemma {:induction false} LastVersionAt(ranking: seq<Candidate>, id: string, i: nat)
    requires i < |ranking| && ranking[i].id == id && forall j | i < j < |ranking| :: ranking[j].id != id
    ensures LastVersion(ranking, id) == ranking[i].version
  {
    if i < |ranking| - 1 { LastVersionAt(ranking[..|ranking| - 1], id, i); }
  }

  lemma {:induction false} FirstVersionAt(ranking: seq<Candidate>, id: string, i: nat)
    requires i < |ranking| && ranking[i].id == id && forall j | 0 <= j < i :: ranking[j].id != id
    ensures FirstVersion(ranking, id) == ranking[i].version
  {
    var front := ranking[..|ranking| - 1];
    if i < |ranking| - 1 {
      assert front[i].id == id;
      FirstVersionAt(front, id, i);
    }
  }

  /** A higher raw score comes strictly first, in the list and in every cut. */
  lemma HigherComesFirst(neural: seq<Candidate>, keyword: seq<Candidate>, k: nat, numResults: int,
                         a: string, b: string, j: nat)
    requires Raw(neural, keyword, a, k) > Raw(neural, keyword, b, k)
    requires var result := Slice(FuseAll(neural, keyword, k), numResults);
             j < |result| && result[j].id == b
    ensures var result := Slice(FuseAll(neural, keyword, k), numResults);
            exists i :: 0 <= i < j && result[i].id == a && result[i].score > result[j].score
  {
    hide Raw, Listed, FuseAll, TopRaw, VersionOf;
    var all := FuseAll(neural, keyword, k);
    FusedFacts(neural, keyword, k);
    assert all[j] in all;
    assert neural + keyword != [] by {
      if neural + keyword == [] { NoneListed(b); assert false; }
    }
    TopBounds(neural, keyword, k);
    ListedHaveScore(neural, keyword, a, k);
    ListedHaveScore(neural, keyword, b, k);
    var c :| c in all && c.id == a;
    QuotientGrows(Raw(neural, keyword, a, k), Raw(neural, keyword, b, k), TopRaw(neural, keyword, k));
    assert c.score > all[j].score;
    var i :| 0 <= i < |all| && all[i] == c;
    assert i < j;
  }

  // ----- ranks -------------------------------------------------------------

  predicate NoDuplicates(ranking: seq<Candidate>) {
    forall i, j | 0 <= i < j < |ranking| :: ranking[i].id != ranking[j].id
  }

  /** The document's rank, counted from 1. */
  function Place(ranking: seq<Candidate>, id: string): (r: nat)
    requires Listed(ranking, id)
    ensures 1 <= r <= |ranking| && ranking[r - 1].id == id
  {
    if ranking[0].id == id then 1
    else
      var i :| 0 <= i < |ranking| && ranking[i].id == id;
      assert ranking[1..][i - 1].id == id;
      1 + Place(ranking[1..], id)
  }

  lemma {:induction false} ShareIsInv(ranking: seq<Candidate>, id: string, k: nat, r: nat)
    requires NoDuplicates(ranking) && 1 <= r <= |ranking| && ranking[r - 1].id == id
    ensures Share(ranking, id, k) == Inv(k + r)
  {
    var front := ranking[..|ranking| - 1];
    if r == |ranking| {
      assert !Listed(front, id);
    } else {
      ShareIsInv(front, id, k, r);
    }
  }

  lemma InvFalls(m: nat, n: nat)
    requires 0 < m < n
    ensures Inv(m) > Inv(n)
  {
    var x, y := m as real, n as real;
    assert 1.0 / x - 1.0 / y == (y - x) / (x * y);
  }

  /** Twice the share at n is more than one at m exactly when n < 2m. */
  lemma TwiceInv(m: nat, n: nat)
    requires m > 0 && n > 0
    ensures n < 2 * m ==> Inv(n) + Inv(n) > Inv(m)
    ensures n == 2 * m ==> Inv(n) + Inv(n) == Inv(m)
  {
    var x, y := m as real, n as real;
    assert 2.0 / y - 1.0 / x == (2.0 * x - y) / (x * y);
  }

  /** `a` is ranked wherever `b` is, and no lower. */
  predicate NoWorse(ranking: seq<Candidate>, a: string, b: string) {
    Listed(ranking, b) ==> Listed(ranking, a) && Place(ranking, a) <= Place(ranking, b)
  }

  predicate Better(ranking: seq<Candidate>, a: string, b: string) {
    Listed(ranking, a) && (Listed(ranking, b) ==> Place(ranking, a) < Place(ranking, b))
  }

  lemma ShareFollowsRank(ranking: seq<Candidate>, a: string, b: string, k: nat)
    requires NoDuplicates(ranking)
    ensures NoWorse(ranking, a, b) ==> Share(ranking, a, k) >= Share(ranking, b, k)
    ensures Better(ranking, a, b) ==> Share(ranking, a, k) > Share(ranking, b, k)
  {
    hide Inv, Place, Share;
    if Listed(ranking, a) { ShareIsInv(ranking, a, k, Place(ranking, a)); }
    if Listed(ranking, b) { ShareIsInv(ranking, b, k, Place(ranking, b)); }
    if Listed(ranking, a) && Listed(ranking, b) && Place(ranking, a) < Place(ranking, b) {
      InvFalls(k + Place(ranking, a), k + Place(ranking, b));
    }
  }

  /** A document ranked no worse in both lists and better in one scores strictly
      higher. */
  lemma DominanceIsStrict(neural: seq<Candidate>, keyword: seq<Candidate>, a: string, b: string, k: nat)
    requires NoDuplicates(neural) && NoDuplicates(keyword)
    requires NoWorse(neural, a, b) && NoWorse(keyword, a, b)
    requires Better(neural, a, b) || Better(keyword, a, b)
    ensures Raw(neural, keyword, a, k) > Raw(neural, keyword, b, k)
  {
    hide Share, NoWorse, Better;
    ShareFollowsRank(neural, a, b, k);
    ShareFollowsRank(keyword, a, b, k);
  }

  lemma InvAtMost(m: nat, n: nat)
    requires 0 < m <= n
    ensures Inv(m) >= Inv(n)
  {
    if m < n { InvFalls(m, n); }
  }

  /** A document in both lists at ranks up to k + 1 beats every document that is
      in one list only, whatever its rank there: 61 for the default constant. */
  lemma BothBeatsOne(neural: seq<Candidate>, keyword: seq<Candidate>, a: string, b: string, k: nat)
    requires NoDuplicates(neural) && NoDuplicates(keyword)
    requires Listed(neural, a) && Place(neural, a) <= k + 1
    requires Listed(keyword, a) && Place(keyword, a) <= k + 1
    requires !(Listed(neural, b) && Listed(keyword, b))
    ensures Raw(neural, keyword, a, k) > Raw(neural, keyword, b, k)
  {
    hide Inv, Place, Listed;
    BothAtLeast(neural, keyword, a, k);
    OneAtMost(neural, keyword, b, k);
    TwiceInv(k + 1, k + k + 1);
  }

  lemma BothAtLeast(neural: seq<Candidate>, keyword: seq<Candidate>, a: string, k: nat)
    requires NoDuplicates(neural) && NoDuplicates(keyword)
    requires Listed(neural, a) && Place(neural, a) <= k + 1
    requires Listed(keyword, a) && Place(keyword, a) <= k + 1
    ensures Raw(neural, keyword, a, k) >= Inv(k + k + 1) + Inv(k + k + 1)
  {
    hide Inv, Place, Share;
    ShareIsInv(neural, a, k, Place(neural, a));
    ShareIsInv(keyword, a, k, Place(keyword, a));
    InvAtMost(k + Place(neural, a), k + k + 1);
    InvAtMost(k + Place(keyword, a), k + k + 1);
  }

  lemma OneAtMost(neural: seq<Candidate>, keyword: seq<Candidate>, b: string, k: nat)
    requires NoDuplicates(neural) && NoDuplicates(keyword)
    requires !(Listed(neural, b) && Listed(keyword, b))
    ensures Raw(neural, keyword, b, k) <= Inv(k + 1)
  {
    hide Inv, Place;
    if Listed(neural, b) {
      ShareIsInv(neural, b, k, Place(neural, b));
      InvAtMost(k + 1, k + Place(neural, b));
    }
    if Listed(keyword, b) {
      ShareIsInv(keyword, b, k, Place(keyword, b));
      InvAtMost(k + 1, k + Place(keyword, b));
    }
  }

  /** One rank lower in both lists, it only ties with the first of one list. */
  lemma BothCanTie(neural: seq<Candidate>, keyword: seq<Candidate>, a: string, b: string, k: nat)
    requires NoDuplicates(neural) && NoDuplicates(keyword)
    requires Listed(neural, a) && Place(neural, a) == k + 2
    requires Listed(keyword, a) && Place(keyword, a) == k + 2
    requires Listed(neural, b) && Place(neural, b) == 1 && !Listed(keyword, b)
    ensures Raw(neural, keyword, a, k) == Raw(neural, keyword, b, k)
  {
    hide Inv, Place;
    ShareIsInv(neural, a, k, k + 2);
    ShareIsInv(keyword, a, k, k + 2);
    ShareIsInv(neural, b, k, 1);
    TwiceInv(k + 1, k + (k + 2));
  }
}
