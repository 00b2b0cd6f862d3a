/** Highlights: every occurrence of the query's terms, merged, widened to word
    boundaries, and cut to the first few. */
module Highlights {
  import opened Text

  /** A half-open range of positions. */
  datatype Span = Span(start: int, end: int)

  const MAX_HIGHLIGHTS := 5
  const CONTEXT := 50
  const FALLBACK := 200

  function Max(a: int, b: int): int { if a > b then a else b }

  function Min(a: int, b: int): int { if a < b then a else b }

  // ----- terms -------------------------------------------------------------

  /** How long `s` goes on without whitespace. */
  function RunLength(s: string): (n: nat)
    ensures n <= |s| && (forall i | 0 <= i < n :: !IsSpace(s[i])) && (n < |s| ==> IsSpace(s[n]))
  {
    if s == "" || IsSpace(s[0]) then 0
    else
      var n := RunLength(s[1..]);
      assert forall i | 0 < i < n + 1 :: s[i] == s[1..][i - 1];
      n + 1
  }

  /** str.split() */
  function Words(s: string): seq<string>
    decreases |s|
  {
    if s == "" then []
    else if IsSpace(s[0]) then Words(s[1..])
    else [s[..RunLength(s)]] + Words(s[RunLength(s)..])
  }

  function LongEnough(words: seq<string>): (terms: seq<string>)
    ensures forall t :: t in terms <==> t in words && |t| >= 2
  {
    if words == [] then [] else (if |words[0]| >= 2 then [words[0]] else []) + LongEnough(words[1..])
  }

  function Terms(query: string): seq<string> { LongEnough(Words(query)) }

  /** A word of `s`: a run of other characters that whitespace or the ends
      of `s` enclose. */
  ghost predicate WordAt(s: string, i: nat, j: nat) {
    && i < j <= |s|
    && (forall k | i <= k < j :: !IsSpace(s[k]))
    && (i == 0 || IsSpace(s[i - 1]))
    && (j == |s| || IsSpace(s[j]))
  }

  lemma WordShiftsBack(s: string, n: nat, i: nat, j: nat)
    requires n <= i && WordAt(s, i, j)
    ensures WordAt(s[n..], i - n, j - n) && s[n..][i - n..j - n] == s[i..j]
  {
    forall k | i - n <= k < j - n ensures !IsSpace(s[n..][k]) {
      assert s[n..][k] == s[k + n];
    }
  }

  lemma {:induction false} EveryWordIsFound(s: string, i: nat, j: nat)
    requires WordAt(s, i, j)
    ensures s[i..j] in Words(s)
    decreases |s|
  {
    hide IsSpace, RunLength;
    assert !IsSpace(s[i]);
    var n := if IsSpace(s[0]) then 1 else RunLength(s);
    if i == 0 {
      assert j == n;
    } else {
      WordShiftsBack(s, n, i, j);
      EveryWordIsFound(s[n..], i - n, j - n);
    }
  }

  lemma WordShifts(s: string, n: nat, i: nat, j: nat)
    requires 0 < n <= |s| && WordAt(s[n..], i, j) && (i > 0 || IsSpace(s[n - 1]))
    ensures WordAt(s, i + n, j + n) && s[i + n..j + n] == s[n..][i..j]
  {
    forall k | i + n <= k < j + n ensures !IsSpace(s[k]) {
      assert s[k] == s[n..][k - n];
    }
  }

  lemma {:induction false} FoundIsWord(s: string, w: string, k: nat)
    requires k < |Words(s)| && Words(s)[k] == w
    ensures exists i: nat, j: nat :: WordAt(s, i, j) && s[i..j] == w
    decreases |s|
  {
    hide IsSpace, RunLength;
    var n := if IsSpace(s[0]) then 1 else RunLength(s);
    if !IsSpace(s[0]) && k == 0 {
      assert WordAt(s, 0, n) && s[0..n] == w;
    } else {
      FoundIsWord(s[n..], w, if IsSpace(s[0]) then k else k - 1);
      var i: nat, j: nat :| WordAt(s[n..], i, j) && s[n..][i..j] == w;
      if i == 0 && !IsSpace(s[0]) {
        assert false;
      }
      WordShifts(s, n, i, j);
    }
  }

  // ----- occurrences -------------------------------------------------------

  predicate Occurs(text: string, term: string, at: int) {
    0 <= at && at + |term| <= |text| && text[at..at + |term|] == term
  }

  /** The occurrences of a term from `start` on. */
  function Matches(text: string, term: string, start: nat): seq<Span>
    requires |term| > 0
    decreases |text| - start
  {
    if start >= |text| then []
    else
      var at := Find(text, term, start);
      if at == -1 then [] else [Span(at, at + |term|)] + Matches(text, term, at + 1)
  }

  function AllMatches(text: string, terms: seq<string>): seq<Span>
    requires forall t | t in terms :: |t| > 0
  {
    if terms == [] then []
    else AllMatches(text, terms[..|terms| - 1]) + Matches(text, Lower(terms[|terms| - 1]), 0)
  }

  lemma {:induction false} MatchesIff(text: string, term: string, start: nat, s: Span)
    requires |term| > 0
    ensures s in Matches(text, term, start) <==> s.start >= start && Occurs(text, term, s.start) && s.end == s.start + |term|
    decreases |text| - start
  {
    hide Find, Occurs;
    if start < |text| {
      var at := Find(text, term, start);
      FindOccurs(text, term, start, s.start);
      if at != -1 {
        MatchesIff(text, term, at + 1, s);
      }
    } else {
      assert Occurs(text, term, s.start) ==> s.start + |term| <= |text| by { OccursInside(text, term, s.start); }
    }
  }

  lemma FindOccurs(text: string, term: string, start: nat, at: int)
    ensures var found := Find(text, term, start);
            && (found != -1 ==> found >= start && Occurs(text, term, found))
            && (at >= start && Occurs(text, term, at) ==> start <= found <= at)
  {
    if at >= start && Occurs(text, term, at) {
      FindIsLeftmost(text, term, start, at);
    }
  }

  lemma OccursInside(text: string, term: string, at: int)
    ensures Occurs(text, term, at) ==> at + |term| <= |text|
  {
  }

  /** The span is an occurrence of one of the terms, whatever the case. */
  ghost predicate Hit(text: string, terms: seq<string>, s: Span) {
    exists t :: t in terms && Occurs(Lower(text), Lower(t), s.start) && s.end == s.start + |t|
  }

  lemma {:induction false} AllMatchesIff(text: string, terms: seq<string>, s: Span)
    requires forall t | t in terms :: |t| > 0
    ensures s in AllMatches(Lower(text), terms) <==> Hit(text, terms, s)
  {
    hide Lower, Matches, Hit;
    if terms == [] {
      assert !Hit(text, terms, s) by { NoHit(text, s); }
    } else {
      var front, last := terms[..|terms| - 1], terms[|terms| - 1];
      AllMatchesIff(text, front, s);
      MatchesIff(Lower(text), Lower(last), 0, s);
      HitSplit(text, terms, s);
    }
  }

  lemma NoHit(text: string, s: Span)
    ensures !Hit(text, [], s)
  {
  }

  lemma HitSplit(text: string, terms: seq<string>, s: Span)
    requires terms != []
    ensures var last := terms[|terms| - 1];
            Hit(text, terms, s)
            <==> Hit(text, terms[..|terms| - 1], s)
                 || (Occurs(Lower(text), Lower(last), s.start) && s.end == s.start + |last|)
  {
    hide Lower, Occurs;
    var front, last := terms[..|terms| - 1], terms[|terms| - 1];
    assert terms == front + [last] && last in terms;
  }

  // ----- sorting -----------------------------------------------------------

  predicate TupleLeq(a: Span, b: Span) { a.start < b.start || (a.start == b.start && a.end <= b.end) }

  predicate Ascending(spans: seq<Span>) { forall i, j | 0 <= i < j < |spans| :: TupleLeq(spans[i], spans[j]) }

  function Insert(s: Span, spans: seq<Span>): (r: seq<Span>)
    ensures multiset(r) == multiset{s} + multiset(spans)
  {
    if spans == [] then [s]
    else
      assert spans == [spans[0]] + spans[1..];
      if TupleLeq(s, spans[0]) then [s] + spans else [spans[0]] + Insert(s, spans[1..])
  }

  /** matches.sort() */
  function Sorted(spans: seq<Span>): (r: seq<Span>)
    ensures multiset(r) == multiset(spans) && |r| == |spans|
  {
    if spans == [] then [] else
      assert spans == [spans[0]] + spans[1..];
      var r := Insert(spans[0], Sorted(spans[1..]));
      assert |r| == |multiset(r)|;
      r
  }

  lemma {:induction false} InsertAscends(s: Span, spans: seq<Span>)
    requires Ascending(spans)
    ensures Ascending(Insert(s, spans))
  {
    if spans != [] && !TupleLeq(s, spans[0]) {
      InsertAscends(s, spans[1..]);
      var tail := Insert(s, spans[1..]);
      forall j | 0 <= j < |tail| ensures TupleLeq(spans[0], tail[j]) {
        assert tail[j] in multiset(tail);
        assert tail[j] == s || tail[j] in spans[1..];
      }
    }
  }

  lemma {:induction false} SortedAscends(spans: seq<Span>)
    ensures Ascending(Sorted(spans))
    ensures forall s :: s in Sorted(spans) <==> s in spans
  {
    if spans != [] {
      SortedAscends(spans[1..]);
      InsertAscends(spans[0], Sorted(spans[1..]));
    }
    forall s ensures s in Sorted(spans) <==> s in spans {
      assert s in Sorted(spans) <==> s in multiset(Sorted(spans));
    }
  }

  // ----- merging -----------------------------------------------------------

  function MergeFrom(last: Span, rest: seq<Span>): seq<Span>
    decreases |rest|
  {
    if rest == [] then [last]
    else if rest[0].start <= last.end then MergeFrom(Span(last.start, Max(last.end, rest[0].end)), rest[1..])
    else [last] + MergeFrom(rest[0], rest[1..])
  }

  function Merge(spans: seq<Span>): seq<Span> {
    if spans == [] then [] else MergeFrom(spans[0], spans[1..])
  }

  /** `_merge_overlapping`, overwriting the last span in place. */
  method MergeOverlapping(spans: seq<Span>) returns (merged: seq<Span>)
    ensures merged == Merge(spans)
  {
    if spans == [] { return []; }
    merged := [spans[0]];
    assert [] + MergeFrom(spans[0], spans[1..]) == Merge(spans);
    for i := 1 to |spans|
      invariant |merged| > 0
      invariant merged[..|merged| - 1] + MergeFrom(merged[|merged| - 1], spans[i..]) == Merge(spans)
    {
      var last := merged[|merged| - 1];
      MergeNext(merged, spans, i);
      if spans[i].start <= last.end {
        merged := merged[|merged| - 1 := Span(last.start, Max(last.end, spans[i].end))];
      } else {
        merged := merged + [spans[i]];
      }
    }
    assert spans[|spans|..] == [];
    assert merged == merged[..|merged| - 1] + [merged[|merged| - 1]];
  }

  lemma MergeNext(merged: seq<Span>, spans: seq<Span>, i: nat)
    requires |merged| > 0 && i < |spans|
    ensures var last := merged[|merged| - 1];
            var next := if spans[i].start <= last.end
                        then merged[|merged| - 1 := Span(last.start, Max(last.end, spans[i].end))]
                        else merged + [spans[i]];
            merged[..|merged| - 1] + MergeFrom(last, spans[i..])
            == next[..|next| - 1] + MergeFrom(next[|next| - 1], spans[i + 1..])
  {
    assert spans[i..][1..] == spans[i + 1..];
    var last := merged[|merged| - 1];
    if spans[i].start > last.end {
      assert merged == merged[..|merged| - 1] + [last];
      Reassociate(merged[..|merged| - 1], [last], MergeFrom(spans[i], spans[i + 1..]));
    }
  }

  predicate Within(s: Span, length: nat) { 0 <= s.start < s.end <= length }

  predicate AllWithin(spans: seq<Span>, length: nat) { forall i | 0 <= i < |spans| :: Within(spans[i], length) }

  /** Neither overlapping nor adjacent, in order. */
  predicate Apart(spans: seq<Span>) { forall i, j | 0 <= i < j < |spans| :: spans[i].end < spans[j].start }

  predicate Covers(s: Span, p: int) { s.start <= p < s.end }

  ghost predicate Covered(spans: seq<Span>, p: int) { exists i :: 0 <= i < |spans| && Covers(spans[i], p) }

  predicate Contains(outer: Span, inner: Span) { outer.start <= inner.start && inner.end <= outer.end }

  ghost predicate Inside(inner: Span, spans: seq<Span>) { exists i :: 0 <= i < |spans| && Contains(spans[i], inner) }

  lemma {:induction false} MergeFromFacts(last: Span, rest: seq<Span>, length: nat)
    requires AllWithin([last] + rest, length) && Ascending(rest)
    requires forall i | 0 <= i < |rest| :: last.start <= rest[i].start
    ensures var m := MergeFrom(last, rest);
            && |m| >= 1 && m[0].start == last.start && AllWithin(m, length) && Apart(m)
            && (forall i | 0 <= i < |m| :: last.start <= m[i].start)
    decreases |rest|
  {
    assert ([last] + rest)[0] == last;
    if rest != [] {
      assert ([last] + rest)[1] == rest[0];
      assert forall i | 0 <= i < |rest| :: rest[i] == ([last] + rest)[i + 1];
      var next := if rest[0].start <= last.end then Span(last.start, Max(last.end, rest[0].end)) else rest[0];
      forall i | 0 <= i < |rest[1..]| ensures next.start <= rest[1..][i].start {
        assert TupleLeq(rest[0], rest[i + 1]);
      }
      forall i | 0 <= i < |[next] + rest[1..]| ensures Within(([next] + rest[1..])[i], length) {
        if i > 0 { assert ([next] + rest[1..])[i] == rest[i]; }
      }
      MergeFromFacts(next, rest[1..], length);
      if rest[0].start > last.end { FirstKeepsApart(last, MergeFrom(next, rest[1..]), length); }
    }
  }

  lemma FirstKeepsApart(first: Span, rest: seq<Span>, length: nat)
    requires Within(first, length) && AllWithin(rest, length) && Apart(rest)
    requires forall i | 0 <= i < |rest| :: first.end < rest[i].start
    ensures AllWithin([first] + rest, length) && Apart([first] + rest)
  {
  }

  /** Merging keeps the covered positions, one by one. */
  lemma {:induction false} MergeFromCovers(last: Span, rest: seq<Span>, p: int)
    requires Ascending(rest) && forall i | 0 <= i < |rest| :: last.start <= rest[i].start
    requires last.start <= last.end && forall i | 0 <= i < |rest| :: rest[i].start <= rest[i].end
    ensures Covered(MergeFrom(last, rest), p) <==> Covers(last, p) || Covered(rest, p)
    decreases |rest|
  {
    if rest == [] {
      assert MergeFrom(last, rest)[0] == last;
    } else {
      var next := if rest[0].start <= last.end then Span(last.start, Max(last.end, rest[0].end)) else rest[0];
      forall i | 0 <= i < |rest[1..]| ensures next.start <= rest[1..][i].start {
        assert TupleLeq(rest[0], rest[i + 1]);
      }
      MergeFromCovers(next, rest[1..], p);
      CoveredSplit(rest[0], rest[1..], p);
      assert rest == [rest[0]] + rest[1..];
      if rest[0].start > last.end {
        CoveredSplit(last, MergeFrom(next, rest[1..]), p);
      }
    }
  }

  lemma CoveredSplit(first: Span, rest: seq<Span>, p: int)
    ensures Covered([first] + rest, p) <==> Covers(first, p) || Covered(rest, p)
  {
    var all := [first] + rest;
    if Covers(first, p) { assert Covers(all[0], p); }
    if i :| 0 <= i < |rest| && Covers(rest[i], p) { assert Covers(all[i + 1], p); }
  }

  /** Sorted spans merge into spans that keep apart and cover the same positions. */
  lemma MergeKeepsCoverage(spans: seq<Span>, length: nat)
    requires AllWithin(spans, length) && Ascending(spans)
    ensures AllWithin(Merge(spans), length) && Apart(Merge(spans))
    ensures forall p :: Covered(Merge(spans), p) <==> Covered(spans, p)
  {
    if spans != [] {
      assert spans == [spans[0]] + spans[1..];
      forall i | 0 <= i < |spans[1..]| ensures spans[0].start <= spans[1..][i].start {
        assert TupleLeq(spans[0], spans[i + 1]);
      }
      MergeFromFacts(spans[0], spans[1..], length);
      forall p ensures Covered(Merge(spans), p) <==> Covered(spans, p) {
        MergeFromCovers(spans[0], spans[1..], p);
        CoveredSplit(spans[0], spans[1..], p);
      }
    }
  }

  lemma EndIsBare(spans: seq<Span>, i: nat)
    requires Apart(spans) && i < |spans| && forall j | 0 <= j < |spans| :: spans[j].start < spans[j].end
    ensures !Covered(spans, spans[i].end)
  {
    forall j | 0 <= j < |spans| ensures !Covers(spans[j], spans[i].end) {
      if j < i { assert spans[j].end < spans[i].start; }
    }
  }

  /** A span that is covered throughout by spans that keep apart lies in one. */
  lemma CoveredIsInside(s: Span, spans: seq<Span>)
    requires Apart(spans) && s.start < s.end && forall p | s.start <= p < s.end :: Covered(spans, p)
    requires forall i | 0 <= i < |spans| :: spans[i].start < spans[i].end
    ensures Inside(s, spans)
  {
    assert Covered(spans, s.start);
    var i :| 0 <= i < |spans| && Covers(spans[i], s.start);
    if spans[i].end < s.end {
      EndIsBare(spans, i);
      assert false;
    }
    assert Contains(spans[i], s);
  }

  // ----- widening ----------------------------------------------------------

  predicate Boundary(c: char) { c == ' ' || c == '\n' || c == '\t' }

  /** Back to the nearest whitespace, or the beginning. */
  function BackTo(text: string, at: int): (r: int)
    requires 0 <= at < |text| || at == 0
    ensures 0 <= r <= at
    ensures r == 0 || Boundary(text[r])
    ensures forall k | r < k <= at :: !Boundary(text[k])
    decreases at
  {
    if at > 0 && !Boundary(text[at]) then BackTo(text, at - 1) else at
  }

  /** On to the nearest whitespace, or the end. */
  function OnTo(text: string, at: int): (r: int)
    requires 0 <= at <= |text|
    ensures at <= r <= |text|
    ensures r == |text| || Boundary(text[r])
    ensures forall k | at <= k < r :: !Boundary(text[k])
    decreases |text| - at
  {
    if at < |text| && !Boundary(text[at]) then OnTo(text, at + 1) else at
  }

  function Widen(text: string, s: Span): Span
    requires Within(s, |text|)
  {
    var back := BackTo(text, Max(0, s.start - CONTEXT));
    Span(if back > 0 then back + 1 else back, OnTo(text, Min(|text|, s.end + CONTEXT)))
  }

  function WidenAll(text: string, spans: seq<Span>): (r: seq<Span>)
    requires AllWithin(spans, |text|)
    ensures |r| == |spans| && forall i | 0 <= i < |spans| :: r[i] == Widen(text, spans[i])
  {
    seq(|spans|, i requires 0 <= i < |spans| => Widen(text, spans[i]))
  }

  /** The widened span lies in the text, contains the old one with most of 50
      characters on either side, and starts and ends at word boundaries, the
      nearest ones. */
  lemma WidenFacts(text: string, s: Span)
    requires Within(s, |text|)
    ensures var w := Widen(text, s);
            && Within(w, |text|) && Contains(w, s)
            && (w.start == 0 || (w.start < s.start - 50 + 2 && text[w.start - 1] in {' ', '\n', '\t'}))
            && (w.end == |text| || (w.end >= s.end + 50 && text[w.end] in {' ', '\n', '\t'}))
            && (forall k | w.start <= k <= s.start - 50 && k > 0 :: text[k] !in {' ', '\n', '\t'})
            && (forall k | s.end + 50 <= k < w.end :: text[k] !in {' ', '\n', '\t'})
  {
  }

  /** One round of `_expand_to_context`: out to the next boundaries. */
  method WidenSpan(s: Span, text: string) returns (w: Span)
    requires Within(s, |text|)
    ensures w == Widen(text, s)
  {
    hide Boundary;
    var start := Max(0, s.start - CONTEXT);
    while start > 0 && !Boundary(text[start])
      invariant 0 <= start <= s.start
      invariant BackTo(text, start) == BackTo(text, Max(0, s.start - CONTEXT))
    {
      start := start - 1;
    }
    if start > 0 { start := start + 1; }
    var end := Min(|text|, s.end + CONTEXT);
    while end < |text| && !Boundary(text[end])
      invariant s.end <= end <= |text|
      invariant OnTo(text, end) == OnTo(text, Min(|text|, s.end + CONTEXT))
    {
      end := end + 1;
    }
    w := Span(start, end);
  }

  /** `_expand_to_context` */
  method ExpandToContext(spans: seq<Span>, text: string) returns (expanded: seq<Span>)
    requires AllWithin(spans, |text|)
    ensures expanded == WidenAll(text, spans)
  {
    hide Widen;
    expanded := [];
    for i := 0 to |spans|
      invariant |expanded| == i && forall k | 0 <= k < i :: expanded[k] == Widen(text, spans[k])
    {
      assert Within(spans[i], |text|);
      var w := WidenSpan(spans[i], text);
      WidenFacts(text, spans[i]);
      var start, end := Max(0, w.start), Min(w.end, |text|);
      if start < end { expanded := expanded + [Span(start, end)]; }
    }
  }

  // ----- the whole ---------------------------------------------------------

  function Fallback(text: string): seq<Span> {
    if text == "" then [] else [Span(0, Min(|text|, FALLBACK))]
  }

  function Cut(spans: seq<Span>, n: nat): seq<Span> { if |spans| <= n then spans else spans[..n] }

  lemma TermsAreLong(query: string)
    ensures forall t | t in Terms(query) :: |t| >= 2
  {
  }

  /** The merged occurrences of the query's terms. */
  function MergedHits(query: string, text: string): seq<Span> {
    TermsAreLong(query);
    Merge(Sorted(AllMatches(Lower(text), Terms(query))))
  }

  lemma HitsAreWithin(query: string, text: string)
    ensures AllWithin(Sorted(AllMatches(Lower(text), Terms(query))), |text|)
    ensures AllWithin(MergedHits(query, text), |text|) && Apart(MergedHits(query, text))
    ensures forall p :: Covered(MergedHits(query, text), p) <==> Covered(AllMatches(Lower(text), Terms(query)), p)
  {
    hide Terms, Lower, Merge, Sorted, AllMatches;
    TermsAreLong(query);
    var all := AllMatches(Lower(text), Terms(query));
    var sorted := Sorted(all);
    SortedAscends(all);
    forall i | 0 <= i < |sorted| ensures Within(sorted[i], |text|) {
      assert sorted[i] in all;
      AllMatchesIff(text, Terms(query), sorted[i]);
    }
    MergeKeepsCoverage(sorted, |text|);
    forall p ensures Covered(sorted, p) <==> Covered(all, p) {
      SameCoverage(sorted, all, p);
    }
  }

  lemma SameCoverage(a: seq<Span>, b: seq<Span>, p: int)
    requires forall s :: s in a <==> s in b
    ensures Covered(a, p) <==> Covered(b, p)
  {
    if i :| 0 <= i < |a| && Covers(a[i], p) { assert a[i] in b; }
    if i :| 0 <= i < |b| && Covers(b[i], p) { assert b[i] in a; }
  }

  function Extract(query: string, text: string, maxSpans: int): seq<Span> {
    if query == "" || text == "" || maxSpans <= 0 || Terms(query) == [] then []
    else if MergedHits(query, text) == [] then Fallback(text)
    else
      HitsAreWithin(query, text);
      Cut(WidenAll(text, MergedHits(query, text)), Min(maxSpans, MAX_HIGHLIGHTS))
  }

  /** The searching loop of `extract_highlights` for one term. */
  method FindTerm(text: string, lowered: string, term: string, matches: seq<Span>) returns (found: seq<Span>)
    requires lowered == Lower(text) && |term| > 0
    ensures found == matches + Matches(lowered, Lower(term), 0)
  {
    hide Lower, Matches, Find;
    var wanted := Lower(term);
    found := matches;
    var start := 0;
    while start < |lowered|
      invariant 0 <= start
      invariant matches + Matches(lowered, wanted, 0) == found + Matches(lowered, wanted, start)
      decreases |lowered| - start
    {
      MatchesStep(lowered, wanted, start, found);
      var at := Find(lowered, wanted, start);
      if at == -1 { break; }
      var end := at + |term|;
      if 0 <= at < end <= |text| { found := found + [Span(at, end)]; }
      start := at + 1;
    }
    MatchesStop(lowered, wanted, start, found);
  }

  method FindMatches(text: string, terms: seq<string>) returns (matches: seq<Span>)
    requires forall t | t in terms :: |t| > 0
    ensures matches == AllMatches(Lower(text), terms)
  {
    hide Lower, AllMatches, Matches;
    matches := [];
    var lowered := Lower(text);
    NoMatches(lowered);
    assert terms[..0] == [];
    for i := 0 to |terms|
      invariant matches == AllMatches(lowered, terms[..i])
    {
      assert terms[i] in terms;
      AllMatchesNext(lowered, terms, i);
      matches := FindTerm(text, lowered, terms[i], matches);
    }
    assert terms[..|terms|] == terms;
  }

  lemma NoMatches(text: string)
    ensures AllMatches(text, []) == []
  {
  }

  lemma MatchesStep(text: string, term: string, start: nat, matches: seq<Span>)
    requires |term| > 0 && start < |text|
    ensures var at := Find(text, term, start);
            matches + Matches(text, term, start)
            == if at == -1 then matches else (matches + [Span(at, at + |term|)]) + Matches(text, term, at + 1)
  {
    hide Find;
  }

  lemma MatchesStop(text: string, term: string, start: nat, matches: seq<Span>)
    requires |term| > 0 && (start >= |text| || Find(text, term, start) == -1)
    ensures matches + Matches(text, term, start) == matches
  {
  }

  lemma AllMatchesNext(text: string, terms: seq<string>, i: nat)
    requires i < |terms| && forall t | t in terms :: |t| > 0
    ensures AllMatches(text, terms[..i + 1]) == AllMatches(text, terms[..i]) + Matches(text, Lower(terms[i]), 0)
  {
    assert terms[..i + 1][..i] == terms[..i];
  }

  /** `extract_highlights` */
  method ExtractHighlights(query: string, text: string, maxSpans: int := MAX_HIGHLIGHTS) returns (spans: seq<Span>)
    ensures spans == Extract(query, text, maxSpans)
  {
    hide Terms, Merge, Sorted, AllMatches, Widen, Lower, AllWithin;
    if query == "" || text == "" { return []; }
    if maxSpans <= 0 { return []; }
    var most := Min(maxSpans, MAX_HIGHLIGHTS);
    var terms := Terms(query);
    TermsAreLong(query);
    if terms == [] { return []; }
    var matches := FindMatches(text, terms);
    EmptyIffNoHits(query, text);
    if matches == [] { return Fallback(text); }
    HitsAreWithin(query, text);
    var merged := MergeOverlapping(Sorted(matches));
    var expanded := ExpandToContext(merged, text);
    var chosen := Cut(expanded, most);
    ChosenAreWithin(text, merged, most);
    spans := [];
    for i := 0 to |chosen|
      invariant spans == chosen[..i]
    {
      var start, end := Max(0, chosen[i].start), Min(chosen[i].end, |text|);
      if start < end { spans := spans + [Span(start, end)]; }
    }
  }

  lemma EmptyIffNoHits(query: string, text: string)
    ensures MergedHits(query, text) == [] <==> AllMatches(Lower(text), Terms(query)) == []
  {
    hide Terms, AllMatches, Lower;
    TermsAreLong(query);
    MergeFromIsNotEmpty(Sorted(AllMatches(Lower(text), Terms(query))));
  }

  lemma MergeFromIsNotEmpty(spans: seq<Span>)
    ensures Merge(spans) == [] <==> spans == []
  {
    if spans != [] { SomeMerged(spans[0], spans[1..]); }
  }

  lemma {:induction false} SomeMerged(last: Span, rest: seq<Span>)
    ensures |MergeFrom(last, rest)| >= 1
    decreases |rest|
  {
    if rest != [] && rest[0].start <= last.end {
      SomeMerged(Span(last.start, Max(last.end, rest[0].end)), rest[1..]);
    }
  }

  lemma ChosenAreWithin(text: string, merged: seq<Span>, n: nat)
    requires AllWithin(merged, |text|)
    ensures forall i | 0 <= i < |Cut(WidenAll(text, merged), n)| ::
              Within(Cut(WidenAll(text, merged), n)[i], |text|)
  {
    hide Widen;
    forall i | 0 <= i < |Cut(WidenAll(text, merged), n)|
      ensures Within(Cut(WidenAll(text, merged), n)[i], |text|)
    {
      assert Within(merged[i], |text|);
      WidenFacts(text, merged[i]);
    }
  }

  // ----- main results ------------------------------------------------------

  /** Every occurrence of every term of at least two characters lies inside one
      merged span, and a position is covered only if an occurrence covers it. */
  lemma EveryOccurrenceIsCovered(query: string, text: string)
    ensures forall s | Hit(text, Terms(query), s) :: Inside(s, MergedHits(query, text))
    ensures forall p :: Covered(MergedHits(query, text), p)
                        <==> exists s :: Hit(text, Terms(query), s) && Covers(s, p)
    ensures AllWithin(MergedHits(query, text), |text|) && Apart(MergedHits(query, text))
  {
    hide Terms, Lower, MergedHits, AllMatches;
    TermsAreLong(query);
    HitsAreWithin(query, text);
    var merged, all := MergedHits(query, text), AllMatches(Lower(text), Terms(query));
    forall s | Hit(text, Terms(query), s) ensures Inside(s, merged) {
      AllMatchesIff(text, Terms(query), s);
      assert s in all;
      var i :| 0 <= i < |all| && all[i] == s;
      forall p | s.start <= p < s.end ensures Covered(merged, p) {
        assert Covers(all[i], p);
      }
      assert forall k | 0 <= k < |merged| :: Within(merged[k], |text|);
      CoveredIsInside(s, merged);
    }
    forall p ensures Covered(merged, p) <==> exists s :: Hit(text, Terms(query), s) && Covers(s, p) {
      HitsCover(text, Terms(query), p);
    }
  }

  lemma HitsCover(text: string, terms: seq<string>, p: int)
    requires forall t | t in terms :: |t| > 0
    ensures Covered(AllMatches(Lower(text), terms), p) <==> exists s :: Hit(text, terms, s) && Covers(s, p)
  {
    hide Lower, AllMatches, Hit;
    var all := AllMatches(Lower(text), terms);
    if i :| 0 <= i < |all| && Covers(all[i], p) {
      AllMatchesIff(text, terms, all[i]);
    }
    if s :| Hit(text, terms, s) && Covers(s, p) {
      AllMatchesIff(text, terms, s);
      var i :| 0 <= i < |all| && all[i] == s;
    }
  }

  /** At most five spans, all valid, each around some occurrence; and every
      occurrence lies in one of them unless more than the maximum were merged. */
  lemma HighlightsShowOccurrences(query: string, text: string, maxSpans: int)
    requires query != "" && text != "" && maxSpans > 0 && exists s :: Hit(text, Terms(query), s)
    ensures var spans := Extract(query, text, maxSpans);
            && 1 <= |spans| <= maxSpans && |spans| <= 5 && AllWithin(spans, |text|)
            && (forall i | 0 <= i < |spans| :: HoldsHit(text, Terms(query), spans[i]))
            && (|MergedHits(query, text)| <= maxSpans && |MergedHits(query, text)| <= 5 ==>
                  forall s | Hit(text, Terms(query), s) :: Inside(s, spans))
  {
    hide Terms, Lower, MergedHits, AllMatches, Hit, HoldsHit, WidenAll, Within, Cut, Apart, Contains, Inside;
    var s0 :| Hit(text, Terms(query), s0);
    NoTermsNoHits(text, Terms(query), s0);
    EveryOccurrenceIsCovered(query, text);
    SomethingInside(s0, MergedHits(query, text));
    var merged := MergedHits(query, text);
    ChosenShow(query, text, Min(maxSpans, MAX_HIGHLIGHTS));
    ChosenAreWithin(text, merged, Min(maxSpans, MAX_HIGHLIGHTS));
  }

  lemma SomethingInside(s: Span, spans: seq<Span>)
    requires Inside(s, spans)
    ensures spans != []
  {
  }

  lemma ChosenShow(query: string, text: string, n: nat)
    requires n > 0 && MergedHits(query, text) != [] && AllWithin(MergedHits(query, text), |text|)
    ensures var chosen := Cut(WidenAll(text, MergedHits(query, text)), n);
            && 1 <= |chosen| <= n
            && (forall i | 0 <= i < |chosen| :: HoldsHit(text, Terms(query), chosen[i]))
            && (|MergedHits(query, text)| <= n ==> forall s | Hit(text, Terms(query), s) :: Inside(s, chosen))
  {
    hide Terms, MergedHits, Hit, HoldsHit, Widen, Inside;
    var merged := MergedHits(query, text);
    var chosen := Cut(WidenAll(text, merged), n);
    forall i | 0 <= i < |chosen| ensures HoldsHit(text, Terms(query), chosen[i]) {
      assert Within(merged[i], |text|);
      WidenFacts(text, merged[i]);
      ContainsHit(query, text, i);
      StillHoldsHit(text, Terms(query), merged[i], chosen[i]);
    }
    if |merged| <= n {
      EveryOccurrenceIsCovered(query, text);
      forall s | Hit(text, Terms(query), s) ensures Inside(s, chosen) {
        InsideWidened(text, merged, s);
      }
    }
  }

  /** Some occurrence lies in the span. */
  ghost predicate HoldsHit(text: string, terms: seq<string>, outer: Span) {
    exists s :: Hit(text, terms, s) && Contains(outer, s)
  }

  lemma StillHoldsHit(text: string, terms: seq<string>, inner: Span, outer: Span)
    requires HoldsHit(text, terms, inner) && Contains(outer, inner)
    ensures HoldsHit(text, terms, outer)
  {
    hide Hit;
    var s :| Hit(text, terms, s) && Contains(inner, s);
    assert Contains(outer, s);
  }

  lemma InsideWidened(text: string, merged: seq<Span>, s: Span)
    requires AllWithin(merged, |text|) && Inside(s, merged)
    ensures Inside(s, WidenAll(text, merged))
  {
    hide Widen;
    var i :| 0 <= i < |merged| && Contains(merged[i], s);
    assert Within(merged[i], |text|);
    WidenFacts(text, merged[i]);
    assert Contains(WidenAll(text, merged)[i], s);
  }

  lemma NoTermsNoHits(text: string, terms: seq<string>, s: Span)
    requires Hit(text, terms, s)
    ensures terms != []
  {
  }

  /** Each merged span holds an occurrence: the one that covers its start. */
  lemma ContainsHit(query: string, text: string, i: nat)
    requires i < |MergedHits(query, text)|
    ensures HoldsHit(text, Terms(query), MergedHits(query, text)[i])
  {
    hide Terms, Lower, MergedHits, AllMatches, Hit;
    EveryOccurrenceIsCovered(query, text);
    var merged := MergedHits(query, text);
    assert Within(merged[i], |text|);
    assert Covers(merged[i], merged[i].start);
    assert Covered(merged, merged[i].start);
    var s :| Hit(text, Terms(query), s) && Covers(s, merged[i].start);
    assert Inside(s, merged);
    var j :| 0 <= j < |merged| && Contains(merged[j], s);
    assert Within(merged[j], |text|);
    assert j == i;
  }

  /** As many spans are returned as were merged, were asked for, or five, whichever
      is fewest; they are the first ones, each widened. */
  lemma FirstSpansAreShown(query: string, text: string, maxSpans: int)
    requires query != "" && text != "" && maxSpans > 0 && exists s :: Hit(text, Terms(query), s)
    ensures var merged, spans := MergedHits(query, text), Extract(query, text, maxSpans);
            && (|spans| == |merged| || |spans| == maxSpans || |spans| == 5)
            && |spans| <= |merged| && |spans| <= maxSpans && |spans| <= 5
            && AllWithin(merged, |text|)
            && forall i | 0 <= i < |spans| :: spans[i] == Widen(text, merged[i])
  {
    hide Terms, MergedHits, Hit, Widen;
    var s0 :| Hit(text, Terms(query), s0);
    NoTermsNoHits(text, Terms(query), s0);
    EveryOccurrenceIsCovered(query, text);
    SomethingInside(s0, MergedHits(query, text));
  }

  /** The terms are the words of at least two characters. */
  lemma TermsAreLongWords(query: string, term: string)
    ensures term in Terms(query) <==> term in Words(query) && |term| >= 2
  {
  }

  /** Nothing is returned for an empty query or text, for no spans asked for, or if
      no word has two characters. */
  lemma NothingToShow(query: string, text: string, maxSpans: int)
    ensures Extract(query, text, maxSpans) == []
            <==> query == "" || text == "" || maxSpans <= 0 || !exists term :: term in Words(query) && |term| >= 2
  {
    hide MergedHits, WidenAll, Terms, Words, AllWithin, AllMatches, Lower;
    NoTermsIff(query);
    HitsAreWithin(query, text);
  }

  lemma NoTermsIff(query: string)
    ensures Terms(query) == [] <==> !exists term :: term in Words(query) && |term| >= 2
  {
    hide Words;
    if term :| term in Words(query) && |term| >= 2 {
      assert term in Terms(query);
    }
    if Terms(query) != [] {
      assert Terms(query)[0] in Terms(query);
    }
  }

  /** Without any occurrence there is one span, over the beginning of the text. */
  lemma FallbackIffNoOccurrence(query: string, text: string, maxSpans: int)
    requires query != "" && text != "" && maxSpans > 0 && Terms(query) != []
    ensures MergedHits(query, text) == [] <==> !exists s :: Hit(text, Terms(query), s)
    ensures (!exists s :: Hit(text, Terms(query), s)) ==> Extract(query, text, maxSpans) == [Span(0, if |text| < 200 then |text| else 200)]
  {
    hide Terms, Lower, MergedHits, AllMatches, Hit;
    EveryOccurrenceIsCovered(query, text);
    var merged := MergedHits(query, text);
    if s :| Hit(text, Terms(query), s) {
      assert Inside(s, merged);
    }
    if merged != [] {
      ContainsHit(query, text, 0);
    }
  }
}
