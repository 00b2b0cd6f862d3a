/** A streamed answer: tokens, the citations they give rise to, and one closing
    event. */
module Answer {
  import opened Text

  datatype Option<+T> = None | Some(value: T)

  /** A retrieval result, as far as citations need it. */
  datatype Source = Source(id: string, version: int, text: string)

  datatype Citation = Citation(document: string, version: int, answerStart: int, answerEnd: int,
                               sourceStart: int, sourceEnd: int)

  datatype Code = NoSourcesAvailable | StreamTimeout | ModelError | InternalError

  datatype Event =
    | Token(text: string, index: nat)
    | Cited(citation: Citation)
    | Done(answer: string, citations: seq<Citation>)
    | Failed(code: Code)
  {
    predicate Terminal() { Done? || Failed? }
  }

  /** How the provider's stream ends: at its end, or by an exception. */
  datatype Ending = Exhausted | TimedOut | ModelFailed | OtherFailure

  const WINDOW := 30
  const SHORTEST := 10

  // ----- one source --------------------------------------------------------

  function Key(s: Source): (string, int) { (s.id, s.version) }

  /** The retrieval set: of results with one key the last stays. */
  function Table(results: seq<Source>): map<(string, int), Source> {
    if results == [] then map[]
    else
      var last := results[|results| - 1];
      Table(results[..|results| - 1])[Key(last) := last]
  }

  function Window(answer: string): nat { if |answer| < WINDOW then |answer| else WINDOW }

  function Recent(answer: string): string { answer[|answer| - Window(answer)..] }

  /** The citation of the latest piece of the answer, if the source has it. */
  function Candidate(answer: string, s: Source): Option<Citation> {
    if |answer| < SHORTEST || s.text == "" then None
    else
      var pos := Find(s.text, Recent(answer), 0);
      if pos == -1 then None
      else Some(Citation(s.id, s.version, |answer| - Window(answer), |answer|, pos, pos + Window(answer)))
  }

  predicate SameSpan(a: Citation, b: Citation) {
    a.document == b.document && a.answerStart == b.answerStart && a.answerEnd == b.answerEnd
  }

  predicate Known(citations: seq<Citation>, c: Citation) {
    exists i | 0 <= i < |citations| :: SameSpan(citations[i], c)
  }

  /** The tracker's checks. */
  predicate Admissible(table: map<(string, int), Source>, c: Citation, length: nat) {
    && (c.document, c.version) in table
    && 0 <= c.answerStart < c.answerEnd <= length
    && 0 <= c.sourceStart < c.sourceEnd <= |table[(c.document, c.version)].text|
  }

  function DetectOne(answer: string, s: Source, table: map<(string, int), Source>, citations: seq<Citation>)
    : Option<Citation>
  {
    var c := Candidate(answer, s);
    if c.None? || Known(citations, c.value) || !Admissible(table, c.value, |answer|) then None else c
  }

  function Found(c: Option<Citation>): seq<Citation> { if c.Some? then [c.value] else [] }

  /** The new citations after a token, source by source. */
  function Detect(answer: string, results: seq<Source>, table: map<(string, int), Source>, citations: seq<Citation>)
    : seq<Citation>
    decreases |results|
  {
    if results == [] then []
    else
      var extra := Found(DetectOne(answer, results[0], table, citations));
      extra + Detect(answer, results[1..], table, citations + extra)
  }

  function CitedEvent(c: Citation): Event { Cited(c) }

  /** What one token adds to the stream. */
  function TokenEvents(token: string, index: nat, extra: seq<Citation>): seq<Event> {
    [Token(token, index)] + Map(CitedEvent, extra)
  }

  /** The events of the tokens, and the citations there are after them. */
  function Play(results: seq<Source>, tokens: seq<string>, index: nat, answer: string, citations: seq<Citation>)
    : (seq<Event>, seq<Citation>)
    decreases |tokens|
  {
    if tokens == [] then ([], citations)
    else
      var extra := Detect(answer + tokens[0], results, Table(results), citations);
      var (events, all) := Play(results, tokens[1..], index + 1, answer + tokens[0], citations + extra);
      (TokenEvents(tokens[0], index, extra) + events, all)
  }

  function Closing(ending: Ending, answer: string, citations: seq<Citation>): Event {
    match ending
    case Exhausted => Done(answer, citations)
    case TimedOut => Failed(StreamTimeout)
    case ModelFailed => Failed(ModelError)
    case OtherFailure => Failed(InternalError)
  }

  /** The whole stream. */
  function Stream(results: seq<Source>, tokens: seq<string>, ending: Ending): seq<Event> {
    if results == [] then [Failed(NoSourcesAvailable)]
    else
      var (events, citations) := Play(results, tokens, 0, "", []);
      events + [Closing(ending, Concat(tokens), citations)]
  }

  // ----- the classes -------------------------------------------------------

  class CitationTracker {
    const retrievalSet: map<(string, int), Source>
    var citations: seq<Citation>
    var answerTextLength: nat

    constructor FromResults(results: seq<Source>)
      ensures retrievalSet == Table(results) && citations == [] && answerTextLength == 0
    {
      var table: map<(string, int), Source> := map[];
      for i := 0 to |results|
        invariant table == Table(results[..i])
      {
        assert results[..i + 1][..i] == results[..i];
        table := table[(results[i].id, results[i].version) := results[i]];
      }
      assert results[..|results|] == results;
      retrievalSet, citations, answerTextLength := table, [], 0;
    }

    method UpdateAnswerLength(length: nat)
      modifies this`answerTextLength
      ensures answerTextLength == length
    {
      answerTextLength := length;
    }

    /** None where a check fails. */
    method ValidateAndAddCitation(document: string, version: int, answerStart: int, answerEnd: int,
                                  sourceStart: int, sourceEnd: int) returns (added: Option<Citation>)
      modifies this`citations
      ensures var c := Citation(document, version, answerStart, answerEnd, sourceStart, sourceEnd);
              && added == (if Admissible(retrievalSet, c, answerTextLength) then Some(c) else None)
              && (added.Some? <==>
                    && (document, version) in retrievalSet
                    && 0 <= answerStart < answerEnd <= answerTextLength
                    && 0 <= sourceStart < sourceEnd <= |retrievalSet[(document, version)].text|)
              && citations == old(citations) + Found(added)
    {
      if (document, version) !in retrievalSet { return None; }
      var source := retrievalSet[(document, version)];
      if answerStart < 0 || answerEnd <= answerStart || answerEnd > answerTextLength { return None; }
      if sourceStart < 0 || sourceEnd <= sourceStart || sourceEnd > |source.text| { return None; }
      var c := Citation(document, version, answerStart, answerEnd, sourceStart, sourceEnd);
      citations := citations + [c];
      added := Some(c);
    }
  }

  class AnswerService {

    constructor () { }

    /** `_find_citation_match`. */
    method FindCitationMatch(answer: string, s: Source, tracker: CitationTracker) returns (found: Option<Citation>)
      requires tracker.answerTextLength == |answer|
      modifies tracker`citations
      ensures found == DetectOne(answer, s, tracker.retrievalSet, old(tracker.citations))
      ensures tracker.citations == old(tracker.citations) + Found(found)
    {
      if |answer| < SHORTEST || s.text == "" { return None; }
      var window := if |answer| < WINDOW then |answer| else WINDOW;
      var recent := answer[|answer| - window..];
      var pos := Find(s.text, recent, 0);
      if pos == -1 { return None; }
      var c := Citation(s.id, s.version, |answer| - window, |answer|, pos, pos + window);
      assert Candidate(answer, s) == Some(c);
      for i := 0 to |tracker.citations|
        invariant forall k | 0 <= k < i :: !SameSpan(tracker.citations[k], c)
      {
        var existing := tracker.citations[i];
        if existing.document == s.id && existing.answerStart == c.answerStart && existing.answerEnd == c.answerEnd {
          assert SameSpan(existing, c);
          return None;
        }
      }
      found := tracker.ValidateAndAddCitation(s.id, s.version, c.answerStart, c.answerEnd, c.sourceStart, c.sourceEnd);
    }

    /** `_detect_citations`. */
    method DetectCitations(answer: string, results: seq<Source>, tracker: CitationTracker) returns (extra: seq<Citation>)
      requires tracker.answerTextLength == |answer|
      modifies tracker`citations
      ensures extra == Detect(answer, results, tracker.retrievalSet, old(tracker.citations))
      ensures tracker.citations == old(tracker.citations) + extra
    {
      hide DetectOne, Detect;
      extra := [];
      ghost var all := Detect(answer, results, tracker.retrievalSet, tracker.citations);
      assert tracker.citations == old(tracker.citations) + [];
      assert all == [] + all && results[0..] == results;
      for i := 0 to |results|
        invariant tracker.citations == old(tracker.citations) + extra
        invariant all == extra + Detect(answer, results[i..], tracker.retrievalSet, tracker.citations)
      {
        DetectNext(answer, results, i, tracker.retrievalSet, tracker.citations, extra);
        var found := FindCitationMatch(answer, results[i], tracker);
        if found.Some? { extra := extra + [found.value]; }
      }
      DetectEnd(answer, results, tracker.retrievalSet, tracker.citations, extra);
    }

    /** `generate_answer`, with the provider's tokens and the way its stream ends. */
    method GenerateAnswer(results: seq<Source>, tokens: seq<string>, ending: Ending) returns (events: seq<Event>)
      ensures events == Stream(results, tokens, ending)
    {
      hide Play, Detect, Map, Concat, Table;
      if results == [] { return [Failed(NoSourcesAvailable)]; }
      var tracker := new CitationTracker.FromResults(results);
      events := [];
      var answer, allCitations: seq<Citation> := "", [];
      ghost var (played, cited) := Play(results, tokens, 0, "", []);
      assert [] + played == played && tokens[0..] == tokens;
      NothingPlayed(tokens);
      for i := 0 to |tokens|
        invariant tracker.citations == allCitations && tracker.retrievalSet == Table(results)
        invariant answer == Concat(tokens[..i])
        invariant Play(results, tokens[i..], i, answer, allCitations).1 == cited
        invariant events + Play(results, tokens[i..], i, answer, allCitations).0 == played
      {
        PlayNext(results, tokens, i, answer, allCitations, events);
        events := events + [Token(tokens[i], i)];
        answer := answer + tokens[i];
        tracker.UpdateAnswerLength(|answer|);
        var extra := DetectCitations(answer, results, tracker);
        ghost var before := events;
        for k := 0 to |extra|
          invariant events == before + Map(CitedEvent, extra[..k])
          invariant tracker.citations == allCitations + extra
        {
          CitedNext(extra, k);
          events := events + [Cited(extra[k])];
        }
        assert extra[..|extra|] == extra;
        allCitations := allCitations + extra;
      }
      PlayEnd(results, tokens, answer, allCitations, events);
      events := events + [Closing(ending, answer, allCitations)];
    }
  }

  lemma DetectNext(answer: string, results: seq<Source>, i: nat, table: map<(string, int), Source>,
                   citations: seq<Citation>, extra: seq<Citation>)
    requires i < |results|
    ensures var found := Found(DetectOne(answer, results[i], table, citations));
            extra + Detect(answer, results[i..], table, citations)
            == (extra + found) + Detect(answer, results[i + 1..], table, citations + found)
  {
    hide DetectOne;
    assert results[i..][1..] == results[i + 1..];
    var found := Found(DetectOne(answer, results[i], table, citations));
    Reassociate(extra, found, Detect(answer, results[i + 1..], table, citations + found));
    if found == [] { assert extra + found == extra && citations + found == citations; }
  }

  lemma DetectEnd(answer: string, results: seq<Source>, table: map<(string, int), Source>,
                  citations: seq<Citation>, extra: seq<Citation>)
    ensures extra + Detect(answer, results[|results|..], table, citations) == extra
  {
  }

  lemma NothingPlayed(tokens: seq<string>)
    ensures Concat(tokens[..0]) == ""
  {
  }

  lemma PlayNext(results: seq<Source>, tokens: seq<string>, i: nat, answer: string, citations: seq<Citation>,
                 events: seq<Event>)
    requires i < |tokens| && answer == Concat(tokens[..i])
    ensures answer + tokens[i] == Concat(tokens[..i + 1])
    ensures var extra := Detect(answer + tokens[i], results, Table(results), citations);
            var rest := Play(results, tokens[i + 1..], i + 1, answer + tokens[i], citations + extra);
            var now := Play(results, tokens[i..], i, answer, citations);
            now.1 == rest.1 && events + now.0 == (events + [Token(tokens[i], i)] + Map(CitedEvent, extra)) + rest.0
  {
    hide Detect, Map;
    assert tokens[i..][1..] == tokens[i + 1..];
    ConcatNext(tokens, i);
    var extra := Detect(answer + tokens[i], results, Table(results), citations);
    var rest := Play(results, tokens[i + 1..], i + 1, answer + tokens[i], citations + extra);
    Reassociate(events, TokenEvents(tokens[i], i, extra), rest.0);
    Reassociate(events, [Token(tokens[i], i)], Map(CitedEvent, extra));
  }

  lemma PlayEnd(results: seq<Source>, tokens: seq<string>, answer: string, citations: seq<Citation>, events: seq<Event>)
    requires answer == Concat(tokens[..|tokens|])
    ensures Play(results, tokens[|tokens|..], |tokens|, answer, citations) == ([], citations)
    ensures events + [] == events && answer == Concat(tokens)
  {
    assert tokens[..|tokens|] == tokens;
  }

  lemma ConcatNext(tokens: seq<string>, i: nat)
    requires i < |tokens|
    ensures Concat(tokens[..i + 1]) == Concat(tokens[..i]) + tokens[i]
  {
    assert tokens[..i + 1] == tokens[..i] + [tokens[i]];
    ConcatAppend(tokens[..i], [tokens[i]]);
    assert Concat([tokens[i]]) == tokens[i] + "";
    assert tokens[i] + "" == tokens[i];
  }

  lemma CitedNext(extra: seq<Citation>, k: nat)
    requires k < |extra|
    ensures Map(CitedEvent, extra[..k + 1]) == Map(CitedEvent, extra[..k]) + [Cited(extra[k])]
  {
    assert extra[..k + 1] == extra[..k] + [extra[k]];
    MapAppend(CitedEvent, extra[..k], [extra[k]]);
  }

  // ----- what every citation promises --------------------------------------

  /** The cited spans are valid, equally long, and the same text, in some result
      of that document and version. */
  ghost predicate Literal(c: Citation, results: seq<Source>, answer: string) {
    && 0 <= c.answerStart < c.answerEnd <= |answer|
    && 10 <= c.answerEnd - c.answerStart <= 30
    && exists s :: s in results && Quotes(c, s, answer)
  }

  predicate Quotes(c: Citation, s: Source, answer: string) {
    && s.id == c.document && s.version == c.version
    && 0 <= c.answerStart <= c.answerEnd <= |answer|
    && 0 <= c.sourceStart <= c.sourceEnd <= |s.text|
    && s.text[c.sourceStart..c.sourceEnd] == answer[c.answerStart..c.answerEnd]
  }

  ghost predicate AllLiteral(citations: seq<Citation>, results: seq<Source>, answer: string) {
    forall i | 0 <= i < |citations| :: Literal(citations[i], results, answer)
  }

  /** No document is cited twice for one span. */
  predicate NoRepeat(citations: seq<Citation>) {
    forall i, j | 0 <= i < j < |citations| :: !SameSpan(citations[i], citations[j])
  }

  /** What was right on a prefix stays right as the answer grows. */
  lemma LiteralGrows(c: Citation, results: seq<Source>, answer: string, more: string)
    requires Literal(c, results, answer)
    ensures Literal(c, results, answer + more)
  {
    var s :| s in results && Quotes(c, s, answer);
    assert (answer + more)[c.answerStart..c.answerEnd] == answer[c.answerStart..c.answerEnd];
    assert Quotes(c, s, answer + more);
  }

  lemma CandidateIsLiteral(answer: string, s: Source, results: seq<Source>)
    requires s in results && Candidate(answer, s).Some?
    ensures Literal(Candidate(answer, s).value, results, answer)
    ensures Candidate(answer, s).value.answerEnd == |answer|
  {
    assert Quotes(Candidate(answer, s).value, s, answer);
  }

  lemma {:induction false} DetectFacts(answer: string, rest: seq<Source>, results: seq<Source>,
                                       table: map<(string, int), Source>, citations: seq<Citation>)
    requires forall s | s in rest :: s in results
    requires NoRepeat(citations) && AllLiteral(citations, results, answer)
    ensures var extra := Detect(answer, rest, table, citations);
            && NoRepeat(citations + extra) && AllLiteral(citations + extra, results, answer)
            && forall i | 0 <= i < |extra| :: extra[i].answerEnd == |answer|
    decreases |rest|
  {
    hide Candidate, Admissible, SameSpan, Literal;
    if rest == [] {
      assert citations + [] == citations;
    } else {
      var found := Found(DetectOne(answer, rest[0], table, citations));
      if found != [] {
        CandidateIsLiteral(answer, rest[0], results);
      } else {
        assert citations + found == citations;
      }
      DetectFacts(answer, rest[1..], results, table, citations + found);
      Reassociate(citations, found, Detect(answer, rest[1..], table, citations + found));
    }
  }

  lemma AllLiteralGrows(citations: seq<Citation>, results: seq<Source>, answer: string, more: string)
    requires AllLiteral(citations, results, answer)
    ensures AllLiteral(citations, results, answer + more)
  {
    hide Literal;
    forall i | 0 <= i < |citations| ensures Literal(citations[i], results, answer + more) {
      LiteralGrows(citations[i], results, answer, more);
    }
  }

  /** Every citation the tokens give rise to is right in the final answer. */
  lemma {:induction false} PlayFacts(results: seq<Source>, tokens: seq<string>, index: nat, answer: string,
                                     citations: seq<Citation>)
    requires NoRepeat(citations) && AllLiteral(citations, results, answer)
    ensures var all := Play(results, tokens, index, answer, citations).1;
            && NoRepeat(all) && AllLiteral(all, results, answer + Concat(tokens)) && citations <= all
    decreases |tokens|
  {
    hide NoRepeat, AllLiteral, Detect, Table, Map;
    if tokens == [] {
      assert answer + Concat(tokens) == answer;
    } else {
      var extra := Detect(answer + tokens[0], results, Table(results), citations);
      AllLiteralGrows(citations, results, answer, tokens[0]);
      DetectFacts(answer + tokens[0], results, results, Table(results), citations);
      PlayFacts(results, tokens[1..], index + 1, answer + tokens[0], citations + extra);
      Reassociate(answer, tokens[0], Concat(tokens[1..]));
    }
  }

  /** Results with one key carry one text. */
  predicate Agreed(results: seq<Source>) {
    forall i, j | 0 <= i < |results| && 0 <= j < |results| && Key(results[i]) == Key(results[j]) ::
      results[i].text == results[j].text
  }

  /** The citations of a finished answer are literal quotations of every result
      they name, none twice, and the answer is the tokens put together. */
  lemma CitationsAreLiteral(results: seq<Source>, tokens: seq<string>)
    requires results != []
    ensures var events := Stream(results, tokens, Exhausted);
            && events[|events| - 1].Done?
            && var done := events[|events| - 1];
               && done.answer == Concat(tokens)
               && NoRepeat(done.citations)
               && AllLiteral(done.citations, results, done.answer)
               && (Agreed(results) ==>
                     forall i, s | 0 <= i < |done.citations| && s in results
                                   && Key(s) == (done.citations[i].document, done.citations[i].version)
                       :: Quotes(done.citations[i], s, done.answer))
  {
    hide Play, NoRepeat;
    assert NoRepeat([]) by { NothingRepeats(); }
    PlayFacts(results, tokens, 0, "", []);
    assert "" + Concat(tokens) == Concat(tokens);
    var citations := Play(results, tokens, 0, "", []).1;
    if Agreed(results) {
      forall i, s | 0 <= i < |citations| && s in results
                    && Key(s) == (citations[i].document, citations[i].version)
        ensures Quotes(citations[i], s, Concat(tokens))
      {
        assert Literal(citations[i], results, Concat(tokens));
        var t :| t in results && Quotes(citations[i], t, Concat(tokens));
        SameText(results, s, t);
      }
    }
  }

  lemma NothingRepeats()
    ensures NoRepeat([]) && forall results, answer :: AllLiteral([], results, answer)
  {
  }

  lemma SameText(results: seq<Source>, s: Source, t: Source)
    requires Agreed(results) && s in results && t in results && Key(s) == Key(t)
    ensures s.text == t.text
  {
    var i :| 0 <= i < |results| && results[i] == s;
    var j :| 0 <= j < |results| && results[j] == t;
  }

  // ----- which citations there are -----------------------------------------

  /** Some result of the document holds the latest piece of the answer: its last
      30 characters, or all of it if it is shorter but has at least 10. */
  ghost predicate Supported(results: seq<Source>, document: string, answer: string) {
    && |answer| >= 10
    && var piece := answer[if |answer| < 30 then 0 else |answer| - 30..];
       exists s :: s in results && s.id == document && Find(s.text, piece, 0) >= 0
  }

  ghost predicate Has(citations: seq<Citation>, document: string, start: int, end: int) {
    exists i :: 0 <= i < |citations| && citations[i].document == document
                && citations[i].answerStart == start && citations[i].answerEnd == end
  }

  lemma {:induction false} TableHolds(results: seq<Source>, s: Source)
    requires s in results
    ensures Key(s) in Table(results) && Table(results)[Key(s)] in results && Key(Table(results)[Key(s)]) == Key(s)
  {
    var last := |results| - 1;
    if results[last] != s {
      assert s in results[..last];
      TableHolds(results[..last], s);
    }
  }

  /** The retrieval set has each key of the results, with the last result of that
      key. */
  lemma {:induction false} TableIsLast(results: seq<Source>, key: (string, int))
    ensures key in Table(results) <==> exists i :: 0 <= i < |results| && (results[i].id, results[i].version) == key
    ensures key in Table(results) ==>
              exists i :: 0 <= i < |results| && results[i] == Table(results)[key]
                          && (results[i].id, results[i].version) == key
                          && forall j | i < j < |results| :: (results[j].id, results[j].version) != key
  {
    if results != [] {
      var last := |results| - 1;
      var front := results[..last];
      TableIsLast(front, key);
      if Key(results[last]) == key {
        assert Table(results)[key] == results[last];
      } else if key in Table(front) {
        var i :| 0 <= i < |front| && front[i] == Table(front)[key] && Key(front[i]) == key
                 && forall j | i < j < |front| :: (front[j].id, front[j].version) != key;
        assert results[i] == front[i];
        assert forall j | i < j < |results| && j != last :: results[j] == front[j];
      }
      assert forall i | 0 <= i < last :: results[i] == front[i];
    }
  }

  /** A candidate passes the tracker's checks when equal keys carry equal text. */
  lemma CandidateIsAdmissible(answer: string, s: Source, results: seq<Source>)
    requires Agreed(results) && s in results && Candidate(answer, s).Some?
    ensures Admissible(Table(results), Candidate(answer, s).value, |answer|)
  {
    hide Agreed;
    TableHolds(results, s);
    SameText(results, s, Table(results)[Key(s)]);
  }

  lemma {:induction false} DetectCovers(answer: string, rest: seq<Source>, results: seq<Source>,
                                        citations: seq<Citation>, s: Source)
    requires Agreed(results) && s in rest && forall x | x in rest :: x in results
    requires Candidate(answer, s).Some?
    ensures Has(citations + Detect(answer, rest, Table(results), citations), s.id, |answer| - Window(answer), |answer|)
    decreases |rest|
  {
    hide Agreed, Admissible, Table, Window;
    var c := Candidate(answer, s).value;
    var found := Found(DetectOne(answer, rest[0], Table(results), citations));
    var tail := Detect(answer, rest[1..], Table(results), citations + found);
    Reassociate(citations, found, tail);
    if rest[0] == s {
      CandidateIsAdmissible(answer, s, results);
      if Known(citations, c) {
        var i :| 0 <= i < |citations| && SameSpan(citations[i], c);
        assert (citations + found + tail)[i] == citations[i];
      } else {
        assert (citations + found + tail)[|citations|] == c;
      }
    } else {
      assert s in rest[1..];
      DetectCovers(answer, rest[1..], results, citations + found, s);
    }
  }

  lemma {:induction false} PlayCovers(results: seq<Source>, tokens: seq<string>, index: nat, answer: string,
                                      citations: seq<Citation>, k: nat, document: string)
    requires Agreed(results) && 1 <= k <= |tokens|
    requires Supported(results, document, answer + Concat(tokens[..k]))
    ensures var piece := answer + Concat(tokens[..k]);
            Has(Play(results, tokens, index, answer, citations).1, document, |piece| - Window(piece), |piece|)
    decreases |tokens|
  {
    hide Agreed, Detect, Table, Window, Find, Map;
    var extra := Detect(answer + tokens[0], results, Table(results), citations);
    assert tokens[..k][1..] == tokens[1..][..k - 1] && tokens[..k][0] == tokens[0];
    Reassociate(answer, tokens[0], Concat(tokens[1..][..k - 1]));
    if k == 1 {
      assert answer + tokens[0] + "" == answer + tokens[0];
      SupportedIs(results, document, answer + tokens[0]);
      var s :| s in results && s.id == document && Find(s.text, Recent(answer + tokens[0]), 0) >= 0;
      SupportedIsCandidate(answer + tokens[0], s);
      DetectCovers(answer + tokens[0], results, results, citations, s);
      PlayKeeps(results, tokens[1..], index + 1, answer + tokens[0], citations + extra);
    } else {
      PlayCovers(results, tokens[1..], index + 1, answer + tokens[0], citations + extra, k - 1, document);
    }
  }

  lemma SupportedIs(results: seq<Source>, document: string, answer: string)
    ensures Supported(results, document, answer)
            <==> |answer| >= SHORTEST && exists s :: s in results && s.id == document && Find(s.text, Recent(answer), 0) >= 0
    ensures |answer| - Window(answer) == if |answer| < 30 then 0 else |answer| - 30
  {
    hide Find;
  }

  lemma SupportedIsCandidate(answer: string, s: Source)
    requires |answer| >= SHORTEST && Find(s.text, Recent(answer), 0) >= 0
    ensures Candidate(answer, s).Some?
  {
  }

  lemma {:induction false} PlayKeeps(results: seq<Source>, tokens: seq<string>, index: nat, answer: string,
                                     citations: seq<Citation>)
    ensures citations <= Play(results, tokens, index, answer, citations).1
    decreases |tokens|
  {
    hide Detect, Table, Map;
    if tokens != [] {
      var extra := Detect(answer + tokens[0], results, Table(results), citations);
      PlayKeeps(results, tokens[1..], index + 1, answer + tokens[0], citations + extra);
    }
  }

  /** After each token, a document is cited for the latest piece of the answer
      exactly when one of its results holds that piece. */
  lemma CitedIffSupported(results: seq<Source>, tokens: seq<string>, k: nat, document: string)
    requires Agreed(results) && 1 <= k <= |tokens|
    ensures var piece := Concat(tokens[..k]);
            Has(Play(results, tokens, 0, "", []).1, document, if |piece| < 30 then 0 else |piece| - 30, |piece|)
            <==> Supported(results, document, piece)
  {
    hide Play, NoRepeat, Agreed, Find, Has, Supported, AllLiteral, Window, Concat;
    var piece, citations := Concat(tokens[..k]), Play(results, tokens, 0, "", []).1;
    assert "" + piece == piece && "" + Concat(tokens) == Concat(tokens);
    SupportedIs(results, document, piece);
    if Supported(results, document, piece) {
      PlayCovers(results, tokens, 0, "", [], k, document);
    }
    if Has(citations, document, |piece| - Window(piece), |piece|) {
      NothingRepeats();
      PlayFacts(results, tokens, 0, "", []);
      ConcatPrefix(tokens, k);
      CitedIsSupported(results, citations, piece, Concat(tokens[k..]), document);
    }
  }

  /** A citation for the end of a piece of the answer supports the piece. */
  lemma CitedIsSupported(results: seq<Source>, citations: seq<Citation>, piece: string, more: string, document: string)
    requires AllLiteral(citations, results, piece + more)
    requires Has(citations, document, |piece| - Window(piece), |piece|)
    ensures Supported(results, document, piece)
  {
    hide Find, Supported;
    SupportedIs(results, document, piece);
    var i :| 0 <= i < |citations| && citations[i].document == document
             && citations[i].answerStart == |piece| - Window(piece) && citations[i].answerEnd == |piece|;
    var c := citations[i];
    assert Literal(c, results, piece + more);
    var s :| s in results && Quotes(c, s, piece + more);
    assert (piece + more)[c.answerStart..c.answerEnd] == Recent(piece);
    FindIsLeftmost(s.text, Recent(piece), 0, c.sourceStart);
  }

  lemma ConcatPrefix(tokens: seq<string>, k: nat)
    requires k <= |tokens|
    ensures Concat(tokens) == Concat(tokens[..k]) + Concat(tokens[k..])
  {
    ConcatAppend(tokens[..k], tokens[k..]);
    assert tokens[..k] + tokens[k..] == tokens;
  }

  // ----- the order of events -----------------------------------------------

  function TokensOf(events: seq<Event>): seq<Event> {
    if events == [] then [] else (if events[0].Token? then [events[0]] else []) + TokensOf(events[1..])
  }

  function CitationsOf(events: seq<Event>): seq<Citation> {
    if events == [] then [] else (if events[0].Cited? then [events[0].citation] else []) + CitationsOf(events[1..])
  }

  predicate NoneTerminal(events: seq<Event>) { forall i | 0 <= i < |events| :: !events[i].Terminal() }

  /** The tokens as events, numbered from `index`. */
  function Indexed(tokens: seq<string>, index: nat): (r: seq<Event>)
    ensures |r| == |tokens| && forall i | 0 <= i < |tokens| :: r[i] == Token(tokens[i], index + i)
    decreases |tokens|
  {
    if tokens == [] then [] else [Token(tokens[0], index)] + Indexed(tokens[1..], index + 1)
  }

  lemma {:induction false} ProjectionsAppend(a: seq<Event>, b: seq<Event>)
    ensures TokensOf(a + b) == TokensOf(a) + TokensOf(b)
    ensures CitationsOf(a + b) == CitationsOf(a) + CitationsOf(b)
    decreases |a|
  {
    if a == [] {
      assert a + b == b;
    } else {
      assert (a + b)[1..] == a[1..] + b && (a + b)[0] == a[0];
      ProjectionsAppend(a[1..], b);
      Reassociate(if a[0].Token? then [a[0]] else [], TokensOf(a[1..]), TokensOf(b));
      Reassociate(if a[0].Cited? then [a[0].citation] else [], CitationsOf(a[1..]), CitationsOf(b));
    }
  }

  lemma {:induction false} CitedEventsAre(extra: seq<Citation>)
    ensures var events := Map(CitedEvent, extra);
            TokensOf(events) == [] && CitationsOf(events) == extra && NoneTerminal(events)
  {
    if extra != [] {
      CitedEventsAre(extra[1..]);
      var events := Map(CitedEvent, extra);
      assert events[1..] == Map(CitedEvent, extra[1..]) && events[0] == Cited(extra[0]);
      assert extra == [extra[0]] + extra[1..];
    }
  }

  lemma TokenEventsAre(token: string, index: nat, extra: seq<Citation>)
    ensures var events := TokenEvents(token, index, extra);
            && TokensOf(events) == [Token(token, index)] && CitationsOf(events) == extra && NoneTerminal(events)
  {
    hide Map, TokensOf, CitationsOf;
    CitedEventsAre(extra);
    OneTokenIs(token, index);
    ProjectionsAppend([Token(token, index)], Map(CitedEvent, extra));
    assert [] + extra == extra;
  }

  lemma OneTokenIs(token: string, index: nat)
    ensures TokensOf([Token(token, index)]) == [Token(token, index)]
    ensures CitationsOf([Token(token, index)]) == []
  {
    assert [Token(token, index)][1..] == [];
  }

  lemma {:induction false} PlayEvents(results: seq<Source>, tokens: seq<string>, index: nat, answer: string,
                                      citations: seq<Citation>)
    ensures var (events, all) := Play(results, tokens, index, answer, citations);
            && TokensOf(events) == Indexed(tokens, index)
            && citations + CitationsOf(events) == all
            && NoneTerminal(events)
    decreases |tokens|
  {
    hide Detect, Table, TokenEvents, TokensOf, CitationsOf;
    if tokens == [] {
      NoProjections();
      assert citations + [] == citations;
    } else {
      var extra := Detect(answer + tokens[0], results, Table(results), citations);
      PlayEvents(results, tokens[1..], index + 1, answer + tokens[0], citations + extra);
      var rest := Play(results, tokens[1..], index + 1, answer + tokens[0], citations + extra).0;
      TokenEventsAre(tokens[0], index, extra);
      ProjectionsAppend(TokenEvents(tokens[0], index, extra), rest);
      Reassociate(citations, extra, CitationsOf(rest));
    }
  }

  lemma NoProjections()
    ensures TokensOf([]) == [] && CitationsOf([]) == []
  {
  }

  /** Every stream has one terminal event, last; before it the tokens come in
      order, numbered from 0, and on success the last event repeats all the
      citations that were sent. Without results there is only an error. */
  lemma OneTerminalLast(results: seq<Source>, tokens: seq<string>, ending: Ending)
    ensures var events := Stream(results, tokens, ending);
            && events != []
            && var last := events[|events| - 1];
               && last.Terminal() && NoneTerminal(events[..|events| - 1])
               && TokensOf(events) == (if results == [] then [] else Indexed(tokens, 0))
               && (last.Done? <==> results != [] && ending == Exhausted)
               && (last.Done? ==> last.answer == Concat(tokens) && last.citations == CitationsOf(events))
               && (results == [] ==> events == [Failed(NoSourcesAvailable)])
  {
    hide Play, Concat, TokensOf, CitationsOf;
    if results == [] {
      NoTokens(Failed(NoSourcesAvailable));
    } else {
      PlayEvents(results, tokens, 0, "", []);
      var (played, citations) := Play(results, tokens, 0, "", []);
      var last := Closing(ending, Concat(tokens), citations);
      NoTokens(last);
      ProjectionsAppend(played, [last]);
      var events := Stream(results, tokens, ending);
      assert events[..|events| - 1] == played;
      assert TokensOf(played) + [] == TokensOf(played) && CitationsOf(played) + [] == CitationsOf(played);
      assert [] + CitationsOf(played) == CitationsOf(played);
    }
  }

  /** The last event tells how the stream ended: a timeout, an error of the model
      or any other failure each have their own code, and a lack of sources is
      reported if and only if there are no results. */
  lemma EndingIsTold(results: seq<Source>, tokens: seq<string>, ending: Ending)
    ensures var events := Stream(results, tokens, ending);
            && events != []
            && var last := events[|events| - 1];
               && (Failed(NoSourcesAvailable) in events <==> results == [])
               && (last == Failed(StreamTimeout) <==> results != [] && ending == TimedOut)
               && (last == Failed(ModelError) <==> results != [] && ending == ModelFailed)
               && (last == Failed(InternalError) <==> results != [] && ending == OtherFailure)
               && (last.Done? <==> results != [] && ending == Exhausted)
  {
    hide Play, Concat, TokensOf, CitationsOf;
    OneTerminalLast(results, tokens, ending);
    var events := Stream(results, tokens, ending);
    forall i | 0 <= i < |events| - 1 ensures !events[i].Terminal() {
      assert events[..|events| - 1][i] == events[i];
    }
  }

  lemma NoTokens(e: Event)
    requires e.Terminal()
    ensures TokensOf([e]) == [] && CitationsOf([e]) == []
  {
    assert [e][1..] == [];
  }

  /** No citation runs ahead of the stream: it ends where the tokens sent before
      it end. */
  lemma {:induction false} CitationsFollowTokens(results: seq<Source>, tokens: seq<string>, index: nat, answer: string,
                                                 citations: seq<Citation>, k: nat)
    requires NoRepeat(citations) && AllLiteral(citations, results, answer)
    requires k < |Play(results, tokens, index, answer, citations).0|
    ensures var events := Play(results, tokens, index, answer, citations).0;
            events[k].Cited? ==> events[k].citation.answerEnd == |answer| + |SentText(events[..k])|
    decreases |tokens|
  {
    hide Detect, Table, NoRepeat, AllLiteral;
    var extra := Detect(answer + tokens[0], results, Table(results), citations);
    var now := TokenEvents(tokens[0], index, extra);
    var rest := Play(results, tokens[1..], index + 1, answer + tokens[0], citations + extra).0;
    AllLiteralGrows(citations, results, answer, tokens[0]);
    DetectFacts(answer + tokens[0], results, results, Table(results), citations);
    if k < |now| {
      assert (now + rest)[..k] == now[..k];
      if k > 0 {
        assert now[..k] == [now[0]] + Map(CitedEvent, extra)[..k - 1];
        CitedTextIsEmpty(Map(CitedEvent, extra)[..k - 1]);
        SentTextAppend([now[0]], Map(CitedEvent, extra)[..k - 1]);
        OneTokenText(now[0]);
      }
    } else {
      CitationsFollowTokens(results, tokens[1..], index + 1, answer + tokens[0], citations + extra, k - |now|);
      assert (now + rest)[..k] == now + rest[..k - |now|];
      SentTextAppend(now, rest[..k - |now|]);
      SentTextAppend([now[0]], Map(CitedEvent, extra));
      CitedTextIsEmpty(Map(CitedEvent, extra));
      OneTokenText(now[0]);
    }
  }

  /** The text of the tokens among the events. */
  function SentText(events: seq<Event>): string {
    if events == [] then "" else (if events[0].Token? then events[0].text else "") + SentText(events[1..])
  }

  lemma {:induction false} SentTextAppend(a: seq<Event>, b: seq<Event>)
    ensures SentText(a + b) == SentText(a) + SentText(b)
    decreases |a|
  {
    if a == [] {
      assert a + b == b;
    } else {
      assert (a + b)[1..] == a[1..] + b && (a + b)[0] == a[0];
      SentTextAppend(a[1..], b);
      Reassociate(if a[0].Token? then a[0].text else "", SentText(a[1..]), SentText(b));
    }
  }

  lemma OneTokenText(e: Event)
    requires e.Token?
    ensures SentText([e]) == e.text
  {
    assert [e][1..] == [];
    assert e.text + "" == e.text;
  }

  lemma {:induction false} CitedTextIsEmpty(events: seq<Event>)
    requires forall i | 0 <= i < |events| :: events[i].Cited?
    ensures SentText(events) == ""
    decreases |events|
  {
    if events != [] {
      CitedTextIsEmpty(events[1..]);
    }
  }
}
