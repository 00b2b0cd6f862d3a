/** What a finished job tells: its report, counters and last event against its own
    log, why it stopped or failed, and what each step contributes. */
module ResearchReports {
  import opened Text
  import opened ResearchEvents
  import opened ResearchJob

  // ----- the report against the log ----------------------------------------

  /** The texts, citations and counters are those of the log, in its order. */
  ghost predicate MadeFrom(report: Report, steps: nat, calls: nat, nothing: string, log: seq<Body>) {
    && report.text == (if ChunkTexts(log) == [] then nothing else Join(ChunkTexts(log), "\n\n"))
    && Map(CitationSpan, report.citations) == CitedSpans(log)
    && steps == Finishes(log) && calls == Started(log)
  }

  lemma FramedTells(first: Body, p: Progress, last: Body)
    requires first.PlanUpdated? && last.Terminal() && LogTells(p)
    ensures var log := [first] + p.log + [last];
            && CitedSpans(log) == Map(CitationSpan, p.citations) && ChunkTexts(log) == p.chunks
            && Started(log) == p.calls && Finishes(log) == p.steps
    ensures CitedSpans([first] + p.log) == Map(CitationSpan, p.citations) && ChunkTexts([first] + p.log) == p.chunks
  {
    hide CitedSpans, ChunkTexts, OrdinalsFrom, Started, Finishes, Map;
    OneBody(first, 0);
    OneBody(last, 0);
    LogAppend([first], p.log, 0);
    LogAppend([first] + p.log, [last], 0);
    var spans := Map(CitationSpan, p.citations);
    assert [] + spans == spans && spans + [] == spans && [] + p.chunks == p.chunks && p.chunks + [] == p.chunks;
  }

  /** The fields a schema may require of the default payload. */
  predicate SchemaFits(schema: Option<Schema>) {
    schema.Some? && schema.value.kind == "object" ==>
      forall i | 0 <= i < |schema.value.required| :: schema.value.required[i] in {"text", "citations_count"}
  }

  lemma {:induction false} MissingIsFirst(required: seq<string>)
    ensures var missing := MissingField(required);
            if missing.None? then forall i | 0 <= i < |required| :: required[i] in {"text", "citations_count"}
            else exists i :: 0 <= i < |required| && required[i] == missing.value
                             && missing.value !in {"text", "citations_count"}
                             && forall j | 0 <= j < i :: required[j] in {"text", "citations_count"}
  {
    if required != [] && (required[0] == "text" || required[0] == "citations_count") {
      MissingIsFirst(required[1..]);
      if MissingField(required[1..]).Some? {
        var i :| 0 <= i < |required[1..]| && required[1..][i] == MissingField(required).value
                 && forall j | 0 <= j < i :: required[1..][j] in {"text", "citations_count"};
        assert required[i + 1] == MissingField(required).value;
      }
    }
  }

  /** A schema is met, or the message names the first field that is missing. */
  lemma SchemaErrorNamesField(schema: Option<Schema>)
    ensures SchemaError(schema).None? <==> SchemaFits(schema)
    ensures SchemaError(schema).Some? ==>
              exists i :: 0 <= i < |schema.value.required|
                && SchemaError(schema).value == "Report payload missing required field: " + schema.value.required[i]
                && schema.value.required[i] !in {"text", "citations_count"}
                && forall j | 0 <= j < i :: schema.value.required[j] in {"text", "citations_count"}
  {
    hide MissingField;
    if schema.Some? { MissingIsFirst(schema.value.required); }
  }

  /** A job succeeds if and only if it is planned, its plan runs to the end and its
      schema is met. Its report then is whole: the texts of the log's chunks joined
      by blank lines, or a fixed sentence if there are none, and the log's
      citations; and its counters are the steps completed and started in the log. */
  lemma SuccessIsReported(job: string, schema: Option<Schema>, planned: Planned, s: Setting, newId: nat -> string)
    ensures var (outcome, log) := JobOutcome(job, schema, planned, s, newId);
            && (outcome.state == Succeeded <==>
                  planned.Plan? && Walk(s, planned.steps, 0, NO_PROGRESS).1.Completed? && SchemaFits(schema))
            && (outcome.state == Succeeded ==>
                  && outcome.report.Some? && outcome.report.value.job == job && !outcome.report.value.partial
                  && MadeFrom(outcome.report.value, outcome.steps, outcome.calls, "Research complete.", log)
                  && log[|log| - 1] == Finished(job))
  {
    hide Walk, RebuiltReport, SchemaError, Map, LogTells, Join;
    SchemaErrorNamesField(schema);
    if planned.Plan? {
      StartTells();
      WalkFacts(s, planned.steps, 0, NO_PROGRESS);
      var (p, ending) := Walk(s, planned.steps, 0, NO_PROGRESS);
      FramedTells(PlanUpdated(Map(StepId, planned.steps)), p, Finished(job));
    }
  }

  /** A job that its budget stops reports what the log holds, as partial, with the
      steps and calls made until then, and its last event says which budget. */
  lemma StopIsReported(job: string, schema: Option<Schema>, planned: Planned, s: Setting, newId: nat -> string)
    ensures var (outcome, log) := JobOutcome(job, schema, planned, s, newId);
            && (outcome.state == BudgetExceeded <==>
                  planned.Plan? && Walk(s, planned.steps, 0, NO_PROGRESS).1.Stopped?)
            && (outcome.state == BudgetExceeded ==>
                  && outcome.report.Some? && outcome.report.value.job == job && outcome.report.value.partial
                  && MadeFrom(outcome.report.value, outcome.steps, outcome.calls, "", log)
                  && (forall i | 0 <= i < |outcome.report.value.citations| ::
                        outcome.report.value.citations[i].id == newId(i))
                  && log[|log| - 1].Error? && log[|log| - 1].message.Budget?
                  && StoppedBy(log[|log| - 1].message.stop, s, outcome.steps))
  {
    hide Walk, SchemaError, Map, LogTells, Join, ReportText;
    if planned.Plan? {
      StartTells();
      WalkFacts(s, planned.steps, 0, NO_PROGRESS);
      var (p, ending) := Walk(s, planned.steps, 0, NO_PROGRESS);
      if ending.Stopped? {
        var first, last := PlanUpdated(Map(StepId, planned.steps)), Error("budget_exceeded", Budget(ending.stop));
        FramedTells(first, p, last);
        IdentifiedSpans(CitedSpans([first] + p.log), newId);
        CheckIsStop(s, p.steps, ending.stop);
      }
    }
  }

  /** Before a step, the budget that is spent: steps before time before calls, each
      with its own count and limit, time in whole milliseconds. */
  predicate StoppedBy(stop: Stop, s: Setting, k: nat) {
    var b, elapsed := s.budgets, s.clock(k) - s.start;
    match stop.reason
    case MaxSteps => k >= b.maxSteps && stop.current == k && stop.limit == b.maxSteps
    case MaxDuration =>
      && k < b.maxSteps && s.start > 0.0 && elapsed >= b.maxDurationMs as real && stop.limit == b.maxDurationMs
      && (elapsed >= 0.0 ==> stop.current as real <= elapsed < stop.current as real + 1.0)
      && (elapsed < 0.0 ==> stop.current as real - 1.0 < elapsed <= stop.current as real)
    case MaxToolCalls =>
      && k < b.maxSteps && !(s.start > 0.0 && elapsed >= b.maxDurationMs as real)
      && k >= b.maxToolCalls && stop.current == k && stop.limit == b.maxToolCalls
  }

  lemma CheckIsStop(s: Setting, k: nat, stop: Stop)
    requires CheckOf(s.budgets, k, k, s.start, s.clock(k)) == Some(stop)
    ensures StoppedBy(stop, s, k)
  {
  }

  /** A job fails if and only if planning fails, a step raises, or the schema is
      not met. Without a plan there is no report, otherwise an empty partial one;
      its counters stay zero, and its last event carries the message. */
  lemma FailureIsReported(job: string, schema: Option<Schema>, planned: Planned, s: Setting, newId: nat -> string)
    ensures var (outcome, log) := JobOutcome(job, schema, planned, s, newId);
            && (outcome.state == Failed <==>
                  planned.Plan? ==>
                    var ending := Walk(s, planned.steps, 0, NO_PROGRESS).1;
                    ending.Raised? || (ending.Completed? && !SchemaFits(schema)))
            && (outcome.state == Failed ==>
                  && outcome.steps == 0 && outcome.calls == 0
                  && outcome.report == (if planned.PlanFailed? then None else Some(Report(job, "", [], true)))
                  && log[|log| - 1] == Error("internal_error", Says(FailureMessage(schema, planned, s))))
  {
    hide Walk, RebuiltReport, SchemaError, Map, ReportText;
    SchemaErrorNamesField(schema);
  }

  /** The exception's message, or the schema's. */
  function FailureMessage(schema: Option<Schema>, planned: Planned, s: Setting): string {
    if planned.PlanFailed? then planned.message
    else
      var ending := Walk(s, planned.steps, 0, NO_PROGRESS).1;
      if ending.Raised? then ending.message
      else if SchemaError(schema).Some? then SchemaError(schema).value else ""
  }

  // ----- what each step contributes ----------------------------------------

  function First(s: string, n: nat): string { s[..if |s| < n then |s| else n] }

  /** A retrieval adds its documents; a reading cites the beginning of each of the
      last five documents and quotes 100 characters of it, one line each; the two
      other kinds only write a text. */
  lemma StepContribution(step: PlanStep, docs: seq<Doc>, answer: Answer)
    requires answer.Answer?
    ensures var r := ResultOf(step, docs, answer);
            var n := if |docs| < 5 then |docs| else 5;
            && r.docs == (if step.kind == Retrieval then answer.docs else [])
            && |r.citations| == (if step.kind == Read then n else 0)
            && (forall i | 0 <= i < |r.citations| ::
                  var d := docs[|docs| - n + i];
                  r.citations[i] == Citation(answer.newId(i), Span(d.id, d.version, 0, 50, 0, |First(d.text, 50)|)))
            && match step.kind
               case SubQuery =>
                 r.text == "Identified sub-queries for: "
                           + First(if step.goal.Some? then step.goal.value else step.description, 100)
               case Retrieval => r.text == ""
               case Read => if n == 0 then r.text == "No documents to analyze."
                            else exists lines :: Quoted(docs[|docs| - n..], lines) && r.text == Join(lines, "\n")
               case Synthesis =>
                 r.text == "Based on the research conducted, "
                           + (if |docs| == 0 then "no relevant documents were found."
                              else "analysis of " + NatText(|docs|) + " documents reveals the following findings.")
  {
    hide Join, NatText, Quoted;
    if step.kind == Read && docs != [] { LinesQuote(LastDocs(docs)); }
  }

  lemma LinesQuote(docs: seq<Doc>)
    ensures Quoted(docs, Map(DocLine, docs))
  {
  }

  /** A line for each document. */
  predicate Quoted(docs: seq<Doc>, lines: seq<string>) {
    |lines| == |docs|
    && forall i | 0 <= i < |docs| :: lines[i] == "From " + docs[i].title + ": " + First(docs[i].text, 100)
  }

  // ----- the order of the log ----------------------------------------------

  /** Between steps, in the k-th step, or in it after its text. */
  datatype Phase = Between(k: nat) | In(k: nat) | Wrote(k: nat)

  /** What an event does to the phase, if it may come there. */
  function Advance(phase: Phase, body: Body, plan: seq<PlanStep>): Option<Phase> {
    if phase.k >= |plan| then None
    else
      match body
      case StepStarted(id) => if phase.Between? && id == plan[phase.k].id then Some(In(phase.k)) else None
      case CitationFound(_) => if phase.In? then Some(phase) else None
      case ReportChunk(_, _) => if phase.In? then Some(Wrote(phase.k)) else None
      case StepCompleted(id) => if !phase.Between? && id == plan[phase.k].id then Some(Between(phase.k + 1)) else None
      case _ => None
  }

  function Through(phase: Phase, log: seq<Body>, plan: seq<PlanStep>): Option<Phase>
    decreases |log|
  {
    if log == [] then Some(phase)
    else if Advance(phase, log[0], plan).None? then None
    else Through(Advance(phase, log[0], plan).value, log[1..], plan)
  }

  lemma {:induction false} ThroughAppend(phase: Phase, a: seq<Body>, b: seq<Body>, plan: seq<PlanStep>)
    ensures Through(phase, a + b, plan)
            == if Through(phase, a, plan).None? then None else Through(Through(phase, a, plan).value, b, plan)
    decreases |a|
  {
    hide Advance;
    if a == [] {
      assert a + b == b;
    } else {
      assert (a + b)[1..] == a[1..] + b && (a + b)[0] == a[0];
      if Advance(phase, a[0], plan).Some? { ThroughAppend(Advance(phase, a[0], plan).value, a[1..], b, plan); }
    }
  }

  lemma ThroughOne(phase: Phase, body: Body, plan: seq<PlanStep>)
    ensures Through(phase, [body], plan) == Advance(phase, body, plan)
  {
    assert [body][1..] == [];
  }

  lemma {:induction false} CitationsStay(k: nat, citations: seq<Citation>, plan: seq<PlanStep>)
    requires k < |plan|
    ensures Through(In(k), Map(CitationBody, citations), plan) == Some(In(k))
  {
    if citations != [] {
      assert Map(CitationBody, citations)[1..] == Map(CitationBody, citations[1..]);
      CitationsStay(k, citations[1..], plan);
    }
  }

  lemma StepGoesThrough(k: nat, r: ToolResult, ordinal: nat, plan: seq<PlanStep>)
    requires k < |plan|
    ensures Through(In(k), ResultBodies(plan[k], r, ordinal), plan) == Some(Between(k + 1))
  {
    hide Map, Through;
    var cited, chunk, done := Map(CitationBody, r.citations), ChunkBodies(r.text, ordinal), [StepCompleted(plan[k].id)];
    CitationsStay(k, r.citations, plan);
    ThroughAppend(In(k), cited, chunk, plan);
    ThroughAppend(In(k), cited + chunk, done, plan);
    if r.text == "" {
      assert cited + chunk == cited;
    } else {
      ThroughOne(In(k), ReportChunk(r.text, ordinal), plan);
    }
    ThroughOne(In(k), done[0], plan);
    ThroughOne(Wrote(k), done[0], plan);
  }

  lemma {:induction false} WalkGoesThrough(s: Setting, plan: seq<PlanStep>, i: nat, p: Progress)
    requires i <= |plan| && p.steps == i && Through(Between(0), p.log, plan) == Some(Between(i))
    ensures var (q, ending) := Walk(s, plan, i, p);
            Through(Between(0), q.log, plan) == Some(if ending.Raised? then In(q.steps) else Between(q.steps))
    decreases |plan| - i
  {
    hide CheckOf, ResultOf, Through, ResultBodies;
    if i < |plan| {
      ThroughAppend(Between(0), p.log, [StepStarted(plan[i].id)], plan);
      ThroughOne(Between(i), StepStarted(plan[i].id), plan);
      if s.answers(i).Answer? {
        var begun, r := Begun(p, plan[i]), ResultOf(plan[i], p.docs, s.answers(i));
        StepGoesThrough(i, r, |begun.chunks| + 1, plan);
        ThroughAppend(Between(0), begun.log, ResultBodies(plan[i], r, |begun.chunks| + 1), plan);
        WalkGoesThrough(s, plan, i + 1, Ended(begun, plan[i], r));
      }
    }
  }

  /** The log of a planned job lists the ids of its plan, then its steps in order,
      each with its id before and after its citations and its one text, then the
      last event; a step that raises is left open, and no other. */
  lemma LogIsInOrder(job: string, schema: Option<Schema>, plan: seq<PlanStep>, s: Setting, newId: nat -> string)
    ensures var log := JobOutcome(job, schema, Plan(plan), s, newId).1;
            var (q, ending) := Walk(s, plan, 0, NO_PROGRESS);
            && |log| >= 2 && log[0].PlanUpdated? && |log[0].steps| == |plan|
            && (forall i | 0 <= i < |plan| :: log[0].steps[i] == plan[i].id)
            && Through(Between(0), log[1..|log| - 1], plan) == Some(if ending.Raised? then In(q.steps) else Between(q.steps))
  {
    hide Walk, RebuiltReport, SchemaError, ReportText, Through;
    assert Through(Between(0), [], plan) == Some(Between(0)) by { ThroughNothing(plan); }
    WalkGoesThrough(s, plan, 0, NO_PROGRESS);
    var log, q := JobOutcome(job, schema, Plan(plan), s, newId).1, Walk(s, plan, 0, NO_PROGRESS).0;
    assert log[1..|log| - 1] == q.log;
  }

  lemma ThroughNothing(plan: seq<PlanStep>)
    ensures Through(Between(0), [], plan) == Some(Between(0))
  {
  }
}
