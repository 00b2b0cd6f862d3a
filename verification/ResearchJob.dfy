/** One research job: its plan is run step by step under budgets, everything it
    finds goes to the event log, and a job cut short gets its report back from
    that log. */
module ResearchJob {
  import opened Text
  import opened ResearchEvents

  datatype Kind = SubQuery | Retrieval | Read | Synthesis

  datatype PlanStep = PlanStep(id: string, kind: Kind, description: string, goal: Option<string>)

  datatype Doc = Doc(id: string, version: int, title: string, text: string)

  datatype Citation = Citation(id: string, span: Span)

  /** What the outside contributes to a step: retrieved documents and fresh ids,
      or an exception. */
  datatype Answer = Answer(docs: seq<Doc>, newId: nat -> string) | Raises(message: string)

  datatype ToolResult = ToolResult(docs: seq<Doc>, citations: seq<Citation>, text: string)

  datatype Budgets = Budgets(maxSteps: int, maxDurationMs: int, maxToolCalls: int)

  datatype State = Queued | Planning | Running | Succeeded | Failed | BudgetExceeded

  /** The only schema parts that are looked at. */
  datatype Schema = Schema(kind: string, required: seq<string>)

  datatype Report = Report(job: string, text: string, citations: seq<Citation>, partial: bool)

  // ----- budgets -----------------------------------------------------------

  /** int() of a float. */
  function Trunc(x: real): int { if x >= 0.0 then x.Floor else -((-x).Floor) }

  function Elapsed(start: real, now: real): real { if start == 0.0 then 0.0 else now - start }

  function CheckOf(b: Budgets, steps: nat, calls: nat, start: real, now: real): Option<Stop> {
    if steps >= b.maxSteps then Some(Stop(MaxSteps, steps, b.maxSteps))
    else if start > 0.0 && Elapsed(start, now) >= b.maxDurationMs as real
    then Some(Stop(MaxDuration, Trunc(Elapsed(start, now)), b.maxDurationMs))
    else if calls >= b.maxToolCalls then Some(Stop(MaxToolCalls, calls, b.maxToolCalls))
    else None
  }

  class BudgetTracker {
    const config: Budgets
    var stepsUsed: nat
    var toolCallsUsed: nat
    var startTimeMs: real

    constructor (config: Budgets)
      ensures this.config == config && stepsUsed == 0 && toolCallsUsed == 0 && startTimeMs == 0.0
    {
      this.config, stepsUsed, toolCallsUsed, startTimeMs := config, 0, 0, 0.0;
    }

    method Start(now: real)
      modifies this`startTimeMs
      ensures startTimeMs == now
    {
      startTimeMs := now;
    }

    method Check(now: real) returns (stop: Option<Stop>)
      ensures stop == CheckOf(config, stepsUsed, toolCallsUsed, startTimeMs, now)
    {
      if stepsUsed >= config.maxSteps { return Some(Stop(MaxSteps, stepsUsed, config.maxSteps)); }
      var elapsed := if startTimeMs == 0.0 then 0.0 else now - startTimeMs;
      if startTimeMs > 0.0 && elapsed >= config.maxDurationMs as real {
        return Some(Stop(MaxDuration, Trunc(elapsed), config.maxDurationMs));
      }
      if toolCallsUsed >= config.maxToolCalls {
        return Some(Stop(MaxToolCalls, toolCallsUsed, config.maxToolCalls));
      }
      stop := None;
    }

    method RecordStep()
      modifies this`stepsUsed
      ensures stepsUsed == old(stepsUsed) + 1
    {
      stepsUsed := stepsUsed + 1;
    }

    method RecordToolCall()
      modifies this`toolCallsUsed
      ensures toolCallsUsed == old(toolCallsUsed) + 1
    {
      toolCallsUsed := toolCallsUsed + 1;
    }
  }

  // ----- steps -------------------------------------------------------------

  function Clip(s: string, n: nat): string { if |s| <= n then s else s[..n] }

  function LastDocs(docs: seq<Doc>): seq<Doc> { if |docs| <= 5 then docs else docs[|docs| - 5..] }

  function DocSpan(d: Doc): Span { Span(d.id, d.version, 0, 50, 0, if |d.text| < 50 then |d.text| else 50) }

  function DocLine(d: Doc): string { "From " + d.title + ": " + Clip(d.text, 100) }

  function DocCitations(docs: seq<Doc>, newId: nat -> string): (r: seq<Citation>)
    ensures |r| == |docs|
    ensures forall i | 0 <= i < |docs| :: r[i] == Citation(newId(i), DocSpan(docs[i]))
  {
    seq(|docs|, i requires 0 <= i < |docs| => Citation(newId(i), DocSpan(docs[i])))
  }

  function SynthesisText(count: nat): string {
    "Based on the research conducted, "
    + if count > 0 then "analysis of " + NatText(count) + " documents reveals the following findings."
      else "no relevant documents were found."
  }

  /** The result of one tool call, given the documents so far. */
  function ResultOf(step: PlanStep, context: seq<Doc>, answer: Answer): ToolResult
    requires answer.Answer?
  {
    match step.kind
    case SubQuery =>
      ToolResult([], [], "Identified sub-queries for: "
                         + Clip(if step.goal.Some? then step.goal.value else step.description, 100))
    case Retrieval => ToolResult(answer.docs, [], "")
    case Read =>
      var docs := LastDocs(context);
      ToolResult([], DocCitations(docs, answer.newId),
                 if docs == [] then "No documents to analyze." else Join(Map(DocLine, docs), "\n"))
    case Synthesis => ToolResult([], [], SynthesisText(|context|))
  }

  /** What `execute_plan` has gathered, and the events it has logged. */
  datatype Progress = Progress(citations: seq<Citation>, chunks: seq<string>, docs: seq<Doc>,
                               steps: nat, calls: nat, log: seq<Body>)

  const NO_PROGRESS := Progress([], [], [], 0, 0, [])

  datatype Ending = Completed | Stopped(stop: Stop) | Raised(message: string)

  function CitationBody(c: Citation): Body { CitationFound(c.span) }

  function Begun(p: Progress, step: PlanStep): Progress {
    p.(calls := p.calls + 1, log := p.log + [StepStarted(step.id)])
  }

  function ChunkBodies(text: string, ordinal: nat): seq<Body> {
    if text == "" then [] else [ReportChunk(text, ordinal)]
  }

  function ResultBodies(step: PlanStep, r: ToolResult, ordinal: nat): seq<Body> {
    Map(CitationBody, r.citations) + ChunkBodies(r.text, ordinal) + [StepCompleted(step.id)]
  }

  function Ended(p: Progress, step: PlanStep, r: ToolResult): Progress {
    Progress(p.citations + r.citations,
             if r.text == "" then p.chunks else p.chunks + [r.text],
             p.docs + r.docs,
             p.steps + 1,
             p.calls,
             p.log + ResultBodies(step, r, |p.chunks| + 1))
  }

  /** What is fixed while a job runs: its budgets, when it started, the clock at
      each check, and what each step gets from outside. */
  datatype Setting = Setting(budgets: Budgets, start: real, clock: nat -> real, answers: nat -> Answer)

  /** Running the plan from its i-th step. */
  function Walk(s: Setting, plan: seq<PlanStep>, i: nat, p: Progress): (Progress, Ending)
    requires i <= |plan|
    decreases |plan| - i
  {
    if i == |plan| then (p, Completed)
    else
      var stop := CheckOf(s.budgets, p.steps, p.calls, s.start, s.clock(i));
      if stop.Some? then (p, Stopped(stop.value))
      else
        var begun := Begun(p, plan[i]);
        if s.answers(i).Raises? then (begun, Raised(s.answers(i).message))
        else Walk(s, plan, i + 1, Ended(begun, plan[i], ResultOf(plan[i], p.docs, s.answers(i))))
  }

  function ReportText(chunks: seq<string>): string {
    if chunks == [] then "Research complete." else Join(chunks, "\n\n")
  }

  // ----- the log of one job ------------------------------------------------

  /** The events of a job that emitted these bodies and nothing else. */
  function Numbered(job: string, bodies: seq<Body>): (events: seq<Event>)
    ensures |events| == |bodies|
    ensures forall i | 0 <= i < |bodies| :: events[i] == Event(i + 1, job, bodies[i])
  {
    seq(|bodies|, i requires 0 <= i < |bodies| => Event(i + 1, job, bodies[i]))
  }

  /** The whole log and the counters at some moment. */
  datatype Base = Base(log: Log, counters: map<string, nat>)

  /** Since `before`, the job has emitted these bodies and the logs and counters
      of the other jobs are as they were. */
  ghost predicate Holds(now: Base, before: Base, job: string, bodies: seq<Body>) {
    && Buffer(now.log, job) == Numbered(job, bodies)
    && Counter(now.counters, job) == |bodies|
    && forall other | other != job ::
         && Buffer(now.log, other) == Buffer(before.log, other)
         && Counter(now.counters, other) == Counter(before.counters, other)
  }

  /** One emitter's next event is never refused. */
  lemma NextIsTaken(b: Base, before: Base, job: string, bodies: seq<Body>, body: Body, now: real)
    requires Holds(b, before, job, bodies)
    ensures var e := Next(b.counters, job, body);
            && AppendTo(b.log, e, now).1
            && Holds(Base(AppendTo(b.log, e, now).0, b.counters[job := e.id]), before, job, bodies + [body])
  {
    var e := Next(b.counters, job, body);
    assert Numbered(job, bodies + [body]) == Numbered(job, bodies) + [e];
  }

  class Executor {
    const emitter: EventEmitter
    const budget: BudgetTracker

    constructor (emitter: EventEmitter, budget: BudgetTracker)
      ensures this.emitter == emitter && this.budget == budget
    {
      this.emitter, this.budget := emitter, budget;
    }

    /** `_execute_step`. */
    method ExecuteStep(step: PlanStep, context: seq<Doc>, answer: Answer)
        returns (result: ToolResult, raised: Option<string>)
      modifies budget`toolCallsUsed
      ensures budget.toolCallsUsed == old(budget.toolCallsUsed) + 1
      ensures answer.Raises? ==> raised == Some(answer.message)
      ensures answer.Answer? ==> raised == None && result == ResultOf(step, context, answer)
    {
      hide Join, Map, NatText;
      budget.RecordToolCall();
      if answer.Raises? { return ToolResult([], [], ""), Some(answer.message); }
      raised := None;
      match step.kind
      case SubQuery =>
        var subQuery := if step.goal.Some? then step.goal.value else step.description;
        result := ToolResult([], [], "Identified sub-queries for: " + Clip(subQuery, 100));
      case Retrieval =>
        result := ToolResult(answer.docs, [], "");
      case Read =>
        result := ReadDocs(context, answer.newId);
      case Synthesis =>
        result := ToolResult([], [], SynthesisText(|context|));
    }

    method ReadDocs(context: seq<Doc>, newId: nat -> string) returns (result: ToolResult)
      ensures var docs := LastDocs(context);
              result == ToolResult([], DocCitations(docs, newId),
                                   if docs == [] then "No documents to analyze." else Join(Map(DocLine, docs), "\n"))
    {
      hide Join, Map, DocLine, DocSpan;
      var docs := LastDocs(context);
      var citations, parts := [], [];
      for i := 0 to |docs|
        invariant |citations| == i && forall k | 0 <= k < i :: citations[k] == Citation(newId(k), DocSpan(docs[k]))
        invariant parts == Map(DocLine, docs[..i])
      {
        citations := citations + [Citation(newId(i), DocSpan(docs[i]))];
        MapNext(DocLine, docs, i);
        parts := parts + [DocLine(docs[i])];
      }
      assert docs[..|docs|] == docs;
      assert citations == DocCitations(docs, newId);
      result := ToolResult([], citations, if |parts| > 0 then Join(parts, "\n") else "No documents to analyze.");
    }

    /** The events of a step that went through. */
    method EmitResult(job: string, step: PlanStep, result: ToolResult, ordinal: nat, now: real,
                      ghost before: Base, ghost log: seq<Body>)
      requires Logged(emitter, before, job, log)
      modifies emitter, emitter.buffer
      ensures Logged(emitter, before, job, log + ResultBodies(step, result, ordinal))
    {
      hide Logged, Map, CitationBody;
      ghost var sent := log;
      for k := 0 to |result.citations|
        invariant Logged(emitter, before, job, sent)
        invariant sent == log + Map(CitationBody, result.citations[..k])
      {
        EmitBody(emitter, job, CitationFound(result.citations[k].span), now, before, sent);
        MapNext(CitationBody, result.citations, k);
        CitationBodyIs(result.citations[k]);
        sent := sent + [CitationFound(result.citations[k].span)];
      }
      assert result.citations[..|result.citations|] == result.citations;
      if result.text != "" {
        EmitBody(emitter, job, ReportChunk(result.text, ordinal), now, before, sent);
        sent := sent + [ReportChunk(result.text, ordinal)];
      }
      EmitBody(emitter, job, StepCompleted(step.id), now, before, sent);
      assert sent + [StepCompleted(step.id)] == log + ResultBodies(step, result, ordinal);
    }

    /** `execute_plan`, against the walk over the plan. */
    method ExecutePlan(job: string, plan: seq<PlanStep>, clock: nat -> real, answers: nat -> Answer, now: real,
                       ghost before: Base, ghost first: seq<Body>)
        returns (report: Report, ending: Ending, ghost p: Progress)
      requires Logged(emitter, before, job, first) && budget.stepsUsed == 0 && budget.toolCallsUsed == 0
      modifies emitter, emitter.buffer, budget`stepsUsed, budget`toolCallsUsed
      ensures (p, ending) == Walk(Setting(budget.config, budget.startTimeMs, clock, answers), plan, 0, NO_PROGRESS)
      ensures ending.Completed? ==> report == Report(job, ReportText(p.chunks), p.citations, false)
      ensures Logged(emitter, before, job, first + p.log)
      ensures budget.stepsUsed == p.steps && budget.toolCallsUsed == p.calls
    {
      hide Logged, Walk, CheckOf, ResultOf, ResultBodies, Join;
      ghost var s := Setting(budget.config, budget.startTimeMs, clock, answers);
      var allCitations: seq<Citation>, chunks: seq<string>, docs: seq<Doc> := [], [], [];
      report := Report(job, "", [], true);
      p := NO_PROGRESS;
      assert first + p.log == first;
      for i := 0 to |plan|
        invariant Walk(s, plan, 0, NO_PROGRESS) == Walk(s, plan, i, p)
        invariant Logged(emitter, before, job, first + p.log)
        invariant p.citations == allCitations && p.chunks == chunks && p.docs == docs
        invariant budget.stepsUsed == p.steps && budget.toolCallsUsed == p.calls
      {
        WalkStep(s, plan, i, p);
        var stop := budget.Check(clock(i));
        if stop.Some? {
          ending := Stopped(stop.value);
          return;
        }
        EmitBody(emitter, job, StepStarted(plan[i].id), now, before, first + p.log);
        Reassociate(first, p.log, [StepStarted(plan[i].id)]);
        p := Begun(p, plan[i]);
        var result, raised := ExecuteStep(plan[i], docs, answers(i));
        if raised.Some? {
          ending := Raised(raised.value);
          return;
        }
        budget.RecordStep();
        EmitResult(job, plan[i], result, |chunks| + 1, now, before, first + p.log);
        allCitations := allCitations + result.citations;
        docs := docs + result.docs;
        if result.text != "" { chunks := chunks + [result.text]; }
        Reassociate(first, p.log, ResultBodies(plan[i], result, |p.chunks| + 1));
        p := Ended(p, plan[i], result);
      }
      WalkEnd(s, plan, p);
      ending := Completed;
      report := Report(job, if |chunks| > 0 then Join(chunks, "\n\n") else "Research complete.", allCitations, false);
    }
  }

  ghost predicate Logged(emitter: EventEmitter, before: Base, job: string, bodies: seq<Body>)
    reads emitter, emitter.buffer
  {
    Holds(Base(emitter.buffer.Contents(), emitter.counters), before, job, bodies)
  }

  method EmitBody(emitter: EventEmitter, job: string, body: Body, now: real, ghost before: Base, ghost log: seq<Body>)
    requires Logged(emitter, before, job, log)
    modifies emitter, emitter.buffer
    ensures Logged(emitter, before, job, log + [body])
  {
    hide Holds, AppendTo;
    NextIsTaken(Base(emitter.buffer.Contents(), emitter.counters), before, job, log, body, now);
    var _ := emitter.Emit(job, body, now);
  }

  lemma CitationBodyIs(c: Citation)
    ensures CitationBody(c) == CitationFound(c.span)
  {
  }

  lemma WalkStep(s: Setting, plan: seq<PlanStep>, i: nat, p: Progress)
    requires i < |plan|
    ensures var stop := CheckOf(s.budgets, p.steps, p.calls, s.start, s.clock(i));
            var begun := Begun(p, plan[i]);
            Walk(s, plan, i, p) ==
            if stop.Some? then (p, Stopped(stop.value))
            else if s.answers(i).Raises? then (begun, Raised(s.answers(i).message))
            else Walk(s, plan, i + 1, Ended(begun, plan[i], ResultOf(plan[i], p.docs, s.answers(i))))
  {
  }

  lemma WalkEnd(s: Setting, plan: seq<PlanStep>, p: Progress)
    ensures Walk(s, plan, |plan|, p) == (p, Completed)
  {
  }

  lemma MapNext<T, U>(f: T -> U, xs: seq<T>, i: nat)
    requires i < |xs|
    ensures Map(f, xs[..i + 1]) == Map(f, xs[..i]) + [f(xs[i])]
  {
    assert xs[..i + 1] == xs[..i] + [xs[i]];
    MapAppend(f, xs[..i], [xs[i]]);
  }

  // ----- the job -----------------------------------------------------------

  datatype Planned = Plan(steps: seq<PlanStep>) | PlanFailed(message: string)

  datatype Outcome = Outcome(state: State, report: Option<Report>, steps: nat, calls: nat)

  /** The first required field the default payload does not have. */
  function MissingField(required: seq<string>): Option<string> {
    if required == [] then None
    else if required[0] != "text" && required[0] != "citations_count" then Some(required[0])
    else MissingField(required[1..])
  }

  function SchemaError(schema: Option<Schema>): Option<string> {
    if schema.None? || schema.value.kind != "object" then None
    else
      var missing := MissingField(schema.value.required);
      if missing.None? then None else Some("Report payload missing required field: " + missing.value)
  }

  function StepId(step: PlanStep): string { step.id }

  function CitedSpans(bodies: seq<Body>): seq<Span> {
    if bodies == [] then []
    else (if bodies[0].CitationFound? then [bodies[0].span] else []) + CitedSpans(bodies[1..])
  }

  function ChunkTexts(bodies: seq<Body>): seq<string> {
    if bodies == [] then []
    else (if bodies[0].ReportChunk? then [bodies[0].text] else []) + ChunkTexts(bodies[1..])
  }

  function Identified(spans: seq<Span>, newId: nat -> string): (r: seq<Citation>)
    ensures |r| == |spans| && forall i | 0 <= i < |spans| :: r[i] == Citation(newId(i), spans[i])
  {
    seq(|spans|, i requires 0 <= i < |spans| => Citation(newId(i), spans[i]))
  }

  function RebuiltReport(job: string, bodies: seq<Body>, newId: nat -> string): Report {
    Report(job, Join0(ChunkTexts(bodies)), Identified(CitedSpans(bodies), newId), true)
  }

  /** Joined by blank lines; nothing if there is nothing. */
  function Join0(parts: seq<string>): string { if parts == [] then "" else Join(parts, "\n\n") }

  /** How a job ends once its plan has been walked, and all it has logged then. */
  function Concluded(job: string, schema: Option<Schema>, p: Progress, ending: Ending, log: seq<Body>,
                     newId: nat -> string): (Outcome, seq<Body>)
  {
    if ending.Completed? && SchemaError(schema).None? then
      (Outcome(Succeeded, Some(Report(job, ReportText(p.chunks), p.citations, false)), p.steps, p.calls),
       log + [Finished(job)])
    else if ending.Stopped? then
      (Outcome(BudgetExceeded, Some(RebuiltReport(job, log, newId)), p.steps, p.calls),
       log + [Error("budget_exceeded", Budget(ending.stop))])
    else
      var message := if ending.Raised? then ending.message else SchemaError(schema).value;
      (Outcome(Failed, Some(Report(job, "", [], true)), 0, 0), log + [Error("internal_error", Says(message))])
  }

  /** How a job ends, and all it logs. */
  function JobOutcome(job: string, schema: Option<Schema>, planned: Planned, s: Setting, newId: nat -> string)
    : (Outcome, seq<Body>)
  {
    if planned.PlanFailed? then
      (Outcome(Failed, None, 0, 0), [Error("internal_error", Says(planned.message))])
    else
      var (p, ending) := Walk(s, planned.steps, 0, NO_PROGRESS);
      Concluded(job, schema, p, ending, [PlanUpdated(Map(StepId, planned.steps))] + p.log, newId)
  }

  class Job {
    const id: string
    const budgets: Budgets
    const schema: Option<Schema>
    var state: State
    var plan: Option<seq<PlanStep>>
    var report: Option<Report>
    var stepsExecuted: nat
    var toolCallsMade: nat

    constructor (id: string, budgets: Budgets, schema: Option<Schema>)
      ensures this.id == id && this.budgets == budgets && this.schema == schema
      ensures state == Queued && plan == None && View() == Outcome(Queued, None, 0, 0)
    {
      this.id, this.budgets, this.schema := id, budgets, schema;
      state, plan, report, stepsExecuted, toolCallsMade := Queued, None, None, 0, 0;
    }

    function View(): Outcome
      reads this
    {
      Outcome(state, report, stepsExecuted, toolCallsMade)
    }
  }

  class ResearchService {
    const emitter: EventEmitter

    constructor (emitter: EventEmitter)
      ensures this.emitter == emitter
    {
      this.emitter := emitter;
    }

    method ValidateReport(schema: Schema) returns (error: Option<string>)
      ensures error == SchemaError(Some(schema))
    {
      if schema.kind == "object" {
        for i := 0 to |schema.required|
          invariant MissingField(schema.required) == MissingField(schema.required[i..])
        {
          assert schema.required[i..][1..] == schema.required[i + 1..];
          var field := schema.required[i];
          if field !in ["text", "citations_count"] {
            return Some("Report payload missing required field: " + field);
          }
        }
      }
      error := None;
    }

    /** The partial report from what the log has of the job. */
    method Rebuild(job: string, events: seq<Event>, newId: nat -> string, ghost bodies: seq<Body>) returns (report: Report)
      requires events == Numbered(job, bodies)
      ensures report == RebuiltReport(job, bodies, newId)
    {
      hide Join, CitedSpans, ChunkTexts;
      var citations: seq<Citation>, texts: seq<string> := [], [];
      assert [] + CitedSpans(bodies) == CitedSpans(bodies) && [] + ChunkTexts(bodies) == ChunkTexts(bodies);
      ghost var spans: seq<Span> := [];
      for i := 0 to |events|
        invariant citations == Identified(spans, newId)
        invariant spans + CitedSpans(bodies[i..]) == CitedSpans(bodies)
        invariant texts + ChunkTexts(bodies[i..]) == ChunkTexts(bodies)
      {
        RebuildStep(bodies, i, spans, texts);
        var event := events[i];
        if event.body.CitationFound? {
          citations := citations + [Citation(newId(|citations|), event.body.span)];
          spans := spans + [event.body.span];
          assert citations == Identified(spans, newId);
        } else if event.body.ReportChunk? {
          texts := texts + [event.body.text];
        }
      }
      RebuildEnd(bodies, spans, texts);
      report := Report(job, if |texts| > 0 then Join(texts, "\n\n") else "", citations, true);
    }

    /** `_execute_job` for a new job. */
    method ExecuteJob(job: Job, planned: Planned, start: real, clock: nat -> real, answers: nat -> Answer,
                      newId: nat -> string, now: real)
      requires Buffer(emitter.buffer.Contents(), job.id) == [] && Counter(emitter.counters, job.id) == 0
      requires job.View() == Outcome(Queued, None, 0, 0)
      modifies job, emitter, emitter.buffer
      ensures var (outcome, log) := JobOutcome(job.id, job.schema, planned, Setting(job.budgets, start, clock, answers), newId);
              && job.View() == outcome
              && Holds(Base(emitter.buffer.Contents(), emitter.counters),
                       old(Base(emitter.buffer.Contents(), emitter.counters)), job.id, log)
      ensures job.plan == if planned.Plan? then Some(planned.steps) else old(job.plan)
    {
      hide Holds, Walk, Concluded, ReportText, Map;
      ghost var before := Base(emitter.buffer.Contents(), emitter.counters);
      job.state := Planning;
      assert Logged(emitter, before, job.id, []) by { NothingYet(before, job.id); }
      if planned.PlanFailed? {
        job.state := Failed;
        EmitBody(emitter, job.id, Error("internal_error", Says(planned.message)), now, before, []);
        assert [] + [Error("internal_error", Says(planned.message))] == [Error("internal_error", Says(planned.message))];
        return;
      }
      job.plan := Some(planned.steps);
      var ids := Map(StepId, planned.steps);
      EmitBody(emitter, job.id, PlanUpdated(ids), now, before, []);
      assert [] + [PlanUpdated(ids)] == [PlanUpdated(ids)];
      job.state := Running;
      var tracker := new BudgetTracker(job.budgets);
      tracker.Start(start);
      var executor := new Executor(emitter, tracker);
      var report, ending, p := executor.ExecutePlan(job.id, planned.steps, clock, answers, now, before, [PlanUpdated(ids)]);
      Conclude(job, report, ending, tracker, newId, now, before, [PlanUpdated(ids)] + p.log, p);
    }

    /** What follows the execution of the plan, its exception handlers included. */
    method Conclude(job: Job, report: Report, ending: Ending, tracker: BudgetTracker, newId: nat -> string, now: real,
                    ghost before: Base, ghost log: seq<Body>, ghost p: Progress)
      requires Logged(emitter, before, job.id, log)
      requires ending.Completed? ==> report == Report(job.id, ReportText(p.chunks), p.citations, false)
      requires tracker.stepsUsed == p.steps && tracker.toolCallsUsed == p.calls
      requires job.stepsExecuted == 0 && job.toolCallsMade == 0
      modifies job, emitter, emitter.buffer
      ensures var (outcome, all) := Concluded(job.id, job.schema, p, ending, log, newId);
              job.View() == outcome && Logged(emitter, before, job.id, all)
      ensures job.plan == old(job.plan)
    {
      hide Logged, RebuiltReport, ReportText, SchemaError;
      if ending.Stopped? {
        job.state := BudgetExceeded;
        job.stepsExecuted, job.toolCallsMade := tracker.stepsUsed, tracker.toolCallsUsed;
        EventsAre(emitter, before, job.id, log);
        var events := emitter.buffer.GetAllEvents(job.id);
        var partial := Rebuild(job.id, events, newId, log);
        job.report := Some(partial);
        EmitBody(emitter, job.id, Error("budget_exceeded", Budget(ending.stop)), now, before, log);
        return;
      }
      var error := if ending.Raised? then Some(ending.message) else None;
      if ending.Completed? && job.schema.Some? {
        error := ValidateReport(job.schema.value);
      }
      NoSchema();
      if error.None? {
        job.report := Some(report);
        job.state := Succeeded;
        job.stepsExecuted, job.toolCallsMade := tracker.stepsUsed, tracker.toolCallsUsed;
        EmitBody(emitter, job.id, Finished(job.id), now, before, log);
      } else {
        job.state := Failed;
        job.report := Some(Report(job.id, "", [], true));
        EmitBody(emitter, job.id, Error("internal_error", Says(error.value)), now, before, log);
      }
    }
  }

  lemma NoSchema()
    ensures SchemaError(None) == None
  {
  }

  lemma NothingYet(before: Base, job: string)
    requires Buffer(before.log, job) == [] && Counter(before.counters, job) == 0
    ensures Holds(before, before, job, [])
  {
  }

  lemma EventsAre(emitter: EventEmitter, before: Base, job: string, log: seq<Body>)
    requires Logged(emitter, before, job, log)
    ensures Buffer(emitter.buffer.Contents(), job) == Numbered(job, log)
  {
  }

  lemma RebuildStep(bodies: seq<Body>, i: nat, spans: seq<Span>, texts: seq<string>)
    requires i < |bodies|
    ensures spans + CitedSpans(bodies[i..])
            == (if bodies[i].CitationFound? then spans + [bodies[i].span] else spans) + CitedSpans(bodies[i + 1..])
    ensures texts + ChunkTexts(bodies[i..])
            == (if bodies[i].ReportChunk? then texts + [bodies[i].text] else texts) + ChunkTexts(bodies[i + 1..])
  {
    assert bodies[i..][1..] == bodies[i + 1..];
  }

  lemma RebuildEnd(bodies: seq<Body>, spans: seq<Span>, texts: seq<string>)
    ensures spans + CitedSpans(bodies[|bodies|..]) == spans
    ensures texts + ChunkTexts(bodies[|bodies|..]) == texts
  {
  }

  // ----- what every walk keeps ---------------------------------------------

  function CitationSpan(c: Citation): Span { c.span }

  function Started(log: seq<Body>): nat {
    if log == [] then 0 else (if log[0].StepStarted? then 1 else 0) + Started(log[1..])
  }

  function Finishes(log: seq<Body>): nat {
    if log == [] then 0 else (if log[0].StepCompleted? then 1 else 0) + Finishes(log[1..])
  }

  /** Chunk events count up from one more than `from`. */
  predicate OrdinalsFrom(log: seq<Body>, from: nat) {
    log != [] ==>
      if log[0].ReportChunk? then log[0].ordinal == from + 1 && OrdinalsFrom(log[1..], from + 1)
      else OrdinalsFrom(log[1..], from)
  }

  predicate Inner(b: Body) { !b.Terminal() && !b.PlanUpdated? }

  predicate AllInner(log: seq<Body>) { forall i | 0 <= i < |log| :: Inner(log[i]) }

  /** The citation covers the beginning of a document the job retrieved. */
  ghost predicate Grounded(c: Citation, docs: seq<Doc>) { exists d :: d in docs && c.span == DocSpan(d) }

  /** The log says exactly what was gathered. */
  predicate LogTells(p: Progress) {
    && AllInner(p.log)
    && CitedSpans(p.log) == Map(CitationSpan, p.citations)
    && ChunkTexts(p.log) == p.chunks
    && OrdinalsFrom(p.log, 0)
    && Started(p.log) == p.calls
    && Finishes(p.log) == p.steps
  }

  lemma {:induction false} ContentAppend(a: seq<Body>, b: seq<Body>)
    ensures CitedSpans(a + b) == CitedSpans(a) + CitedSpans(b)
    ensures ChunkTexts(a + b) == ChunkTexts(a) + ChunkTexts(b)
    decreases |a|
  {
    if a == [] {
      assert a + b == b;
    } else {
      assert (a + b)[1..] == a[1..] + b && (a + b)[0] == a[0];
      ContentAppend(a[1..], b);
      Reassociate(if a[0].CitationFound? then [a[0].span] else [], CitedSpans(a[1..]), CitedSpans(b));
      Reassociate(if a[0].ReportChunk? then [a[0].text] else [], ChunkTexts(a[1..]), ChunkTexts(b));
    }
  }

  lemma {:induction false} CountsAppend(a: seq<Body>, b: seq<Body>)
    ensures Started(a + b) == Started(a) + Started(b)
    ensures Finishes(a + b) == Finishes(a) + Finishes(b)
    decreases |a|
  {
    if a == [] {
      assert a + b == b;
    } else {
      assert (a + b)[1..] == a[1..] + b && (a + b)[0] == a[0];
      CountsAppend(a[1..], b);
    }
  }

  lemma {:induction false} OrdinalsAppend(a: seq<Body>, b: seq<Body>, from: nat)
    ensures OrdinalsFrom(a + b, from) <==> OrdinalsFrom(a, from) && OrdinalsFrom(b, from + |ChunkTexts(a)|)
    decreases |a|
  {
    if a == [] {
      assert a + b == b;
    } else {
      assert (a + b)[1..] == a[1..] + b && (a + b)[0] == a[0];
      OrdinalsAppend(a[1..], b, if a[0].ReportChunk? then from + 1 else from);
    }
  }

  lemma LogAppend(a: seq<Body>, b: seq<Body>, from: nat)
    ensures CitedSpans(a + b) == CitedSpans(a) + CitedSpans(b)
    ensures ChunkTexts(a + b) == ChunkTexts(a) + ChunkTexts(b)
    ensures Started(a + b) == Started(a) + Started(b)
    ensures Finishes(a + b) == Finishes(a) + Finishes(b)
    ensures OrdinalsFrom(a + b, from) <==> OrdinalsFrom(a, from) && OrdinalsFrom(b, from + |ChunkTexts(a)|)
  {
    ContentAppend(a, b);
    CountsAppend(a, b);
    OrdinalsAppend(a, b, from);
  }

  lemma {:induction false} CitationBodiesTell(citations: seq<Citation>, from: nat)
    ensures var log := Map(CitationBody, citations);
            && AllInner(log) && CitedSpans(log) == Map(CitationSpan, citations) && ChunkTexts(log) == []
            && Started(log) == 0 && Finishes(log) == 0 && OrdinalsFrom(log, from)
  {
    if citations != [] {
      CitationBodiesTell(citations[1..], from);
      var log := Map(CitationBody, citations);
      assert log[1..] == Map(CitationBody, citations[1..]);
      assert log[0] == CitationFound(citations[0].span);
    }
  }

  lemma OneBody(b: Body, from: nat)
    ensures CitedSpans([b]) == (if b.CitationFound? then [b.span] else [])
    ensures ChunkTexts([b]) == (if b.ReportChunk? then [b.text] else [])
    ensures Started([b]) == (if b.StepStarted? then 1 else 0)
    ensures Finishes([b]) == (if b.StepCompleted? then 1 else 0)
    ensures OrdinalsFrom([b], from) <==> (b.ReportChunk? ==> b.ordinal == from + 1)
  {
    assert [b][1..] == [];
  }

  lemma BegunTells(p: Progress, step: PlanStep)
    requires LogTells(p)
    ensures LogTells(Begun(p, step))
  {
    hide CitedSpans, ChunkTexts, OrdinalsFrom, Started, Finishes, Map;
    var b := StepStarted(step.id);
    LogAppend(p.log, [b], 0);
    OneBody(b, |p.chunks|);
    assert p.chunks + [] == p.chunks;
  }

  lemma ResultTells(step: PlanStep, r: ToolResult, before: nat)
    ensures var log := ResultBodies(step, r, before + 1);
            && AllInner(log) && CitedSpans(log) == Map(CitationSpan, r.citations)
            && ChunkTexts(log) == (if r.text == "" then [] else [r.text])
            && Started(log) == 0 && Finishes(log) == 1 && OrdinalsFrom(log, before)
  {
    hide CitedSpans, ChunkTexts, OrdinalsFrom, Started, Finishes, Map;
    var cited, chunk, done := Map(CitationBody, r.citations), ChunkBodies(r.text, before + 1), [StepCompleted(step.id)];
    CitationBodiesTell(r.citations, before);
    ChunkBodyTells(r.text, before);
    var after := before + |ChunkTexts(chunk)|;
    OneBody(done[0], after);
    LogAppend(cited, chunk, before);
    LogAppend(cited + chunk, done, before);
    var texts := ChunkTexts(chunk);
    assert [] + texts == texts && texts + [] == texts;
    assert CitedSpans(cited) + [] + [] == CitedSpans(cited);
  }

  lemma ChunkBodyTells(text: string, before: nat)
    ensures var log := ChunkBodies(text, before + 1);
            && AllInner(log) && CitedSpans(log) == []
            && ChunkTexts(log) == (if text == "" then [] else [text])
            && Started(log) == 0 && Finishes(log) == 0 && OrdinalsFrom(log, before)
  {
    if text != "" { OneBody(ReportChunk(text, before + 1), before); }
  }

  lemma EndedTells(p: Progress, step: PlanStep, r: ToolResult)
    requires LogTells(p)
    ensures LogTells(Ended(p, step, r))
  {
    hide CitedSpans, ChunkTexts, OrdinalsFrom, Started, Finishes, Map, ResultBodies;
    var log := ResultBodies(step, r, |p.chunks| + 1);
    ResultTells(step, r, |p.chunks|);
    LogAppend(p.log, log, 0);
    MapAppend(CitationSpan, p.citations, r.citations);
    assert p.chunks + [] == p.chunks;
  }

  ghost predicate AllGrounded(p: Progress) {
    forall i | 0 <= i < |p.citations| :: Grounded(p.citations[i], p.docs)
  }

  lemma EndedGrounded(p: Progress, step: PlanStep, answer: Answer)
    requires AllGrounded(p) && answer.Answer?
    ensures AllGrounded(Ended(p, step, ResultOf(step, p.docs, answer)))
  {
    hide ResultOf, Map, ResultBodies, Grounded;
    var r := ResultOf(step, p.docs, answer);
    var q := Ended(p, step, r);
    forall i | 0 <= i < |q.citations| ensures Grounded(q.citations[i], q.docs) {
      if i < |p.citations| {
        assert Grounded(p.citations[i], p.docs);
        StillGrounded(p.citations[i], p.docs, r.docs);
      } else {
        var k := i - |p.citations|;
        assert q.citations[i] == r.citations[k];
        ResultGrounded(step, p.docs, answer, k);
        StillGrounded(r.citations[k], p.docs, r.docs);
      }
    }
  }

  lemma StillGrounded(c: Citation, docs: seq<Doc>, more: seq<Doc>)
    requires Grounded(c, docs)
    ensures Grounded(c, docs + more)
  {
    hide DocSpan;
    var d :| d in docs && c.span == DocSpan(d);
    assert d in docs + more;
  }

  /** The citations of a step are of documents retrieved before it. */
  lemma ResultGrounded(step: PlanStep, docs: seq<Doc>, answer: Answer, k: nat)
    requires answer.Answer? && k < |ResultOf(step, docs, answer).citations|
    ensures Grounded(ResultOf(step, docs, answer).citations[k], docs)
  {
    hide DocSpan, DocLine, Join, Map, SynthesisText, Clip;
    var d := LastDocs(docs)[k];
    assert d in docs;
    assert ResultOf(step, docs, answer).citations[k].span == DocSpan(d);
  }

  /** Before the k-th step the budgets stop the job. */
  predicate StopsAt(s: Setting, k: nat) { CheckOf(s.budgets, k, k, s.start, s.clock(k)).Some? }

  /** However a walk ends, the log tells what was gathered, every citation is
      grounded, and the step it ended at is the first that the budgets forbid or
      that raises. */
  lemma {:induction false} WalkFacts(s: Setting, plan: seq<PlanStep>, i: nat, p: Progress)
    requires i <= |plan| && p.steps == i && p.calls == i && LogTells(p) && AllGrounded(p)
    ensures var (q, ending) := Walk(s, plan, i, p);
            && LogTells(q) && AllGrounded(q)
            && i <= q.steps <= |plan|
            && q.calls == q.steps + (if ending.Raised? then 1 else 0)
            && (forall k | i <= k < q.steps :: !StopsAt(s, k) && !s.answers(k).Raises?)
            && (ending.Completed? <==> q.steps == |plan|)
            && (ending.Stopped? ==> CheckOf(s.budgets, q.steps, q.steps, s.start, s.clock(q.steps)) == Some(ending.stop))
            && (ending.Raised? ==> !StopsAt(s, q.steps) && s.answers(q.steps) == Raises(ending.message))
    decreases |plan| - i
  {
    hide LogTells, AllGrounded, CheckOf, ResultOf;
    if i < |plan| {
      BegunTells(p, plan[i]);
      assert AllGrounded(Begun(p, plan[i])) by { BegunGrounded(p, plan[i]); }
      if !StopsAt(s, i) && s.answers(i).Answer? {
        var begun := Begun(p, plan[i]);
        var r := ResultOf(plan[i], p.docs, s.answers(i));
        EndedTells(begun, plan[i], r);
        EndedGrounded(begun, plan[i], s.answers(i));
        WalkFacts(s, plan, i + 1, Ended(begun, plan[i], r));
      }
    }
  }

  lemma BegunGrounded(p: Progress, step: PlanStep)
    requires AllGrounded(p)
    ensures AllGrounded(Begun(p, step))
  {
  }

  lemma StartTells()
    ensures LogTells(NO_PROGRESS) && AllGrounded(NO_PROGRESS)
  {
  }

  // ----- main results ------------------------------------------------------

  function Least(a: int, b: int): int { if a < b then a else b }

  /** Neither steps nor tool calls ever exceed their budgets, on any plan and
      whatever the outside does. */
  lemma BudgetsHold(s: Setting, plan: seq<PlanStep>)
    ensures var (p, _) := Walk(s, plan, 0, NO_PROGRESS);
            && p.steps <= p.calls
            && (p.calls > 0 ==> p.calls <= Least(s.budgets.maxSteps, s.budgets.maxToolCalls))
            && Started(p.log) == p.calls && Finishes(p.log) == p.steps
  {
    hide Walk;
    StartTells();
    WalkFacts(s, plan, 0, NO_PROGRESS);
    var (p, ending) := Walk(s, plan, 0, NO_PROGRESS);
    if p.calls > 0 {
      assert !StopsAt(s, p.calls - 1);
    }
  }

  /** If nothing raises and time does not run out, a plan runs to its end exactly
      when it fits both budgets. */
  lemma RunsToTheEndIff(s: Setting, plan: seq<PlanStep>)
    requires forall k | 0 <= k < |plan| :: !s.answers(k).Raises?
    requires forall k | 0 <= k < |plan| :: s.start > 0.0 ==> Elapsed(s.start, s.clock(k)) < s.budgets.maxDurationMs as real
    ensures Walk(s, plan, 0, NO_PROGRESS).1.Completed?
            <==> plan == [] || |plan| <= Least(s.budgets.maxSteps, s.budgets.maxToolCalls)
  {
    hide Walk, Elapsed;
    StartTells();
    WalkFacts(s, plan, 0, NO_PROGRESS);
    BudgetsHold(s, plan);
  }

  /** Every run logs one done or error event, last, which agrees with the final
      state; the plan comes first unless there is none. */
  lemma OneEndAndItAgrees(job: string, schema: Option<Schema>, planned: Planned, s: Setting, newId: nat -> string)
    ensures var (outcome, log) := JobOutcome(job, schema, planned, s, newId);
            && log != []
            && log[|log| - 1].Terminal()
            && (forall i | 0 <= i < |log| - 1 :: !log[i].Terminal())
            && (outcome.state == Succeeded <==> log[|log| - 1].Finished?)
            && (outcome.state == BudgetExceeded
                <==> log[|log| - 1].Error? && log[|log| - 1].code == "budget_exceeded" && log[|log| - 1].message.Budget?)
            && (outcome.state == Failed <==> log[|log| - 1].Error? && log[|log| - 1].code == "internal_error")
            && (planned.Plan? <==> log[0].PlanUpdated?)
            && (forall i | 1 <= i < |log| :: !log[i].PlanUpdated?)
  {
    hide Walk, RebuiltReport, SchemaError, ReportText, Map;
    if planned.Plan? {
      StartTells();
      WalkFacts(s, planned.steps, 0, NO_PROGRESS);
      var p := Walk(s, planned.steps, 0, NO_PROGRESS).0;
      assert AllInner(p.log);
      hide LogTells;
      var first := PlanUpdated(Map(StepId, planned.steps));
      FramedLog(first, p.log, JobOutcome(job, schema, planned, s, newId).1);
    }
  }

  lemma FramedLog(first: Body, inner: seq<Body>, log: seq<Body>)
    requires first.PlanUpdated? && AllInner(inner)
    requires |log| == |inner| + 2 && [first] + inner == log[..|inner| + 1] && log[|log| - 1].Terminal()
    ensures log[0] == first
    ensures forall i | 0 <= i < |log| - 1 :: !log[i].Terminal()
    ensures forall i | 1 <= i < |log| :: !log[i].PlanUpdated?
  {
    forall i | 0 <= i < |log| - 1 ensures log[i] == ([first] + inner)[i] {
      assert log[..|inner| + 1][i] == log[i];
    }
  }

  /** On a budget stop, the report rebuilt from the log is what the executor had
      gathered, but for the ids of the citations. */
  lemma PartialReportIsAll(job: string, schema: Option<Schema>, plan: seq<PlanStep>, s: Setting, newId: nat -> string)
    requires Walk(s, plan, 0, NO_PROGRESS).1.Stopped?
    ensures var (p, ending) := Walk(s, plan, 0, NO_PROGRESS);
            var report := JobOutcome(job, schema, Plan(plan), s, newId).0.report;
            && report.Some? && report.value.partial
            && report.value.text == Join0(p.chunks)
            && Map(CitationSpan, report.value.citations) == Map(CitationSpan, p.citations)
            && |report.value.citations| == |p.citations|
  {
    hide Walk, Join, Map, SchemaError, ReportText;
    StartTells();
    WalkFacts(s, plan, 0, NO_PROGRESS);
    var p := Walk(s, plan, 0, NO_PROGRESS).0;
    var first := PlanUpdated(Map(StepId, plan));
    LogAppend([first], p.log, 0);
    OneBody(first, 0);
    hide LogTells;
    assert [] + p.chunks == p.chunks && [] + CitedSpans(p.log) == CitedSpans(p.log);
    IdentifiedSpans(CitedSpans(p.log), newId);
  }

  lemma {:induction false} IdentifiedSpans(spans: seq<Span>, newId: nat -> string)
    ensures Map(CitationSpan, Identified(spans, newId)) == spans
  {
    var r := Map(CitationSpan, Identified(spans, newId));
    assert |r| == |spans|;
    forall i | 0 <= i < |spans| ensures r[i] == spans[i] {
    }
  }
}
