/** The numbered event log of research jobs: two separately locked steps give
    an event its number and append it; clients reconnect and replay. */
module ResearchEvents {
  import opened Text

  datatype Option<+T> = None | Some(value: T)

  /** What a citation event carries. */
  datatype Span = Span(document: string, version: int,
                       answerStart: int, answerEnd: int, sourceStart: int, sourceEnd: int)

  datatype Reason = MaxSteps | MaxDuration | MaxToolCalls

  datatype Stop = Stop(reason: Reason, current: int, limit: int)

  datatype Message = Says(text: string) | Budget(stop: Stop)

  datatype Body =
    | PlanUpdated(steps: seq<string>)
    | StepStarted(step: string)
    | StepCompleted(step: string)
    | CitationFound(span: Span)
    | ReportChunk(text: string, ordinal: nat)
    | Finished(job: string)
    | Error(code: string, message: Message)
  {
    predicate Terminal() { Finished? || Error? }
  }

  datatype Event = Event(id: int, job: string, body: Body)

  // ----- the log as a value ------------------------------------------------

  datatype Log = Log(buffers: map<string, seq<Event>>, terminal: map<string, real>)

  function Buffer(log: Log, job: string): seq<Event> {
    if job in log.buffers then log.buffers[job] else []
  }

  predicate InOrder(buffer: seq<Event>, e: Event) { buffer == [] || buffer[|buffer| - 1].id < e.id }

  /** One append: the new log and whether the event was taken. */
  function AppendTo(log: Log, e: Event, now: real): (Log, bool) {
    if !InOrder(Buffer(log, e.job), e) then (log, false)
    else (Log(log.buffers[e.job := Buffer(log, e.job) + [e]],
              if e.body.Terminal() then log.terminal[e.job := now] else log.terminal),
          true)
  }

  function After(buffer: seq<Event>, last: Option<int>): seq<Event> {
    if last.None? then buffer
    else if buffer == [] then []
    else (if buffer[0].id > last.value then [buffer[0]] else []) + After(buffer[1..], last)
  }

  predicate Stale(log: Log, job: string, now: real, retention: real) {
    job in log.terminal && now - log.terminal[job] > retention
  }

  function Cleaned(log: Log, now: real, retention: real): Log {
    Log(map job | job in log.buffers && !Stale(log, job, now, retention) :: log.buffers[job],
        map job | job in log.terminal && !Stale(log, job, now, retention) :: log.terminal[job])
  }

  lemma AfterNext(events: seq<Event>, buffer: seq<Event>, i: nat, last: Option<int>)
    requires i < |buffer| && last.Some?
    ensures events + After(buffer[i..], last)
            == (if buffer[i].id > last.value then events + [buffer[i]] else events) + After(buffer[i + 1..], last)
  {
    assert buffer[i..][1..] == buffer[i + 1..];
  }

  lemma AfterEnd(events: seq<Event>, buffer: seq<Event>, last: Option<int>)
    requires last.Some?
    ensures events + After(buffer[|buffer|..], last) == events
  {
  }

  // ----- the classes -------------------------------------------------------

  class EventBuffer {
    const retention: real
    var buffers: map<string, seq<Event>>
    var terminalTimes: map<string, real>

    constructor (retention: real := 86400.0)
      ensures this.retention == retention && Contents() == Log(map[], map[])
    {
      this.retention, buffers, terminalTimes := retention, map[], map[];
    }

    function Contents(): Log
      reads this
    {
      Log(buffers, terminalTimes)
    }

    method Append(e: Event, now: real) returns (ok: bool)
      modifies this
      ensures (Contents(), ok) == AppendTo(old(Contents()), e, now)
    {
      var buffer := if e.job in buffers then buffers[e.job] else [];
      if |buffer| > 0 && e.id <= buffer[|buffer| - 1].id { return false; }
      buffers := buffers[e.job := buffer + [e]];
      if e.body.Finished? || e.body.Error? {
        terminalTimes := terminalTimes[e.job := now];
      }
      ok := true;
    }

    method Replay(job: string, last: Option<int>) returns (events: seq<Event>)
      ensures events == After(Buffer(Contents(), job), last)
    {
      var buffer := if job in buffers then buffers[job] else [];
      if last.None? { return buffer; }
      hide After;
      events := [];
      assert [] + After(buffer, last) == After(buffer, last);
      for i := 0 to |buffer|
        invariant events + After(buffer[i..], last) == After(buffer, last)
      {
        AfterNext(events, buffer, i, last);
        if buffer[i].id > last.value {
          events := events + [buffer[i]];
        }
      }
      AfterEnd(events, buffer, last);
    }

    method GetAllEvents(job: string) returns (events: seq<Event>)
      ensures events == Buffer(Contents(), job)
    {
      events := if job in buffers then buffers[job] else [];
    }

    method CleanupExpired(now: real) returns (expired: seq<string>)
      requires terminalTimes.Keys <= buffers.Keys
      modifies this
      ensures Contents() == Cleaned(old(Contents()), now, retention)
      ensures forall job :: job in expired <==> Stale(old(Contents()), job, now, retention)
      ensures forall i, j | 0 <= i < j < |expired| :: expired[i] != expired[j]
    {
      hide Stale, Cleaned, Lists;
      expired := [];
      ghost var before, gone: set<string> := Contents(), {};
      var waiting := terminalTimes.Keys;
      ListsNothing();
      while waiting != {}
        invariant waiting <= before.terminal.Keys && gone !! waiting
        invariant buffers == before.buffers - gone && terminalTimes == before.terminal - gone
        invariant forall job | job in gone :: Stale(before, job, now, retention)
        invariant forall job | job in before.terminal && job !in waiting && job !in gone ::
                    !Stale(before, job, now, retention)
        invariant Lists(expired, gone)
        decreases |waiting|
      {
        var job :| job in waiting;
        StaleIs(before, job, now, retention);
        waiting := waiting - {job};
        if now - terminalTimes[job] > retention {
          buffers := buffers - {job};
          terminalTimes := terminalTimes - {job};
          ListsMore(expired, gone, job);
          expired := expired + [job];
          gone := gone + {job};
        }
      }
      ListsEach(expired, gone);
      OnlyKnownAreStale(before, now, retention);
      CleanedIs(before, gone, now, retention);
    }
  }

  /** The list has each member of the set once. */
  ghost predicate Lists(jobs: seq<string>, members: set<string>) {
    (forall job :: job in jobs <==> job in members) && forall i, j | 0 <= i < j < |jobs| :: jobs[i] != jobs[j]
  }

  lemma ListsNothing()
    ensures Lists([], {})
  {
  }

  lemma ListsMore(jobs: seq<string>, members: set<string>, job: string)
    requires Lists(jobs, members) && job !in members
    ensures Lists(jobs + [job], members + {job})
  {
  }

  lemma ListsEach(jobs: seq<string>, members: set<string>)
    requires Lists(jobs, members)
    ensures forall job :: job in jobs <==> job in members
    ensures forall i, j | 0 <= i < j < |jobs| :: jobs[i] != jobs[j]
  {
  }

  lemma StaleIs(log: Log, job: string, now: real, retention: real)
    requires job in log.terminal
    ensures Stale(log, job, now, retention) <==> now - log.terminal[job] > retention
  {
  }

  lemma OnlyKnownAreStale(log: Log, now: real, retention: real)
    ensures forall job | Stale(log, job, now, retention) :: job in log.terminal
  {
  }

  lemma CleanedIs(log: Log, gone: set<string>, now: real, retention: real)
    requires forall job :: job in gone <==> Stale(log, job, now, retention)
    ensures Cleaned(log, now, retention) == Log(log.buffers - gone, log.terminal - gone)
  {
  }

  /** The event the next number makes. */
  function Next(counters: map<string, nat>, job: string, body: Body): Event {
    Event(Counter(counters, job) + 1, job, body)
  }

  function Counter(counters: map<string, nat>, job: string): nat {
    if job in counters then counters[job] else 0
  }

  class EventEmitter {
    const buffer: EventBuffer
    var counters: map<string, nat>

    constructor (buffer: EventBuffer)
      ensures this.buffer == buffer && counters == map[]
    {
      this.buffer, counters := buffer, map[];
    }

    /** The part of `emit` under the emitter's lock. */
    method TakeNumber(job: string) returns (id: nat)
      modifies this
      ensures id == Counter(old(counters), job) + 1 && counters == old(counters)[job := id]
    {
      id := (if job in counters then counters[job] else 0) + 1;
      counters := counters[job := id];
    }

    /** Both parts, with nothing of the same job in between. */
    method Emit(job: string, body: Body, now: real) returns (ok: bool)
      modifies this, buffer
      ensures var e := Next(old(counters), job, body);
              && counters == old(counters)[job := e.id]
              && (buffer.Contents(), ok) == AppendTo(old(buffer.Contents()), e, now)
    {
      var id := TakeNumber(job);
      ok := buffer.Append(Event(id, job, body), now);
    }
  }

  // ----- interleaved runs --------------------------------------------------

  /** `pending` events have their number but are not appended yet; `rejected`
      ones were refused by the buffer. `got` is what a client of each job has
      received so far. */
  datatype World = World(log: Log, counters: map<string, nat>, pending: seq<Event>, rejected: seq<Event>,
                         got: map<string, seq<Event>>, now: real)

  datatype Op =
    | Take(job: string, body: Body)
    /** The emitter that holds the i-th pending number appends. */
    | Append(i: nat)
    /** The client of a job connects with its last id and reads `count` events
        before the connection drops. */
    | Connect(job: string, count: nat)
    | Cleanup(retention: real)
    | Tick(elapsed: real)

  function Got(w: World, job: string): seq<Event> { if job in w.got then w.got[job] else [] }

  function LastId(events: seq<Event>): Option<int> {
    if events == [] then None else Some(events[|events| - 1].id)
  }

  function Received(w: World, job: string, count: nat): seq<Event> {
    var replay := After(Buffer(w.log, job), LastId(Got(w, job)));
    Got(w, job) + (if count <= |replay| then replay[..count] else replay)
  }

  function Step(w: World, op: Op): World {
    match op
    case Take(job, body) =>
      var e := Next(w.counters, job, body);
      w.(counters := w.counters[job := e.id], pending := w.pending + [e])
    case Append(i) =>
      if i >= |w.pending| then w
      else
        var (log, ok) := AppendTo(w.log, w.pending[i], w.now);
        w.(log := log, pending := w.pending[..i] + w.pending[i + 1..],
           rejected := if ok then w.rejected else w.rejected + [w.pending[i]])
    case Connect(job, count) => w.(got := w.got[job := Received(w, job, count)])
    case Cleanup(retention) => w.(log := Cleaned(w.log, w.now, retention))
    case Tick(elapsed) => w.(now := w.now + elapsed)
  }

  function Run(w: World, ops: seq<Op>): World
    decreases |ops|
  {
    if ops == [] then w else Run(Step(w, ops[0]), ops[1..])
  }

  const START := World(Log(map[], map[]), map[], [], [], map[], 0.0)

  // ----- order in every interleaving ---------------------------------------

  predicate Increasing(events: seq<Event>) {
    forall i, j | 0 <= i < j < |events| :: events[i].id < events[j].id
  }

  /** A number the counter has handed out for the event's job. */
  predicate Issued(w: World, e: Event) { 1 <= e.id <= Counter(w.counters, e.job) }

  ghost predicate Valid(w: World) {
    && (forall job | job in w.log.buffers ::
          Increasing(w.log.buffers[job]) && forall e | e in w.log.buffers[job] :: e.job == job && Issued(w, e))
    && (forall e | e in w.pending + w.rejected :: Issued(w, e))
    && w.log.terminal.Keys <= w.log.buffers.Keys
  }

  lemma AppendKeepsIncreasing(buffer: seq<Event>, e: Event)
    requires Increasing(buffer) && InOrder(buffer, e)
    ensures Increasing(buffer + [e])
  {
  }

  lemma AppendKeepsValid(w: World, i: nat)
    requires Valid(w)
    ensures Valid(Step(w, Append(i)))
  {
    if i < |w.pending| {
      var e := w.pending[i];
      assert e in w.pending + w.rejected;
      var w1 := Step(w, Append(i));
      if InOrder(Buffer(w.log, e.job), e) { AppendKeepsIncreasing(Buffer(w.log, e.job), e); }
      forall x | x in w1.pending + w1.rejected ensures Issued(w1, x) {
        assert x in w.pending + w.rejected;
      }
    }
  }

  lemma TakeKeepsValid(w: World, job: string, body: Body)
    requires Valid(w)
    ensures Valid(Step(w, Take(job, body)))
  {
    var w1 := Step(w, Take(job, body));
    forall x | x in w1.pending + w1.rejected ensures Issued(w1, x) {
      assert x in w.pending + w.rejected || x == Next(w.counters, job, body);
    }
  }

  /** Every step of every interleaving keeps each job's buffer in strictly
      increasing order of numbers the counter has issued. */
  lemma StepKeepsValid(w: World, op: Op)
    requires Valid(w)
    ensures Valid(Step(w, op))
  {
    match op
    case Take(job, body) => TakeKeepsValid(w, job, body);
    case Append(i) => AppendKeepsValid(w, i);
    case _ =>
  }

  lemma {:induction false} RunKeepsValid(w: World, ops: seq<Op>)
    requires Valid(w)
    ensures Valid(Run(w, ops))
    decreases |ops|
  {
    hide Valid, Step;
    if ops != [] {
      StepKeepsValid(w, ops[0]);
      RunKeepsValid(Step(w, ops[0]), ops[1..]);
    }
  }

  lemma StartIsValid()
    ensures Valid(START)
  {
  }

  lemma BuffersIncrease(ops: seq<Op>, job: string)
    ensures Increasing(Buffer(Run(START, ops).log, job))
  {
    hide Run;
    RunKeepsValid(START, ops);
  }

  // ----- when a log is removed ---------------------------------------------

  /** The log has a last event of the job: done or error. */
  predicate HasEnded(events: seq<Event>) {
    exists i | 0 <= i < |events| :: events[i].body.Finished? || events[i].body.Error?
  }

  /** An end is noted for exactly the jobs whose log has one. */
  ghost predicate EndsNoted(log: Log) { forall job :: job in log.terminal <==> HasEnded(Buffer(log, job)) }

  lemma EndedAppend(events: seq<Event>, e: Event)
    ensures HasEnded(events + [e]) <==> HasEnded(events) || e.body.Finished? || e.body.Error?
  {
    if i :| 0 <= i < |events| && (events[i].body.Finished? || events[i].body.Error?) {
      assert (events + [e])[i] == events[i];
    }
    assert (events + [e])[|events|] == e;
  }

  lemma {:induction false} EndsAreNoted(w: World, ops: seq<Op>)
    requires Valid(w) && EndsNoted(w.log)
    ensures EndsNoted(Run(w, ops).log)
    decreases |ops|
  {
    if ops != [] {
      StepKeepsEnds(w, ops[0]);
      StepKeepsValid(w, ops[0]);
      hide Step, Valid, EndsNoted;
      EndsAreNoted(Step(w, ops[0]), ops[1..]);
    }
  }

  lemma StepKeepsEnds(w: World, op: Op)
    requires EndsNoted(w.log)
    ensures EndsNoted(Step(w, op).log)
  {
    hide HasEnded, Received;
    if op.Append? && op.i < |w.pending| {
      var e := w.pending[op.i];
      EndedAppend(Buffer(w.log, e.job), e);
    } else if op.Cleanup? {
      assert !HasEnded([]) by { NothingEnded(); }
    }
  }

  lemma NothingEnded()
    ensures !HasEnded([])
  {
  }

  /** No step of the run removes the job's log or appends to it. */
  predicate LeftAlone(w: World, ops: seq<Op>, job: string)
    decreases |ops|
  {
    ops != [] ==>
      && !ops[0].Cleanup?
      && (ops[0].Append? && ops[0].i < |w.pending| ==> w.pending[ops[0].i].job != job)
      && LeftAlone(Step(w, ops[0]), ops[1..], job)
  }

  lemma {:induction false} LeftAloneStays(w: World, ops: seq<Op>, job: string)
    requires LeftAlone(w, ops, job)
    ensures var w1 := Run(w, ops);
            && Buffer(w1.log, job) == Buffer(w.log, job)
            && (job in w1.log.terminal <==> job in w.log.terminal)
            && (job in w.log.terminal ==> w1.log.terminal[job] == w.log.terminal[job])
    decreases |ops|
  {
    if ops != [] {
      StepLeavesAlone(w, ops[0], job);
      hide Step;
      LeftAloneStays(Step(w, ops[0]), ops[1..], job);
    }
  }

  lemma StepLeavesAlone(w: World, op: Op, job: string)
    requires !op.Cleanup? && (op.Append? && op.i < |w.pending| ==> w.pending[op.i].job != job)
    ensures var w1 := Step(w, op);
            && Buffer(w1.log, job) == Buffer(w.log, job)
            && (job in w1.log.terminal <==> job in w.log.terminal)
            && (job in w.log.terminal ==> w1.log.terminal[job] == w.log.terminal[job])
  {
    hide Received;
  }

  /** The time that passes in a run. */
  function TimeOf(ops: seq<Op>): real {
    if ops == [] then 0.0 else (if ops[0].Tick? then ops[0].elapsed else 0.0) + TimeOf(ops[1..])
  }

  lemma {:induction false} TimePasses(w: World, ops: seq<Op>)
    ensures Run(w, ops).now == w.now + TimeOf(ops)
    decreases |ops|
  {
    if ops != [] {
      StepTakesTime(w, ops[0]);
      hide Step;
      TimePasses(Step(w, ops[0]), ops[1..]);
    }
  }

  lemma StepTakesTime(w: World, op: Op)
    ensures Step(w, op).now == w.now + if op.Tick? then op.elapsed else 0.0
  {
    hide Received;
  }

  /** A log whose last event has come is removed, whole, by a cleanup if and only if
      more than the retention passes in between, whatever happens to other jobs. */
  lemma EndedLogIsRemovedIff(w: World, i: nat, ops: seq<Op>, retention: real)
    requires i < |w.pending| && InOrder(Buffer(w.log, w.pending[i].job), w.pending[i])
    requires w.pending[i].body.Finished? || w.pending[i].body.Error?
    requires LeftAlone(Step(w, Append(i)), ops, w.pending[i].job)
    ensures var e, w1 := w.pending[i], Run(Step(w, Append(i)), ops);
            var log := Step(w1, Cleanup(retention)).log;
            && Buffer(w1.log, e.job) == Buffer(w.log, e.job) + [e]
            && Buffer(log, e.job) == if TimeOf(ops) > retention then [] else Buffer(w.log, e.job) + [e]
  {
    hide Run, TimeOf;
    TimePasses(Step(w, Append(i)), ops);
    LeftAloneStays(Step(w, Append(i)), ops, w.pending[i].job);
  }

  /** And a log without a last event is never removed, in any run. */
  lemma OpenLogIsKept(ops: seq<Op>, job: string, retention: real)
    requires !HasEnded(Buffer(Run(START, ops).log, job))
    ensures var w := Run(START, ops);
            Buffer(Step(w, Cleanup(retention)).log, job) == Buffer(w.log, job)
  {
    hide Run, HasEnded;
    StartIsValid();
    assert EndsNoted(START.log) by { NothingEnded(); }
    EndsAreNoted(START, ops);
  }

  // ----- reconnecting clients ----------------------------------------------

  /** No cleanup of the run removes the job. */
  predicate Spared(w: World, ops: seq<Op>, job: string)
    decreases |ops|
  {
    ops != [] ==>
      && (ops[0].Cleanup? ==> !Stale(w.log, job, w.now, ops[0].retention))
      && Spared(Step(w, ops[0]), ops[1..], job)
  }

  lemma {:induction false} AfterAllBefore(front: seq<Event>, back: seq<Event>, last: int)
    requires forall e | e in front :: e.id <= last
    requires forall e | e in back :: e.id > last
    ensures After(front + back, Some(last)) == back
    decreases |front| + |back|
  {
    if front != [] {
      assert (front + back)[1..] == front[1..] + back;
      AfterAllBefore(front[1..], back, last);
    } else {
      assert front + back == back;
      if back != [] {
        AfterAllBefore([], back[1..], last);
        assert [] + back[1..] == back[1..];
      }
    }
  }

  /** A replay from the last id of a prefix of the log is the rest of the log. */
  lemma ReplayIsRest(buffer: seq<Event>, got: seq<Event>)
    requires Increasing(buffer) && got <= buffer
    ensures After(buffer, LastId(got)) == buffer[|got|..]
  {
    if got != [] {
      var last := got[|got| - 1].id;
      assert last == buffer[|got| - 1].id;
      forall e | e in got ensures e.id <= last {
        var i :| 0 <= i < |got| && got[i] == e;
        assert buffer[i] == e;
      }
      AfterAllBefore(got, buffer[|got|..], last);
      assert got + buffer[|got|..] == buffer;
    }
  }

  /** In every run that spares the job, what the client assembled over any
      reconnections is an unbroken beginning of the job's log. */
  lemma {:induction false} ClientHasPrefix(w: World, ops: seq<Op>, job: string)
    requires Valid(w) && Got(w, job) <= Buffer(w.log, job) && Spared(w, ops, job)
    ensures Got(Run(w, ops), job) <= Buffer(Run(w, ops).log, job)
    decreases |ops|
  {
    if ops != [] {
      StepKeepsValid(w, ops[0]);
      StepKeepsPrefix(w, ops[0], job);
      hide Valid, Step;
      ClientHasPrefix(Step(w, ops[0]), ops[1..], job);
    }
  }

  lemma StepKeepsPrefix(w: World, op: Op, job: string)
    requires Valid(w) && Got(w, job) <= Buffer(w.log, job)
    requires op.Cleanup? ==> !Stale(w.log, job, w.now, op.retention)
    ensures Got(Step(w, op), job) <= Buffer(Step(w, op).log, job)
  {
    hide Valid, Increasing, Step, Buffer, Got;
    if op.Connect? && op.job == job {
      ConnectKeepsPrefix(w, op.count, job);
    } else {
      GotIsSame(w, op, job);
      BufferGrows(w, op, job);
    }
  }

  lemma ConnectKeepsPrefix(w: World, count: nat, job: string)
    requires Valid(w) && Got(w, job) <= Buffer(w.log, job)
    ensures Got(Step(w, Connect(job, count)), job) <= Buffer(Step(w, Connect(job, count)).log, job)
  {
    var got, buffer := Got(w, job), Buffer(w.log, job);
    ReplayIsRest(buffer, got);
    hide After, Valid;
    PartOfRest(buffer, |got|, count);
    assert buffer[..|got|] == got;
  }

  lemma PartOfRest(buffer: seq<Event>, n: nat, count: nat)
    requires n <= |buffer|
    ensures var rest := buffer[n..];
            buffer[..n] + (if count <= |rest| then rest[..count] else rest) <= buffer
  {
  }

  lemma GotIsSame(w: World, op: Op, job: string)
    requires !(op.Connect? && op.job == job)
    ensures Got(Step(w, op), job) == Got(w, job)
  {
    hide After;
  }

  lemma BufferGrows(w: World, op: Op, job: string)
    requires op.Cleanup? ==> !Stale(w.log, job, w.now, op.retention)
    ensures Buffer(w.log, job) <= Buffer(Step(w, op).log, job)
  {
    hide After, Received;
  }

  /** A client that reconnects with its last id and reads to the end has
      exactly the log: no gap, no duplicate. */
  lemma ReconnectCompletes(ops: seq<Op>, job: string, count: nat)
    requires Spared(START, ops, job)
    requires var w := Run(START, ops); count >= |Buffer(w.log, job)| - |Got(w, job)|
    ensures var w := Run(START, ops);
            Got(Step(w, Connect(job, count)), job) == Buffer(w.log, job)
  {
    hide Run, Valid, Increasing, After, Spared;
    BuffersIncrease(ops, job);
    assert Valid(START) by { StartIsValid(); }
    ClientHasPrefix(START, ops, job);
    var w := Run(START, ops);
    ReplayIsRest(Buffer(w.log, job), Got(w, job));
    assert Got(w, job) + Buffer(w.log, job)[|Got(w, job)|..] == Buffer(w.log, job);
  }

  /** A connection that reads some events before it drops delivers exactly the next
      ones of the log. */
  lemma ConnectionDelivers(ops: seq<Op>, job: string, count: nat)
    requires Spared(START, ops, job)
    ensures var w := Run(START, ops);
            var got, log := |Got(w, job)|, Buffer(w.log, job);
            && got <= |log|
            && Got(Step(w, Connect(job, count)), job) == log[..if got + count <= |log| then got + count else |log|]
  {
    hide Run, Valid, Increasing, After, Spared;
    BuffersIncrease(ops, job);
    assert Valid(START) by { StartIsValid(); }
    ClientHasPrefix(START, ops, job);
    var w := Run(START, ops);
    var got, log := Got(w, job), Buffer(w.log, job);
    ReplayIsRest(log, got);
    assert got == log[..|got|];
    if count <= |log| - |got| {
      assert log[|got|..][..count] == log[|got|..|got| + count];
      assert log[..|got|] + log[|got|..|got| + count] == log[..|got| + count];
    } else {
      assert log[..|got|] + log[|got|..] == log[..|log|];
    }
  }

  // ----- one emitter per job -----------------------------------------------

  function PendingOf(pending: seq<Event>, job: string): seq<Event> {
    if pending == [] then []
    else (if pending[0].job == job then [pending[0]] else []) + PendingOf(pending[1..], job)
  }

  /** The job has one emitter: it takes a number only after its last event was
      appended. */
  predicate OneEmitter(w: World, ops: seq<Op>, job: string)
    decreases |ops|
  {
    ops != [] ==>
      && (ops[0].Take? && ops[0].job == job ==> PendingOf(w.pending, job) == [])
      && OneEmitter(Step(w, ops[0]), ops[1..], job)
  }

  /** The buffer holds consecutive numbers up to the counter, but for the one
      still pending, and `removed` of the numbers were cleaned up. */
  ghost predicate Consecutive(w: World, job: string, removed: nat) {
    var buffer, pending := Buffer(w.log, job), PendingOf(w.pending, job);
    && |pending| <= 1
    && (pending != [] ==> pending[0].id == Counter(w.counters, job))
    && Counter(w.counters, job) == removed + |buffer| + |pending|
    && (forall i | 0 <= i < |buffer| :: buffer[i].id == removed + i + 1)
    && (forall e | e in w.rejected :: e.job != job)
  }

  lemma {:induction false} PendingOfAppend(a: seq<Event>, b: seq<Event>, job: string)
    ensures PendingOf(a + b, job) == PendingOf(a, job) + PendingOf(b, job)
  {
    if a == [] {
      assert a + b == b;
    } else {
      PendingOfAppend(a[1..], b, job);
      assert (a + b)[1..] == a[1..] + b && (a + b)[0] == a[0];
      Reassociate(if a[0].job == job then [a[0]] else [], PendingOf(a[1..], job), PendingOf(b, job));
    }
  }

  lemma PendingWithout(pending: seq<Event>, i: nat, job: string)
    requires i < |pending|
    ensures PendingOf(pending, job)
            == PendingOf(pending[..i], job) + (if pending[i].job == job then [pending[i]] else [])
               + PendingOf(pending[i + 1..], job)
    ensures PendingOf(pending[..i] + pending[i + 1..], job)
            == PendingOf(pending[..i], job) + PendingOf(pending[i + 1..], job)
  {
    PendingOfAppend(pending[..i], pending[i + 1..], job);
    PendingOfAppend(pending[..i], pending[i..], job);
    assert pending[..i] + pending[i..] == pending;
    assert pending[i..][1..] == pending[i + 1..];
  }

  function RemovedAfter(w: World, op: Op, job: string, removed: nat): nat {
    if op.Cleanup? && Stale(w.log, job, w.now, op.retention) then removed + |Buffer(w.log, job)| else removed
  }

  lemma TakeKeepsConsecutive(w: World, j: string, body: Body, job: string, removed: nat)
    requires Consecutive(w, job, removed)
    requires j == job ==> PendingOf(w.pending, job) == []
    ensures Consecutive(Step(w, Take(j, body)), job, removed)
  {
    var e := Next(w.counters, j, body);
    PendingOfAppend(w.pending, [e], job);
    assert PendingOf([e], job) == (if e.job == job then [e] else []) + PendingOf([e][1..], job);
  }

  lemma AppendKeepsConsecutive(w: World, i: nat, job: string, removed: nat)
    requires Consecutive(w, job, removed) && i < |w.pending|
    ensures Consecutive(Step(w, Append(i)), job, removed)
  {
    hide PendingOf;
    PendingWithout(w.pending, i, job);
    var front, back := PendingOf(w.pending[..i], job), PendingOf(w.pending[i + 1..], job);
    if w.pending[i].job == job {
      OneOfThree(front, w.pending[i], back);
    } else {
      assert front + [] + back == front + back;
    }
  }

  lemma OneOfThree(front: seq<Event>, e: Event, back: seq<Event>)
    requires |front + [e] + back| <= 1
    ensures front == [] && back == [] && (front + [e] + back)[0] == e
  {
  }

  lemma StepKeepsConsecutive(w: World, op: Op, job: string, removed: nat)
    requires Valid(w) && Consecutive(w, job, removed)
    requires op.Take? && op.job == job ==> PendingOf(w.pending, job) == []
    ensures Consecutive(Step(w, op), job, RemovedAfter(w, op, job, removed))
  {
    if op.Take? {
      TakeKeepsConsecutive(w, op.job, op.body, job, removed);
    } else if op.Append? && op.i < |w.pending| {
      AppendKeepsConsecutive(w, op.i, job, removed);
    } else {
      hide Issued, Increasing, PendingOf;
    }
  }

  function RemovedIn(w: World, ops: seq<Op>, job: string, removed: nat): nat
    decreases |ops|
  {
    if ops == [] then removed
    else RemovedIn(Step(w, ops[0]), ops[1..], job, RemovedAfter(w, ops[0], job, removed))
  }

  /** With one emitter no append of the job is ever rejected, and its numbers
      are consecutive, whatever the other jobs and the cleanups do. */
  lemma {:induction false} OneEmitterIsConsecutive(w: World, ops: seq<Op>, job: string, removed: nat)
    requires Valid(w) && Consecutive(w, job, removed) && OneEmitter(w, ops, job)
    ensures Consecutive(Run(w, ops), job, RemovedIn(w, ops, job, removed))
    decreases |ops|
  {
    hide Consecutive;
    if ops != [] {
      StepKeepsConsecutive(w, ops[0], job, removed);
      StepKeepsValid(w, ops[0]);
      hide Valid, Step;
      OneEmitterIsConsecutive(Step(w, ops[0]), ops[1..], job, RemovedAfter(w, ops[0], job, removed));
    }
  }

  lemma {:induction false} SparedRemovesNothing(w: World, ops: seq<Op>, job: string, removed: nat)
    requires Spared(w, ops, job)
    ensures RemovedIn(w, ops, job, removed) == removed
    decreases |ops|
  {
    if ops != [] {
      hide Step, Stale;
      SparedRemovesNothing(Step(w, ops[0]), ops[1..], job, removed);
    }
  }

  /** From the start, one emitter's events are numbered 1..n as long as no
      cleanup removes them, and none is lost. */
  lemma OneEmitterNumbersFromOne(ops: seq<Op>, job: string)
    requires OneEmitter(START, ops, job) && Spared(START, ops, job)
    ensures var w := Run(START, ops);
            && (forall i | 0 <= i < |Buffer(w.log, job)| :: Buffer(w.log, job)[i].id == i + 1)
            && Counter(w.counters, job) == |Buffer(w.log, job)| + |PendingOf(w.pending, job)|
            && (forall e | e in w.rejected :: e.job != job)
  {
    hide Run, OneEmitter, Spared;
    OneEmitterIsConsecutive(START, ops, job, 0);
    SparedRemovesNothing(START, ops, job, 0);
  }

  // ----- several emitters --------------------------------------------------

  /** Where an issued number can be. */
  ghost predicate Placed(w: World, job: string, id: int) {
    || (exists e :: e in w.pending && e.job == job && e.id == id)
    || (exists e :: e in w.rejected && e.job == job && e.id == id)
    || (exists e :: e in Buffer(w.log, job) && e.id == id)
  }

  ghost predicate AllPlaced(w: World, job: string) {
    forall id | 1 <= id <= Counter(w.counters, job) :: Placed(w, job, id)
  }

  lemma StepKeepsPlaced(w: World, op: Op, job: string, id: int)
    requires Placed(w, job, id) && (op.Cleanup? ==> !Stale(w.log, job, w.now, op.retention))
    ensures Placed(Step(w, op), job, id)
  {
    var w1 := Step(w, op);
    if e :| e in w.pending && e.job == job && e.id == id {
      if op.Append? && op.i < |w.pending| {
        if e == w.pending[op.i] {
          if InOrder(Buffer(w.log, job), e) {
            assert Buffer(w1.log, job)[|Buffer(w.log, job)|] == e;
          } else {
            assert w1.rejected[|w.rejected|] == e;
          }
        } else {
          var k :| 0 <= k < |w.pending| && w.pending[k] == e;
          assert w1.pending[if k < op.i then k else k - 1] == e;
        }
      } else if op.Take? {
        assert e in w1.pending;
      }
    } else if e :| e in w.rejected && e.job == job && e.id == id {
      assert e in w1.rejected;
    } else {
      var e :| e in Buffer(w.log, job) && e.id == id;
      assert e in Buffer(w1.log, job);
    }
  }

  /** In every interleaving that spares the job, every number handed out is in
      the log, still pending, or was rejected: none vanishes. */
  lemma {:induction false} NumbersAreAccountedFor(w: World, ops: seq<Op>, job: string)
    requires AllPlaced(w, job) && Spared(w, ops, job)
    ensures AllPlaced(Run(w, ops), job)
    decreases |ops|
  {
    if ops != [] {
      var w1 := Step(w, ops[0]);
      forall id | 1 <= id <= Counter(w1.counters, job) ensures Placed(w1, job, id) {
        if id <= Counter(w.counters, job) {
          StepKeepsPlaced(w, ops[0], job, id);
        } else {
          assert w1.pending[|w.pending|].id == id;
        }
      }
      hide Step, Placed;
      NumbersAreAccountedFor(w1, ops[1..], job);
    }
  }

  /** The buffer refuses an event exactly when it holds a number as high. */
  lemma RejectedIffOvertaken(w: World, i: nat)
    requires Valid(w) && i < |w.pending|
    ensures var e := w.pending[i];
            !AppendTo(w.log, e, w.now).1 <==> exists x :: x in Buffer(w.log, e.job) && x.id >= e.id
  {
    var e := w.pending[i];
    var buffer := Buffer(w.log, e.job);
    if buffer != [] {
      assert buffer[|buffer| - 1] in buffer;
    }
    if x :| x in buffer && x.id >= e.id {
      var k :| 0 <= k < |buffer| && buffer[k] == x;
      assert Increasing(buffer);
    }
  }

  /** So two emitters of one job can lose an event: the one that took its number
      first but appends second. */
  lemma OvertakenIsRejected(w: World, i: nat, j: nat)
    requires i < j < |w.pending|
    requires w.pending[i].job == w.pending[j].job && w.pending[i].id < w.pending[j].id
    requires InOrder(Buffer(w.log, w.pending[j].job), w.pending[j])
    ensures var w1 := Step(w, Append(j)); var w2 := Step(w1, Append(i));
            && Buffer(w2.log, w.pending[j].job) == Buffer(w.log, w.pending[j].job) + [w.pending[j]]
            && w2.rejected == w.rejected + [w.pending[i]]
  {
    var w1 := Step(w, Append(j));
    assert w1.pending[i] == w.pending[i];
  }

  /** A run from the start in which that happens: both numbers are taken, then the
      second is appended first. */
  lemma OvertakenFromStart(job: string, first: Body, second: Body)
    ensures var w := Run(START, [Take(job, first), Take(job, second), Append(1), Append(0)]);
            w.rejected == [Event(1, job, first)] && Buffer(w.log, job) == [Event(2, job, second)]
  {
    var ops := [Take(job, first), Take(job, second), Append(1), Append(0)];
    var w := BothTaken(job, first, second);
    OvertakenIsRejected(w, 0, 1);
    assert ops[1..][1..] == ops[2..] && ops[2..][1..] == ops[3..] && ops[3..][1..] == [];
    hide Step;
    assert Run(START, ops) == Run(Step(START, ops[0]), ops[1..]) == Run(w, ops[2..])
           == Run(Step(w, ops[2]), ops[3..]) == Run(Step(Step(w, ops[2]), ops[3]), []);
  }

  lemma BothTaken(job: string, first: Body, second: Body) returns (w: World)
    ensures w == Step(Step(START, Take(job, first)), Take(job, second))
    ensures w.pending == [Event(1, job, first), Event(2, job, second)]
    ensures Buffer(w.log, job) == [] && w.rejected == []
  {
    var w1 := Step(START, Take(job, first));
    assert w1.pending == [Event(1, job, first)];
    w := Step(w1, Take(job, second));
  }
}
