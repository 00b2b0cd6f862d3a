/** Metering of billable responses: rows deduplicated by key, and a bounded
    buffer that takes over while the database fails. */
module Metering {

  datatype Option<+T> = None | Some(value: T)

  datatype Event = Event(requestId: string, tenant: string, endpoint: string, time: real, status: int,
                         tokens: Option<int>, key: string)

  /** How an insert comes back: done, failed, or done although an error was
      reported. */
  datatype Outcome = Stored | Failed | Unconfirmed

  const PREFIX := "meter:"

  function DedupKey(requestId: string): string { PREFIX + requestId }

  predicate IsBillable(status: int) { 200 <= status <= 299 }

  /** Two requests never share a key. */
  lemma DedupKeyIsInjective(a: string, b: string)
    ensures DedupKey(a) == DedupKey(b) <==> a == b
    ensures DedupKey(a) == "meter:" + a
  {
    assert DedupKey(a)[|PREFIX|..] == a && DedupKey(b)[|PREFIX|..] == b;
  }

  // ----- the table and the buffer ------------------------------------------

  predicate HasKey(events: seq<Event>, key: string) { exists i | 0 <= i < |events| :: events[i].key == key }

  /** INSERT ... ON CONFLICT (dedup_key) DO NOTHING */
  function Insert(rows: seq<Event>, e: Event): (r: seq<Event>)
    ensures rows <= r
  {
    if HasKey(rows, e.key) then rows else rows + [e]
  }

  function InsertIf(rows: seq<Event>, e: Event, outcome: Outcome): seq<Event> {
    if outcome.Failed? then rows else Insert(rows, e)
  }

  /** Filled to four fifths. */
  predicate NearlyFull(size: nat, maxSize: nat) { maxSize == 0 || 5 * size >= 4 * maxSize }

  /** deque.append with a maximum length. */
  function Append(buffer: seq<Event>, e: Event, maxSize: nat): seq<Event> {
    if maxSize == 0 then [] else if |buffer| >= maxSize then buffer[1..] + [e] else buffer + [e]
  }

  /** What the append pushes out. */
  function Evicted(buffer: seq<Event>, e: Event, maxSize: nat): seq<Event> {
    if maxSize == 0 then [e] else if |buffer| >= maxSize then [buffer[0]] else []
  }

  class Table {
    var rows: seq<Event>

    constructor ()
      ensures rows == []
    {
      rows := [];
    }

    method Execute(e: Event, outcome: Outcome) returns (ok: bool)
      modifies this
      ensures rows == InsertIf(old(rows), e, outcome) && ok == outcome.Stored?
    {
      if !outcome.Failed? { rows := Insert(rows, e); }
      ok := outcome.Stored?;
    }
  }

  class DurableMeteringBuffer {
    const maxSize: nat
    var buffer: seq<Event>
    var degradedAuditEmitted: bool
    /** Calls of the audit emitter. */
    var audits: nat

    constructor (maxSize: nat := 10000)
      ensures this.maxSize == maxSize && buffer == [] && !degradedAuditEmitted && audits == 0
    {
      this.maxSize, buffer, degradedAuditEmitted, audits := maxSize, [], false, 0;
    }

    method BufferEvent(e: Event)
      requires |buffer| <= maxSize
      modifies this
      ensures buffer == Append(old(buffer), e, maxSize)
      ensures var fires := !old(degradedAuditEmitted) && NearlyFull(|buffer|, maxSize);
              && degradedAuditEmitted == (old(degradedAuditEmitted) || fires)
              && audits == old(audits) + if fires then 1 else 0
    {
      if maxSize > 0 {
        if |buffer| == maxSize { buffer := buffer[1..]; }
        buffer := buffer + [e];
      }
      if !degradedAuditEmitted && (maxSize == 0 || 5 * |buffer| >= 4 * maxSize) {
        degradedAuditEmitted := true;
        audits := audits + 1;
      }
    }

    /** A flush that nothing interrupts; `outcomes` are the database's. */
    method Flush(table: Table, outcomes: nat -> Outcome) returns (flushed: nat)
      requires table as object != this
      modifies this, table
      ensures flushed == Confirmed(|old(buffer)|, outcomes)
      ensures buffer == old(buffer)[flushed..]
      ensures table.rows == AfterFlush(old(table.rows), old(buffer), outcomes, |old(buffer)|)
      ensures degradedAuditEmitted == (old(degradedAuditEmitted) && buffer != []) && audits == old(audits)
    {
      flushed := 0;
      ghost var start := buffer;
      while buffer != []
        invariant flushed <= |start| && buffer == start[flushed..]
        invariant forall i | 0 <= i < flushed :: outcomes(i).Stored?
        invariant table.rows == InsertAll(old(table.rows), start[..flushed])
        invariant degradedAuditEmitted == old(degradedAuditEmitted) && audits == old(audits)
        decreases |buffer|
      {
        var event := buffer[0];
        var ok := table.Execute(event, outcomes(flushed));
        InsertNext(old(table.rows), start, flushed);
        if !ok {
          StopsHere(|start|, outcomes, flushed);
          break;
        }
        buffer := buffer[1..];
        flushed := flushed + 1;
      }
      if buffer == [] {
        StopsHere(|start|, outcomes, flushed);
        degradedAuditEmitted := false;
      }
    }
  }

  class MeteringService {
    const table: Table
    const buffer: DurableMeteringBuffer?

    constructor (table: Table, buffer: DurableMeteringBuffer?)
      ensures this.table == table && this.buffer == buffer
    {
      this.table, this.buffer := table, buffer;
    }

    /** `emit_metering_event` */
    method EmitMeteringEvent(requestId: string, tenant: string, endpoint: string, status: int, tokens: Option<int>,
                             now: real, outcome: Outcome)
      requires buffer != null ==> |buffer.buffer| <= buffer.maxSize
      modifies table, (if buffer == null then {} else {buffer})
      ensures var e := Event(requestId, tenant, endpoint, now, status, tokens, DedupKey(requestId));
              && table.rows == (if 200 <= status <= 299 then InsertIf(old(table.rows), e, outcome) else old(table.rows))
              && (buffer != null ==>
                    var w := World(old(table.rows), old(buffer.buffer), old(buffer.degradedAuditEmitted),
                                   old(buffer.audits), [], [], []);
                    var w1 := Step(w, Emit(requestId, tenant, endpoint, status, tokens, now, outcome), buffer.maxSize);
                    && table.rows == w1.rows && buffer.buffer == w1.buffer
                    && buffer.degradedAuditEmitted == w1.degraded && buffer.audits == w1.audits)
    {
      if !(200 <= status <= 299) { return; }
      var e := Event(requestId, tenant, endpoint, now, status, tokens, DedupKey(requestId));
      var ok := table.Execute(e, outcome);
      if !ok && buffer != null {
        buffer.BufferEvent(e);
      }
    }
  }

  // ----- an undisturbed flush ----------------------------------------------

  function InsertAll(rows: seq<Event>, events: seq<Event>): seq<Event>
    decreases |events|
  {
    if events == [] then rows else Insert(InsertAll(rows, events[..|events| - 1]), events[|events| - 1])
  }

  /** How many inserts are confirmed before one is not. */
  function Confirmed(n: nat, outcomes: nat -> Outcome): (k: nat)
    ensures k <= n
  {
    if n == 0 then 0
    else
      var k := Confirmed(n - 1, outcomes);
      if k == n - 1 && outcomes(n - 1).Stored? then n else k
  }

  /** The table after: the confirmed events, and perhaps the one that reported
      an error. */
  function AfterFlush(rows: seq<Event>, buffer: seq<Event>, outcomes: nat -> Outcome, n: nat): seq<Event>
    requires n <= |buffer|
  {
    var k := Confirmed(n, outcomes);
    var done := InsertAll(rows, buffer[..k]);
    if k < n then InsertIf(done, buffer[k], outcomes(k)) else done
  }

  lemma {:induction false} StopsHere(n: nat, outcomes: nat -> Outcome, k: nat)
    requires k <= n && forall i | 0 <= i < k :: outcomes(i).Stored?
    requires k < n ==> !outcomes(k).Stored?
    ensures Confirmed(n, outcomes) == k
  {
    if n > 0 {
      StopsHere(n - 1, outcomes, if k < n then k else n - 1);
    }
  }

  lemma InsertNext(rows: seq<Event>, events: seq<Event>, i: nat)
    requires i < |events|
    ensures InsertAll(rows, events[..i + 1]) == Insert(InsertAll(rows, events[..i]), events[i])
  {
    assert events[..i + 1][..i] == events[..i];
  }

  // ----- interleaved runs --------------------------------------------------

  /** `flights` are the events that flushes have peeked at and are inserting, one
      for each flush under way. The rest is history: the billable events, and
      those pushed out at capacity. */
  datatype World = World(rows: seq<Event>, buffer: seq<Event>, degraded: bool, audits: nat, flights: seq<Event>,
                         billed: seq<Event>, dropped: seq<Event>)

  datatype Op =
    | Emit(requestId: string, tenant: string, endpoint: string, status: int, tokens: Option<int>, time: real,
           outcome: Outcome)
    /** Another flush begins. */
    | FlushStart
    /** The insert of the i-th flush comes back; it goes on to the next event or
        ends. */
    | FlushNext(i: nat, outcome: Outcome)

  const START := World([], [], false, 0, [], [], [])

  function MadeEvent(op: Op): Event
    requires op.Emit?
  {
    Event(op.requestId, op.tenant, op.endpoint, op.time, op.status, op.tokens, DedupKey(op.requestId))
  }

  function Buffered(w: World, e: Event, maxSize: nat): World {
    var buffer := Append(w.buffer, e, maxSize);
    var fires := !w.degraded && NearlyFull(|buffer|, maxSize);
    w.(buffer := buffer,
       degraded := w.degraded || fires,
       audits := w.audits + (if fires then 1 else 0),
       dropped := w.dropped + Evicted(w.buffer, e, maxSize))
  }

  /** The flights but for one. */
  function Others(flights: seq<Event>, i: nat): seq<Event>
    requires i < |flights|
  {
    flights[..i] + flights[i + 1..]
  }

  /** A flush goes on after a confirmed insert: it pops whatever is in front, and
      peeks at the next event or ends. With nothing to pop it ends. */
  function Popped(w: World, i: nat): World
    requires i < |w.flights|
  {
    if |w.buffer| <= 1 then w.(buffer := [], flights := Others(w.flights, i), degraded := false)
    else w.(buffer := w.buffer[1..], flights := w.flights[i := w.buffer[1]])
  }

  function Step(w: World, op: Op, maxSize: nat): World {
    match op
    case Emit(_, _, _, status, _, _, outcome) =>
      if !IsBillable(status) then w
      else
        var e := MadeEvent(op);
        var w1 := w.(rows := InsertIf(w.rows, e, outcome), billed := w.billed + [e]);
        if outcome.Stored? then w1 else Buffered(w1, e, maxSize)
    case FlushStart =>
      if w.buffer == [] then w.(degraded := false) else w.(flights := w.flights + [w.buffer[0]])
    case FlushNext(i, outcome) =>
      if i >= |w.flights| then w
      else
        var w1 := w.(rows := InsertIf(w.rows, w.flights[i], outcome));
        if outcome.Stored? then Popped(w1, i)
        else w1.(flights := Others(w.flights, i), degraded := w.degraded && w.buffer != [])
  }

  function Run(w: World, ops: seq<Op>, maxSize: nat): World
    decreases |ops|
  {
    if ops == [] then w else Run(Step(w, ops[0], maxSize), ops[1..], maxSize)
  }

  // ----- what every run keeps ----------------------------------------------

  predicate DistinctKeys(rows: seq<Event>) { forall i, j | 0 <= i < j < |rows| :: rows[i].key != rows[j].key }

  predicate Valid(w: World, maxSize: nat) {
    && |w.buffer| <= maxSize
    && DistinctKeys(w.rows)
    && (w.buffer != [] && NearlyFull(|w.buffer|, maxSize) ==> w.degraded)
  }

  predicate KeyedEvent(e: Event) { e.key == DedupKey(e.requestId) && IsBillable(e.status) }

  /** Everything anywhere is a billable event that was emitted. */
  ghost predicate Genuine(w: World) {
    && (forall e | e in w.billed :: KeyedEvent(e))
    && (forall e | e in w.rows :: e in w.billed)
    && (forall e | e in w.buffer :: e in w.billed)
    && (forall e | e in w.flights :: e in w.billed)
  }

  lemma StepKeepsValid(w: World, op: Op, maxSize: nat)
    requires Valid(w, maxSize)
    ensures Valid(Step(w, op, maxSize), maxSize)
  {
    hide NearlyFull;
    if op.Emit? && IsBillable(op.status) && !op.outcome.Stored? {
      assert |Append(w.buffer, MadeEvent(op), maxSize)| <= maxSize;
    } else if op.FlushNext? {
      SmallerIsEmptier(w, maxSize);
    }
  }

  lemma SmallerIsEmptier(w: World, maxSize: nat)
    ensures |w.buffer| >= 1 && NearlyFull(|w.buffer| - 1, maxSize) ==> NearlyFull(|w.buffer|, maxSize)
  {
  }

  lemma StepKeepsGenuine(w: World, op: Op, maxSize: nat)
    requires Genuine(w)
    ensures Genuine(Step(w, op, maxSize))
  {
    hide DedupKey, NearlyFull, HasKey;
  }

  lemma {:induction false} RunKeeps(w: World, ops: seq<Op>, maxSize: nat)
    requires Valid(w, maxSize) && Genuine(w)
    ensures Valid(Run(w, ops, maxSize), maxSize) && Genuine(Run(w, ops, maxSize))
    decreases |ops|
  {
    hide Valid, Genuine, Step;
    if ops != [] {
      StepKeepsValid(w, ops[0], maxSize);
      StepKeepsGenuine(w, ops[0], maxSize);
      RunKeeps(Step(w, ops[0], maxSize), ops[1..], maxSize);
    }
  }

  lemma StartIsValid(maxSize: nat)
    ensures Valid(START, maxSize) && Genuine(START)
  {
  }

  /** In every run, whatever is retried or reported wrongly, the table holds at
      most one row for a request, and only billable ones that were emitted. */
  lemma OneRowPerRequest(ops: seq<Op>, maxSize: nat)
    ensures var w := Run(START, ops, maxSize);
            && (forall i, j | 0 <= i < j < |w.rows| :: w.rows[i].requestId != w.rows[j].requestId)
            && (forall e | e in w.rows :: e in w.billed && 200 <= e.status <= 299)
  {
    hide Run, DedupKey;
    StartIsValid(maxSize);
    RunKeeps(START, ops, maxSize);
    var w := Run(START, ops, maxSize);
    forall i, j | 0 <= i < j < |w.rows| ensures w.rows[i].requestId != w.rows[j].requestId {
      assert w.rows[i] in w.billed && w.rows[j] in w.billed;
    }
  }

  // ----- where keys are ----------------------------------------------------

  lemma HasKeyGrows(a: seq<Event>, b: seq<Event>, key: string)
    ensures HasKey(a + b, key) <==> HasKey(a, key) || HasKey(b, key)
  {
    if i :| 0 <= i < |a| && a[i].key == key { assert (a + b)[i] == a[i]; }
    if i :| 0 <= i < |b| && b[i].key == key { assert (a + b)[|a| + i] == b[i]; }
  }

  lemma OneKey(e: Event, key: string)
    ensures HasKey([e], key) <==> e.key == key
    ensures !HasKey([], key)
  {
    assert [e][0] == e;
  }

  lemma FrontKey(buffer: seq<Event>, key: string)
    requires buffer != []
    ensures HasKey(buffer, key) <==> buffer[0].key == key || HasKey(buffer[1..], key)
  {
    assert buffer == [buffer[0]] + buffer[1..];
    HasKeyGrows([buffer[0]], buffer[1..], key);
    OneKey(buffer[0], key);
  }

  lemma FlightKey(flights: seq<Event>, i: nat, e: Event, key: string)
    requires i < |flights|
    ensures HasKey(flights, key) <==> flights[i].key == key || HasKey(Others(flights, i), key)
    ensures HasKey(flights[i := e], key) <==> e.key == key || HasKey(Others(flights, i), key)
  {
    hide HasKey;
    var front, back := flights[..i], flights[i + 1..];
    assert flights == front + ([flights[i]] + back) && flights[i := e] == front + ([e] + back);
    HasKeyGrows(front, [flights[i]] + back, key);
    HasKeyGrows([flights[i]], back, key);
    HasKeyGrows(front, [e] + back, key);
    HasKeyGrows([e], back, key);
    HasKeyGrows(front, back, key);
    OneKey(flights[i], key);
    OneKey(e, key);
  }

  lemma InsertHasKey(rows: seq<Event>, e: Event, outcome: Outcome, key: string)
    ensures HasKey(InsertIf(rows, e, outcome), key) <==> HasKey(rows, key) || (!outcome.Failed? && e.key == key)
  {
    HasKeyGrows(rows, [e], key);
    assert [e][0] == e;
  }

  lemma AppendHasKey(buffer: seq<Event>, e: Event, maxSize: nat, key: string)
    requires |buffer| <= maxSize
    ensures HasKey(Append(buffer, e, maxSize), key) || HasKey(Evicted(buffer, e, maxSize), key)
            <==> HasKey(buffer, key) || e.key == key
  {
    hide HasKey;
    OneKey(e, key);
    if maxSize > 0 && |buffer| >= maxSize {
      FrontKey(buffer, key);
      OneKey(buffer[0], key);
      HasKeyGrows(buffer[1..], [e], key);
    } else {
      HasKeyGrows(buffer, [e], key);
    }
  }

  /** The key is stored, buffered, was dropped at capacity, or is in the hands of a
      flush. */
  predicate Kept(w: World, key: string) {
    HasKey(w.rows, key) || HasKey(w.buffer, key) || HasKey(w.dropped, key) || HasKey(w.flights, key)
  }

  ghost predicate AllKept(w: World) { forall e | e in w.billed :: Kept(w, e.key) }

  /** The event that the step removes or gives up, if any. */
  function Risked(w: World, op: Op): Option<Event> {
    if !op.FlushNext? || op.i >= |w.flights| then None
    else if op.outcome.Stored? then (if w.buffer == [] then None else Some(w.buffer[0]))
    else if op.outcome.Failed? then Some(w.flights[op.i])
    else None
  }

  /** The step loses an event: a confirmed insert pops one that is not the one
      inserted, or a failed one gives up its event, and the key of that event is
      nowhere else. */
  predicate Loses(w: World, op: Op) {
    var e := Risked(w, op);
    && e.Some?
    && !HasKey(w.rows, e.value.key) && !HasKey(w.dropped, e.value.key)
    && !HasKey(Others(w.flights, op.i), e.value.key)
    && if op.outcome.Stored? then w.flights[op.i].key != e.value.key && !HasKey(w.buffer[1..], e.value.key)
       else !HasKey(w.buffer, e.value.key)
  }

  lemma EmitKeeps(w: World, op: Op, maxSize: nat, key: string)
    requires |w.buffer| <= maxSize && op.Emit?
    ensures Kept(Step(w, op, maxSize), key) <==> Kept(w, key) || (IsBillable(op.status) && MadeEvent(op).key == key)
  {
    hide HasKey, Append, Evicted, NearlyFull, InsertIf, DedupKey;
    if IsBillable(op.status) {
      var made := MadeEvent(op);
      InsertHasKey(w.rows, made, op.outcome, key);
      AppendHasKey(w.buffer, made, maxSize, key);
      HasKeyGrows(w.dropped, Evicted(w.buffer, made, maxSize), key);
    }
  }

  lemma StartKeeps(w: World, maxSize: nat, key: string)
    ensures Kept(Step(w, FlushStart, maxSize), key) <==> Kept(w, key)
  {
    hide HasKey;
    if w.buffer != [] {
      HasKeyGrows(w.flights, [w.buffer[0]], key);
      OneKey(w.buffer[0], key);
      FrontKey(w.buffer, key);
    }
  }

  /** A flush keeps every key but the one of the event it loses. */
  lemma NextKeeps(w: World, op: Op, maxSize: nat, key: string)
    requires op.FlushNext?
    ensures Kept(Step(w, op, maxSize), key) <==> Kept(w, key) && !(Loses(w, op) && Risked(w, op).value.key == key)
  {
    hide HasKey, InsertIf;
    if op.i < |w.flights| {
      InsertHasKey(w.rows, w.flights[op.i], op.outcome, key);
      FlightKey(w.flights, op.i, if |w.buffer| > 1 then w.buffer[1] else w.flights[op.i], key);
      OneKey(w.flights[op.i], key);
      if w.buffer != [] { FrontKey(w.buffer, key); }
      if |w.buffer| > 1 { FrontKey(w.buffer[1..], key); }
      if |w.buffer| == 1 { assert w.buffer[1..] == []; }
    }
  }

  lemma StepKeeps(w: World, op: Op, maxSize: nat, key: string)
    requires |w.buffer| <= maxSize
    ensures Kept(Step(w, op, maxSize), key)
            <==> (Kept(w, key) && !(Loses(w, op) && Risked(w, op).value.key == key))
                 || (op.Emit? && IsBillable(op.status) && MadeEvent(op).key == key)
  {
    hide Kept, Step, MadeEvent;
    match op
    case Emit(_, _, _, _, _, _, _) =>
      EmitKeeps(w, op, maxSize, key);
      hide Loses;
      assert !Loses(w, op) by { NothingRisked(w, op); }
    case FlushStart =>
      StartKeeps(w, maxSize, key);
      hide Loses;
      assert !Loses(w, op) by { NothingRisked(w, op); }
    case FlushNext(_, _) =>
      NextKeeps(w, op, maxSize, key);
  }

  lemma NothingRisked(w: World, op: Op)
    requires !op.FlushNext?
    ensures !Loses(w, op)
  {
  }

  // ----- when nothing is lost ----------------------------------------------

  predicate LossFree(w: World, ops: seq<Op>, maxSize: nat)
    decreases |ops|
  {
    ops != [] ==> !Loses(w, ops[0]) && LossFree(Step(w, ops[0], maxSize), ops[1..], maxSize)
  }

  /** Every billable request has an id of its own. */
  predicate FreshIds(w: World, ops: seq<Op>, maxSize: nat)
    decreases |ops|
  {
    ops != [] ==>
      && (ops[0].Emit? && IsBillable(ops[0].status) ==> !HasKey(w.billed, MadeEvent(ops[0]).key))
      && FreshIds(Step(w, ops[0], maxSize), ops[1..], maxSize)
  }

  lemma StepKeepsAll(w: World, op: Op, maxSize: nat)
    requires |w.buffer| <= maxSize && AllKept(w) && !Loses(w, op)
    ensures AllKept(Step(w, op, maxSize))
  {
    hide Kept, Loses, HasKey, InsertIf, Append, Evicted, NearlyFull, DedupKey;
    var w1 := Step(w, op, maxSize);
    forall e | e in w1.billed ensures Kept(w1, e.key) {
      StepKeeps(w, op, maxSize, e.key);
    }
  }

  lemma {:induction false} LossFreeKeepsAll(w: World, ops: seq<Op>, maxSize: nat)
    requires Valid(w, maxSize) && AllKept(w) && LossFree(w, ops, maxSize)
    ensures AllKept(Run(w, ops, maxSize))
    decreases |ops|
  {
    if ops != [] {
      StepKeepsValid(w, ops[0], maxSize);
      StepKeepsAll(w, ops[0], maxSize);
      hide Step, Loses, AllKept;
      LossFreeKeepsAll(Step(w, ops[0], maxSize), ops[1..], maxSize);
    }
  }

  /** What is lost stays lost: its request is not made again. */
  lemma {:induction false} LostStaysLost(w: World, ops: seq<Op>, maxSize: nat, e: Event)
    requires Valid(w, maxSize) && e in w.billed && !Kept(w, e.key) && FreshIds(w, ops, maxSize)
    ensures !AllKept(Run(w, ops, maxSize))
    decreases |ops|
  {
    if ops != [] {
      StepKeepsValid(w, ops[0], maxSize);
      StepKeeps(w, ops[0], maxSize, e.key);
      BilledHasKey(w, e);
      BilledStays(w, ops[0], maxSize);
      hide Step, Kept, HasKey, MadeEvent, Loses;
      LostStaysLost(Step(w, ops[0], maxSize), ops[1..], maxSize, e);
    }
  }

  lemma BilledHasKey(w: World, e: Event)
    requires e in w.billed
    ensures HasKey(w.billed, e.key)
  {
  }

  lemma BilledStays(w: World, op: Op, maxSize: nat)
    ensures w.billed <= Step(w, op, maxSize).billed
  {
    hide HasKey, InsertIf, Append, Evicted, NearlyFull, DedupKey;
  }

  lemma RiskedIsBilled(w: World, op: Op)
    requires Genuine(w) && Loses(w, op)
    ensures Risked(w, op).value in w.billed && Kept(w, Risked(w, op).value.key)
  {
    hide KeyedEvent;
    var e := Risked(w, op).value;
    if op.outcome.Stored? {
      assert w.buffer[0] == e;
    } else {
      assert w.flights[op.i] == e;
    }
  }

  /** From any point of a run with ids of their own, everything billed is kept to
      the end exactly when no step loses an event. */
  lemma {:induction false} AllKeptIffLossFree(w: World, ops: seq<Op>, maxSize: nat)
    requires Valid(w, maxSize) && Genuine(w) && AllKept(w) && FreshIds(w, ops, maxSize)
    ensures AllKept(Run(w, ops, maxSize)) <==> LossFree(w, ops, maxSize)
    decreases |ops|
  {
    if ops != [] {
      var w1 := Step(w, ops[0], maxSize);
      StepKeepsValid(w, ops[0], maxSize);
      StepKeepsGenuine(w, ops[0], maxSize);
      hide Step, Valid, Genuine, Kept;
      if Loses(w, ops[0]) {
        var e := Risked(w, ops[0]).value;
        RiskedIsBilled(w, ops[0]);
        StepKeepsBound(w, maxSize);
        StepKeeps(w, ops[0], maxSize, e.key);
        BilledStays(w, ops[0], maxSize);
        NothingRiskedByEmit(w, ops[0]);
        LostStaysLost(w1, ops[1..], maxSize, e);
      } else {
        hide Loses;
        StepKeepsBound(w, maxSize);
        StepKeepsAll(w, ops[0], maxSize);
        AllKeptIffLossFree(w1, ops[1..], maxSize);
      }
    }
  }

  lemma StepKeepsBound(w: World, maxSize: nat)
    requires Valid(w, maxSize)
    ensures |w.buffer| <= maxSize
  {
  }

  lemma NothingRiskedByEmit(w: World, op: Op)
    requires Loses(w, op)
    ensures !op.Emit?
  {
  }

  /** One flush at a time, and no append that overflows the buffer meanwhile. */
  predicate Quiet(w: World, ops: seq<Op>, maxSize: nat)
    decreases |ops|
  {
    ops != [] ==>
      && (ops[0].FlushStart? ==> w.flights == [])
      && (ops[0].Emit? && IsBillable(ops[0].status) && !ops[0].outcome.Stored? && |w.buffer| >= maxSize ==>
            w.flights == [])
      && Quiet(Step(w, ops[0], maxSize), ops[1..], maxSize)
  }

  /** The one flush under way holds the front of the buffer. */
  predicate Aligned(w: World) {
    |w.flights| <= 1 && (w.flights != [] ==> w.buffer != [] && w.buffer[0] == w.flights[0])
  }

  lemma QuietStep(w: World, op: Op, maxSize: nat)
    requires |w.buffer| <= maxSize && Aligned(w)
    requires op.FlushStart? ==> w.flights == []
    requires op.Emit? && IsBillable(op.status) && !op.outcome.Stored? && |w.buffer| >= maxSize ==> w.flights == []
    ensures Aligned(Step(w, op, maxSize)) && !Loses(w, op)
  {
    if op.FlushNext? && op.i < |w.flights| {
      FrontKey(w.buffer, w.buffer[0].key);
    }
  }

  lemma {:induction false} QuietIsLossFree(w: World, ops: seq<Op>, maxSize: nat)
    requires Valid(w, maxSize) && Aligned(w) && Quiet(w, ops, maxSize)
    ensures LossFree(w, ops, maxSize) && Aligned(Run(w, ops, maxSize))
    decreases |ops|
  {
    if ops != [] {
      StepKeepsValid(w, ops[0], maxSize);
      QuietStep(w, ops[0], maxSize);
      hide Step, Loses, Aligned;
      QuietIsLossFree(Step(w, ops[0], maxSize), ops[1..], maxSize);
    }
  }

  /** Stored, buffered, or dropped at capacity. */
  ghost predicate Accounted(w: World) {
    forall e | e in w.billed :: HasKey(w.rows, e.key) || HasKey(w.buffer, e.key) || HasKey(w.dropped, e.key)
  }

  /** In a run after which no flush is under way and whose billable requests have
      ids of their own, each billable event's key is stored, buffered or was
      dropped at capacity if and only if no step loses an event. */
  lemma EveryBillableEventIsKeptIff(ops: seq<Op>, maxSize: nat)
    requires FreshIds(START, ops, maxSize) && Run(START, ops, maxSize).flights == []
    ensures Accounted(Run(START, ops, maxSize)) <==> LossFree(START, ops, maxSize)
  {
    hide Run, LossFree, FreshIds, HasKey;
    StartIsValid(maxSize);
    AllKeptIffLossFree(START, ops, maxSize);
    NoFlightIsAccounted(Run(START, ops, maxSize));
  }

  lemma NoFlightIsAccounted(w: World)
    requires w.flights == []
    ensures Accounted(w) <==> AllKept(w)
  {
  }

  /** In every run with one flush at a time and no append that overflows the buffer
      meanwhile, each billable event's key is stored, buffered or was dropped at
      capacity. */
  lemma EveryBillableEventIsKept(ops: seq<Op>, maxSize: nat)
    requires Quiet(START, ops, maxSize)
    ensures Accounted(Run(START, ops, maxSize)) && LossFree(START, ops, maxSize)
  {
    hide Run, LossFree, Quiet, HasKey;
    StartIsValid(maxSize);
    QuietIsLossFree(START, ops, maxSize);
    LossFreeKeepsAll(START, ops, maxSize);
    AlignedIsAccounted(Run(START, ops, maxSize));
  }

  lemma AlignedIsAccounted(w: World)
    requires Aligned(w) && AllKept(w)
    ensures Accounted(w)
  {
    forall e | e in w.billed
      ensures HasKey(w.rows, e.key) || HasKey(w.buffer, e.key) || HasKey(w.dropped, e.key)
    {
      assert Kept(w, e.key);
      if w.flights != [] { FrontKey(w.buffer, e.key); }
    }
  }

  // ----- runs that lose an event -------------------------------------------

  /** With room for one event, an append during a flush makes the flush remove an
      event it has not stored, which is then nowhere. */
  lemma OverflowDuringFlushLoses(a: Op, b: Op)
    requires a.Emit? && IsBillable(a.status) && a.outcome.Failed?
    requires b.Emit? && IsBillable(b.status) && b.outcome.Failed? && a.requestId != b.requestId
    ensures var w := Run(START, [a, FlushStart, b, FlushNext(0, Stored)], 1);
            MadeEvent(b) in w.billed && !Kept(w, DedupKey(b.requestId))
  {
    DedupKeyIsInjective(a.requestId, b.requestId);
    OverflowRun(a, b);
    var w := Run(START, [a, FlushStart, b, FlushNext(0, Stored)], 1);
    assert w.billed[1] == MadeEvent(b);
    OneKey(MadeEvent(a), DedupKey(b.requestId));
    hide Run, DedupKey;
  }

  lemma OverflowRun(a: Op, b: Op)
    requires a.Emit? && IsBillable(a.status) && a.outcome.Failed?
    requires b.Emit? && IsBillable(b.status) && b.outcome.Failed?
    ensures var w := Run(START, [a, FlushStart, b, FlushNext(0, Stored)], 1);
            w.rows == [MadeEvent(a)] && w.buffer == [] && w.dropped == [MadeEvent(a)] && w.flights == []
            && w.billed == [MadeEvent(a), MadeEvent(b)]
  {
    hide DedupKey;
    var ea, eb := MadeEvent(a), MadeEvent(b);
    var w1 := Step(START, a, 1);
    assert w1 == World([], [ea], true, 1, [], [ea], []);
    var w2 := Step(w1, FlushStart, 1);
    assert w2 == w1.(flights := [ea]);
    var w3 := Step(w2, b, 1);
    assert w3 == World([], [eb], true, 1, [ea], [ea, eb], [ea]);
    hide MadeEvent, Buffered;
    var w4 := Step(w3, FlushNext(0, Stored), 1);
    assert w4 == World([ea], [], false, 1, [], [ea, eb], [ea]);
    FourSteps(START, [a, FlushStart, b, FlushNext(0, Stored)], 1);
  }

  lemma FourSteps(w: World, ops: seq<Op>, maxSize: nat)
    requires |ops| >= 4
    ensures Run(w, ops, maxSize)
            == Run(Step(Step(Step(Step(w, ops[0], maxSize), ops[1], maxSize), ops[2], maxSize), ops[3], maxSize),
                   ops[4..], maxSize)
    ensures |ops| == 4 ==>
              Run(w, ops, maxSize)
              == Step(Step(Step(Step(w, ops[0], maxSize), ops[1], maxSize), ops[2], maxSize), ops[3], maxSize)
  {
    hide Step;
    var w1 := Step(w, ops[0], maxSize);
    var w2 := Step(w1, ops[1], maxSize);
    var w3 := Step(w2, ops[2], maxSize);
    var w4 := Step(w3, ops[3], maxSize);
    assert ops[1..][1..] == ops[2..] && ops[2..][1..] == ops[3..] && ops[3..][1..] == ops[4..];
    assert Run(w, ops, maxSize) == Run(w1, ops[1..], maxSize) == Run(w2, ops[2..], maxSize)
           == Run(w3, ops[3..], maxSize) == Run(w4, ops[4..], maxSize);
  }

  /** Two flushes that both peek at the first event lose the second without any
      overflow: one pops it unstored, and the other's insert of it fails. */
  lemma OverlappingFlushesLose(a: Op, b: Op)
    requires a.Emit? && IsBillable(a.status) && a.outcome.Failed?
    requires b.Emit? && IsBillable(b.status) && b.outcome.Failed? && a.requestId != b.requestId
    ensures var ops := [a, b, FlushStart, FlushStart, FlushNext(0, Stored), FlushNext(1, Stored), FlushNext(0, Failed)];
            var w := Run(START, ops, 2);
            MadeEvent(b) in w.billed && !Kept(w, DedupKey(b.requestId))
  {
    var ops := [a, b, FlushStart, FlushStart, FlushNext(0, Stored), FlushNext(1, Stored), FlushNext(0, Failed)];
    DedupKeyIsInjective(a.requestId, b.requestId);
    OverlapRun(a, b);
    var w := Run(START, ops, 2);
    assert w.billed[1] == MadeEvent(b);
    OneKey(MadeEvent(a), DedupKey(b.requestId));
    hide Run, DedupKey;
  }

  lemma OverlapRun(a: Op, b: Op)
    requires a.Emit? && IsBillable(a.status) && a.outcome.Failed?
    requires b.Emit? && IsBillable(b.status) && b.outcome.Failed?
    ensures var ops := [a, b, FlushStart, FlushStart, FlushNext(0, Stored), FlushNext(1, Stored), FlushNext(0, Failed)];
            var w := Run(START, ops, 2);
            w.rows == [MadeEvent(a)] && w.buffer == [] && w.dropped == [] && w.flights == []
            && w.billed == [MadeEvent(a), MadeEvent(b)]
  {
    hide DedupKey;
    var ops := [a, b, FlushStart, FlushStart, FlushNext(0, Stored), FlushNext(1, Stored), FlushNext(0, Failed)];
    var w2 := OverlapStart(a, b);
    OverlapEnd(MadeEvent(a), MadeEvent(b));
    FourSteps(START, ops, 2);
    assert ops[4..] == [FlushNext(0, Stored), FlushNext(1, Stored), FlushNext(0, Failed)];
  }

  lemma OverlapStart(a: Op, b: Op) returns (w: World)
    requires a.Emit? && IsBillable(a.status) && a.outcome.Failed?
    requires b.Emit? && IsBillable(b.status) && b.outcome.Failed?
    ensures w == Step(Step(Step(Step(START, a, 2), b, 2), FlushStart, 2), FlushStart, 2)
    ensures var ea, eb := MadeEvent(a), MadeEvent(b);
            w == World([], [ea, eb], true, 1, [ea, ea], [ea, eb], [])
  {
    hide DedupKey;
    var ea, eb := MadeEvent(a), MadeEvent(b);
    var w1 := Step(START, a, 2);
    assert w1 == World([], [ea], false, 0, [], [ea], []);
    var w2 := Step(w1, b, 2);
    assert w2 == World([], [ea, eb], true, 1, [], [ea, eb], []);
    hide MadeEvent, Buffered;
    var w3 := Step(w2, FlushStart, 2);
    assert w3 == w2.(flights := [ea]);
    w := Step(w3, FlushStart, 2);
    assert w == w2.(flights := [ea, ea]);
  }

  lemma OverlapEnd(ea: Event, eb: Event)
    ensures var w := World([], [ea, eb], true, 1, [ea, ea], [ea, eb], []);
            Run(w, [FlushNext(0, Stored), FlushNext(1, Stored), FlushNext(0, Failed)], 2)
            == World([ea], [], false, 1, [], [ea, eb], [])
  {
    var ops := [FlushNext(0, Stored), FlushNext(1, Stored), FlushNext(0, Failed)];
    var w := World([], [ea, eb], true, 1, [ea, ea], [ea, eb], []);
    var w1 := Step(w, ops[0], 2);
    assert w1 == World([ea], [eb], true, 1, [eb, ea], [ea, eb], []);
    assert HasKey([ea], ea.key) by { OneKey(ea, ea.key); }
    var w2 := Step(w1, ops[1], 2);
    assert w2 == World([ea], [], false, 1, [eb], [ea, eb], []);
    var w3 := Step(w2, ops[2], 2);
    assert w3 == World([ea], [], false, 1, [], [ea, eb], []);
    assert ops[1..][1..] == ops[2..] && ops[2..][1..] == [];
    hide Step;
    assert Run(w, ops, 2) == Run(w1, ops[1..], 2) == Run(w2, ops[2..], 2) == Run(w3, [], 2);
  }

  // ----- the degraded audit ------------------------------------------------

  /** The step ends a flush with an empty buffer. */
  predicate Empties(w: World, op: Op) {
    || (op.FlushStart? && w.buffer == [])
    || (op.FlushNext? && op.i < |w.flights| && |w.buffer| <= if op.outcome.Stored? then 1 else 0)
  }

  predicate NeverEmpties(w: World, ops: seq<Op>, maxSize: nat)
    decreases |ops|
  {
    ops != [] ==> !Empties(w, ops[0]) && NeverEmpties(Step(w, ops[0], maxSize), ops[1..], maxSize)
  }

  lemma AuditStep(w: World, op: Op, maxSize: nat)
    requires !Empties(w, op)
    ensures var w1 := Step(w, op, maxSize);
            (w.degraded ==> w1.degraded) && w1.audits == w.audits + if w1.degraded && !w.degraded then 1 else 0
  {
    hide InsertIf, Append, Evicted, NearlyFull;
  }

  /** Between flushes that empty the buffer the audit fires at most once: exactly
      when the degraded mark is set, which then stays. */
  lemma {:induction false} AuditFiresOnce(w: World, ops: seq<Op>, maxSize: nat)
    requires NeverEmpties(w, ops, maxSize)
    ensures var w1 := Run(w, ops, maxSize);
            && (w.degraded ==> w1.degraded)
            && w1.audits == w.audits + if w1.degraded && !w.degraded then 1 else 0
    decreases |ops|
  {
    if ops != [] {
      AuditStep(w, ops[0], maxSize);
      hide Step, Empties;
      AuditFiresOnce(Step(w, ops[0], maxSize), ops[1..], maxSize);
    }
  }

  /** The audit fires for a billable response whose insert is not confirmed, if it
      has not fired before and the append leaves the buffer at four fifths or more,
      and for nothing else. */
  lemma AuditFiresIff(w: World, op: Op, maxSize: nat)
    ensures var w1 := Step(w, op, maxSize);
            (w1.audits == w.audits || w1.audits == w.audits + 1)
            && (w1.audits == w.audits + 1 <==>
                  && op.Emit? && 200 <= op.status <= 299 && !op.outcome.Stored?
                  && !w.degraded && 5 * |w1.buffer| >= 4 * maxSize)
  {
    hide InsertIf, Append, Evicted;
    if op.Emit? { AppendLength(w, op, maxSize); }
  }

  lemma AppendLength(w: World, op: Op, maxSize: nat)
    requires op.Emit?
    ensures maxSize == 0 ==> |Append(w.buffer, MadeEvent(op), maxSize)| == 0
  {
  }

  /** A response is billed, with its own data, if and only if its status is between
      200 and 299; its event is inserted unless that fails, and buffered unless that
      is confirmed. */
  lemma EmitEffect(w: World, op: Op, maxSize: nat)
    requires op.Emit?
    ensures var w1 := Step(w, op, maxSize);
            var e := Event(op.requestId, op.tenant, op.endpoint, op.time, op.status, op.tokens, "meter:" + op.requestId);
            if !(200 <= op.status <= 299) then w1 == w
            else
              && w1.billed == w.billed + [e] && w1.flights == w.flights
              && w1.rows == (if op.outcome.Failed? || HasKey(w.rows, e.key) then w.rows else w.rows + [e])
              && (op.outcome.Stored? ==> w1.buffer == w.buffer && w1.dropped == w.dropped)
              && (!op.outcome.Stored? && |w.buffer| < maxSize ==> w1.buffer == w.buffer + [e] && w1.dropped == w.dropped)
              && (!op.outcome.Stored? && |w.buffer| == maxSize > 0 ==>
                    w1.buffer == w.buffer[1..] + [e] && w1.dropped == w.dropped + [w.buffer[0]])
              && (!op.outcome.Stored? && maxSize == 0 ==> w1.buffer == [] && w1.dropped == w.dropped + [e])
  {
    hide HasKey;
  }

  /** And it has fired whenever the buffer is four fifths full. */
  lemma NearlyFullIsAudited(ops: seq<Op>, maxSize: nat)
    ensures var w := Run(START, ops, maxSize);
            w.buffer != [] && 5 * |w.buffer| >= 4 * maxSize ==> w.degraded && w.audits >= 1
  {
    hide Run, Genuine;
    StartIsValid(maxSize);
    RunKeeps(START, ops, maxSize);
    DegradedWasAudited(START, ops, maxSize);
  }

  lemma {:induction false} DegradedWasAudited(w: World, ops: seq<Op>, maxSize: nat)
    requires w.degraded ==> w.audits >= 1
    ensures Run(w, ops, maxSize).degraded ==> Run(w, ops, maxSize).audits >= 1
    decreases |ops|
  {
    if ops != [] {
      hide InsertIf, Append, Evicted, NearlyFull;
      DegradedWasAudited(Step(w, ops[0], maxSize), ops[1..], maxSize);
    }
  }

  // ----- flushes in first-in order -----------------------------------------

  function Nexts(outcomes: nat -> Outcome, n: nat): (ops: seq<Op>)
    ensures |ops| == n
  {
    if n == 0 then [] else Nexts(outcomes, n - 1) + [FlushNext(0, outcomes(n - 1))]
  }

  lemma {:induction false} RunAppend(w: World, a: seq<Op>, b: seq<Op>, maxSize: nat)
    ensures Run(w, a + b, maxSize) == Run(Run(w, a, maxSize), b, maxSize)
    decreases |a|
  {
    hide Step;
    if a == [] {
      assert a + b == b;
    } else {
      assert (a + b)[1..] == a[1..] + b && (a + b)[0] == a[0];
      RunAppend(Step(w, a[0], maxSize), a[1..], b, maxSize);
    }
  }

  lemma RunOne(w: World, op: Op, maxSize: nat)
    ensures Run(w, [op], maxSize) == Step(w, op, maxSize)
  {
    assert [op][1..] == [];
  }

  /** A flush that began at `w` and had `n` answers has got to `w1`. */
  predicate FlushedTo(w: World, w1: World, outcomes: nat -> Outcome, n: nat)
    requires n <= |w.buffer|
  {
    var k := Confirmed(n, outcomes);
    && w1.buffer == w.buffer[k..]
    && w1.rows == AfterFlush(w.rows, w.buffer, outcomes, n)
    && w1.flights == (if k == n && n < |w.buffer| then [w.buffer[n]] else [])
    && w1.degraded == (w.degraded && w1.buffer != [])
  }

  lemma FlushedStep(w: World, w1: World, outcomes: nat -> Outcome, n: nat, maxSize: nat)
    requires 0 < n <= |w.buffer| && FlushedTo(w, w1, outcomes, n - 1)
    ensures FlushedTo(w, Step(w1, FlushNext(0, outcomes(n - 1)), maxSize), outcomes, n)
  {
    hide Insert, AfterFlush, InsertIf;
    FlushGoesOn(w.rows, w.buffer, outcomes, n);
  }

  /** A flush between which nothing else happens moves the events in first-in
      order up to the first insert that is not confirmed, as `Flush` does. */
  lemma {:induction false} UndisturbedFlush(w: World, outcomes: nat -> Outcome, n: nat, maxSize: nat)
    requires w.flights == [] && n <= |w.buffer|
    ensures FlushedTo(w, Run(w, [FlushStart] + Nexts(outcomes, n), maxSize), outcomes, n)
    decreases n
  {
    hide Step, FlushedTo;
    if n == 0 {
      assert [FlushStart] + Nexts(outcomes, 0) == [FlushStart];
      RunOne(w, FlushStart, maxSize);
      FlushBegins(w, outcomes, maxSize);
    } else {
      UndisturbedFlush(w, outcomes, n - 1, maxSize);
      var op, front := FlushNext(0, outcomes(n - 1)), [FlushStart] + Nexts(outcomes, n - 1);
      assert [FlushStart] + Nexts(outcomes, n) == front + [op];
      RunAppend(w, front, [op], maxSize);
      RunOne(Run(w, front, maxSize), op, maxSize);
      FlushedStep(w, Run(w, front, maxSize), outcomes, n, maxSize);
    }
  }

  lemma FlushBegins(w: World, outcomes: nat -> Outcome, maxSize: nat)
    requires w.flights == []
    ensures FlushedTo(w, Step(w, FlushStart, maxSize), outcomes, 0)
  {
    hide Insert, NearlyFull, Append, Evicted;
    NothingFlushed(w.rows, w.buffer, outcomes);
    hide AfterFlush;
    assert w.buffer[0..] == w.buffer;
  }

  lemma NothingFlushed(rows: seq<Event>, buffer: seq<Event>, outcomes: nat -> Outcome)
    ensures AfterFlush(rows, buffer, outcomes, 0) == rows
  {
    hide Insert;
    assert buffer[..0] == [];
  }

  lemma FlushGoesOn(rows: seq<Event>, buffer: seq<Event>, outcomes: nat -> Outcome, n: nat)
    requires 0 < n <= |buffer|
    ensures AfterFlush(rows, buffer, outcomes, n)
            == if Confirmed(n - 1, outcomes) == n - 1
               then InsertIf(AfterFlush(rows, buffer, outcomes, n - 1), buffer[n - 1], outcomes(n - 1))
               else AfterFlush(rows, buffer, outcomes, n - 1)
  {
    InsertNext(rows, buffer, n - 1);
  }
}
