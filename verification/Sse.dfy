/** Server-sent events: what the server writes, however it is cut into chunks
    and padded with keepalives, the client reads back event by event (the
    format of section 9.2 of the WHATWG HTML Living Standard). */
module Sse {
  import opened Text

  datatype Option<+T> = None | Some(value: T)

  /** An event as the server holds it; `data` is its serialized payload. */
  datatype Event = Event(kind: string, data: string, id: Option<string>, retry: Option<nat>)

  /** An event as the client yields it; `data` is the joined data text. */
  datatype Received = Received(kind: string, data: string, id: Option<int>)

  const KEEPALIVE := ": keepalive\n\n"

  // ----- the server --------------------------------------------------------

  function DataLine(line: string): string { "data: " + line }

  function EventLines(e: Event): (lines: seq<string>)
    ensures |lines| >= 2
  {
    (if e.id.Some? then ["id: " + e.id.value] else [])
    + (if e.retry.Some? then ["retry: " + NatText(e.retry.value)] else [])
    + ["event: " + e.kind]
    + Map(DataLine, Split(e.data, '\n'))
  }

  /** `SSEEvent.format`. */
  method Format(e: Event) returns (text: string)
    ensures text == Join(EventLines(e), "\n") + "\n\n"
  {
    hide Map, Split, Join, NatText, EventLines, DataLine;
    var lines: seq<string> := [];
    if e.id.Some? { lines := lines + ["id: " + e.id.value]; }
    if e.retry.Some? { lines := lines + ["retry: " + NatText(e.retry.value)]; }
    lines := lines + ["event: " + e.kind];
    ghost var head := lines;
    var pieces := Split(e.data, '\n');
    for i := 0 to |pieces|
      invariant lines == head + Map(DataLine, pieces[..i])
    {
      MapNext(pieces, i);
      lines := lines + ["data: " + pieces[i]];
    }
    assert pieces[..|pieces|] == pieces;
    EventLinesAre(e);
    assert lines == EventLines(e);
    text := Join(lines, "\n") + "\n\n";
  }

  lemma MapNext(pieces: seq<string>, i: nat)
    requires i < |pieces|
    ensures Map(DataLine, pieces[..i + 1]) == Map(DataLine, pieces[..i]) + ["data: " + pieces[i]]
  {
    assert pieces[..i + 1] == pieces[..i] + [pieces[i]];
    MapAppend(DataLine, pieces[..i], [pieces[i]]);
  }

  lemma EventLinesAre(e: Event)
    ensures EventLines(e) ==
            (if e.id.Some? then ["id: " + e.id.value] else [])
            + (if e.retry.Some? then ["retry: " + NatText(e.retry.value)] else [])
            + ["event: " + e.kind]
            + Map(DataLine, Split(e.data, '\n'))
  {
  }

  function EventText(e: Event): string { Join(EventLines(e), "\n") + "\n\n" }

  /** What a stream has sent: `next` events were taken from the generator, the
      last of them perhaps still awaited. */
  function Sent(events: seq<Event>, done: seq<bool>, next: nat): seq<string>
    requires next <= |events|
    decreases |done|
  {
    if done == [] then []
    else if !done[0] then [KEEPALIVE] + Sent(events, done[1..], next)
    else if next == |events| then []
    else [EventText(events[next])] + Sent(events, done[1..], next + 1)
  }

  /** How many events went out. */
  function Delivered(events: seq<Event>, done: seq<bool>, next: nat): (n: nat)
    requires next <= |events|
    ensures next <= n <= |events|
    decreases |done|
  {
    if done == [] || (done[0] && next == |events|) then next
    else if done[0] then Delivered(events, done[1..], next + 1)
    else Delivered(events, done[1..], next)
  }

  lemma SentStep(events: seq<Event>, done: seq<bool>, next: nat)
    requires next <= |events| && done != []
    ensures Sent(events, done, next) ==
            if !done[0] then [KEEPALIVE] + Sent(events, done[1..], next)
            else if next == |events| then []
            else [EventText(events[next])] + Sent(events, done[1..], next + 1)
  {
  }

  lemma SentNothing(events: seq<Event>, next: nat)
    requires next <= |events|
    ensures Sent(events, [], next) == []
  {
  }

  lemma EventTextIs(e: Event)
    ensures EventText(e) == Join(EventLines(e), "\n") + "\n\n"
  {
  }

  class Stream {
    const events: seq<Event>
    var taken: nat
    var awaited: Option<nat>
    var closed: bool

    constructor (events: seq<Event>)
      ensures this.events == events && taken == 0 && awaited == None && !closed
    {
      this.events, taken, awaited, closed := events, 0, None, false;
    }

    /** `SSEStream.stream`, with `done` saying for each wait whether the awaited
        event was ready or the keepalive interval ran out. */
    method Run(done: seq<bool>) returns (out: seq<string>)
      requires taken == 0 && awaited == None && !closed
      modifies this
      ensures out == Sent(events, done, 0)
    {
      hide Sent, EventText, EventLines;
      out := [];
      var i := 0;
      ghost var index := 0;
      ghost var left := Sent(events, done, 0);
      while !closed && i < |done|
        invariant 0 <= i <= |done| && 0 <= index <= |events| && taken <= |events| + 1
        invariant !closed ==> if awaited == None then taken == index else awaited == Some(index) && taken == index + 1
        invariant left == if closed then [] else Sent(events, done[i..], index)
        invariant out + left == Sent(events, done, 0)
      {
        if awaited == None {
          awaited := Some(taken);
          taken := taken + 1;
        }
        assert done[i..][1..] == done[i + 1..];
        SentStep(events, done[i..], index);
        if done[i] {
          var at := awaited.value;
          awaited := None;
          if at == |events| {
            closed := true;
            left := [];
          } else {
            var text := Format(events[at]);
            EventTextIs(events[at]);
            index := index + 1;
            left := Sent(events, done[i + 1..], index);
            MoveOne(out, text, left);
            out := out + [text];
          }
        } else {
          left := Sent(events, done[i + 1..], index);
          MoveOne(out, KEEPALIVE, left);
          out := out + [KEEPALIVE];
        }
        i := i + 1;
      }
      if !closed {
        assert done[i..] == [];
        SentNothing(events, index);
      }
      assert left == [] && out + [] == out;
      closed := true;
    }
  }

  lemma MoveOne(out: seq<string>, next: string, left: seq<string>)
    ensures out + ([next] + left) == out + [next] + left
  {
  }

  // ----- the client --------------------------------------------------------

  /** The lines of a text; an unfinished last line counts if it is not empty. */
  function LinesOf(text: string): seq<string> {
    var parts := Split(text, '\n');
    if parts[|parts| - 1] == "" then parts[..|parts| - 1] else parts
  }

  /** `readLines`, chunk by chunk. */
  method ReadLines(chunks: seq<string>) returns (lines: seq<string>)
    ensures lines == LinesOf(Concat(chunks))
  {
    hide Split, Concat;
    lines := [];
    var buffer := "";
    assert Split(Concat(chunks[..0]), '\n') == [""] by { NothingRead(); }
    for i := 0 to |chunks|
      invariant Split(Concat(chunks[..i]), '\n') == lines + [buffer]
    {
      ConcatNext(chunks, i);
      SplitNext(Concat(chunks[..i]), chunks[i], lines, buffer);
      var parts := Split(buffer + chunks[i], '\n');
      assert lines + parts == lines + parts[..|parts| - 1] + [parts[|parts| - 1]];
      buffer := parts[|parts| - 1];
      lines := lines + parts[..|parts| - 1];
    }
    assert chunks[..|chunks|] == chunks;
    if buffer != "" { lines := lines + [buffer]; }
  }

  lemma NothingRead()
    ensures Split(Concat([]), '\n') == [""]
  {
  }

  lemma ConcatNext(chunks: seq<string>, i: nat)
    requires i < |chunks|
    ensures Concat(chunks[..i + 1]) == Concat(chunks[..i]) + chunks[i]
  {
    assert chunks[..i + 1] == chunks[..i] + [chunks[i]];
    ConcatAppend(chunks[..i], [chunks[i]]);
    assert Concat([chunks[i]]) == chunks[i] + "";
    assert chunks[i] + "" == chunks[i];
  }

  /** A chunk changes only the unfinished line, which it may break up. */
  lemma SplitNext(before: string, chunk: string, lines: seq<string>, buffer: string)
    requires Split(before, '\n') == lines + [buffer]
    ensures Split(before + chunk, '\n') == lines + Split(buffer + chunk, '\n')
  {
    SplitAppend(before, chunk, '\n');
    PiecesHaveNoSeparator(before, '\n');
    assert buffer == Split(before, '\n')[|lines|];
    SplitNoSep(buffer, '\n');
    SplitAppend(buffer, chunk, '\n');
    SeamFront(lines, [buffer], Split(chunk, '\n'));
  }

  lemma SeamFront(front: seq<string>, p: seq<string>, q: seq<string>)
    requires |p| >= 1 && |q| >= 1
    ensures Seam(front + p, q) == front + Seam(p, q)
  {
  }

  lemma {:induction false} PiecesHaveNoSeparator(s: string, sep: char)
    ensures forall i | 0 <= i < |Split(s, sep)| :: sep !in Split(s, sep)[i]
  {
    if s != "" {
      PiecesHaveNoSeparator(s[1..], sep);
    }
  }

  predicate IsBlank(c: char) { '\t' <= c <= '\r' || c == ' ' }

  function TrimStart(s: string): (r: string)
    ensures |r| <= |s|
  {
    if s != "" && IsBlank(s[0]) then TrimStart(s[1..]) else s
  }

  function TrimEnd(s: string): (r: string)
    ensures |r| <= |s|
  {
    if s != "" && IsBlank(s[|s| - 1]) then TrimEnd(s[..|s| - 1]) else s
  }

  function Trim(s: string): string { TrimEnd(TrimStart(s)) }

  predicate Trimmed(s: string) { s == "" || (!IsBlank(s[0]) && !IsBlank(s[|s| - 1])) }

  function DigitPrefix(s: string): (d: string)
    ensures AllDigits(d)
  {
    if s == "" || !IsDigit(s[0]) then "" else [s[0]] + DigitPrefix(s[1..])
  }

  /** parseInt(s, 10). */
  function ParseInt(s: string): Option<int> {
    var t := TrimStart(s);
    var negative := t != "" && t[0] == '-';
    var digits := DigitPrefix(if t != "" && (t[0] == '-' || t[0] == '+') then t[1..] else t);
    if digits == "" then None else Some(if negative then -(NatValue(digits) as int) else NatValue(digits))
  }

  /** What the line parser remembers between lines. */
  datatype Pending = Pending(kind: string, id: Option<int>, data: seq<string>)

  const NOTHING := Pending("", None, [])

  function Step(p: Pending, line: string): Pending {
    if "event:" <= line then p.(kind := Trim(line[6..]))
    else if "id:" <= line then p.(id := ParseInt(Trim(line[3..])))
    else if "data:" <= line then p.(data := p.data + [Trim(line[5..])])
    else if Completes(p, line) then NOTHING
    else p
  }

  /** The line is blank and something is pending. */
  predicate Completes(p: Pending, line: string) {
    !("event:" <= line) && !("id:" <= line) && !("data:" <= line) &&
    Trim(line) == "" && (p.kind != "" || p.data != [])
  }

  function Yielded(p: Pending): Received { Received(p.kind, Join(p.data, "\n"), p.id) }

  function ParseLines(p: Pending, lines: seq<string>): seq<Received>
    decreases |lines|
  {
    if lines == [] then []
    else (if Completes(p, lines[0]) then [Yielded(p)] else []) + ParseLines(Step(p, lines[0]), lines[1..])
  }

  /** `parseSSELines`, line by line. */
  method ParseSSELines(lines: seq<string>) returns (events: seq<Received>)
    ensures events == ParseLines(NOTHING, lines)
  {
    hide ParseLines, Trim, ParseInt, Join;
    events := [];
    var kind, id: Option<int>, data: seq<string> := "", None, [];
    assert events + ParseLines(NOTHING, lines) == ParseLines(NOTHING, lines);
    for i := 0 to |lines|
      invariant events + ParseLines(Pending(kind, id, data), lines[i..]) == ParseLines(NOTHING, lines)
    {
      var line := lines[i];
      NextLine(events, Pending(kind, id, data), lines, i);
      if "event:" <= line {
        kind := Trim(line[6..]);
      } else if "id:" <= line {
        id := ParseInt(Trim(line[3..]));
      } else if "data:" <= line {
        data := data + [Trim(line[5..])];
      } else if Trim(line) == "" && (kind != "" || |data| > 0) {
        events := events + [Received(kind, Join(data, "\n"), id)];
        kind, id, data := "", None, [];
      }
    }
    assert lines[|lines|..] == [];
    assert ParseLines(Pending(kind, id, data), []) == [] by { NothingToParse(Pending(kind, id, data)); }
  }

  lemma NothingToParse(p: Pending)
    ensures ParseLines(p, []) == []
  {
  }

  lemma NextLine(events: seq<Received>, p: Pending, lines: seq<string>, i: nat)
    requires i < |lines|
    ensures events + ParseLines(p, lines[i..])
            == (if Completes(p, lines[i]) then events + [Yielded(p)] else events)
               + ParseLines(Step(p, lines[i]), lines[i + 1..])
  {
    hide Step, Completes, Yielded;
    assert lines[i..][1..] == lines[i + 1..];
  }

  // ----- lines of what was sent --------------------------------------------

  lemma LinesOfLine(line: string, rest: string)
    requires '\n' !in line
    ensures LinesOf(line + ("\n" + rest)) == [line] + LinesOf(rest)
  {
    SplitNoSep(line, '\n');
    SplitAppend(line, "\n" + rest, '\n');
    assert ("\n" + rest)[1..] == rest;
    var parts := Split(rest, '\n');
    assert Split(line + ("\n" + rest), '\n') == [line + ""] + parts;
    assert line + "" == line;
  }

  /** Joined lines and a blank one are read as those lines and a blank one. */
  lemma {:induction false} LinesOfBlock(lines: seq<string>, rest: string)
    requires lines != [] && forall i | 0 <= i < |lines| :: '\n' !in lines[i]
    ensures LinesOf(Join(lines, "\n") + ("\n\n" + rest)) == lines + [""] + LinesOf(rest)
  {
    hide LinesOf;
    if |lines| == 1 {
      assert lines[0] + ("\n\n" + rest) == lines[0] + ("\n" + ("" + ("\n" + rest)));
      LinesOfLine(lines[0], "" + ("\n" + rest));
      LinesOfLine("", rest);
      assert lines == [lines[0]];
    } else {
      var tail := Join(lines[1..], "\n") + ("\n\n" + rest);
      Shift(lines[0], Join(lines[1..], "\n"), "\n\n" + rest);
      LinesOfLine(lines[0], tail);
      LinesOfBlock(lines[1..], rest);
      assert lines == [lines[0]] + lines[1..];
    }
  }

  lemma Shift(a: string, b: string, c: string)
    ensures a + "\n" + b + c == a + ("\n" + (b + c))
  {
  }

  /** One-line trimmed kind, decimal id, and data of trimmed lines. */
  ghost predicate Sendable(e: Event) {
    && '\n' !in e.kind && Trimmed(e.kind)
    && (e.id.Some? ==> exists n: nat :: e.id.value == NatText(n))
    && forall i | 0 <= i < |Split(e.data, '\n')| :: Trimmed(Split(e.data, '\n')[i])
  }

  /** What the client should make of an event. */
  function AsReceived(e: Event): Received
  {
    Received(e.kind, e.data, if e.id.Some? then ParseInt(e.id.value) else None)
  }

  lemma DigitsHaveNoNewline(s: string)
    requires AllDigits(s)
    ensures '\n' !in s
  {
  }

  lemma EventLinesHaveNoNewline(e: Event)
    requires Sendable(e)
    ensures forall i | 0 <= i < |EventLines(e)| :: '\n' !in EventLines(e)[i]
  {
    hide Trimmed;
    PiecesHaveNoSeparator(e.data, '\n');
    if e.id.Some? {
      var n: nat :| e.id.value == NatText(n);
      DigitsHaveNoNewline(NatText(n));
      assert '\n' !in "id: " + e.id.value;
    }
    if e.retry.Some? {
      DigitsHaveNoNewline(NatText(e.retry.value));
      assert '\n' !in "retry: " + NatText(e.retry.value);
    }
    assert '\n' !in "event: " + e.kind;
    var pieces := Split(e.data, '\n');
    forall i | 0 <= i < |pieces| ensures '\n' !in Map(DataLine, pieces)[i] {
    }
  }

  // ----- reading the lines of one event ------------------------------------

  lemma TrimKeeps(s: string)
    requires Trimmed(s)
    ensures Trim(s) == s && Trim(" " + s) == s
  {
    assert (" " + s)[1..] == s;
  }

  lemma SpacedField(name: string, value: string)
    requires name in {"event:", "id:", "data:"} && Trimmed(value)
    ensures name <= name + (" " + value) && Trim((name + (" " + value))[|name|..]) == value
  {
    TrimKeeps(value);
    assert (name + (" " + value))[|name|..] == " " + value;
  }

  lemma {:induction false} DigitPrefixOfDigits(s: string)
    requires AllDigits(s)
    ensures DigitPrefix(s) == s
  {
    if s != "" {
      DigitPrefixOfDigits(s[1..]);
      assert s == [s[0]] + s[1..];
    }
  }

  /** A decimal id is read back as its number. */
  lemma ParseDecimal(n: nat)
    ensures ParseInt(NatText(n)) == Some(n as int) && Trimmed(NatText(n))
  {
    var s := NatText(n);
    assert IsDigit(s[0]) && IsDigit(s[|s| - 1]);
    DigitPrefixOfDigits(s);
    NatTextValue(n);
  }

  /** Lines that yield nothing just move the state. */
  lemma SkipLine(p: Pending, line: string, rest: seq<string>)
    requires !Completes(p, line)
    ensures ParseLines(p, [line] + rest) == ParseLines(Step(p, line), rest)
  {
    assert ([line] + rest)[1..] == rest;
  }

  lemma EventLineSteps(p: Pending, kind: string)
    requires Trimmed(kind)
    ensures Step(p, "event: " + kind) == p.(kind := kind) && !Completes(p, "event: " + kind)
  {
    hide Trim, Trimmed;
    SpacedField("event:", kind);
    assert "event: " + kind == "event:" + (" " + kind);
  }

  lemma IdLineSteps(p: Pending, id: string)
    requires Trimmed(id)
    ensures Step(p, "id: " + id) == p.(id := ParseInt(id)) && !Completes(p, "id: " + id)
  {
    hide Trim, ParseInt, Trimmed;
    SpacedField("id:", id);
    assert "id: " + id == "id:" + (" " + id);
    assert ("id: " + id)[0] == 'i';
  }

  lemma DataLineSteps(p: Pending, line: string)
    requires Trimmed(line)
    ensures Step(p, DataLine(line)) == p.(data := p.data + [line]) && !Completes(p, DataLine(line))
  {
    hide Trim, Trimmed;
    SpacedField("data:", line);
    assert DataLine(line) == "data:" + (" " + line);
    assert DataLine(line)[0] == 'd';
  }

  /** Lines the client ignores: they are no field it knows and not blank. */
  lemma OtherLineSteps(p: Pending, line: string)
    requires line != "" && line[0] != 'e' && line[0] != 'i' && line[0] != 'd' && !IsBlank(line[0])
    ensures Step(p, line) == p && !Completes(p, line)
  {
    hide TrimEnd;
    assert TrimStart(line) == line;
    TrimEndKeepsFirst(line);
  }

  lemma {:induction false} TrimEndKeepsFirst(s: string)
    requires s != "" && !IsBlank(s[0])
    ensures TrimEnd(s) != ""
  {
    if IsBlank(s[|s| - 1]) {
      TrimEndKeepsFirst(s[..|s| - 1]);
    }
  }

  lemma MapCons(pieces: seq<string>, rest: seq<string>)
    requires pieces != []
    ensures Map(DataLine, pieces) + rest == [DataLine(pieces[0])] + (Map(DataLine, pieces[1..]) + rest)
  {
  }

  lemma {:induction false} DataLinesParse(p: Pending, pieces: seq<string>, rest: seq<string>)
    requires forall i | 0 <= i < |pieces| :: Trimmed(pieces[i])
    ensures ParseLines(p, Map(DataLine, pieces) + rest) == ParseLines(p.(data := p.data + pieces), rest)
    decreases |pieces|
  {
    hide Trimmed, Step, Completes, DataLine, ParseLines, Map;
    if pieces == [] {
      assert Map(DataLine, pieces) + rest == rest;
      assert p.data + pieces == p.data;
    } else {
      var tail := Map(DataLine, pieces[1..]) + rest;
      var next := p.(data := p.data + [pieces[0]]);
      DataLineSteps(p, pieces[0]);
      MapCons(pieces, rest);
      SkipLine(p, DataLine(pieces[0]), tail);
      DataLinesParse(next, pieces[1..], rest);
      assert p.data + [pieces[0]] + pieces[1..] == p.data + pieces;
    }
  }

  lemma BlankCompletes(p: Pending, rest: seq<string>)
    requires p.data != []
    ensures ParseLines(p, [""] + rest) == [Yielded(p)] + ParseLines(NOTHING, rest)
  {
    assert ([""] + rest)[1..] == rest;
  }

  /** From the kind on. */
  lemma BodyParses(p: Pending, kind: string, data: string, rest: seq<string>)
    requires p.data == [] && Trimmed(kind) && forall i | 0 <= i < |Split(data, '\n')| :: Trimmed(Split(data, '\n')[i])
    ensures ParseLines(p, ["event: " + kind] + (Map(DataLine, Split(data, '\n')) + ([""] + rest)))
            == [Received(kind, data, p.id)] + ParseLines(NOTHING, rest)
  {
    hide Trimmed, Step, Completes, Trim, ParseInt, ParseLines, Map, Join;
    var pieces := Split(data, '\n');
    var q := p.(kind := kind);
    EventLineSteps(p, kind);
    SkipLine(p, "event: " + kind, Map(DataLine, pieces) + ([""] + rest));
    DataLinesParse(q, pieces, [""] + rest);
    assert q.data + pieces == pieces;
    BlankCompletes(q.(data := pieces), rest);
    JoinSplit(data, '\n');
  }

  /** The id line, if any. */
  lemma IdParses(e: Event, rest: seq<string>)
    requires Sendable(e)
    ensures ParseLines(NOTHING, (if e.id.Some? then ["id: " + e.id.value] else []) + rest)
            == ParseLines(NOTHING.(id := AsReceived(e).id), rest)
  {
    hide Step, Completes, Trim, ParseInt, ParseLines, Trimmed;
    if e.id.Some? {
      var n: nat :| e.id.value == NatText(n);
      ParseDecimal(n);
      IdLineSteps(NOTHING, e.id.value);
      SkipLine(NOTHING, "id: " + e.id.value, rest);
    } else {
      assert [] + rest == rest;
    }
  }

  /** The retry line, if any, is ignored. */
  lemma RetryParses(p: Pending, e: Event, rest: seq<string>)
    ensures ParseLines(p, (if e.retry.Some? then ["retry: " + NatText(e.retry.value)] else []) + rest)
            == ParseLines(p, rest)
  {
    hide Step, Completes, Trim, ParseInt, ParseLines;
    if e.retry.Some? {
      OtherLineSteps(p, "retry: " + NatText(e.retry.value));
      SkipLine(p, "retry: " + NatText(e.retry.value), rest);
    } else {
      assert [] + rest == rest;
    }
  }

  lemma EventLinesRegroup(e: Event, rest: seq<string>)
    ensures EventLines(e) + [""] + rest ==
            (if e.id.Some? then ["id: " + e.id.value] else [])
            + ((if e.retry.Some? then ["retry: " + NatText(e.retry.value)] else [])
               + (["event: " + e.kind] + (Map(DataLine, Split(e.data, '\n')) + ([""] + rest))))
  {
    hide Map, Split, NatText;
  }

  /** The lines of an event and a blank one yield that event. */
  lemma EventLinesParse(e: Event, rest: seq<string>)
    requires Sendable(e)
    ensures ParseLines(NOTHING, EventLines(e) + [""] + rest) == [AsReceived(e)] + ParseLines(NOTHING, rest)
  {
    hide Trimmed, ParseLines, EventLines, ParseInt, Map, Split, NatText;
    var body := ["event: " + e.kind] + (Map(DataLine, Split(e.data, '\n')) + ([""] + rest));
    var p := NOTHING.(id := AsReceived(e).id);
    EventLinesRegroup(e, rest);
    IdParses(e, (if e.retry.Some? then ["retry: " + NatText(e.retry.value)] else []) + body);
    RetryParses(p, e, body);
    BodyParses(p, e.kind, e.data, rest);
  }

  lemma KeepaliveParses(rest: seq<string>)
    ensures ParseLines(NOTHING, [": keepalive"] + ([""] + rest)) == ParseLines(NOTHING, rest)
  {
    OtherLineSteps(NOTHING, ": keepalive");
    SkipLine(NOTHING, ": keepalive", [""] + rest);
    SkipLine(NOTHING, "", rest);
  }

  // ----- the round trip ----------------------------------------------------

  ghost predicate AllSendable(events: seq<Event>) { forall i | 0 <= i < |events| :: Sendable(events[i]) }

  lemma EventParses(e: Event, rest: string)
    requires Sendable(e)
    ensures ParseLines(NOTHING, LinesOf(EventText(e) + rest)) == [AsReceived(e)] + ParseLines(NOTHING, LinesOf(rest))
  {
    hide Sendable, EventLines, ParseLines, LinesOf, AsReceived, Join;
    EventLinesHaveNoNewline(e);
    assert EventText(e) + rest == Join(EventLines(e), "\n") + ("\n\n" + rest);
    LinesOfBlock(EventLines(e), rest);
    EventLinesParse(e, LinesOf(rest));
  }

  lemma SilenceParses(rest: string)
    ensures ParseLines(NOTHING, LinesOf(KEEPALIVE + rest)) == ParseLines(NOTHING, LinesOf(rest))
  {
    hide ParseLines, LinesOf;
    assert KEEPALIVE + rest == ": keepalive" + ("\n" + ("" + ("\n" + rest)));
    LinesOfLine(": keepalive", "" + ("\n" + rest));
    LinesOfLine("", rest);
    KeepaliveParses(LinesOf(rest));
  }

  lemma {:induction false} SentParses(events: seq<Event>, done: seq<bool>, next: nat)
    requires next <= |events| && AllSendable(events)
    ensures ParseLines(NOTHING, LinesOf(Concat(Sent(events, done, next))))
            == Map(AsReceived, events[next..Delivered(events, done, next)])
    decreases |done|
  {
    hide Sendable, EventText, ParseLines, LinesOf, AsReceived;
    var n := Delivered(events, done, next);
    if done == [] || (done[0] && next == |events|) {
      NoLines();
      NoEvents();
    } else if done[0] {
      EventParses(events[next], Concat(Sent(events, done[1..], next + 1)));
      SentParses(events, done[1..], next + 1);
      assert events[next..n][1..] == events[next + 1..n];
    } else {
      SilenceParses(Concat(Sent(events, done[1..], next)));
      SentParses(events, done[1..], next);
    }
  }

  lemma NoLines()
    ensures LinesOf("") == []
  {
  }

  lemma NoEvents()
    ensures ParseLines(NOTHING, []) == []
  {
  }

  /** Whatever keepalives stand between the events, the text that was sent is
      parsed to exactly the events that went out. */
  lemma StreamRoundTrip(events: seq<Event>, done: seq<bool>)
    requires AllSendable(events)
    ensures ParseLines(NOTHING, LinesOf(Concat(Sent(events, done, 0))))
            == Map(AsReceived, events[..Delivered(events, done, 0)])
  {
    SentParses(events, done, 0);
  }

  /** A text in chunks of the given sizes, as far as it goes, and one more for what
      is left. */
  function CutUp(text: string, sizes: seq<nat>): (chunks: seq<string>)
    decreases |sizes|
  {
    if sizes == [] then (if text == "" then [] else [text])
    else if sizes[0] > |text| then CutUp(text, sizes[1..])
    else [text[..sizes[0]]] + CutUp(text[sizes[0]..], sizes[1..])
  }

  lemma {:induction false} CutsMakeText(text: string, sizes: seq<nat>)
    ensures Concat(CutUp(text, sizes)) == text
    decreases |sizes|
  {
    if sizes == [] {
      assert text != "" ==> Concat([text]) == text + Concat([text][1..]);
      assert text + "" == text;
    } else if sizes[0] > |text| {
      CutsMakeText(text, sizes[1..]);
    } else {
      CutsMakeText(text[sizes[0]..], sizes[1..]);
      assert text == text[..sizes[0]] + text[sizes[0]..];
    }
  }

  function Sizes(chunks: seq<string>): seq<nat> {
    if chunks == [] then [] else [|chunks[0]|] + Sizes(chunks[1..])
  }

  /** Every way to cut a text is one of these. */
  lemma {:induction false} AnyChunksAreCuts(chunks: seq<string>)
    ensures CutUp(Concat(chunks), Sizes(chunks)) == chunks
  {
    if chunks != [] {
      AnyChunksAreCuts(chunks[1..]);
      var text := Concat(chunks);
      assert text[..|chunks[0]|] == chunks[0] && text[|chunks[0]|..] == Concat(chunks[1..]);
      assert Sizes(chunks)[1..] == Sizes(chunks[1..]);
      assert chunks == [chunks[0]] + chunks[1..];
    }
  }

  /** The server's stream, cut up on its way, read line by line and parsed: the
      client yields exactly the events that went out, in order. */
  method Transmit(stream: Stream, done: seq<bool>, sizes: seq<nat>) returns (received: seq<Received>)
    requires stream.taken == 0 && stream.awaited == None && !stream.closed && AllSendable(stream.events)
    modifies stream
    ensures received == Map(AsReceived, stream.events[..Delivered(stream.events, done, 0)])
  {
    hide Concat, Sent, LinesOf, ParseLines, AsReceived, AllSendable, CutUp;
    var sent := stream.Run(done);
    var chunks := CutUp(Concat(sent), sizes);
    CutsMakeText(Concat(sent), sizes);
    var lines := ReadLines(chunks);
    received := ParseSSELines(lines);
    StreamRoundTrip(stream.events, done);
  }

  // ----- any other stream --------------------------------------------------

  /** What JavaScript trims from a text, as far as it is ASCII. */
  predicate Blanks(s: string) { forall i | 0 <= i < |s| :: s[i] as int in {9, 10, 11, 12, 13, 32} }

  predicate Solid(s: string) {
    s != "" ==> s[0] as int !in {9, 10, 11, 12, 13, 32} && s[|s| - 1] as int !in {9, 10, 11, 12, 13, 32}
  }

  lemma {:induction false} TrimStartAround(front: string, s: string)
    requires Blanks(front) && (s == "" || !IsBlank(s[0]))
    ensures TrimStart(front + s) == s
  {
    if front == "" {
      assert front + s == s;
    } else {
      assert (front + s)[1..] == front[1..] + s;
      TrimStartAround(front[1..], s);
    }
  }

  lemma {:induction false} TrimEndAround(s: string, back: string)
    requires Blanks(back) && (s == "" || !IsBlank(s[|s| - 1]))
    ensures TrimEnd(s + back) == s
  {
    if back == "" {
      assert s + back == s;
    } else {
      assert (s + back)[..|s + back| - 1] == s + back[..|back| - 1];
      TrimEndAround(s, back[..|back| - 1]);
    }
  }

  lemma {:induction false} BlankTrims(s: string)
    requires Blanks(s)
    ensures TrimStart(s) == ""
  {
    if s != "" { BlankTrims(s[1..]); }
  }

  /** A text trims to what stands between its leading and its trailing blanks. */
  lemma TrimIs(front: string, s: string, back: string)
    requires Blanks(front) && Solid(s) && Blanks(back)
    ensures Trim(front + (s + back)) == s
  {
    if s == "" {
      assert Blanks(front + (s + back));
      BlankTrims(front + (s + back));
    } else {
      assert (s + back)[0] == s[0];
      TrimStartAround(front, s + back);
      TrimEndAround(s, back);
    }
  }

  /** An integer is read from a text that begins, behind blanks, with a sign or none
      and a digit; all the digits count and what follows them does not. */
  lemma ParseIntReads(front: string, sign: string, digits: string, rest: string)
    requires Blanks(front) && sign in {"", "+", "-"} && AllDigits(digits) && (rest == "" || !IsDigit(rest[0]))
    requires digits == "" ==> rest == "" || (!IsBlank(rest[0]) && (sign == "" ==> rest[0] != '+' && rest[0] != '-'))
    ensures ParseInt(front + (sign + (digits + rest)))
            == if digits == "" then None
               else Some(if sign == "-" then -(NatValue(digits) as int) else NatValue(digits))
  {
    hide NatValue;
    var t := sign + (digits + rest);
    DigitPrefixStops(digits, rest);
    assert t == "" || !IsBlank(t[0]) by {
      if sign == "" { assert t == digits + rest; }
    }
    TrimStartAround(front, t);
    if sign == "" {
      assert t == digits + rest;
    } else {
      assert t[1..] == digits + rest;
    }
  }

  lemma {:induction false} DigitPrefixStops(digits: string, rest: string)
    requires AllDigits(digits) && (rest == "" || !IsDigit(rest[0]))
    ensures DigitPrefix(digits + rest) == digits
  {
    if digits == "" {
      assert digits + rest == rest;
    } else {
      assert (digits + rest)[1..] == digits[1..] + rest;
      DigitPrefixStops(digits[1..], rest);
      assert digits == [digits[0]] + digits[1..];
    }
  }

  /** What a line does, whoever sent it: three fields, with any value and with or
      without a space before it; a blank line that completes an event if a kind or
      data came since the last one; and lines that are ignored. */
  lemma LinesMean(p: Pending, v: string, line: string)
    ensures Step(p, "event:" + v) == p.(kind := Trim(v)) && !Completes(p, "event:" + v)
    ensures Step(p, "id:" + v) == p.(id := ParseInt(Trim(v))) && !Completes(p, "id:" + v)
    ensures Step(p, "data:" + v) == p.(data := p.data + [Trim(v)]) && !Completes(p, "data:" + v)
    ensures Blanks(line) ==>
              if p.kind == "" && p.data == [] then Step(p, line) == p && !Completes(p, line)
              else Step(p, line) == Pending("", None, []) && Completes(p, line)
    ensures Yielded(p) == Received(p.kind, if p.data == [] then "" else Join(p.data, "\n"), p.id)
    ensures line != "" && !("event:" <= line) && !("id:" <= line) && !("data:" <= line) && Trim(line) != "" ==>
              Step(p, line) == p && !Completes(p, line)
  {
    hide ParseInt, TrimEnd;
    assert ("event:" + v)[6..] == v && ("id:" + v)[3..] == v && ("data:" + v)[5..] == v;
    assert ("id:" + v)[0] == 'i' && ("data:" + v)[0] == 'd';
    if Blanks(line) {
      BlankTrims(line);
      EmptyTrims();
      BlankIsNoField(line);
    }
  }

  lemma EmptyTrims()
    ensures TrimEnd("") == ""
  {
  }

  lemma BlankIsNoField(line: string)
    requires Blanks(line)
    ensures !("event:" <= line) && !("id:" <= line) && !("data:" <= line)
  {
    if line != "" { assert line[0] != 'e' && line[0] != 'i' && line[0] != 'd'; }
  }

  /** The lines of a text, joined again, are the text, but for a line feed at its
      end; and no line has one. */
  lemma LinesMakeText(text: string)
    ensures var lines := LinesOf(text);
            && (forall i | 0 <= i < |lines| :: '\n' !in lines[i])
            && (text == "" <==> lines == [])
            && (text != "" ==> text == Join(lines, "\n") + (if text[|text| - 1] == '\n' then "\n" else ""))
  {
    hide Split;
    var parts := Split(text, '\n');
    PiecesHaveNoSeparator(text, '\n');
    JoinSplit(text, '\n');
    var last := |parts| - 1;
    if last == 0 {
      assert text == parts[0];
    } else {
      JoinLast(parts, "\n");
      var front := Join(parts[..last], "\n") + "\n";
      assert text == front + parts[last];
      if parts[last] == "" {
        assert text == front;
      } else {
        assert text[|text| - 1] == parts[last][|parts[last]| - 1];
        assert text + "" == text;
      }
    }
  }

  lemma {:induction false} JoinLast(parts: seq<string>, sep: string)
    requires |parts| >= 2
    ensures Join(parts, sep) == Join(parts[..|parts| - 1], sep) + sep + parts[|parts| - 1]
  {
    if |parts| > 2 {
      JoinLast(parts[1..], sep);
      assert parts[1..][..|parts| - 2] == parts[..|parts| - 1][1..];
      var front, last := Join(parts[..|parts| - 1][1..], sep), parts[|parts| - 1];
      assert parts[0] + sep + (front + sep + last) == parts[0] + sep + front + sep + last;
    } else {
      assert parts[1..] == [parts[1]] && parts[..1] == [parts[0]];
    }
  }

  // ----- payloads ----------------------------------------------------------

  /** What the client makes of the data text. */
  datatype Payload<+D> = Loaded(value: D) | EmptyObject | Raw(text: string)

  function Decode<D>(load: string -> Option<D>, text: string): Payload<D> {
    if text == "" then EmptyObject
    else if load(text).Some? then Loaded(load(text).value)
    else Raw(text)
  }

  /** Every data text is made something of: an empty object of none, the value of
      what the parser takes, and the text itself of what it does not. */
  lemma EveryTextDecodes<D(!new)>(load: string -> Option<D>, text: string)
    ensures text == "" <==> Decode(load, text) == EmptyObject
    ensures text != "" && load(text).None? <==> Decode(load, text) == Raw(text)
    ensures text != "" && load(text).Some? ==> Decode(load, text) == Loaded(load(text).value)
  {
  }

  /** With a serializer whose texts are single trimmed lines that its parser
      takes back, each payload arrives as it was. */
  lemma PayloadRoundTrip<D(!new)>(dump: D -> string, load: string -> Option<D>, kind: string, id: nat, payload: D)
    requires forall d :: dump(d) != "" && '\n' !in dump(d) && Trimmed(dump(d)) && load(dump(d)) == Some(d)
    requires '\n' !in kind && Trimmed(kind)
    ensures var e := Event(kind, dump(payload), Some(NatText(id)), None);
            && Sendable(e)
            && AsReceived(e).kind == kind && AsReceived(e).id == Some(id as int)
            && Decode(load, AsReceived(e).data) == Loaded(payload)
  {
    SplitNoSep(dump(payload), '\n');
    ParseDecimal(id);
  }
}
