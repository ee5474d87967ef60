/** Printing an event stream and reading it back: which terminators lose a line, and the round trip. */
module EventStreamPrinter {
  import opened Text
  import opened EventStream

  datatype Terminator = CR | LF | CRLF

  function Mark(t: Terminator): (mark: string)
    ensures mark != "" && IsTerminator(mark[0])
  {
    match t
    case CR => "\r"
    case LF => "\n"
    case CRLF => "\r\n"
  }

  predicate OneLine(line: string) {
    forall i :: 0 <= i < |line| ==> !IsTerminator(line[i])
  }

  function Print(lines: seq<string>, ends: seq<Terminator>): string
    requires |lines| == |ends|
  {
    if lines == [] then "" else lines[0] + Mark(ends[0]) + Print(lines[1..], ends[1..])
  }

  /** A blank line that ends in LF right after a CR reads as the rest of that CR's CRLF. */
  predicate Swallowed(line: string, end: Terminator, afterCR: bool) {
    afterCR && line == "" && end == LF
  }

  /** The lines that a reader gets back. */
  function Survivors(lines: seq<string>, ends: seq<Terminator>, afterCR: bool): (kept: seq<string>)
    requires |lines| == |ends|
    ensures |kept| <= |lines|
  {
    if lines == [] then []
    else if Swallowed(lines[0], ends[0], afterCR) then Survivors(lines[1..], ends[1..], false)
    else [lines[0]] + Survivors(lines[1..], ends[1..], ends[0] == CR)
  }

  /** No bare CR stands immediately before an LF. */
  predicate KeepsLines(lines: seq<string>, ends: seq<Terminator>, afterCR: bool)
    requires |lines| == |ends|
  {
    lines != [] ==>
      !Swallowed(lines[0], ends[0], afterCR) && KeepsLines(lines[1..], ends[1..], ends[0] == CR)
  }

  /** A line ends where its own terminator starts. */
  lemma FirstLine(line: string, t: Terminator, rest: string)
    requires OneLine(line)
    ensures var s := line + Mark(t) + rest;
            && LineEnd(s, 0) == |line| && s[..|line|] == line
            && TerminatorLength(s, |line|) == (if t == CR && "\n" <= rest then 2 else |Mark(t)|)
            && s[|line| + TerminatorLength(s, |line|)..] == (if t == CR then TrimPrefix(rest, "\n") else rest)
  {
    var s := line + Mark(t) + rest;
    assert forall j :: 0 <= j < |line| ==> s[j] == line[j];
    assert s[|line|] == Mark(t)[0];
    LineEndUnique(s, 0, |line|);
    assert s[|line| + |Mark(t)|..] == rest;
    if "\n" <= rest && t == CR {
      assert s[|line| + 1] == rest[0];
      assert s[|line| + 2..] == rest[1..];
    }
  }

  lemma SplitFirstLine(line: string, t: Terminator, rest: string)
    requires OneLine(line)
    ensures SplitLines(line + Mark(t) + rest) == [line] + SplitLines(if t == CR then TrimPrefix(rest, "\n") else rest)
  {
    FirstLine(line, t, rest);
  }

  lemma StartsWithLF(line: string, t: Terminator, rest: string)
    requires OneLine(line)
    ensures "\n" <= line + Mark(t) + rest <==> line == "" && t == LF
  {
    var s := line + Mark(t) + rest;
    if line == "" {
      assert s[0] == Mark(t)[0];
    } else {
      assert s[0] == line[0];
    }
  }

  /** What a reader gets back from printed lines, for every mix of terminators. */
  lemma {:induction false} PrintedLines(lines: seq<string>, ends: seq<Terminator>, afterCR: bool)
    requires |lines| == |ends| && forall line :: line in lines ==> OneLine(line)
    ensures var s := Print(lines, ends);
            SplitLines(if afterCR then TrimPrefix(s, "\n") else s) == Survivors(lines, ends, afterCR)
    decreases |lines|
  {
    if lines == [] {
    } else {
      var rest := Print(lines[1..], ends[1..]);
      StartsWithLF(lines[0], ends[0], rest);
      if Swallowed(lines[0], ends[0], afterCR) {
        assert Print(lines, ends) == "\n" + rest;
        PrintedLines(lines[1..], ends[1..], false);
      } else {
        SplitFirstLine(lines[0], ends[0], rest);
        PrintedLines(lines[1..], ends[1..], ends[0] == CR);
      }
    }
  }

  lemma {:induction false} SurvivorsIff(lines: seq<string>, ends: seq<Terminator>, afterCR: bool)
    requires |lines| == |ends|
    ensures |Survivors(lines, ends, afterCR)| == |lines| <==> KeepsLines(lines, ends, afterCR)
    ensures KeepsLines(lines, ends, afterCR) ==> Survivors(lines, ends, afterCR) == lines
  {
    if lines == [] || Swallowed(lines[0], ends[0], afterCR) {
    } else {
      SurvivorsIff(lines[1..], ends[1..], ends[0] == CR);
      assert lines == [lines[0]] + lines[1..];
    }
  }

  /** Every line comes back exactly when no bare CR stands immediately before an LF. */
  lemma PrintedLinesComeBackIff(lines: seq<string>, ends: seq<Terminator>)
    requires |lines| == |ends| && forall line :: line in lines ==> OneLine(line)
    ensures SplitLines(Print(lines, ends)) == lines <==> KeepsLines(lines, ends, false)
  {
    PrintedLines(lines, ends, false);
    SurvivorsIff(lines, ends, false);
  }

  // ----- events

  /** What an event stream can carry: no line break in a name, no CR in data. */
  predicate Printable(event: Event) {
    OneLine(event.name) && '\r' !in event.data
  }

  function FieldLine(field: string, value: string): string {
    field + ": " + value
  }

  function DataLines(pieces: seq<string>): (lines: seq<string>)
    ensures |lines| == |pieces|
    ensures forall i :: 0 <= i < |pieces| ==> lines[i] == FieldLine("data", pieces[i])
  {
    seq(|pieces|, i requires 0 <= i < |pieces| => FieldLine("data", pieces[i]))
  }

  function EventLines(event: Event): seq<string> {
    [FieldLine("event", event.name)] + DataLines(Split(event.data, "\n")) + [""]
  }

  function AllLines(events: seq<Event>): seq<string> {
    if events == [] then [] else EventLines(events[0]) + AllLines(events[1..])
  }

  lemma ClassifyField(field: string, value: string)
    requires field == "event" || field == "data"
    ensures Classify(FieldLine(field, value)) == if field == "event" then EventField(value) else DataField(value)
  {
    var line := FieldLine(field, value);
    assert line == field + ":" + (" " + value);
    CutChar(field, ':', " " + value);
    assert line[0] == field[0];
    assert (" " + value)[1..] == value;
  }

  lemma ClassifyAppend(a: seq<string>, b: seq<string>)
    ensures ClassifyAll(a + b) == ClassifyAll(a) + ClassifyAll(b)
  {
  }

  /** Data lines only add data. */
  lemma {:induction false} DispatchData(lines: seq<Line>, rest: seq<Line>, p: Pending)
    requires forall i :: 0 <= i < |lines| ==> lines[i].DataField?
    ensures Dispatch(lines + rest, p)
         == Dispatch(rest, Pending(p.name, p.data + seq(|lines|, i requires 0 <= i < |lines| => lines[i].value)))
    decreases |lines|
  {
    var values := seq(|lines|, i requires 0 <= i < |lines| => lines[i].value);
    if lines == [] {
      assert lines + rest == rest && p.data + values == p.data;
    } else {
      assert (lines + rest)[1..] == lines[1..] + rest;
      var tail := lines[1..];
      var more := seq(|tail|, i requires 0 <= i < |tail| => tail[i].value);
      assert values == [lines[0].value] + more;
      assert p.data + [lines[0].value] + more == p.data + values;
      DispatchData(tail, rest, Absorb(p, lines[0]));
    }
  }

  function Fields(pieces: seq<string>): (fields: seq<Line>)
    ensures |fields| == |pieces|
    ensures forall i :: 0 <= i < |pieces| ==> fields[i] == DataField(pieces[i])
  {
    seq(|pieces|, i requires 0 <= i < |pieces| => DataField(pieces[i]))
  }

  lemma ClassifyDataLines(pieces: seq<string>)
    ensures ClassifyAll(DataLines(pieces)) == Fields(pieces)
  {
    forall i | 0 <= i < |pieces| ensures ClassifyAll(DataLines(pieces))[i] == Fields(pieces)[i] {
      ClassifyField("data", pieces[i]);
    }
  }

  lemma ClassifyEvent(event: Event)
    ensures ClassifyAll(EventLines(event)) == [EventField(event.name)] + Fields(Split(event.data, "\n")) + [Blank]
  {
    var data := DataLines(Split(event.data, "\n"));
    ClassifyField("event", event.name);
    ClassifyDataLines(Split(event.data, "\n"));
    ClassifyAppend([FieldLine("event", event.name)] + data, [""]);
    ClassifyAppend([FieldLine("event", event.name)], data);
  }

  /** One event's lines dispatch as that event. */
  lemma DispatchFields(name: string, pieces: seq<string>, rest: seq<Line>)
    requires pieces != []
    ensures Dispatch([EventField(name)] + Fields(pieces) + [Blank] + rest, NOTHING)
         == [Event(name, Join(pieces, "\n"))] + Dispatch(rest, NOTHING)
  {
    var fields := Fields(pieces);
    var lines := [EventField(name)] + fields + [Blank] + rest;
    assert lines[1..] == fields + ([Blank] + rest);
    DispatchData(fields, [Blank] + rest, Pending(name, []));
    assert [] + seq(|fields|, i requires 0 <= i < |fields| => fields[i].value) == pieces;
    DispatchBlank(Pending(name, pieces), rest);
  }

  lemma DispatchEvent(event: Event, rest: seq<Line>)
    ensures Dispatch(ClassifyAll(EventLines(event)) + rest, NOTHING) == [event] + Dispatch(rest, NOTHING)
  {
    ClassifyEvent(event);
    DispatchFields(event.name, Split(event.data, "\n"), rest);
    JoinSplit(event.data, "\n");
  }

  lemma DispatchBlank(p: Pending, rest: seq<Line>)
    ensures Dispatch([Blank] + rest, p) == Close(p) + Dispatch(rest, NOTHING)
  {
    assert ([Blank] + rest)[1..] == rest;
  }

  lemma {:induction false} DispatchPrinted(events: seq<Event>)
    ensures Dispatch(ClassifyAll(AllLines(events)), NOTHING) == events
  {
    if events == [] {
    } else {
      ClassifyAppend(EventLines(events[0]), AllLines(events[1..]));
      DispatchEvent(events[0], ClassifyAll(AllLines(events[1..])));
      DispatchPrinted(events[1..]);
    }
  }

  // ----- the printed lines are lines

  lemma {:induction false} SplitPieces(s: string)
    requires '\r' !in s
    ensures forall piece :: piece in Split(s, "\n") ==> OneLine(piece)
    decreases |s|
  {
    var i := Index(s, "\n");
    if i < 0 {
      UntilNewline(s, |s|);
    } else {
      UntilNewline(s, i);
      SplitPieces(s[i + 1..]);
    }
  }

  lemma UntilNewline(s: string, end: nat)
    requires '\r' !in s && end <= |s|
    requires forall j :: OccursAt(s, "\n", j) ==> end <= j
    ensures OneLine(s[..end])
  {
    forall j | 0 <= j < end ensures !IsTerminator(s[j]) {
      assert s[j] in s;
      assert !OccursAt(s, "\n", j);
      assert s[j..j + 1] == [s[j]];
    }
  }

  lemma EventLinesAreLines(event: Event)
    requires Printable(event)
    ensures forall line :: line in EventLines(event) ==> OneLine(line)
  {
    SplitPieces(event.data);
    var pieces := Split(event.data, "\n");
    forall i | 0 <= i < |pieces| ensures OneLine(DataLines(pieces)[i]) {
      assert pieces[i] in pieces;
    }
  }

  lemma {:induction false} PrintedAreLines(events: seq<Event>)
    requires forall e :: e in events ==> Printable(e)
    ensures forall line :: line in AllLines(events) ==> OneLine(line)
  {
    if events == [] {
    } else {
      EventLinesAreLines(events[0]);
      PrintedAreLines(events[1..]);
    }
  }

  lemma NoMark(events: seq<Event>, ends: seq<Terminator>)
    requires |ends| == |AllLines(events)|
    ensures !(BOM <= Print(AllLines(events), ends))
  {
    if events != [] {
      var lines := AllLines(events);
      assert lines[0] == FieldLine("event", events[0].name);
      assert Print(lines, ends)[0] == 'e';
    }
  }

  /** Any events, printed with any mix of terminators that keeps the lines, read back as themselves. */
  lemma PrintedEventsComeBack(events: seq<Event>, ends: seq<Terminator>)
    requires forall e :: e in events ==> Printable(e)
    requires |ends| == |AllLines(events)| && KeepsLines(AllLines(events), ends, false)
    ensures StreamEvents(Print(AllLines(events), ends)) == events
  {
    var lines := AllLines(events);
    PrintedAreLines(events);
    PrintedLinesComeBackIff(lines, ends);
    NoMark(events, ends);
    DispatchIsBlocks(ClassifyAll(lines), []);
    DispatchPrinted(events);
  }
}
