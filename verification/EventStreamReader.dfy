/** The event stream and line readers of pkg/runtime/stream.go, proved against the formats they read. */
module EventStreamReader {
  import opened Text
  import opened EventStream

  /** A handler folds events into a state and may stop the stream. */
  datatype Verdict<S> = Continue(state: S) | Stop(state: S)

  function Fold<S>(handle: (S, Event) -> Verdict<S>, state: S, events: seq<Event>): Verdict<S> {
    if events == [] then Continue(state)
    else
      var verdict := handle(state, events[0]);
      if verdict.Stop? then verdict else Fold(handle, verdict.state, events[1..])
  }

  // ----- the byte machine

  class Reader {
    const input: string
    var pos: nat
    var skipLF: bool

    ghost predicate Valid()
      reads this
    {
      pos <= |input|
    }

    /** Where the next line starts: an LF right after a CR that ended a line is not looked at again. */
    ghost function Start(): (start: nat)
      reads this
      requires Valid()
      ensures start <= |input|
    {
      if skipLF && pos < |input| && input[pos] == '\n' then pos + 1 else pos
    }

    constructor (input: string)
      ensures this.input == input && Valid() && Start() == 0
    {
      this.input := input;
      pos := 0;
      skipLF := false;
    }

    /** Byte by byte with one pending flag: a line ends at LF, or at CR with the LF after it to be skipped. */
    method ReadLine() returns (line: string, eof: bool)
      requires Valid()
      modifies this
      ensures Valid()
      ensures var start, end := old(Start()), LineEnd(input, old(Start()));
              && eof == (end == |input|)
              && line == input[start..end]
              && (!eof ==> Start() == end + TerminatorLength(input, end) && pos > old(pos))
    {
      ghost var start := Start();
      line := "";
      while true
        invariant Valid() && pos >= old(pos)
        invariant skipLF ==> pos == old(pos) && line == "" && Start() == start
        invariant !skipLF ==> start <= pos && line == input[start..pos] && LineEnd(input, start) == LineEnd(input, pos)
        decreases |input| - pos
      {
        if pos == |input| {
          return line, true;
        }
        var b := input[pos];
        pos := pos + 1;
        if skipLF {
          skipLF := false;
          if b == '\n' {
            continue;
          }
        }
        match b {
          case '\r' =>
            skipLF := true;
            return line, false;
          case '\n' =>
            return line, false;
          case _ =>
            line := line + [b];
        }
      }
    }
  }

  // ----- readSSE

  /** Where readSSE stands between two lines. */
  datatype Cursor = Cursor(start: nat, firstLine: bool, pending: Pending)

  ghost predicate HasLine(input: string, c: Cursor) {
    c.start <= |input| && LineEnd(input, c.start) < |input|
  }

  ghost function LineAt(input: string, c: Cursor): string
    requires HasLine(input, c)
  {
    var text := input[c.start..LineEnd(input, c.start)];
    if c.firstLine then TrimPrefix(text, BOM) else text
  }

  function Emitted(p: Pending, line: Line): seq<Event> {
    if line.Blank? then Close(p) else []
  }

  function PendingAfter(p: Pending, line: Line): Pending {
    if line.Blank? then NOTHING else Absorb(p, line)
  }

  ghost function CursorAfter(input: string, c: Cursor): (after: Cursor)
    requires HasLine(input, c)
    ensures after.start <= |input|
  {
    var end := LineEnd(input, c.start);
    Cursor(end + TerminatorLength(input, end), false, PendingAfter(c.pending, Classify(LineAt(input, c))))
  }

  ghost function LinesFrom(input: string, c: Cursor): seq<string>
    requires c.start <= |input|
  {
    var lines := SplitLines(input[c.start..]);
    if c.firstLine then StripMark(lines) else lines
  }

  /** What is still to be dispatched. */
  ghost function Remaining(input: string, c: Cursor): seq<Event>
    requires c.start <= |input|
  {
    Dispatch(ClassifyAll(LinesFrom(input, c)), c.pending)
  }

  lemma RemainingAtStart(input: string)
    ensures Remaining(input, Cursor(0, true, NOTHING)) == StreamEvents(input)
  {
    assert input[0..] == input;
    StripMarkIsPrefix(input);
    DispatchIsBlocks(ClassifyAll(SplitLines(TrimPrefix(input, BOM))), []);
  }

  lemma RemainingAtEnd(input: string, c: Cursor)
    requires c.start <= |input| && !HasLine(input, c)
    ensures Remaining(input, c) == []
  {
    SplitAt(input, c.start);
  }

  lemma RemainingStep(input: string, c: Cursor)
    requires HasLine(input, c)
    ensures Remaining(input, c)
         == Emitted(c.pending, Classify(LineAt(input, c))) + Remaining(input, CursorAfter(input, c))
  {
    var rest := LinesFrom(input, CursorAfter(input, c));
    LinesStep(input, c);
    ClassifyCons(LineAt(input, c), rest);
    DispatchCons(Classify(LineAt(input, c)), ClassifyAll(rest), c.pending);
  }

  lemma LinesStep(input: string, c: Cursor)
    requires HasLine(input, c)
    ensures LinesFrom(input, c) == [LineAt(input, c)] + LinesFrom(input, CursorAfter(input, c))
  {
    SplitAt(input, c.start);
    StripCons(input[c.start..LineEnd(input, c.start)], LinesFrom(input, CursorAfter(input, c)));
  }

  lemma StripCons(line: string, rest: seq<string>)
    ensures StripMark([line] + rest) == [TrimPrefix(line, BOM)] + rest
  {
  }

  lemma DispatchCons(line: Line, rest: seq<Line>, p: Pending)
    ensures Dispatch([line] + rest, p) == Emitted(p, line) + Dispatch(rest, PendingAfter(p, line))
  {
    assert ([line] + rest)[1..] == rest;
  }

  lemma ClassifyCons(line: string, rest: seq<string>)
    ensures ClassifyAll([line] + rest) == [Classify(line)] + ClassifyAll(rest)
  {
  }

  /** Folding in two parts; a stop in the first part skips the second. */
  lemma {:induction false} FoldAppend<S>(handle: (S, Event) -> Verdict<S>, state: S, a: seq<Event>, b: seq<Event>)
    ensures var verdict := Fold(handle, state, a);
            Fold(handle, state, a + b) == if verdict.Stop? then verdict else Fold(handle, verdict.state, b)
  {
    if a == [] {
      assert a + b == b;
    } else {
      assert (a + b)[1..] == a[1..] + b;
      var verdict := handle(state, a[0]);
      if !verdict.Stop? {
        FoldAppend(handle, verdict.state, a[1..], b);
      }
    }
  }

  /** A field line changes what is pending, nothing else. */
  method ReadField(line: string, name: string, data: seq<string>) returns (nextName: string, nextData: seq<string>)
    requires line != ""
    ensures !Classify(line).Blank?
    ensures Pending(nextName, nextData) == Absorb(Pending(name, data), Classify(line))
  {
    nextName, nextData := name, data;
    if !(":" <= line) {
      var field := Cut(line, ":");
      var value := TrimPrefix(field.after, " ");
      if field.before == "event" {
        nextName := value;
      } else if field.before == "data" {
        nextData := data + [value];
      }
    }
  }

  /** Handles one line: a blank one dispatches what is pending. */
  method OnLine<S>(line: string, name: string, data: seq<string>, handle: (S, Event) -> Verdict<S>, state: S)
    returns (nextName: string, nextData: seq<string>, verdict: Verdict<S>)
    ensures Pending(nextName, nextData) == PendingAfter(Pending(name, data), Classify(line))
    ensures verdict == Fold(handle, state, Emitted(Pending(name, data), Classify(line)))
  {
    if line == "" {
      nextName, nextData, verdict := "", [], Continue(state);
      if data != [] {
        verdict := handle(state, Event(name, Join(data, "\n")));
      }
    } else {
      nextName, nextData := ReadField(line, name, data);
      verdict := Continue(state);
    }
  }

  /** The verdict once everything that remains is dispatched too. */
  ghost function Outcome<S>(input: string, c: Cursor, handle: (S, Event) -> Verdict<S>, verdict: Verdict<S>): Verdict<S>
    requires c.start <= |input|
  {
    if verdict.Stop? then verdict else Fold(handle, verdict.state, Remaining(input, c))
  }

  lemma OutcomeStep<S>(input: string, c: Cursor, handle: (S, Event) -> Verdict<S>, state: S)
    requires HasLine(input, c)
    ensures Outcome(input, c, handle, Continue(state))
         == Outcome(input, CursorAfter(input, c), handle,
                    Fold(handle, state, Emitted(c.pending, Classify(LineAt(input, c)))))
  {
    RemainingStep(input, c);
    FoldAppend(handle, state, Emitted(c.pending, Classify(LineAt(input, c))), Remaining(input, CursorAfter(input, c)));
  }

  /** Reads bytes, dispatches events to the handler and stops with it. */
  method ReadSse<S>(input: string, handle: (S, Event) -> Verdict<S>, start: S) returns (verdict: Verdict<S>)
    ensures verdict == Fold(handle, start, StreamEvents(input))
  {
    var reader := new Reader(input);
    var name: string, data: seq<string>, firstLine := "", [], true;
    verdict := Continue(start);
    RemainingAtStart(input);
    ghost var goal := Fold(handle, start, StreamEvents(input));
    while verdict.Continue?
      invariant reader.Valid() && reader.input == input
      invariant Outcome(input, Cursor(reader.Start(), firstLine, Pending(name, data)), handle, verdict) == goal
      decreases verdict.Continue?, |input| - reader.pos
    {
      ghost var c := Cursor(reader.Start(), firstLine, Pending(name, data));
      var line, eof := reader.ReadLine();
      if eof {
        RemainingAtEnd(input, c);
        return;
      }
      OutcomeStep(input, c, handle, verdict.state);
      if firstLine {
        line := TrimPrefix(line, BOM);
        firstLine := false;
      }
      assert line == LineAt(input, c);
      name, data, verdict := OnLine(line, name, data, handle, verdict.state);
      assert Cursor(reader.Start(), firstLine, Pending(name, data)) == CursorAfter(input, c);
    }
  }
}
