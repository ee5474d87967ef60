/** The newline-delimited reader of pkg/runtime/stream.go. It trims its lines, so a `char` is a character of
    the decoded text here. */
module NewlineJson {
  import opened Text
  import opened EventStream
  import opened EventStreamReader

  /** A line that is not blank is one unnamed event. */
  function EventIn(line: string): seq<Event> {
    if TrimSpace(line) == "" then [] else [Event("", TrimSpace(line))]
  }

  function EventsIn(lines: seq<string>): seq<Event> {
    if lines == [] then [] else EventIn(lines[0]) + EventsIn(lines[1..])
  }

  /** The lines between newlines, an unterminated last one included. */
  function LineEvents(input: string): seq<Event> {
    EventsIn(Split(input, "\n"))
  }

  lemma {:induction false} LeftEdgeOf(a: string, b: string, i: nat)
    requires i <= |a| && a <= b
    ensures LeftEdge(a, IsSpace, i) < |a| ==> LeftEdge(b, IsSpace, i) == LeftEdge(a, IsSpace, i)
    ensures LeftEdge(a, IsSpace, i) == |a| ==> LeftEdge(b, IsSpace, i) == LeftEdge(b, IsSpace, |a|)
    decreases |a| - i
  {
    if i == |a| || !IsSpace(a[i]) {
    } else {
      LeftEdgeOf(a, b, i + 1);
    }
  }

  lemma {:induction false} RightEdgeOf(a: string, b: string, from: nat, until: nat)
    requires from <= until <= |a| && a <= b
    ensures RightEdge(b, IsSpace, from, until) == RightEdge(a, IsSpace, from, until)
    decreases until
  {
    if from == until || !IsSpace(a[until - 1]) {
    } else {
      RightEdgeOf(a, b, from, until - 1);
    }
  }

  /** The delimiter that ReadBytes leaves on the line is trimmed away. */
  lemma TrimDelimiter(line: string)
    ensures TrimSpace(line + "\n") == TrimSpace(line)
  {
    var ended := line + "\n";
    assert ended[..|line|] == line;
    var from := LeftEdge(line, IsSpace, 0);
    LeftEdgeOf(line, ended, 0);
    if from < |line| {
      RightEdgeOf(line, ended, from, |line|);
      assert RightEdge(ended, IsSpace, from, |ended|) == RightEdge(ended, IsSpace, from, |line|);
      var until := RightEdge(line, IsSpace, from, |line|);
      assert ended[from..until] == line[from..until];
    } else {
      assert LeftEdge(ended, IsSpace, |line|) == |ended|;
    }
  }

  /** What the next read takes off the stream. */
  lemma NextLine(s: string)
    ensures var found := Index(s, "\n");
            LineEvents(s) == EventIn(if found < 0 then s else s[..found + 1])
                             + (if found < 0 then [] else LineEvents(s[found + 1..]))
  {
    var found := Index(s, "\n");
    if found < 0 {
      assert EventsIn([s]) == EventIn(s) + EventsIn([]);
    } else {
      assert s[found..found + 1] == "\n";
      assert s[..found + 1] == s[..found] + "\n";
      TrimDelimiter(s[..found]);
      var rest := Split(s[found + 1..], "\n");
      assert ([s[..found]] + rest)[1..] == rest;
    }
  }

  /** bufio's ReadBytes('\n'): up to and including the newline, or all that is left. */
  method ReadBytes(input: string, pos: nat) returns (line: string, next: nat, eof: bool)
    requires pos <= |input|
    ensures pos <= next <= |input| && (!eof ==> next > pos)
    ensures LineEvents(input[pos..]) == EventIn(line) + (if eof then [] else LineEvents(input[next..]))
  {
    NextLine(input[pos..]);
    var found := Index(input[pos..], "\n");
    if found < 0 {
      return input[pos..], |input|, true;
    }
    next := pos + found + 1;
    assert input[pos..][..found + 1] == input[pos..next] && input[pos..][found + 1..] == input[next..];
    return input[pos..next], next, false;
  }

  /** Reads up to each newline; the last read has none. */
  method ReadNdjson<S>(input: string, handle: (S, Event) -> Verdict<S>, start: S) returns (verdict: Verdict<S>)
    ensures verdict == Fold(handle, start, LineEvents(input))
  {
    var pos, eof := 0, false;
    verdict := Continue(start);
    assert input[0..] == input;
    ghost var goal := Fold(handle, start, LineEvents(input));
    while !eof
      invariant pos <= |input| && verdict.Continue?
      invariant Fold(handle, verdict.state, if eof then [] else LineEvents(input[pos..])) == goal
      decreases !eof, |input| - pos
    {
      var line, state := "", verdict.state;
      line, pos, eof := ReadBytes(input, pos);
      FoldAppend(handle, state, EventIn(line), if eof then [] else LineEvents(input[pos..]));
      line := TrimSpace(line);
      if line != "" {
        verdict := handle(state, Event("", line));
        if verdict.Stop? {
          return;
        }
      }
    }
  }
}
