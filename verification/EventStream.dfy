/** The event stream format of sections 9.2.5 and 9.2.6 of the WHATWG HTML Living Standard, as a
    declarative reading of a byte stream: split into lines, group by blank lines, one event a group. */
module EventStream {
  import opened Text

  datatype Event = Event(name: string, data: string)

  // ----- lines

  predicate IsTerminator(c: char) {
    c == '\r' || c == '\n'
  }

  /** The index of the first CR or LF at or after `i`, or the length. */
  function LineEnd(s: string, i: nat): (end: nat)
    requires i <= |s|
    ensures i <= end <= |s|
    ensures forall j :: i <= j < end ==> !IsTerminator(s[j])
    ensures end < |s| ==> IsTerminator(s[end])
    decreases |s| - i
  {
    if i < |s| && !IsTerminator(s[i]) then LineEnd(s, i + 1) else i
  }

  /** CRLF counts as one terminator. */
  function TerminatorLength(s: string, end: nat): nat
    requires end < |s|
  {
    if s[end] == '\r' && end + 1 < |s| && s[end + 1] == '\n' then 2 else 1
  }

  /** What follows the terminator. */
  function After(s: string, end: nat): string
    requires end < |s|
  {
    s[end + TerminatorLength(s, end)..]
  }

  /** The terminated lines; an unterminated rest is not a line. */
  function SplitLines(s: string): seq<string>
    decreases |s|
  {
    var end := LineEnd(s, 0);
    if end == |s| then [] else [s[..end]] + SplitLines(After(s, end))
  }

  lemma LineEndUnique(s: string, from: nat, end: nat)
    requires from <= end <= |s|
    requires forall j :: from <= j < end ==> !IsTerminator(s[j])
    requires end < |s| ==> IsTerminator(s[end])
    ensures LineEnd(s, from) == end
  {
  }

  lemma LineEndShift(s: string, k: nat)
    requires k <= |s|
    ensures LineEnd(s, k) == k + LineEnd(s[k..], 0)
  {
    var end := LineEnd(s[k..], 0);
    assert forall j :: k <= j < k + end ==> s[j] == s[k..][j - k];
    LineEndUnique(s, k, k + end);
  }

  /** The lines of a suffix, read off the whole text. */
  lemma {:induction false} SplitAt(s: string, k: nat)
    requires k <= |s|
    ensures var end := LineEnd(s, k);
            SplitLines(s[k..]) == if end == |s| then [] else [s[k..end]] + SplitLines(After(s, end))
  {
    var tail := s[k..];
    LineEndShift(s, k);
    SplitOnce(tail);
    if LineEnd(tail, 0) < |tail| {
      SliceOfSlice(s, k, LineEnd(s, k));
    }
  }

  lemma {:induction false} SplitOnce(s: string)
    ensures var end := LineEnd(s, 0);
            SplitLines(s) == if end == |s| then [] else [s[..end]] + SplitLines(After(s, end))
  {
  }

  lemma SliceOfSlice(s: string, k: nat, end: nat)
    requires k <= end < |s|
    ensures s[k..][..end - k] == s[k..end]
    ensures After(s[k..], end - k) == After(s, end)
  {
  }

  // ----- fields

  /** What one line contributes. */
  datatype Line =
    | Blank
    | EventField(value: string)
    | DataField(value: string)
    | Ignored

  function Classify(line: string): Line {
    if line == "" then Blank
    else if ":" <= line then Ignored
    else
      var field := Cut(line, ":");
      if field.before == "event" then EventField(TrimPrefix(field.after, " "))
      else if field.before == "data" then DataField(TrimPrefix(field.after, " "))
      else Ignored
  }

  /** The value behind a colon loses one leading blank. */
  function Unspaced(value: string): string {
    if value != "" && value[0] == ' ' then value[1..] else value
  }

  /** A field is named by what stands before the first colon, or by the whole line; only two names count, and a
      line that starts with a colon is a comment. */
  lemma LineMeans(field: string, value: string)
    requires ':' !in field
    ensures Classify(field + ":" + value) ==
      if field == "event" then EventField(Unspaced(value))
      else if field == "data" then DataField(Unspaced(value))
      else Ignored
    ensures Classify(field) ==
      if field == "" then Blank
      else if field == "event" then EventField("")
      else if field == "data" then DataField("")
      else Ignored
  {
    assert field + ":" + value == field + [':'] + value;
    CutChar(field, ':', value);
    AbsentChar(field, ':', ":");
    if field != "" {
      assert (field + ":" + value)[0] == field[0] != ":"[0];
    }
    if value != "" && value[0] == ' ' {
      assert value[..1] == " ";
    }
  }

  function ClassifyAll(lines: seq<string>): (classified: seq<Line>)
    ensures |classified| == |lines|
    ensures forall i :: 0 <= i < |lines| ==> classified[i] == Classify(lines[i])
  {
    seq(|lines|, i requires 0 <= i < |lines| => Classify(lines[i]))
  }

  // ----- groups

  /** The groups of lines that a blank line closes; lines after the last blank line form no group. */
  function Blocks(lines: seq<Line>, pending: seq<Line>): seq<seq<Line>> {
    if lines == [] then []
    else if lines[0].Blank? then [pending] + Blocks(lines[1..], [])
    else Blocks(lines[1..], pending + [lines[0]])
  }

  function DataOf(block: seq<Line>): seq<string> {
    if block == [] then []
    else
      var last := block[|block| - 1];
      var earlier := DataOf(block[..|block| - 1]);
      if last.DataField? then earlier + [last.value] else earlier
  }

  /** The last event field wins. */
  function NameOf(block: seq<Line>): string {
    if block == [] then ""
    else
      var last := block[|block| - 1];
      if last.EventField? then last.value else NameOf(block[..|block| - 1])
  }

  /** The data of a group are those of its parts, in order; its name is that of the last part that names it. */
  lemma {:induction false} GroupParts(first: seq<Line>, second: seq<Line>)
    ensures DataOf(first + second) == DataOf(first) + DataOf(second)
    ensures NameOf(first + second) ==
      if exists i :: 0 <= i < |second| && second[i].EventField? then NameOf(second) else NameOf(first)
  {
    if second == [] {
      assert first + second == first;
    } else {
      var init, last := second[..|second| - 1], second[|second| - 1];
      var all := first + second;
      assert all[..|all| - 1] == first + init && all[|all| - 1] == last;
      GroupParts(first, init);
      assert forall i :: 0 <= i < |init| ==> init[i] == second[i];
    }
  }

  lemma SingleLine(line: Line)
    ensures DataOf([line]) == (if line.DataField? then [line.value] else [])
    ensures NameOf([line]) == (if line.EventField? then line.value else "")
  {
    assert [line][..0] == [];
  }

  /** A group without data is no event. */
  function EventOf(block: seq<Line>): seq<Event> {
    if DataOf(block) == [] then [] else [Event(NameOf(block), Join(DataOf(block), "\n"))]
  }

  function EventsOf(blocks: seq<seq<Line>>): seq<Event> {
    if blocks == [] then [] else EventOf(blocks[0]) + EventsOf(blocks[1..])
  }

  const BOM := ['\U{EF}', '\U{BB}', '\U{BF}']

  /** What a stream means. */
  function StreamEvents(stream: string): seq<Event> {
    EventsOf(Blocks(ClassifyAll(SplitLines(TrimPrefix(stream, BOM))), []))
  }

  // ----- the same events as a fold over the lines

  datatype Pending = Pending(name: string, data: seq<string>)

  const NOTHING := Pending("", [])

  function Close(p: Pending): seq<Event> {
    if p.data == [] then [] else [Event(p.name, Join(p.data, "\n"))]
  }

  function Absorb(p: Pending, line: Line): Pending {
    match line
    case EventField(value) => p.(name := value)
    case DataField(value) => p.(data := p.data + [value])
    case _ => p
  }

  function Dispatch(lines: seq<Line>, p: Pending): seq<Event> {
    if lines == [] then []
    else if lines[0].Blank? then Close(p) + Dispatch(lines[1..], NOTHING)
    else Dispatch(lines[1..], Absorb(p, lines[0]))
  }

  lemma AbsorbBlock(block: seq<Line>, line: Line)
    requires !line.Blank?
    ensures Pending(NameOf(block + [line]), DataOf(block + [line]))
         == Absorb(Pending(NameOf(block), DataOf(block)), line)
  {
    var more := block + [line];
    assert more[|more| - 1] == line && more[..|more| - 1] == block;
  }

  /** Keeping only the last name and the data so far loses nothing. */
  lemma {:induction false} DispatchIsBlocks(lines: seq<Line>, pending: seq<Line>)
    ensures Dispatch(lines, Pending(NameOf(pending), DataOf(pending))) == EventsOf(Blocks(lines, pending))
  {
    if lines == [] {
    } else if lines[0].Blank? {
      DispatchIsBlocks(lines[1..], []);
      assert ([pending] + Blocks(lines[1..], []))[1..] == Blocks(lines[1..], []);
    } else {
      AbsorbBlock(pending, lines[0]);
      DispatchIsBlocks(lines[1..], pending + [lines[0]]);
    }
  }

  // ----- the mark at the start of a stream

  function StripMark(lines: seq<string>): seq<string> {
    if lines == [] then [] else [TrimPrefix(lines[0], BOM)] + lines[1..]
  }

  lemma MarkHasNoTerminator(s: string)
    requires BOM <= s
    ensures |BOM| == 3 && LineEnd(s, 0) == LineEnd(s, 3)
  {
    assert s[0] == BOM[0] && s[1] == BOM[1] && s[2] == BOM[2];
    LineEndUnique(s, 0, LineEnd(s, 3));
  }

  /** Dropping the mark from the first line is dropping it from the stream. */
  lemma StripMarkIsPrefix(stream: string)
    ensures StripMark(SplitLines(stream)) == SplitLines(TrimPrefix(stream, BOM))
  {
    var end := LineEnd(stream, 0);
    if BOM <= stream {
      MarkHasNoTerminator(stream);
      SplitAt(stream, 3);
      if end < |stream| {
        assert stream[..end][..3] == stream[..3];
        assert stream[..end][3..] == stream[3..end];
      }
    }
  }
}
