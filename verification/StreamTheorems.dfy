/** What a collected document is: which events it depends on and how the outcome is decided; and what is
    written while it is collected. */
module StreamTheorems {
  import opened Wrappers
  import opened JsonValues
  import opened Documents
  import opened EventStream
  import opened EventStreamReader
  import opened StreamCollect

  // ----- the events that count

  function EndOfEvent(policy: Policy, decode: Decoder, event: Event): End {
    match MessageOf(policy, decode, event)
    case Some(msg) => EndOf(policy, msg.name)
    case None => Open
  }

  /** How one event ends the stream, if it does. */
  type Ending = Event -> End

  function EndsBy(policy: Policy, decode: Decoder): Ending {
    (event: Event) => EndOfEvent(policy, decode, event)
  }

  /** The event's name is in one of the three lists. */
  predicate Terminal(policy: Policy, decode: Decoder, event: Event) {
    || Among(policy, decode, event, policy.errorEvents)
    || Among(policy, decode, event, policy.pauseEvents)
    || Among(policy, decode, event, policy.stopEvents)
  }

  /** Of the lists that hold an event's name, the error events come first, then the pause events. */
  lemma EndsByLists(policy: Policy, decode: Decoder, event: Event)
    ensures var end := EndsBy(policy, decode)(event);
            && (end == Open <==> !Terminal(policy, decode, event))
            && (end == Failed <==> Among(policy, decode, event, policy.errorEvents))
            && (end == Paused <==> Among(policy, decode, event, policy.pauseEvents)
                                   && !Among(policy, decode, event, policy.errorEvents))
  {
    AmongName(policy, decode, event, policy.errorEvents);
    AmongName(policy, decode, event, policy.pauseEvents);
    AmongName(policy, decode, event, policy.stopEvents);
  }

  /** The events up to and including the first terminal one. */
  function Seen(ends: Ending, events: seq<Event>): (seen: seq<Event>)
    ensures seen <= events
    ensures forall i :: 0 <= i < |seen| - 1 ==> ends(seen[i]) == Open
    ensures seen == events || (seen != [] && ends(seen[|seen| - 1]) != Open)
  {
    if events == [] then []
    else if ends(events[0]) != Open then [events[0]]
    else [events[0]] + Seen(ends, events[1..])
  }

  /** How the first terminal event ends the stream, `Open` when there is none. */
  function FirstEnd(ends: Ending, events: seq<Event>): (end: End)
    ensures end == if Seen(ends, events) == [] then Open else ends(Seen(ends, events)[|Seen(ends, events)| - 1])
  {
    if events == [] then Open
    else if ends(events[0]) != Open then ends(events[0])
    else FirstEnd(ends, events[1..])
  }

  /** The reducers over events, without any regard to terminal events. */
  function ReduceAll(policy: Policy, decode: Decoder, doc: Fields, events: seq<Event>): Option<Fields>
    decreases |events|
  {
    if events == [] then Some(doc)
    else
      match ReduceEvent(policy, decode, doc, events[0])
      case Some(next) => ReduceAll(policy, decode, next, events[1..])
      case None => None
  }

  function ReduceEvent(policy: Policy, decode: Decoder, doc: Fields, event: Event): Option<Fields> {
    match MessageOf(policy, decode, event)
    case Some(msg) => ReduceMessage(doc, policy.fields, msg)
    case None => None
  }

  /** The live output over events; `None` when a write fails. */
  function LiveAll(policy: Policy, decode: Decoder, sink: Option<Sink>, written: seq<Json>, events: seq<Event>)
    : Option<seq<Json>>
    decreases |events|
  {
    if events == [] then Some(written)
    else
      match LiveEvent(policy, decode, sink, written, events[0])
      case Some(next) => LiveAll(policy, decode, sink, next, events[1..])
      case None => None
  }

  function LiveEvent(policy: Policy, decode: Decoder, sink: Option<Sink>, written: seq<Json>, event: Event)
    : Option<seq<Json>>
  {
    match MessageOf(policy, decode, event)
    case Some(msg) => WriteLive(policy, sink, written, msg)
    case None => None
  }

  lemma {:induction false} FoldIsReduce(policy: Policy, decode: Decoder, sink: Option<Sink>, doc: Fields,
                                        written: seq<Json>, events: seq<Event>)
    ensures var state := Fold(Handler(policy, decode, sink), Collected(doc, written, Open), events).state;
            var seen := Seen(EndsBy(policy, decode), events);
            match (ReduceAll(policy, decode, doc, seen), LiveAll(policy, decode, sink, written, seen))
            case (Some(after), Some(live)) => state == Collected(after, live, FirstEnd(EndsBy(policy, decode), events))
            case _ => state.end == Failed
    decreases |events|
  {
    if events == [] {
    } else {
      var seen := Seen(EndsBy(policy, decode), events);
      var next := ReduceEvent(policy, decode, doc, events[0]);
      var live := LiveEvent(policy, decode, sink, written, events[0]);
      assert seen[0] == events[0];
      assert Handler(policy, decode, sink)(Collected(doc, written, Open), events[0])
          == Handle(policy, decode, sink, Collected(doc, written, Open), events[0]);
      if next.Some? && live.Some? {
        if EndOfEvent(policy, decode, events[0]) == Open {
          FoldIsReduce(policy, decode, sink, next.value, live.value, events[1..]);
          assert seen[1..] == Seen(EndsBy(policy, decode), events[1..]);
        } else {
          assert seen == [events[0]];
          assert ReduceAll(policy, decode, next.value, seen[1..]) == next;
          assert LiveAll(policy, decode, sink, live.value, seen[1..]) == live;
        }
      }
    }
  }

  /** The first `n` events are all that are seen: the last of them is the first terminal one, or there is none. */
  predicate UpToTerminal(policy: Policy, decode: Decoder, events: seq<Event>, n: nat) {
    && n <= |events|
    && (forall i :: 0 <= i < n - 1 ==> !Terminal(policy, decode, events[i]))
    && (n < |events| ==> 0 < n && Terminal(policy, decode, events[n - 1]))
  }

  lemma SeenUpToTerminal(policy: Policy, decode: Decoder, events: seq<Event>)
    ensures var seen := Seen(EndsBy(policy, decode), events);
            seen == events[..|seen|] && UpToTerminal(policy, decode, events, |seen|)
  {
    var seen := Seen(EndsBy(policy, decode), events);
    forall i | 0 <= i < |seen| ensures seen[i] == events[i] {
      assert seen <= events;
    }
    forall i | 0 <= i < |seen|
      ensures EndsBy(policy, decode)(seen[i]) == Open <==> !Terminal(policy, decode, events[i])
    {
      EndsByLists(policy, decode, seen[i]);
    }
  }

  /** Whether the last of the events has its name in the list. */
  predicate LastAmong(policy: Policy, decode: Decoder, seen: seq<Event>, names: seq<string>) {
    seen != [] && Among(policy, decode, seen[|seen| - 1], names)
  }

  lemma FirstEndByLists(policy: Policy, decode: Decoder, events: seq<Event>)
    ensures var seen, end := Seen(EndsBy(policy, decode), events), FirstEnd(EndsBy(policy, decode), events);
            && (end == Failed <==> LastAmong(policy, decode, seen, policy.errorEvents))
            && (end == Paused <==> LastAmong(policy, decode, seen, policy.pauseEvents)
                                   && !LastAmong(policy, decode, seen, policy.errorEvents))
            && (end == Open <==> seen == [] || !Terminal(policy, decode, seen[|seen| - 1]))
  {
    var seen := Seen(EndsBy(policy, decode), events);
    if seen != [] {
      EndsByLists(policy, decode, seen[|seen| - 1]);
    }
  }

  /** The last event allows a collection: it is no error event, and it is terminal where the policy demands it. */
  predicate LastAllows(policy: Policy, decode: Decoder, seen: seq<Event>) {
    && !LastAmong(policy, decode, seen, policy.errorEvents)
    && (policy.requireStop ==> seen != [] && Terminal(policy, decode, seen[|seen| - 1]))
  }

  lemma EndAllows(policy: Policy, decode: Decoder, events: seq<Event>)
    ensures var seen, end := Seen(EndsBy(policy, decode), events), FirstEnd(EndsBy(policy, decode), events);
            && (LastAllows(policy, decode, seen) <==> end != Failed && (policy.requireStop ==> end != Open))
            && (end != Failed ==> (end == Paused <==> LastAmong(policy, decode, seen, policy.pauseEvents)))
  {
    FirstEndByLists(policy, decode, events);
  }

  lemma OutcomeBySeen(policy: Policy, decode: Decoder, sink: Option<Sink>, events: seq<Event>)
    ensures var seen := Seen(EndsBy(policy, decode), events);
            var reduced := ReduceAll(policy, decode, map[], seen);
            && (Collect(policy, decode, sink, events).Some? <==>
                  reduced.Some? && LiveAll(policy, decode, sink, [], seen).Some? && LastAllows(policy, decode, seen))
            && (Collect(policy, decode, sink, events).Some? ==>
                  Collect(policy, decode, sink, events).value
                  == Collection(reduced.value, LastAmong(policy, decode, seen, policy.pauseEvents)))
  {
    FoldIsReduce(policy, decode, sink, map[], [], events);
    EndAllows(policy, decode, events);
  }

  /** The whole outcome, by the three lists of the policy. Events are seen up to the first whose name is in any
      of them. There is a collection exactly when what is seen reduces, its live values can be written, its
      last name is not an error event and, where the policy demands it, is in a list; the document is the
      reduction, and the collection is paused exactly when that name is a pause event. */
  lemma CollectOutcome(policy: Policy, decode: Decoder, sink: Option<Sink>, events: seq<Event>) returns (n: nat)
    ensures UpToTerminal(policy, decode, events, n)
    ensures var seen, result := events[..n], Collect(policy, decode, sink, events);
            var reduced := ReduceAll(policy, decode, map[], seen);
            && (result.Some? <==>
                  && reduced.Some?
                  && LiveAll(policy, decode, sink, [], seen).Some?
                  && LastAllows(policy, decode, seen))
            && (result.Some? ==>
                  && result.value.document == reduced.value
                  && (result.value.paused <==> LastAmong(policy, decode, seen, policy.pauseEvents)))
  {
    n := |Seen(EndsBy(policy, decode), events)|;
    SeenUpToTerminal(policy, decode, events);
    OutcomeBySeen(policy, decode, sink, events);
  }

  // ----- the live output

  /** The values that the events show, in arrival order. */
  function LiveValues(policy: Policy, decode: Decoder, events: seq<Event>): seq<Json> {
    if events == [] then [] else Shown(policy, decode, events[0]) + LiveValues(policy, decode, events[1..])
  }

  function Shown(policy: Policy, decode: Decoder, event: Event): seq<Json> {
    match MessageOf(policy, decode, event)
    case None => []
    case Some(msg) =>
      match LiveValue(policy, msg)
      case Some(value) => [value]
      case None => []
  }

  /** An event shows a value exactly when its name is a live event and it holds one at the rule's path. */
  lemma ShownMeans(policy: Policy, decode: Decoder, event: Event)
    ensures policy.live.None? ==> Shown(policy, decode, event) == []
    ensures policy.live.Some? ==>
      var rule := policy.live.value;
      if !Among(policy, decode, event, rule.events) then Shown(policy, decode, event) == []
      else Shown(policy, decode, event) == Held(decode(event.data).value, rule.from)
  {
    if policy.live.Some? {
      AmongName(policy, decode, event, policy.live.value.events);
    }
  }

  /** The value at a path, `$` standing for the whole payload. */
  function Held(payload: Json, path: string): seq<Json> {
    match (path, GetPath(payload, path))
    case ("$", _) => [payload]
    case (_, Some(value)) => [value]
    case (_, None) => []
  }

  lemma {:induction false} LiveInOrder(policy: Policy, decode: Decoder, takes: Sink, written: seq<Json>,
                                       events: seq<Event>)
    requires LiveAll(policy, decode, Some(takes), written, events).Some?
    ensures LiveAll(policy, decode, Some(takes), written, events).value == written + LiveValues(policy, decode, events)
    decreases |events|
  {
    if events == [] {
    } else {
      var next := LiveEvent(policy, decode, Some(takes), written, events[0]).value;
      LiveInOrder(policy, decode, takes, next, events[1..]);
      assert next == written + Shown(policy, decode, events[0]);
    }
  }

  lemma {:induction false} LiveGrows(policy: Policy, decode: Decoder, takes: Sink, state: Collected,
                                     events: seq<Event>, handle: (Collected, Event) -> Verdict<Collected>, ends: Ending)
    requires handle == Handler(policy, decode, Some(takes)) && ends == EndsBy(policy, decode) && state.end == Open
    ensures Fold(handle, state, events).state.written
         <= state.written + LiveValues(policy, decode, Seen(ends, events))
    decreases |events|
  {
    if events == [] {
    } else {
      var verdict, shown := handle(state, events[0]), Shown(policy, decode, events[0]);
      LiveStep(policy, decode, takes, state, events[0], handle);
      LiveFirst(policy, decode, ends, events);
      JoinsOn(state.written, shown,
              if ends(events[0]) == Open then LiveValues(policy, decode, Seen(ends, events[1..])) else []);
      if verdict.Continue? {
        LiveGrows(policy, decode, takes, verdict.state, events[1..], handle, ends);
      }
    }
  }

  /** The first event's value comes first. */
  lemma LiveFirst(policy: Policy, decode: Decoder, ends: Ending, events: seq<Event>)
    requires events != []
    ensures LiveValues(policy, decode, Seen(ends, events))
         == Shown(policy, decode, events[0])
            + if ends(events[0]) == Open then LiveValues(policy, decode, Seen(ends, events[1..])) else []
  {
    var seen := Seen(ends, events);
    if ends(events[0]) == Open {
      SeenFirst(ends, events);
    } else {
      assert seen[1..] == [];
    }
  }

  lemma SeenFirst(ends: Ending, events: seq<Event>)
    requires events != [] && ends(events[0]) == Open
    ensures Seen(ends, events)[0] == events[0] && Seen(ends, events)[1..] == Seen(ends, events[1..])
  {
  }

  lemma JoinsOn(a: seq<Json>, b: seq<Json>, c: seq<Json>)
    ensures a + b <= a + (b + c) == a + b + c
  {
  }

  /** One event writes what it shows, or nothing and reading ends. */
  lemma LiveStep(policy: Policy, decode: Decoder, takes: Sink, state: Collected, event: Event,
                 handle: (Collected, Event) -> Verdict<Collected>)
    requires handle == Handler(policy, decode, Some(takes))
    ensures var verdict := handle(state, event);
            && verdict.state.written in {state.written, state.written + Shown(policy, decode, event)}
            && (verdict.Continue? ==>
                  && verdict.state.written == state.written + Shown(policy, decode, event)
                  && verdict.state.end == Open && EndOfEvent(policy, decode, event) == Open)
  {
    assert handle(state, event) == Handle(policy, decode, Some(takes), state, event);
    assert state.written + [] == state.written;
  }

  /** What has been written when reading ends: always the first of the values shown up to the first terminal
      event, and all of them when there is a collection. */
  lemma LiveOutput(policy: Policy, decode: Decoder, takes: Sink, events: seq<Event>)
    ensures var shown := LiveValues(policy, decode, Seen(EndsBy(policy, decode), events));
            var written := Final(policy, decode, Some(takes), events).written;
            && written <= shown
            && (Collect(policy, decode, Some(takes), events).Some? ==> written == shown)
  {
    var seen := Seen(EndsBy(policy, decode), events);
    LiveGrows(policy, decode, takes, NOTHING_COLLECTED, events, Handler(policy, decode, Some(takes)),
              EndsBy(policy, decode));
    FoldIsReduce(policy, decode, Some(takes), map[], [], events);
    if Collect(policy, decode, Some(takes), events).Some? {
      LiveInOrder(policy, decode, takes, [], seen);
    }
  }
}
