/** The stream collector (pkg/runtime/stream.go): reducers folded over events until a terminal event. */
module StreamCollect {
  import opened Wrappers
  import opened JsonValues
  import opened Documents
  import opened EventStream
  import opened EventStreamReader
  import opened NewlineJson

  datatype Reducer = First | Last | Concat | Append | Unsupported

  datatype FieldRule = FieldRule(to: string, from: string, value: Json, events: seq<string>, reduce: Reducer)

  /** Which events show a value while the stream runs, and where they hold it. */
  datatype LiveRule = LiveRule(events: seq<string>, from: string)

  datatype Policy = Policy(dataFormat: string, eventNamePath: string, fields: seq<FieldRule>,
                           live: Option<LiveRule>,
                           errorEvents: seq<string>, pauseEvents: seq<string>, stopEvents: seq<string>,
                           requireStop: bool)

  /** The JSON decoder is a parameter; `None` is a syntax error. */
  type Decoder = string -> Option<Json>

  /** An event with its decoded payload and effective name. */
  datatype Message = Message(name: string, payload: Json)

  function NameIn(policy: Policy, event: Event, payload: Json): string {
    if event.name != "" || policy.eventNamePath == "" then event.name
    else
      match GetPath(payload, policy.eventNamePath)
      case Some(Str(name)) => name
      case _ => ""
  }

  function MessageOf(policy: Policy, decode: Decoder, event: Event): Option<Message> {
    match decode(event.data)
    case Some(payload) => Some(Message(NameIn(policy, event, payload), payload))
    case None => None
  }

  /** The event decodes and its name is in the list. Its name is that of the transport; where that is empty,
      the string that the payload holds at the policy's path, and the empty name where it holds none. */
  predicate Among(policy: Policy, decode: Decoder, event: Event, names: seq<string>) {
    decode(event.data).Some? &&
    if event.name != "" then event.name in names
    else if policy.eventNamePath == "" then "" in names
    else
      var found := GetPath(decode(event.data).value, policy.eventNamePath);
      if found.Some? && found.value.Str? then found.value.s in names else "" in names
  }

  lemma AmongName(policy: Policy, decode: Decoder, event: Event, names: seq<string>)
    ensures Among(policy, decode, event, names) <==>
            var msg := MessageOf(policy, decode, event);
            msg.Some? && msg.value.name in names
  {
  }

  function FieldValue(rule: FieldRule, payload: Json): Option<Json> {
    if rule.from == "" then Some(rule.value) else StreamValue(payload, rule.from)
  }

  function StreamValue(payload: Json, path: string): Option<Json> {
    if path == "$" then Some(payload) else GetPath(payload, path)
  }

  /** The value a rule takes from a message, if any. */
  function Taken(rule: FieldRule, msg: Message): Option<Json> {
    if msg.name in rule.events then FieldValue(rule, msg.payload) else None
  }

  // ----- one field

  datatype Reduction = Keep | Write(value: Json) | Conflict

  function Reduce(reduce: Reducer, existing: Option<Json>, value: Json): Reduction {
    match reduce
    case First => if existing.Some? then Keep else Write(value)
    case Last => Write(value)
    case Concat =>
      (match (existing, value)
       case (None, Str(_)) => Write(value)
       case (Some(Str(prefix)), Str(part)) => Write(Str(prefix + part))
       case _ => Conflict)
    case Append =>
      (match existing
       case None => Write(Arr([value]))
       case Some(Arr(items)) => Write(Arr(items + [value]))
       case _ => Conflict)
    case Unsupported => Conflict
  }

  /** reduceStreamField; `None` is an error. */
  function ReduceField(doc: Fields, rule: FieldRule, value: Json): Option<Fields> {
    match Reduce(rule.reduce, GetPath(Obj(doc), rule.to), value)
    case Keep => Some(doc)
    case Write(v) => Set(doc, ParsePath(rule.to), v)
    case Conflict => None
  }

  /** All rules on one message, in order. */
  function ReduceMessage(doc: Fields, rules: seq<FieldRule>, msg: Message): Option<Fields>
    decreases |rules|
  {
    if rules == [] then Some(doc)
    else
      match ReduceRule(doc, rules[0], msg)
      case Some(next) => ReduceMessage(next, rules[1..], msg)
      case None => None
  }

  function ReduceRule(doc: Fields, rule: FieldRule, msg: Message): Option<Fields> {
    match Taken(rule, msg)
    case Some(value) => ReduceField(doc, rule, value)
    case None => Some(doc)
  }

  // ----- the handler and the collector

  datatype End = Open | Stopped | Paused | Failed

  /** `written` is the live output so far. */
  datatype Collected = Collected(fields: Fields, written: seq<Json>, end: End)

  /** How an event with this name ends the stream: an error event first, then pause, then stop. */
  function EndOf(policy: Policy, name: string): End {
    if name in policy.errorEvents then Failed
    else if name in policy.pauseEvents then Paused
    else if name in policy.stopEvents then Stopped
    else Open
  }

  /** The live writer: whether it takes the next value after those it has taken. */
  type Sink = (seq<Json>, Json) -> bool

  /** The value that an event shows. */
  function LiveValue(policy: Policy, msg: Message): Option<Json> {
    match policy.live
    case Some(rule) => if msg.name in rule.events then StreamValue(msg.payload, rule.from) else None
    case None => None
  }

  /** The live output after an event; `None` is a write error. Without a writer nothing is written. */
  function WriteLive(policy: Policy, sink: Option<Sink>, written: seq<Json>, msg: Message): Option<seq<Json>> {
    match (sink, LiveValue(policy, msg))
    case (Some(takes), Some(value)) => if takes(written, value) then Some(written + [value]) else None
    case _ => Some(written)
  }

  function Handle(policy: Policy, decode: Decoder, sink: Option<Sink>, state: Collected, event: Event)
    : Verdict<Collected>
  {
    match MessageOf(policy, decode, event)
    case None => Stop(state.(end := Failed))
    case Some(msg) =>
      match ReduceMessage(state.fields, policy.fields, msg)
      case None => Stop(state.(end := Failed))
      case Some(fields) =>
        match WriteLive(policy, sink, state.written, msg)
        case None => Stop(state.(fields := fields, end := Failed))
        case Some(written) =>
          var end := EndOf(policy, msg.name);
          if end == Open then Continue(Collected(fields, written, Open)) else Stop(Collected(fields, written, end))
  }

  function Handler(policy: Policy, decode: Decoder, sink: Option<Sink>): (Collected, Event) -> Verdict<Collected> {
    (state, event) => Handle(policy, decode, sink, state, event)
  }

  const NOTHING_COLLECTED := Collected(map[], [], Open)

  /** The handler as collectStream's closure runs it, on the map and flags it captures. */
  class Collector {
    const policy: Policy
    const decode: Decoder
    const sink: Option<Sink>
    var collected: Fields
    var written: seq<Json>
    var end: End

    constructor (policy: Policy, decode: Decoder, sink: Option<Sink>)
      ensures this.policy == policy && this.decode == decode && this.sink == sink && State() == NOTHING_COLLECTED
    {
      this.policy, this.decode, this.sink := policy, decode, sink;
      collected, written, end := map[], [], Open;
    }

    function State(): Collected
      reads this
    {
      Collected(collected, written, end)
    }

    method ReduceStreamField(rule: FieldRule, value: Json) returns (ok: bool)
      modifies this`collected
      ensures ok <==> ReduceField(old(collected), rule, value).Some?
      ensures collected == if ok then ReduceField(old(collected), rule, value).value else old(collected)
    {
      match Reduce(rule.reduce, GetPath(Obj(collected), rule.to), value) {
        case Keep =>
          ok := true;
        case Write(next) =>
          collected, ok := SetNestedSegs(collected, ParsePath(rule.to), next);
        case Conflict =>
          ok := false;
      }
    }

    /** One event; `stop` ends the reading. */
    method OnEvent(event: Event) returns (stop: bool)
      modifies this
      ensures stop == Handle(policy, decode, sink, old(State()), event).Stop?
      ensures end == if stop then Handle(policy, decode, sink, old(State()), event).state.end else Open
      ensures written == Handle(policy, decode, sink, old(State()), event).state.written
      ensures end != Failed ==> State() == Handle(policy, decode, sink, old(State()), event).state
      ensures end != Failed ==>
        && !Among(policy, decode, event, policy.errorEvents)
        && (end == Paused <==> Among(policy, decode, event, policy.pauseEvents))
        && (end == Stopped <==>
              Among(policy, decode, event, policy.stopEvents) && !Among(policy, decode, event, policy.pauseEvents))
    {
      var decoded := MessageOf(policy, decode, event);
      if decoded.None? {
        end := Failed;
        return true;
      }
      var msg := decoded.value;
      AmongName(policy, decode, event, policy.errorEvents);
      AmongName(policy, decode, event, policy.pauseEvents);
      AmongName(policy, decode, event, policy.stopEvents);
      ghost var before := collected;
      for i := 0 to |policy.fields|
        invariant ReduceMessage(before, policy.fields, msg) == ReduceMessage(collected, policy.fields[i..], msg)
        invariant end == old(end) && written == old(written)
      {
        var rule := policy.fields[i];
        assert policy.fields[i..][0] == rule && policy.fields[i..][1..] == policy.fields[i + 1..];
        var value := Taken(rule, msg);
        if value.Some? {
          var ok := ReduceStreamField(rule, value.value);
          if !ok {
            end := Failed;
            return true;
          }
        }
      }
      var shown := WriteLive(policy, sink, written, msg);
      if shown.None? {
        end := Failed;
        return true;
      }
      written := shown.value;
      end := EndOf(policy, msg.name);
      return end != Open;
    }
  }

  datatype Collection = Collection(document: Fields, paused: bool)

  function Finish(policy: Policy, state: Collected): Option<Collection> {
    if state.end == Failed || (policy.requireStop && state.end == Open) then None
    else Some(Collection(state.fields, state.end == Paused))
  }

  /** The state in which reading ends. */
  function Final(policy: Policy, decode: Decoder, sink: Option<Sink>, events: seq<Event>): Collected {
    Fold(Handler(policy, decode, sink), NOTHING_COLLECTED, events).state
  }

  function Collect(policy: Policy, decode: Decoder, sink: Option<Sink>, events: seq<Event>): Option<Collection> {
    Finish(policy, Final(policy, decode, sink, events))
  }

  datatype Strategy = Sse | Ndjson | UnsupportedStrategy

  /** collectStream; `None` is an error. `live` is what has been written by then. */
  method CollectStream(input: string, strategy: Strategy, policy: Policy, decode: Decoder, sink: Option<Sink>)
    returns (result: Option<Collection>, live: seq<Json>)
    ensures if policy.dataFormat != "json" || strategy.UnsupportedStrategy? then result == None && live == []
            else
              var events := if strategy.Sse? then StreamEvents(input) else LineEvents(input);
              result == Collect(policy, decode, sink, events) && live == Final(policy, decode, sink, events).written
  {
    if policy.dataFormat != "json" {
      return None, [];
    }
    var verdict;
    match strategy {
      case Sse =>
        verdict := ReadSse(input, Handler(policy, decode, sink), NOTHING_COLLECTED);
      case Ndjson =>
        verdict := ReadNdjson(input, Handler(policy, decode, sink), NOTHING_COLLECTED);
      case UnsupportedStrategy =>
        return None, [];
    }
    return Finish(policy, verdict.state), verdict.state.written;
  }
}
