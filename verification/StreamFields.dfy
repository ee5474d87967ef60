/** What each field of a collected document holds. */
module StreamFields {
  import opened Text
  import opened Wrappers
  import opened JsonValues
  import opened Documents
  import opened PathLaws
  import opened EventStream
  import opened StreamCollect
  import opened StreamTheorems

  // ----- one field

  /** The values one rule takes from the events, in arrival order. */
  function ValuesOf(policy: Policy, decode: Decoder, rule: FieldRule, events: seq<Event>): seq<Json> {
    if events == [] then []
    else EventValue(policy, decode, rule, events[0]) + ValuesOf(policy, decode, rule, events[1..])
  }

  function EventValue(policy: Policy, decode: Decoder, rule: FieldRule, event: Event): seq<Json> {
    match MessageOf(policy, decode, event)
    case Some(msg) => TakenValues(rule, msg)
    case None => []
  }

  function TakenValues(rule: FieldRule, msg: Message): seq<Json> {
    match Taken(rule, msg)
    case Some(value) => [value]
    case None => []
  }

  /** A rule takes a value exactly when the name is one of its events: its constant where it has no path, and
      otherwise what the payload holds at its path. */
  lemma EventValueMeans(policy: Policy, decode: Decoder, rule: FieldRule, event: Event)
    ensures EventValue(policy, decode, rule, event)
         == if !Among(policy, decode, event, rule.events) then []
            else if rule.from == "" then [rule.value]
            else Held(decode(event.data).value, rule.from)
  {
    AmongName(policy, decode, event, rule.events);
  }

  /** A reducer over values, starting from what is there; `None` on a type conflict. */
  function Reduced(reduce: Reducer, existing: Option<Json>, values: seq<Json>): Option<Option<Json>>
    decreases |values|
  {
    if values == [] then Some(existing)
    else
      match Reduce(reduce, existing, values[0])
      case Keep => Reduced(reduce, existing, values[1..])
      case Write(v) => Reduced(reduce, Some(v), values[1..])
      case Conflict => None
  }

  // ----- the values as they are taken

  /** A rule, by its position, and a value it takes. */
  datatype Take = Take(rule: nat, value: Json)

  function TakesFrom(rules: seq<FieldRule>, from: nat, msg: Message): (takes: seq<Take>)
    requires from <= |rules|
    ensures forall i :: 0 <= i < |takes| ==> takes[i].rule < |rules|
    decreases |rules| - from
  {
    if from == |rules| then []
    else
      (match Taken(rules[from], msg)
       case Some(value) => [Take(from, value)]
       case None => []) + TakesFrom(rules, from + 1, msg)
  }

  function EventTakes(policy: Policy, decode: Decoder, event: Event): (takes: seq<Take>)
    ensures forall i :: 0 <= i < |takes| ==> takes[i].rule < |policy.fields|
  {
    match MessageOf(policy, decode, event)
    case Some(msg) => TakesFrom(policy.fields, 0, msg)
    case None => []
  }

  /** All values that the rules take from the events, in the order in which they are reduced. */
  function Takes(policy: Policy, decode: Decoder, events: seq<Event>): (takes: seq<Take>)
    ensures forall i :: 0 <= i < |takes| ==> takes[i].rule < |policy.fields|
  {
    if events == [] then [] else EventTakes(policy, decode, events[0]) + Takes(policy, decode, events[1..])
  }

  predicate RulesKnown(takes: seq<Take>, rules: seq<FieldRule>) {
    forall i :: 0 <= i < |takes| ==> takes[i].rule < |rules|
  }

  function ReduceTakes(doc: Fields, rules: seq<FieldRule>, takes: seq<Take>): Option<Fields>
    requires RulesKnown(takes, rules)
    decreases |takes|
  {
    if takes == [] then Some(doc)
    else
      match ReduceField(doc, rules[takes[0].rule], takes[0].value)
      case Some(next) => ReduceTakes(next, rules, takes[1..])
      case None => None
  }

  lemma {:induction false} ReduceTakesAppend(doc: Fields, rules: seq<FieldRule>, a: seq<Take>, b: seq<Take>)
    requires RulesKnown(a, rules) && RulesKnown(b, rules)
    ensures ReduceTakes(doc, rules, a + b)
         == match ReduceTakes(doc, rules, a)
            case Some(next) => ReduceTakes(next, rules, b)
            case None => None
    decreases |a|
  {
    if a == [] {
      assert a + b == b;
    } else {
      assert (a + b)[1..] == a[1..] + b;
      var next := ReduceField(doc, rules[a[0].rule], a[0].value);
      if next.Some? {
        ReduceTakesAppend(next.value, rules, a[1..], b);
      }
    }
  }

  /** One message reduces as the values taken from it. */
  lemma {:induction false} MessageTakes(doc: Fields, rules: seq<FieldRule>, from: nat, msg: Message)
    requires from <= |rules|
    ensures ReduceMessage(doc, rules[from..], msg) == ReduceTakes(doc, rules, TakesFrom(rules, from, msg))
    decreases |rules| - from
  {
    if from == |rules| {
    } else {
      assert rules[from..][0] == rules[from] && rules[from..][1..] == rules[from + 1..];
      var rest := TakesFrom(rules, from + 1, msg);
      match Taken(rules[from], msg) {
        case Some(value) =>
          assert ([Take(from, value)] + rest)[1..] == rest;
          if ReduceField(doc, rules[from], value).Some? {
            MessageTakes(ReduceField(doc, rules[from], value).value, rules, from + 1, msg);
          }
        case None =>
          assert [] + rest == rest;
          MessageTakes(doc, rules, from + 1, msg);
      }
    }
  }

  /** The payload of every event is JSON. */
  predicate AllDecode(policy: Policy, decode: Decoder, events: seq<Event>) {
    forall i :: 0 <= i < |events| ==> MessageOf(policy, decode, events[i]).Some?
  }

  /** Events that all decode reduce as the values taken from them; others do not reduce. */
  lemma {:induction false} EventsTake(policy: Policy, decode: Decoder, doc: Fields, events: seq<Event>)
    ensures ReduceAll(policy, decode, doc, events)
         == if AllDecode(policy, decode, events) then ReduceTakes(doc, policy.fields, Takes(policy, decode, events))
            else None
    decreases |events|
  {
    if events == [] {
    } else if MessageOf(policy, decode, events[0]).Some? {
      var msg := MessageOf(policy, decode, events[0]).value;
      var takes := TakesFrom(policy.fields, 0, msg);
      assert policy.fields[0..] == policy.fields;
      MessageTakes(doc, policy.fields, 0, msg);
      DecodeCons(policy, decode, events);
      if ReduceMessage(doc, policy.fields, msg).Some? {
        EventsTake(policy, decode, ReduceMessage(doc, policy.fields, msg).value, events[1..]);
      }
      ReduceTakesAppend(doc, policy.fields, takes, Takes(policy, decode, events[1..]));
    } else {
    }
  }

  lemma DecodeCons(policy: Policy, decode: Decoder, events: seq<Event>)
    requires events != [] && MessageOf(policy, decode, events[0]).Some?
    ensures AllDecode(policy, decode, events) <==> AllDecode(policy, decode, events[1..])
  {
    assert forall i :: 0 < i < |events| ==> events[i] == events[1..][i - 1];
  }

  /** The values of one rule among all that are taken. */
  function OwnValues(takes: seq<Take>, k: nat): seq<Json> {
    if takes == [] then []
    else if takes[0].rule == k then [takes[0].value] + OwnValues(takes[1..], k)
    else OwnValues(takes[1..], k)
  }

  lemma {:induction false} OwnValuesAppend(a: seq<Take>, b: seq<Take>, k: nat)
    ensures OwnValues(a + b, k) == OwnValues(a, k) + OwnValues(b, k)
  {
    if a == [] {
      assert a + b == b;
    } else {
      assert (a + b)[1..] == a[1..] + b;
      OwnValuesAppend(a[1..], b, k);
    }
  }

  lemma {:induction false} MessageValues(rules: seq<FieldRule>, from: nat, msg: Message, k: nat)
    requires from <= |rules| && k < |rules|
    ensures OwnValues(TakesFrom(rules, from, msg), k) == if from <= k then TakenValues(rules[k], msg) else []
    decreases |rules| - from
  {
    if from == |rules| {
    } else {
      MessageValues(rules, from + 1, msg, k);
      var rest := TakesFrom(rules, from + 1, msg);
      if Taken(rules[from], msg).Some? {
        assert ([Take(from, Taken(rules[from], msg).value)] + rest)[1..] == rest;
      } else {
        assert [] + rest == rest;
      }
    }
  }

  lemma {:induction false} EventValues(policy: Policy, decode: Decoder, events: seq<Event>, k: nat)
    requires k < |policy.fields|
    ensures OwnValues(Takes(policy, decode, events), k) == ValuesOf(policy, decode, policy.fields[k], events)
  {
    if events == [] {
    } else {
      EventValues(policy, decode, events[1..], k);
      OwnValuesAppend(EventTakes(policy, decode, events[0]), Takes(policy, decode, events[1..]), k);
      match MessageOf(policy, decode, events[0]) {
        case Some(msg) => MessageValues(policy.fields, 0, msg, k);
        case None =>
      }
    }
  }

  // ----- what other rules do to a field

  /** A set at `p` pads the array that the last step of `q` indexes, if it is not long enough. */
  predicate MayPad(p: seq<Segment>, q: seq<Segment>) {
    p != [] && q != [] && p[0].key == q[0].key &&
    if SameStep(p[0], q[0]) then MayPad(p[1..], q[1..]) else |q| == 1 && 0 <= q[0].idx < p[0].idx
  }

  predicate Pads(other: FieldRule, own: FieldRule) {
    MayPad(ParsePath(other.to), ParsePath(own.to))
  }

  lemma {:induction false} PaddedMayPad(v: Json, p: seq<Segment>, q: seq<Segment>)
    requires Padded(v, p, q)
    ensures MayPad(p, q)
    decreases |p|
  {
    if !SameStep(p[0], q[0]) {
    } else {
      PaddedMayPad(Slot(ObjectAt(v).value, p[0]).value, p[1..], q[1..]);
    }
  }

  /** An element that is there has all earlier elements beside it. */
  lemma {:induction false} EarlierElements(v: Json, p: seq<Segment>, q: seq<Segment>)
    requires MayPad(p, q) && Get(v, p).Some?
    ensures Get(v, q).Some?
    decreases |p|
  {
    if SameStep(p[0], q[0]) {
      assert Lookup(v, p[0]) == Lookup(v, q[0]);
      EarlierElements(Lookup(v, p[0]).value, p[1..], q[1..]);
    } else {
      assert q[1..] == [];
      assert Lookup(v, q[0]).Some?;
      assert Get(v, q) == Get(Lookup(v, q[0]).value, []);
    }
  }

  lemma EmptyPathPadsNothing(q: seq<Segment>)
    ensures !MayPad(ParsePath(""), q)
  {
    assert Split("", ".") == [""];
    assert ParsePath("") == [Segment("", -1)];
  }

  function FieldAt(doc: Fields, rule: FieldRule): Option<Json> {
    GetPath(Obj(doc), rule.to)
  }

  /** Another rule leaves a field alone, except that a field that is not there yet may be padded. */
  function AfterOther(field: Option<Json>, pads: bool): Option<Json> {
    if field.None? && pads then Some(Null) else field
  }

  lemma WriteBeside(was: Json, p: seq<Segment>, v: Json, q: seq<Segment>)
    requires !Overlaps(p, q) && SetValue(was, p, v).Some?
    ensures Get(SetValue(was, p, v).value, q) == AfterOther(Get(was, q), MayPad(p, q))
  {
    FrameValue(was, p, v, q);
    if Padded(was, p, q) {
      PaddedMayPad(was, p, q);
      PaddedWasAbsent(was, p, q);
    } else if MayPad(p, q) {
      ReadBackValue(was, p, v);
      EarlierElements(SetValue(was, p, v).value, p, q);
    }
  }

  lemma OtherTake(doc: Fields, own: FieldRule, other: FieldRule, value: Json)
    requires own.to != "" && !Overlaps(ParsePath(other.to), ParsePath(own.to))
    requires ReduceField(doc, other, value).Some?
    ensures FieldAt(ReduceField(doc, other, value).value, own) == AfterOther(FieldAt(doc, own), Pads(other, own))
  {
    match Reduce(other.reduce, GetPath(Obj(doc), other.to), value) {
      case Keep =>
        if other.to == "" {
          EmptyPathPadsNothing(ParsePath(own.to));
        } else if Pads(other, own) {
          EarlierElements(Obj(doc), ParsePath(other.to), ParsePath(own.to));
        }
      case Write(v) =>
        WriteBeside(Obj(doc), ParsePath(other.to), v, ParsePath(own.to));
    }
  }

  /** One value on a field that holds `field`; `None` on a type conflict. */
  function AfterOwn(reduce: Reducer, field: Option<Json>, value: Json): Option<Option<Json>> {
    match Reduce(reduce, field, value)
    case Keep => Some(field)
    case Write(v) => Some(Some(v))
    case Conflict => None
  }

  lemma OwnTake(doc: Fields, own: FieldRule, value: Json)
    requires own.to != "" && ReduceField(doc, own, value).Some?
    ensures AfterOwn(own.reduce, FieldAt(doc, own), value) == Some(FieldAt(ReduceField(doc, own, value).value, own))
  {
    match Reduce(own.reduce, FieldAt(doc, own), value) {
      case Keep =>
      case Write(v) => ReadBack(doc, own.to, v);
    }
  }

  /** No other rule's target overlaps that of rule `k`. */
  predicate Separate(rules: seq<FieldRule>, k: nat)
    requires k < |rules|
  {
    rules[k].to != "" && forall i :: 0 <= i < |rules| && i != k ==>
      !Overlaps(ParsePath(rules[i].to), ParsePath(rules[k].to))
  }

  /** What the field of rule `k` becomes. */
  function Track(rules: seq<FieldRule>, k: nat, field: Option<Json>, takes: seq<Take>): Option<Option<Json>>
    requires k < |rules| && RulesKnown(takes, rules)
    decreases |takes|
  {
    if takes == [] then Some(field)
    else if takes[0].rule == k then
      match AfterOwn(rules[k].reduce, field, takes[0].value)
      case Some(next) => Track(rules, k, next, takes[1..])
      case None => None
    else Track(rules, k, AfterOther(field, Pads(rules[takes[0].rule], rules[k])), takes[1..])
  }

  lemma {:induction false} TakesOnField(doc: Fields, rules: seq<FieldRule>, k: nat, takes: seq<Take>)
    requires k < |rules| && Separate(rules, k) && RulesKnown(takes, rules) && ReduceTakes(doc, rules, takes).Some?
    ensures Track(rules, k, FieldAt(doc, rules[k]), takes)
         == Some(FieldAt(ReduceTakes(doc, rules, takes).value, rules[k]))
    decreases |takes|
  {
    if takes == [] {
    } else {
      var next := ReduceField(doc, rules[takes[0].rule], takes[0].value).value;
      if takes[0].rule == k {
        OwnTake(doc, rules[k], takes[0].value);
      } else {
        OtherTake(doc, rules[k], rules[takes[0].rule], takes[0].value);
      }
      TakesOnField(next, rules, k, takes[1..]);
    }
  }

  /** Some rule that pads the field of rule `k` takes a value before rule `k` itself does. */
  predicate PaddedFirst(rules: seq<FieldRule>, k: nat, takes: seq<Take>)
    requires k < |rules| && RulesKnown(takes, rules)
  {
    takes != [] && takes[0].rule != k
    && (Pads(rules[takes[0].rule], rules[k]) || PaddedFirst(rules, k, takes[1..]))
  }

  /** A field that is there changes by its own values only. */
  lemma {:induction false} TrackPresent(rules: seq<FieldRule>, k: nat, field: Option<Json>, takes: seq<Take>)
    requires k < |rules| && RulesKnown(takes, rules) && field.Some?
    ensures Track(rules, k, field, takes) == Reduced(rules[k].reduce, field, OwnValues(takes, k))
    decreases |takes|
  {
    if takes == [] {
    } else if takes[0].rule == k {
      assert ([takes[0].value] + OwnValues(takes[1..], k))[1..] == OwnValues(takes[1..], k);
      match Reduce(rules[k].reduce, field, takes[0].value) {
        case Keep => TrackPresent(rules, k, field, takes[1..]);
        case Write(v) => TrackPresent(rules, k, Some(v), takes[1..]);
        case Conflict =>
      }
    } else {
      TrackPresent(rules, k, field, takes[1..]);
    }
  }

  /** A field that is absent at first reduces its own values from there, or from the padding. */
  lemma {:induction false} TrackAbsent(rules: seq<FieldRule>, k: nat, takes: seq<Take>)
    requires k < |rules| && RulesKnown(takes, rules)
    ensures Track(rules, k, None, takes)
         == Reduced(rules[k].reduce, if PaddedFirst(rules, k, takes) then Some(Null) else None, OwnValues(takes, k))
    decreases |takes|
  {
    if takes == [] {
    } else if takes[0].rule == k {
      assert ([takes[0].value] + OwnValues(takes[1..], k))[1..] == OwnValues(takes[1..], k);
      match Reduce(rules[k].reduce, None, takes[0].value) {
        case Write(v) => TrackPresent(rules, k, Some(v), takes[1..]);
        case Conflict =>
      }
    } else if Pads(rules[takes[0].rule], rules[k]) {
      TrackPresent(rules, k, Some(Null), takes[1..]);
    } else {
      TrackAbsent(rules, k, takes[1..]);
    }
  }

  // ----- what each reducer means

  predicate AllStrings(values: seq<Json>) {
    forall i :: 0 <= i < |values| ==> values[i].Str?
  }

  function Concatenation(values: seq<Json>): string
    requires AllStrings(values)
  {
    if values == [] then "" else values[0].s + Concatenation(values[1..])
  }

  /** What a reducer makes of values on a field that starts out absent. */
  predicate Means(reduce: Reducer, values: seq<Json>, field: Option<Json>) {
    if values == [] then field == None
    else
      match reduce
      case First => field == Some(values[0])
      case Last => field == Some(values[|values| - 1])
      case Concat => AllStrings(values) && field == Some(Str(Concatenation(values)))
      case Append => field == Some(Arr(values))
      case Unsupported => false
  }

  predicate Reducible(reduce: Reducer, values: seq<Json>) {
    values == [] || (reduce != Unsupported && (reduce == Concat ==> AllStrings(values)))
  }

  /** From a text: concatenation. */
  lemma {:induction false} ConcatFrom(prefix: string, values: seq<Json>)
    ensures Reduced(Concat, Some(Str(prefix)), values)
         == if AllStrings(values) then Some(Some(Str(prefix + Concatenation(values)))) else None
    decreases |values|
  {
    if values == [] {
      assert prefix + "" == prefix;
    } else if values[0].Str? {
      ConcatFrom(prefix + values[0].s, values[1..]);
      assert AllStrings(values[1..]) ==> AllStrings(values) by {
        assert forall i :: 0 < i < |values| ==> values[i] == values[1..][i - 1];
      }
      if AllStrings(values) {
        assert prefix + values[0].s + Concatenation(values[1..]) == prefix + Concatenation(values);
      }
    } else {
    }
  }

  /** From a list: the values in order. */
  lemma {:induction false} AppendFrom(items: seq<Json>, values: seq<Json>)
    ensures Reduced(Append, Some(Arr(items)), values) == Some(Some(Arr(items + values)))
    decreases |values|
  {
    if values == [] {
      assert items + values == items;
    } else {
      AppendFrom(items + [values[0]], values[1..]);
      assert items + [values[0]] + values[1..] == items + values;
    }
  }

  lemma {:induction false} FirstFrom(v: Json, values: seq<Json>)
    ensures Reduced(First, Some(v), values) == Some(Some(v))
    decreases |values|
  {
    if values == [] {
    } else {
      FirstFrom(v, values[1..]);
    }
  }

  lemma {:induction false} LastFrom(existing: Option<Json>, values: seq<Json>)
    requires values != []
    ensures Reduced(Last, existing, values) == Some(Some(values[|values| - 1]))
    decreases |values|
  {
    if |values| <= 1 {
    } else {
      LastFrom(Some(values[0]), values[1..]);
    }
  }

  /** A field that starts out absent reduces exactly when its values fit, to what the reducer means. */
  lemma ReducedMeans(reduce: Reducer, values: seq<Json>)
    ensures Reduced(reduce, None, values).Some? <==> Reducible(reduce, values)
    ensures Reducible(reduce, values) ==> Means(reduce, values, Reduced(reduce, None, values).value)
  {
    if values != [] {
      match reduce {
        case First =>
          FirstFrom(values[0], values[1..]);
        case Last =>
          LastFrom(None, values);
        case Concat =>
          if values[0].Str? {
            ConcatFrom(values[0].s, values[1..]);
            assert AllStrings(values[1..]) ==> AllStrings(values) by {
              assert forall i :: 0 < i < |values| ==> values[i] == values[1..][i - 1];
            }
          }
        case Append =>
          AppendFrom([values[0]], values[1..]);
          assert [values[0]] + values[1..] == values;
        case Unsupported =>
      }
    }
  }

  /** On padding, `first` keeps it, `last` replaces it and the others fail. */
  lemma ReducedFromPadding(reduce: Reducer, values: seq<Json>)
    ensures Reduced(reduce, Some(Null), values)
         == if values == [] || reduce == First then Some(Some(Null))
            else if reduce == Last then Some(Some(values[|values| - 1]))
            else None
  {
    if values != [] {
      match reduce {
        case First => FirstFrom(Null, values);
        case Last => LastFrom(Some(Null), values);
        case _ =>
      }
    }
  }

  /** Whether another rule pads the field of rule `k` before it has a value of its own. */
  predicate PaddedEarly(policy: Policy, decode: Decoder, events: seq<Event>, k: nat)
    requires k < |policy.fields|
  {
    PaddedFirst(policy.fields, k, Takes(policy, decode, Seen(EndsBy(policy, decode), events)))
  }

  lemma AbsentAtFirst(path: string)
    requires path != ""
    ensures GetPath(Obj(map[]), path) == None
  {
  }

  lemma FieldTracks(policy: Policy, decode: Decoder, sink: Option<Sink>, events: seq<Event>, k: nat)
    requires k < |policy.fields| && Separate(policy.fields, k) && Collect(policy, decode, sink, events).Some?
    ensures var rule := policy.fields[k];
            Reduced(rule.reduce, if PaddedEarly(policy, decode, events, k) then Some(Null) else None,
                    ValuesOf(policy, decode, rule, Seen(EndsBy(policy, decode), events)))
            == Some(FieldAt(Collect(policy, decode, sink, events).value.document, rule))
  {
    var seen := Seen(EndsBy(policy, decode), events);
    OutcomeBySeen(policy, decode, sink, events);
    EventsTake(policy, decode, map[], seen);
    TakesOnField(map[], policy.fields, k, Takes(policy, decode, seen));
    AbsentAtFirst(policy.fields[k].to);
    TrackAbsent(policy.fields, k, Takes(policy, decode, seen));
    EventValues(policy, decode, seen, k);
  }

  /** In every collection, a field whose target overlaps no other holds what its reducer makes of its own
      values, taken in arrival order from the events up to the first terminal one, exactly when no rule
      that pads it takes a value before it does; a padded field holds null, except that `last` still
      holds its last value, which is then what it means, as is null to `first` when it came first. */
  lemma CollectedField(policy: Policy, decode: Decoder, sink: Option<Sink>, events: seq<Event>, k: nat)
    requires k < |policy.fields| && Separate(policy.fields, k) && Collect(policy, decode, sink, events).Some?
    ensures var rule := policy.fields[k];
            var values := ValuesOf(policy, decode, rule, Seen(EndsBy(policy, decode), events));
            var field := FieldAt(Collect(policy, decode, sink, events).value.document, rule);
            && (Means(rule.reduce, values, field)
                <==> !PaddedEarly(policy, decode, events, k)
                     || (values != [] && (rule.reduce == Last || values[0] == Null)))
            && (PaddedEarly(policy, decode, events, k) ==>
                  && (values == [] || rule.reduce == First || rule.reduce == Last)
                  && field == Some(if values != [] && rule.reduce == Last then values[|values| - 1] else Null))
  {
    var rule := policy.fields[k];
    var values := ValuesOf(policy, decode, rule, Seen(EndsBy(policy, decode), events));
    FieldTracks(policy, decode, sink, events, k);
    ReducedFromPadding(rule.reduce, values);
    ReducedMeans(rule.reduce, values);
  }
}
