/** When a stream leaves a collection: for fields whose targets do not overlap, exactly when no two of them
    clash and every one reduces. */
module StreamConflicts {
  import opened Wrappers
  import opened JsonValues
  import opened Decimal
  import opened Documents
  import opened PathLaws
  import opened Envelope
  import opened EventStream
  import opened StreamCollect
  import opened StreamTheorems
  import opened StreamFields

  function Target(rule: FieldRule): seq<Segment> {
    ParsePath(rule.to)
  }

  predicate AllSeparate(rules: seq<FieldRule>) {
    forall k :: 0 <= k < |rules| ==> Separate(rules, k)
  }

  // ----- takes that reduce

  predicate ClashingTakes(rules: seq<FieldRule>, takes: seq<Take>, i: nat, j: nat)
    requires RulesKnown(takes, rules)
  {
    i < j < |takes| && Clashes(Target(rules[takes[i].rule]), Target(rules[takes[j].rule]))
  }

  /** No value is taken for a target that clashes with an earlier one's. */
  ghost predicate NoClash(rules: seq<FieldRule>, takes: seq<Take>)
    requires RulesKnown(takes, rules)
  {
    forall i: nat, j: nat :: !ClashingTakes(rules, takes, i, j)
  }

  predicate SettableAt(doc: Fields, segs: seq<Segment>) {
    SetValue(Obj(doc), segs, Null).Some?
  }

  /** Each target of a take can be set in the document. */
  predicate AllSettable(doc: Fields, rules: seq<FieldRule>, takes: seq<Take>)
    requires RulesKnown(takes, rules)
  {
    forall j :: 0 <= j < |takes| ==> SettableAt(doc, Target(rules[takes[j].rule]))
  }

  /** Every field's own values reduce, from what it holds in the document. */
  predicate AllTrack(doc: Fields, rules: seq<FieldRule>, takes: seq<Take>)
    requires RulesKnown(takes, rules)
  {
    forall k :: 0 <= k < |rules| ==> Track(rules, k, FieldAt(doc, rules[k]), takes).Some?
  }

  lemma TargetNotEmpty(rules: seq<FieldRule>, k: nat)
    requires k < |rules| && Separate(rules, k)
    ensures rules[k].to != "" && Target(rules[k]) != []
  {
  }

  /** A reducer that does not fail can write at a settable target. */
  lemma OwnTakeSucceeds(doc: Fields, own: FieldRule, value: Json)
    requires Target(own) != [] && SettableAt(doc, Target(own))
    requires AfterOwn(own.reduce, FieldAt(doc, own), value).Some?
    ensures ReduceField(doc, own, value).Some?
    ensures SettableAt(ReduceField(doc, own, value).value, Target(own))
  {
    match Reduce(own.reduce, FieldAt(doc, own), value) {
      case Keep =>
      case Write(v) =>
        SetsAlike(Obj(doc), Target(own), Null, v);
        SetTwiceValue(Obj(doc), Target(own), v, Null);
    }
  }

  /** It leaves every other target settable that neither overlaps nor clashes. */
  lemma OtherStaysSettable(doc: Fields, own: FieldRule, value: Json, other: seq<Segment>)
    requires Target(own) != [] && ReduceField(doc, own, value).Some?
    requires SettableAt(doc, other) && !Overlaps(Target(own), other) && !Clashes(Target(own), other)
    ensures SettableAt(ReduceField(doc, own, value).value, other)
  {
    match Reduce(own.reduce, FieldAt(doc, own), value) {
      case Keep =>
      case Write(v) => SettableKept(Obj(doc), Target(own), v, other, Null);
    }
  }

  lemma SettableAfter(doc: Fields, rules: seq<FieldRule>, takes: seq<Take>, next: Fields)
    requires RulesKnown(takes, rules) && AllSeparate(rules) && takes != []
    requires NoClash(rules, takes) && AllSettable(doc, rules, takes)
    requires AfterOwn(rules[takes[0].rule].reduce, FieldAt(doc, rules[takes[0].rule]), takes[0].value).Some?
    requires ReduceField(doc, rules[takes[0].rule], takes[0].value) == Some(next)
    ensures AllSettable(next, rules, takes[1..])
  {
    var r := takes[0].rule;
    TargetNotEmpty(rules, r);
    forall j | 0 <= j < |takes[1..]| ensures SettableAt(next, Target(rules[takes[1..][j].rule])) {
      var q := takes[j + 1].rule;
      assert SettableAt(doc, Target(rules[takes[j + 1].rule]));
      if q == r {
        OwnTakeSucceeds(doc, rules[r], takes[0].value);
      } else {
        assert !ClashingTakes(rules, takes, 0, j + 1);
        assert Separate(rules, q);
        OtherStaysSettable(doc, rules[r], takes[0].value, Target(rules[q]));
      }
    }
  }

  lemma TrackAfter(doc: Fields, rules: seq<FieldRule>, takes: seq<Take>, next: Fields)
    requires RulesKnown(takes, rules) && AllSeparate(rules) && takes != [] && AllTrack(doc, rules, takes)
    requires ReduceField(doc, rules[takes[0].rule], takes[0].value) == Some(next)
    ensures AllTrack(next, rules, takes[1..])
  {
    var r := takes[0].rule;
    forall k | 0 <= k < |rules| ensures Track(rules, k, FieldAt(next, rules[k]), takes[1..]).Some? {
      assert Separate(rules, k) && Track(rules, k, FieldAt(doc, rules[k]), takes).Some?;
      if k == r {
        OwnTake(doc, rules[k], takes[0].value);
      } else {
        OtherTake(doc, rules[k], rules[r], takes[0].value);
      }
    }
  }

  lemma NoClashTail(rules: seq<FieldRule>, takes: seq<Take>)
    requires RulesKnown(takes, rules) && takes != [] && NoClash(rules, takes)
    ensures NoClash(rules, takes[1..])
  {
    forall i: nat, j: nat ensures !ClashingTakes(rules, takes[1..], i, j) {
      assert !ClashingTakes(rules, takes, i + 1, j + 1);
    }
  }

  lemma {:induction false} TakesReduce(doc: Fields, rules: seq<FieldRule>, takes: seq<Take>)
    requires RulesKnown(takes, rules) && AllSeparate(rules)
    requires NoClash(rules, takes) && AllSettable(doc, rules, takes) && AllTrack(doc, rules, takes)
    ensures ReduceTakes(doc, rules, takes).Some?
    decreases |takes|
  {
    if takes == [] {
    } else {
      var own := rules[takes[0].rule];
      assert Track(rules, takes[0].rule, FieldAt(doc, own), takes).Some?;
      TargetNotEmpty(rules, takes[0].rule);
      OwnTakeSucceeds(doc, own, takes[0].value);
      var next := ReduceField(doc, own, takes[0].value).value;
      SettableAfter(doc, rules, takes, next);
      TrackAfter(doc, rules, takes, next);
      NoClashTail(rules, takes);
      TakesReduce(next, rules, takes[1..]);
    }
  }

  // ----- takes that do not

  /** A target that clashes with a field that is there takes no value. */
  lemma ClashingTakeFails(doc: Fields, held: FieldRule, own: FieldRule, value: Json)
    requires held.to != "" && own.to != "" && FieldAt(doc, held).Some?
    requires Clashes(Target(held), Target(own)) && !Overlaps(Target(held), Target(own))
    ensures ReduceField(doc, own, value) == None
  {
    var reduction := Reduce(own.reduce, None, value);
    ClashBlocks(Obj(doc), Target(held), Target(own), if reduction.Write? then reduction.value else Null);
    NothingWritten(doc, own, value, reduction);
  }

  lemma NothingWritten(doc: Fields, own: FieldRule, value: Json, reduction: Reduction)
    requires FieldAt(doc, own) == None && reduction == Reduce(own.reduce, None, value) && Target(own) != []
    requires reduction.Write? ==> SetValue(Obj(doc), Target(own), reduction.value) == None
    ensures ReduceField(doc, own, value) == None
  {
    assert reduction.Write? || reduction.Conflict?;
  }

  /** A rule that has taken a value has a field. */
  lemma FieldAppears(doc: Fields, own: FieldRule, value: Json)
    requires own.to != "" && ReduceField(doc, own, value).Some?
    ensures FieldAt(ReduceField(doc, own, value).value, own).Some?
  {
    OwnTake(doc, own, value);
  }

  /** Once a field is there it stays there. */
  lemma FieldStays(doc: Fields, rules: seq<FieldRule>, held: nat, take: Take)
    requires held < |rules| && take.rule < |rules| && Separate(rules, held) && FieldAt(doc, rules[held]).Some?
    requires ReduceField(doc, rules[take.rule], take.value).Some?
    ensures FieldAt(ReduceField(doc, rules[take.rule], take.value).value, rules[held]).Some?
  {
    if take.rule == held {
      FieldAppears(doc, rules[held], take.value);
    } else {
      OtherTake(doc, rules[held], rules[take.rule], take.value);
    }
  }

  /** One take, with the rules fixed. */
  type Step = (Fields, Take) -> Option<Fields>

  function StepOf(rules: seq<FieldRule>): Step {
    (doc: Fields, take: Take) => if take.rule < |rules| then ReduceField(doc, rules[take.rule], take.value) else None
  }

  function Run(step: Step, doc: Fields, takes: seq<Take>): Option<Fields>
    decreases |takes|
  {
    if takes == [] then Some(doc)
    else
      match step(doc, takes[0])
      case Some(next) => Run(step, next, takes[1..])
      case None => None
  }

  lemma {:induction false} ReduceIsRun(doc: Fields, rules: seq<FieldRule>, takes: seq<Take>, step: Step)
    requires RulesKnown(takes, rules) && step == StepOf(rules)
    ensures ReduceTakes(doc, rules, takes) == Run(step, doc, takes)
    decreases |takes|
  {
    if takes == [] {
    } else if step(doc, takes[0]).Some? {
      ReduceIsRun(step(doc, takes[0]).value, rules, takes[1..], step);
    } else {
    }
  }

  /** Whether a rule's field is there, and whether the targets of two rules clash. */
  type There = (Fields, nat) -> bool
  type Clashing = (nat, nat) -> bool

  /** Fields appear with their first value and stay, and what clashes with one of them fails. */
  ghost predicate Holding(step: Step, there: There, clash: Clashing) {
    && (forall doc, take :: step(doc, take).Some? ==> there(step(doc, take).value, take.rule))
    && (forall doc, take, k :: step(doc, take).Some? && there(doc, k) ==> there(step(doc, take).value, k))
    && (forall doc, take: Take, k :: there(doc, k) && clash(k, take.rule) ==> step(doc, take) == None)
  }

  lemma {:induction false} Blocked(step: Step, there: There, clash: Clashing, doc: Fields, k: nat, takes: seq<Take>,
                                   j: nat)
    requires Holding(step, there, clash) && j < |takes| && there(doc, k) && clash(k, takes[j].rule)
    ensures Run(step, doc, takes) == None
    decreases j
  {
    if j == 0 {
    } else if step(doc, takes[0]).Some? {
      Blocked(step, there, clash, step(doc, takes[0]).value, k, takes[1..], j - 1);
    } else {
    }
  }

  lemma {:induction false} ClashStops(step: Step, there: There, clash: Clashing, doc: Fields, takes: seq<Take>,
                                      i: nat, j: nat)
    requires Holding(step, there, clash) && i < j < |takes| && clash(takes[i].rule, takes[j].rule)
    ensures Run(step, doc, takes) == None
    decreases i
  {
    if step(doc, takes[0]).None? {
    } else if i == 0 {
      Blocked(step, there, clash, step(doc, takes[0]).value, takes[0].rule, takes[1..], j - 1);
    } else {
      ClashStops(step, there, clash, step(doc, takes[0]).value, takes[1..], i - 1, j - 1);
    }
  }

  function FieldThere(rules: seq<FieldRule>): There {
    (doc: Fields, k: nat) => k < |rules| && FieldAt(doc, rules[k]).Some?
  }

  function RulesClash(rules: seq<FieldRule>): Clashing {
    (i: nat, j: nat) => i < |rules| && j < |rules| && Clashes(Target(rules[i]), Target(rules[j]))
  }

  lemma RulesHold(rules: seq<FieldRule>, step: Step, there: There, clash: Clashing)
    requires AllSeparate(rules) && step == StepOf(rules) && there == FieldThere(rules) && clash == RulesClash(rules)
    ensures Holding(step, there, clash)
  {
    forall doc, take | step(doc, take).Some? ensures there(step(doc, take).value, take.rule) {
      TargetNotEmpty(rules, take.rule);
      FieldAppears(doc, rules[take.rule], take.value);
    }
    forall doc, take, k | step(doc, take).Some? && there(doc, k) ensures there(step(doc, take).value, k) {
      FieldStays(doc, rules, k, take);
    }
    forall doc, take: Take, k | there(doc, k) && clash(k, take.rule) ensures step(doc, take) == None {
      RuleFails(doc, rules, k, take);
    }
  }

  lemma RuleFails(doc: Fields, rules: seq<FieldRule>, k: nat, take: Take)
    requires AllSeparate(rules) && k < |rules| && take.rule < |rules| && FieldAt(doc, rules[k]).Some?
    requires Clashes(Target(rules[k]), Target(rules[take.rule]))
    ensures ReduceField(doc, rules[take.rule], take.value) == None
  {
    assert Separate(rules, k) && Separate(rules, take.rule);
    NoSelfClash(Target(rules[k]));
    ClashingTakeFails(doc, rules[k], rules[take.rule], take.value);
  }

  lemma ClashFails(doc: Fields, rules: seq<FieldRule>, takes: seq<Take>, i: nat, j: nat)
    requires RulesKnown(takes, rules) && AllSeparate(rules) && ClashingTakes(rules, takes, i, j)
    ensures ReduceTakes(doc, rules, takes) == None
  {
    var step, there, clash := StepOf(rules), FieldThere(rules), RulesClash(rules);
    RulesHold(rules, step, there, clash);
    ReduceIsRun(doc, rules, takes, step);
    ClashStops(step, there, clash, doc, takes, i, j);
  }

  // ----- the whole stream

  /** The own values of a field reduce, from nothing or from the padding that comes first. */
  predicate FieldFits(rules: seq<FieldRule>, k: nat, takes: seq<Take>)
    requires k < |rules| && RulesKnown(takes, rules)
  {
    var values := OwnValues(takes, k);
    values == [] || if PaddedFirst(rules, k, takes) then rules[k].reduce in {First, Last}
                    else Reducible(rules[k].reduce, values)
  }

  predicate AllFit(rules: seq<FieldRule>, takes: seq<Take>)
    requires RulesKnown(takes, rules)
  {
    forall k :: 0 <= k < |rules| ==> FieldFits(rules, k, takes)
  }

  lemma FitsTracks(rules: seq<FieldRule>, k: nat, takes: seq<Take>)
    requires k < |rules| && RulesKnown(takes, rules)
    ensures FieldFits(rules, k, takes) <==> Track(rules, k, None, takes).Some?
  {
    TrackAbsent(rules, k, takes);
    ReducedFromPadding(rules[k].reduce, OwnValues(takes, k));
    ReducedMeans(rules[k].reduce, OwnValues(takes, k));
  }

  lemma NothingThere(rules: seq<FieldRule>, takes: seq<Take>)
    requires RulesKnown(takes, rules) && AllSeparate(rules)
    ensures AllSettable(map[], rules, takes)
    ensures AllFit(rules, takes) <==> AllTrack(map[], rules, takes)
  {
    forall j | 0 <= j < |takes| ensures SettableAt(map[], Target(rules[takes[j].rule])) {
      SetFresh(Target(rules[takes[j].rule]), Null);
    }
    forall k | 0 <= k < |rules|
      ensures FieldFits(rules, k, takes) <==> Track(rules, k, FieldAt(map[], rules[k]), takes).Some?
    {
      assert Separate(rules, k);
      AbsentAtFirst(rules[k].to);
      FitsTracks(rules, k, takes);
    }
  }

  /** Values for targets that do not overlap reduce exactly when no two targets clash and every field's own
      values fit. */
  lemma TakesReduceIff(rules: seq<FieldRule>, takes: seq<Take>)
    requires RulesKnown(takes, rules) && AllSeparate(rules)
    ensures ReduceTakes(map[], rules, takes).Some? <==> NoClash(rules, takes) && AllFit(rules, takes)
  {
    NothingThere(rules, takes);
    if ReduceTakes(map[], rules, takes).Some? {
      forall i: nat, j: nat ensures !ClashingTakes(rules, takes, i, j) {
        if ClashingTakes(rules, takes, i, j) {
          ClashFails(map[], rules, takes, i, j);
        }
      }
      forall k | 0 <= k < |rules| ensures Track(rules, k, FieldAt(map[], rules[k]), takes).Some? {
        assert Separate(rules, k);
        TakesOnField(map[], rules, k, takes);
      }
    } else if NoClash(rules, takes) && AllFit(rules, takes) {
      TakesReduce(map[], rules, takes);
    }
  }

  /** What a stream needs apart from its fields: every event decodes, the live values can be written, and it
      ends as the policy demands. */
  predicate EndsWell(policy: Policy, decode: Decoder, sink: Option<Sink>, events: seq<Event>) {
    var seen := Seen(EndsBy(policy, decode), events);
    && AllDecode(policy, decode, seen) && LiveAll(policy, decode, sink, [], seen).Some?
    && LastAllows(policy, decode, seen)
  }

  function SeenTakes(policy: Policy, decode: Decoder, events: seq<Event>): (takes: seq<Take>)
    ensures RulesKnown(takes, policy.fields)
  {
    Takes(policy, decode, Seen(EndsBy(policy, decode), events))
  }

  /** With targets that do not overlap, a stream leaves a collection exactly when it ends well, no value is
      taken for a target that clashes with an earlier one's, and the values of every field fit its reducer:
      from nothing, or, when another rule pads it first, only those of `first` and `last`. */
  lemma CollectsIff(policy: Policy, decode: Decoder, sink: Option<Sink>, events: seq<Event>)
    requires AllSeparate(policy.fields)
    ensures var takes := SeenTakes(policy, decode, events);
            Collect(policy, decode, sink, events).Some?
            <==> EndsWell(policy, decode, sink, events) && NoClash(policy.fields, takes) && AllFit(policy.fields, takes)
  {
    var seen := Seen(EndsBy(policy, decode), events);
    OutcomeBySeen(policy, decode, sink, events);
    EventsTake(policy, decode, map[], seen);
    TakesReduceIff(policy.fields, SeenTakes(policy, decode, events));
  }

  /** The field means what its reducer makes of its own values. */
  predicate FieldMeans(policy: Policy, decode: Decoder, events: seq<Event>, document: Fields, k: nat)
    requires k < |policy.fields|
  {
    Means(policy.fields[k].reduce, OwnValues(SeenTakes(policy, decode, events), k), FieldAt(document, policy.fields[k]))
  }

  /** Padding does no harm to `last`, nor to a `first` whose first value is null anyway. */
  predicate UnharmedByPadding(rules: seq<FieldRule>, k: nat, takes: seq<Take>)
    requires k < |rules| && RulesKnown(takes, rules)
  {
    var values := OwnValues(takes, k);
    PaddedFirst(rules, k, takes) ==>
      values != [] && (rules[k].reduce == Last || (rules[k].reduce == First && values[0] == Null))
  }

  ghost predicate LawHolds(policy: Policy, decode: Decoder, sink: Option<Sink>, events: seq<Event>) {
    && Collect(policy, decode, sink, events).Some?
    && forall k :: 0 <= k < |policy.fields| ==>
         FieldMeans(policy, decode, events, Collect(policy, decode, sink, events).value.document, k)
  }

  /** The law for targets that do not overlap, on a stream that ends well and whose values fit their reducers:
      there is a collection in which every field means what its reducer says, exactly when no two targets that
      take values clash and no field is harmed by padding. */
  lemma LawHoldsIff(policy: Policy, decode: Decoder, sink: Option<Sink>, events: seq<Event>)
    requires AllSeparate(policy.fields) && EndsWell(policy, decode, sink, events)
    requires forall k :: 0 <= k < |policy.fields| ==>
               Reducible(policy.fields[k].reduce, OwnValues(SeenTakes(policy, decode, events), k))
    ensures var takes := SeenTakes(policy, decode, events);
            LawHolds(policy, decode, sink, events)
            <==> NoClash(policy.fields, takes)
                 && forall k :: 0 <= k < |policy.fields| ==> UnharmedByPadding(policy.fields, k, takes)
  {
    var rules, takes := policy.fields, SeenTakes(policy, decode, events);
    CollectsIff(policy, decode, sink, events);
    if Collect(policy, decode, sink, events).Some? {
      forall k | 0 <= k < |rules|
        ensures FieldMeans(policy, decode, events, Collect(policy, decode, sink, events).value.document, k)
           <==> UnharmedByPadding(rules, k, takes)
      {
        assert Separate(rules, k);
        EventValues(policy, decode, Seen(EndsBy(policy, decode), events), k);
        CollectedField(policy, decode, sink, events, k);
      }
    } else if forall k :: 0 <= k < |rules| ==> UnharmedByPadding(rules, k, takes) {
      forall k | 0 <= k < |rules| ensures FieldFits(rules, k, takes) {
        assert UnharmedByPadding(rules, k, takes);
      }
    }
  }

  // ----- two streams that are rejected

  const X_EVENT := Event("x", "1")
  const Y_EVENT := Event("y", "2")

  /** One rule takes a value on x, another on y. */
  function TwoRules(onX: FieldRule, onY: FieldRule): Policy {
    Policy("json", "", [onX, onY], None, [], [], [], false)
  }

  predicate OnXAndY(onX: FieldRule, onY: FieldRule) {
    onX.events == ["x"] && onY.events == ["y"] && onX.from == onY.from == ""
  }

  lemma OneTake(onX: FieldRule, onY: FieldRule, msg: Message)
    requires OnXAndY(onX, onY)
    ensures msg.name == "x" ==> TakesFrom([onX, onY], 0, msg) == [Take(0, onX.value)]
    ensures msg.name == "y" ==> TakesFrom([onX, onY], 0, msg) == [Take(1, onY.value)]
  {
    var rules := [onX, onY];
    assert TakesFrom(rules, 2, msg) == [];
    assert TakesFrom(rules, 1, msg) == (if msg.name == "y" then [Take(1, onY.value)] else []) + [];
  }

  lemma TakesOfTwo(policy: Policy, decode: Decoder, a: Event, b: Event)
    ensures Takes(policy, decode, [a, b]) == EventTakes(policy, decode, a) + EventTakes(policy, decode, b)
  {
    assert [a, b][1..] == [b] && [b][1..] == [];
    assert Takes(policy, decode, [b]) == EventTakes(policy, decode, b) + [];
  }

  lemma XThenY(onX: FieldRule, onY: FieldRule, decode: Decoder, policy: Policy)
    requires OnXAndY(onX, onY) && decode("1").Some? && decode("2").Some? && policy == TwoRules(onX, onY)
    ensures SeenTakes(policy, decode, [X_EVENT, Y_EVENT]) == [Take(0, onX.value), Take(1, onY.value)]
  {
    var ends, events := EndsBy(policy, decode), [X_EVENT, Y_EVENT];
    assert Seen(ends, events[1..]) == events[1..];
    assert Seen(ends, events) == events;
    OneTake(onX, onY, MessageOf(policy, decode, X_EVENT).value);
    OneTake(onX, onY, MessageOf(policy, decode, Y_EVENT).value);
    assert EventTakes(policy, decode, X_EVENT) == [Take(0, onX.value)];
    assert EventTakes(policy, decode, Y_EVENT) == [Take(1, onY.value)];
    TakesOfTwo(policy, decode, X_EVENT, Y_EVENT);
  }

  lemma TwoSeparate(onX: FieldRule, onY: FieldRule)
    requires onX.to != "" && onY.to != "" && !Overlaps(Target(onX), Target(onY))
    ensures AllSeparate(TwoRules(onX, onY).fields)
  {
    OverlapsSymmetric(Target(onX), Target(onY));
  }

  const SECOND := FieldRule("a[1]", "", Str("second"), ["x"], Last)
  const FIRST := FieldRule("a[0]", "", Str("first"), ["y"], Concat)
  const MEMBER := FieldRule("a.b", "", Str("member"), ["x"], Last)
  const ELEMENT := FieldRule("a[0]", "", Str("element"), ["y"], Last)

  lemma ElementPath(i: nat)
    requires i < 10
    ensures ParsePath("a[" + [DigitChar(i)] + "]") == [Segment("a", i)]
  {
    var seg := Segment("a", i);
    assert Itoa(i) == [DigitChar(i)];
    assert PrintSegment(seg) == "a[" + [DigitChar(i)] + "]";
    assert PrintPath([seg]) == PrintSegment(seg);
    ParsePrintedPath([seg]);
  }

  lemma MemberPath()
    ensures ParsePath("a.b") == [Segment("a", -1), Segment("b", -1)]
  {
    var segs := [Segment("a", -1), Segment("b", -1)];
    assert PrintSegment(segs[0]) == "a" && PrintSegment(segs[1]) == "b";
    assert PrintPath(segs) == "a.b";
    ParsePrintedPath(segs);
  }

  lemma Targets()
    ensures Target(SECOND) == [Segment("a", 1)] && Target(FIRST) == Target(ELEMENT) == [Segment("a", 0)]
    ensures Target(MEMBER) == [Segment("a", -1), Segment("b", -1)]
  {
    ElementPath(0);
    ElementPath(1);
    MemberPath();
    assert "a[" + [DigitChar(0)] + "]" == "a[0]" && "a[" + [DigitChar(1)] + "]" == "a[1]";
  }

  lemma PaddedRejects(onX: FieldRule, onY: FieldRule, decode: Decoder, sink: Option<Sink>)
    requires OnXAndY(onX, onY) && decode("1").Some? && decode("2").Some?
    requires AllSeparate(TwoRules(onX, onY).fields) && Pads(onX, onY) && onY.reduce == Concat
    ensures Collect(TwoRules(onX, onY), decode, sink, [X_EVENT, Y_EVENT]) == None
  {
    var policy := TwoRules(onX, onY);
    var takes := [Take(0, onX.value), Take(1, onY.value)];
    XThenY(onX, onY, decode, policy);
    CollectsIff(policy, decode, sink, [X_EVENT, Y_EVENT]);
    SecondDoesNotFit(policy.fields, takes);
  }

  lemma SecondDoesNotFit(rules: seq<FieldRule>, takes: seq<Take>)
    requires RulesKnown(takes, rules) && |rules| == 2
    requires |takes| == 2 && takes[0].rule == 0 && takes[1].rule == 1
    requires Pads(rules[0], rules[1]) && rules[1].reduce == Concat
    ensures !AllFit(rules, takes)
  {
    assert OwnValues(takes[1..], 1) == [takes[1].value] + OwnValues(takes[1..][1..], 1);
    assert !FieldFits(rules, 1, takes);
  }

  lemma ClashRejects(onX: FieldRule, onY: FieldRule, decode: Decoder, sink: Option<Sink>)
    requires OnXAndY(onX, onY) && decode("1").Some? && decode("2").Some?
    requires AllSeparate(TwoRules(onX, onY).fields) && Clashes(Target(onX), Target(onY))
    ensures Collect(TwoRules(onX, onY), decode, sink, [X_EVENT, Y_EVENT]) == None
  {
    var policy := TwoRules(onX, onY);
    XThenY(onX, onY, decode, policy);
    CollectsIff(policy, decode, sink, [X_EVENT, Y_EVENT]);
    assert ClashingTakes(policy.fields, [Take(0, onX.value), Take(1, onY.value)], 0, 1);
  }

  /** Two fields that do not overlap, `a[1]` on x and a concatenation at `a[0]` on y: when x comes first,
      padding comes first, and the stream is rejected. */
  lemma PaddingRejects(decode: Decoder, sink: Option<Sink>)
    requires decode("1").Some? && decode("2").Some?
    ensures AllSeparate(TwoRules(SECOND, FIRST).fields)
    ensures Collect(TwoRules(SECOND, FIRST), decode, sink, [X_EVENT, Y_EVENT]) == None
  {
    Targets();
    TwoSeparate(SECOND, FIRST);
    PaddedRejects(SECOND, FIRST, decode, sink);
  }

  /** Two fields that do not overlap, `a.b` on x and `a[0]` on y, both `last`: nothing is padded, and the
      stream is rejected, because x makes `a` an object and y needs an array. */
  lemma MemberAgainstElement(decode: Decoder, sink: Option<Sink>)
    requires decode("1").Some? && decode("2").Some?
    ensures AllSeparate(TwoRules(MEMBER, ELEMENT).fields)
    ensures Collect(TwoRules(MEMBER, ELEMENT), decode, sink, [X_EVENT, Y_EVENT]) == None
  {
    Targets();
    TwoSeparate(MEMBER, ELEMENT);
    ClashRejects(MEMBER, ELEMENT, decode, sink);
  }
}
