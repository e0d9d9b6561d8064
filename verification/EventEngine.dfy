/** The hysteresis event engine (internal/event/event.go): its mutable state, and what
    it emits, stated over the whole history of samples it has been given. */
module EventEngine {
  import opened Text
  import opened Hardware
  import opened Thresholds
  import Latch

  // ----- what the engine means -----

  function AtLeastOne(n: int): nat { if n < 1 then 1 else n }

  function WindowsOf(rule: Rule): (w: Latch.Windows)
    ensures w.Valid()
  { Latch.Windows(AtLeastOne(rule.enterFor), AtLeastOne(rule.exitFor)) }

  /** "" in a rule's device is a wildcard. */
  predicate Matches(rule: Rule, s: Sample) {
    rule.metric == s.metric && (rule.device == "" || rule.device == s.device)
  }

  function ReadingOf(rule: Rule, s: Sample): Latch.Reading {
    Latch.Reading(s.value > rule.threshold, s.timestamp)
  }

  /** The readings a (rule, device) pair has seen: the matching samples of that device only. */
  function Readings(rule: Rule, device: string, h: seq<Sample>): seq<Latch.Reading> {
    if h == [] then []
    else
      var s := h[|h| - 1];
      Readings(rule, device, h[..|h| - 1]) +
      if Matches(rule, s) && s.device == device then [ReadingOf(rule, s)] else []
  }

  function EventOf(node: string, rule: Rule, s: Sample, t: Latch.Transition): Event {
    Event("", node, s.tier, s.device, rule.condition, t.phase, rule.severity, t.number,
          t.startedAt, t.endedAt, Threshold(s.value, rule.threshold))
  }

  /** The transition sample s causes in rule's latch for s's device, after history h. */
  function TransitionAt(rule: Rule, h: seq<Sample>, s: Sample): Option<Latch.Transition> {
    if Matches(rule, s) then
      var w := WindowsOf(rule);
      Latch.Step(w, Latch.Run(w, Readings(rule, s.device, h)), ReadingOf(rule, s)).1
    else None
  }

  function Emission(node: string, rule: Rule, h: seq<Sample>, s: Sample): seq<Event> {
    match TransitionAt(rule, h, s)
    case None => []
    case Some(t) => [EventOf(node, rule, s, t)]
  }

  /** One sample against all rules, in construction order. */
  function EmittedBy(node: string, rules: seq<Rule>, h: seq<Sample>, s: Sample): seq<Event> {
    if rules == [] then []
    else EmittedBy(node, rules[..|rules| - 1], h, s) + Emission(node, rules[|rules| - 1], h, s)
  }

  /** A batch, sample by sample, after history h. */
  function Emitted(node: string, rules: seq<Rule>, h: seq<Sample>, batch: seq<Sample>): seq<Event> {
    if batch == [] then []
    else
      var before := batch[..|batch| - 1];
      Emitted(node, rules, h, before) + EmittedBy(node, rules, h + before, batch[|batch| - 1])
  }

  function WithIds(hash: Digest, es: seq<Event>): (r: seq<Event>)
    ensures |r| == |es|
    ensures forall i :: 0 <= i < |es| ==> r[i] == WithId(hash, es[i])
  {
    seq(|es|, i requires 0 <= i < |es| => WithId(hash, es[i]))
  }

  // ----- the mutable state -----

  class DeviceState {
    var active: bool
    var breachRun: nat
    var clearRun: nat
    var number: nat
    var startedAt: int

    function View(): Latch.State
      reads this
    { Latch.State(active, breachRun, clearRun, number, startedAt) }

    constructor ()
      ensures View() == Latch.INITIAL
    {
      active, breachRun, clearRun, number, startedAt := false, 0, 0, 0, 0;
    }

    method Observe(w: Latch.Windows, r: Latch.Reading) returns (t: Option<Latch.Transition>)
      modifies this
      ensures (View(), t) == Latch.Step(w, old(View()), r)
    {
      if r.breach {
        breachRun := breachRun + 1;
        clearRun := 0;
      } else {
        clearRun := clearRun + 1;
        breachRun := 0;
      }
      t := None;
      if !active && breachRun >= w.enterFor {
        active := true;
        number := number + 1;
        startedAt := r.at;
        t := Some(Latch.Transition(Enter, number, r.at, None));
      } else if active && clearRun >= w.exitFor {
        active := false;
        number := number + 1;
        t := Some(Latch.Transition(Exit, number, startedAt, Some(r.at)));
      }
    }
  }

  /** The latches of one rule, by device. */
  type View = map<string, Latch.State>

  function LatchIn(v: View, device: string): Latch.State {
    if device in v then v[device] else Latch.INITIAL
  }

  function Next(rule: Rule, v: View, s: Sample): (Latch.State, Option<Latch.Transition>) {
    Latch.Step(WindowsOf(rule), LatchIn(v, s.device), ReadingOf(rule, s))
  }

  function StepView(rule: Rule, v: View, s: Sample): View {
    if Matches(rule, s) then v[s.device := Next(rule, v, s).0] else v
  }

  function EmittedFrom(node: string, rule: Rule, v: View, s: Sample): seq<Event> {
    if Matches(rule, s) && Next(rule, v, s).1.Some? then [EventOf(node, rule, s, Next(rule, v, s).1.value)] else []
  }

  class RuleState {
    const rule: Rule
    const windows: Latch.Windows
    var devices: map<string, DeviceState>
    ghost var repr: set<object>

    /** No two devices share a state object. */
    ghost predicate Valid()
      reads this, repr
    {
      && this in repr
      && windows == WindowsOf(rule)
      && (forall d :: d in devices ==> devices[d] in repr)
      && (forall d, e :: d in devices && e in devices && d != e ==> devices[d] != devices[e])
    }

    ghost function View(): View
      requires Valid()
      reads this, repr
    { map d | d in devices :: devices[d].View() }

    constructor (rule: Rule)
      ensures this.rule == rule && Valid() && View() == map[] && fresh(repr)
    {
      this.rule := rule;
      windows := WindowsOf(rule);
      devices := map[];
      repr := {this};
    }

    method StateFor(device: string) returns (ds: DeviceState)
      requires Valid()
      modifies this
      ensures Valid() && fresh(repr - old(repr)) && old(repr) <= repr
      ensures device in devices && devices[device] == ds
      ensures View() == old(View())[device := LatchIn(old(View()), device)]
    {
      if device !in devices {
        ds := new DeviceState();
        devices := devices[device := ds];
        repr := repr + {ds};
      } else {
        ds := devices[device];
      }
    }

    /** The body of the inner loop: only the sample's own device is touched. */
    method Observe(node: string, s: Sample) returns (out: seq<Event>)
      requires Valid()
      modifies repr
      ensures Valid() && this in repr && fresh(repr - old(repr))
      ensures View() == StepView(rule, old(View()), s)
      ensures out == EmittedFrom(node, rule, old(View()), s)
    {
      hide Latch.Step;
      out := [];
      if rule.metric == s.metric && (rule.device == "" || rule.device == s.device) {
        var ds := StateFor(s.device);
        assert ds.View() == View()[s.device];
        var t := ds.Observe(windows, ReadingOf(rule, s));
        if t.Some? {
          out := [Event("", node, s.tier, s.device, rule.condition, t.value.phase, rule.severity, t.value.number,
                        t.value.startedAt, t.value.endedAt, Threshold(s.value, rule.threshold))];
        }
      }
    }
  }

  /** What a rule's latches are after history h. */
  ghost function ViewOf(rule: Rule, h: seq<Sample>): View {
    if h == [] then map[] else StepView(rule, ViewOf(rule, h[..|h| - 1]), h[|h| - 1])
  }

  lemma ViewStep(rule: Rule, h: seq<Sample>, s: Sample)
    ensures ViewOf(rule, h + [s]) == StepView(rule, ViewOf(rule, h), s)
  {
    assert (h + [s])[..|h|] == h;
  }

  /** Each device's latch is the latch run on that device's own readings. */
  lemma {:induction false} LatchInView(rule: Rule, h: seq<Sample>, device: string)
    ensures LatchIn(ViewOf(rule, h), device) == Latch.Run(WindowsOf(rule), Readings(rule, device, h))
  {
    if h != [] {
      var p, s := h[..|h| - 1], h[|h| - 1];
      LatchInView(rule, p, device);
      if Matches(rule, s) && s.device == device {
        Latch.RunStep(WindowsOf(rule), Readings(rule, device, p), ReadingOf(rule, s));
      } else {
        assert Readings(rule, device, h) == Readings(rule, device, p);
      }
    }
  }

  lemma EmissionIsLocal(node: string, rule: Rule, h: seq<Sample>, s: Sample)
    ensures Emission(node, rule, h, s) == EmittedFrom(node, rule, ViewOf(rule, h), s)
  {
    LatchInView(rule, h, s.device);
  }

  // ----- what the engine emits is what the samples call for -----

  lemma {:induction false} ReadingsAre(rule: Rule, device: string, h: seq<Sample>)
    ensures var rs, hs := Readings(rule, device, h), Concerning(rule, device, h);
            && |rs| == |hs|
            && forall j :: 0 <= j < |rs| ==> rs[j] == Latch.Reading(hs[j].value > rule.threshold, hs[j].timestamp)
  {
    if h != [] { ReadingsAre(rule, device, h[..|h| - 1]); }
  }

  lemma WindowsAre(rule: Rule, device: string, h: seq<Sample>, i: nat)
    ensures var w, rs, hs := WindowsOf(rule), Readings(rule, device, h), Concerning(rule, device, h);
            && (Latch.WindowEnds(rs, true, w.enterFor, i) <==> BreachesEnd(rule, hs, i))
            && (Latch.WindowEnds(rs, false, w.exitFor, i) <==> ClearsEnd(rule, hs, i))
  {
    hide Readings, Concerning;
    ReadingsAre(rule, device, h);
  }

  lemma ShouldBeActiveIs(rule: Rule, device: string, h: seq<Sample>)
    ensures Latch.ShouldBeActive(WindowsOf(rule), Readings(rule, device, h)) <==> Active(rule, device, h)
  {
    hide Readings, Concerning, BreachesEnd, ClearsEnd, Latch.WindowEnds, WindowsOf;
    var w, rs, hs := WindowsOf(rule), Readings(rule, device, h), Concerning(rule, device, h);
    forall i: nat { WindowsAre(rule, device, h, i); }
    if Latch.ShouldBeActive(w, rs) {
      var i: nat :| Latch.WindowEnds(rs, true, w.enterFor, i) && Latch.NoWindowFrom(w, rs, i);
      assert BreachesEnd(rule, hs, i) && forall j: nat :: i <= j ==> !ClearsEnd(rule, hs, j);
    }
    if Active(rule, device, h) {
      var i: nat :| BreachesEnd(rule, hs, i) && forall j: nat :: i <= j ==> !ClearsEnd(rule, hs, j);
      assert Latch.WindowEnds(rs, true, w.enterFor, i) && Latch.NoWindowFrom(w, rs, i);
    }
  }

  /** The latch theorem on samples: a rule's state for a device is active exactly when, among the
      samples with the rule's metric from that device, the last run of enterFor breaches ends
      later than every run of exitFor clears. */
  lemma ActiveOnSamples(rule: Rule, device: string, h: seq<Sample>)
    ensures LatchIn(ViewOf(rule, h), device).active <==> Active(rule, device, h)
  {
    hide Latch.Run, Latch.ShouldBeActive, Active, ViewOf;
    LatchInView(rule, h, device);
    Latch.ActiveMeaning(WindowsOf(rule), Readings(rule, device, h));
    ShouldBeActiveIs(rule, device, h);
  }

  lemma ViewChanges(rule: Rule, h: seq<Sample>, device: string)
    requires h != []
    ensures var before, now := LatchIn(ViewOf(rule, h[..|h| - 1]), device), LatchIn(ViewOf(rule, h), device);
            && now.number == before.number + (if before.active != now.active then 1 else 0)
            && now.startedAt == if !before.active && now.active then h[|h| - 1].timestamp else before.startedAt
  {}

  /** The rest of the state: how often it has changed, and since when it is active. */
  lemma {:induction false} StateOnSamples(rule: Rule, device: string, h: seq<Sample>)
    ensures var l := LatchIn(ViewOf(rule, h), device);
            && l.number == Changes(rule, device, h) && l.startedAt == ActiveSince(rule, device, h)
  {
    hide Active, LatchIn;
    if h == [] {
      IdleAtFirst(rule, device);
    } else {
      hide ViewOf;
      StateOnSamples(rule, device, h[..|h| - 1]);
      ViewChanges(rule, h, device);
      ActiveOnSamples(rule, device, h[..|h| - 1]);
      ActiveOnSamples(rule, device, h);
    }
  }

  lemma IdleAtFirst(rule: Rule, device: string)
    ensures LatchIn(ViewOf(rule, []), device) == Latch.INITIAL
  {}

  lemma EmittedFromChange(node: string, rule: Rule, h: seq<Sample>, s: Sample)
    ensures var before, now := LatchIn(ViewOf(rule, h), s.device), LatchIn(ViewOf(rule, h + [s]), s.device);
            EmittedFrom(node, rule, ViewOf(rule, h), s) ==
            if before.active == now.active then []
            else [Event("", node, s.tier, s.device, rule.condition, if now.active then Enter else Exit, rule.severity,
                        now.number, now.startedAt, if now.active then None else Some(s.timestamp),
                        Threshold(s.value, rule.threshold))]
  {
    ViewStep(rule, h, s);
    hide ViewOf;
  }

  lemma EmissionIsDue(node: string, rule: Rule, h: seq<Sample>, s: Sample)
    ensures Emission(node, rule, h, s) == Due(node, rule, h, s)
  {
    hide ViewOf, LatchIn, Emission, EmittedFrom, Active, Changes, ActiveSince;
    EmissionIsLocal(node, rule, h, s);
    EmittedFromChange(node, rule, h, s);
    ActiveOnSamples(rule, s.device, h);
    ActiveOnSamples(rule, s.device, h + [s]);
    StateOnSamples(rule, s.device, h + [s]);
  }

  lemma {:induction false} EmittedByIsDue(node: string, rules: seq<Rule>, h: seq<Sample>, s: Sample)
    ensures EmittedBy(node, rules, h, s) == DueUnder(node, rules, h, s)
  {
    hide Emission, Due;
    if rules != [] {
      EmittedByIsDue(node, rules[..|rules| - 1], h, s);
      EmissionIsDue(node, rules[|rules| - 1], h, s);
    }
  }

  /** The engine's output is exactly what the samples call for, event by event and in order. */
  lemma {:induction false} EmittedIsDue(node: string, rules: seq<Rule>, h: seq<Sample>, batch: seq<Sample>)
    ensures Emitted(node, rules, h, batch) == DueFor(node, rules, h, batch)
  {
    hide EmittedBy, DueUnder;
    if batch != [] {
      var before := batch[..|batch| - 1];
      EmittedIsDue(node, rules, h, before);
      EmittedByIsDue(node, rules, h + before, batch[|batch| - 1]);
    }
  }

  class Engine {
    const node: string
    const hash: Digest
    const rules: seq<Rule>
    const states: seq<RuleState>
    ghost var history: seq<Sample>
    ghost var views: seq<View>
    ghost var repr: set<object>

    /** No two rules share state. */
    ghost predicate Separate()
      reads this, repr
    {
      && this in repr
      && |states| == |rules|
      && (forall i :: 0 <= i < |states| ==> states[i] in repr && states[i].repr <= repr)
      && (forall i :: 0 <= i < |states| ==> states[i] in states[i].repr && this !in states[i].repr)
      && (forall i, j :: 0 <= i < j < |states| ==> states[i].repr !! states[j].repr)
      && (forall i :: 0 <= i < |states| ==> states[i].rule == rules[i] && states[i].Valid())
      && |views| == |states|
      && (forall i :: 0 <= i < |states| ==> states[i].View() == views[i])
    }

    /** Every rule's latches are what the history leaves. */
    ghost predicate Valid()
      reads this, repr
    { Separate() && forall i :: 0 <= i < |rules| ==> views[i] == ViewOf(rules[i], history) }

    constructor (node: string, hash: Digest, rules: seq<Rule>)
      ensures this.node == node && this.hash == hash && this.rules == rules
      ensures Valid() && history == [] && fresh(repr)
    {
      this.node, this.hash, this.rules := node, hash, rules;
      history := [];
      var built: seq<RuleState> := [];
      ghost var objects: set<object> := {};
      for i := 0 to |rules|
        invariant |built| == i && fresh(objects)
        invariant forall k :: 0 <= k < i ==> built[k] in objects && built[k].repr <= objects
        invariant forall k :: 0 <= k < i ==> built[k].rule == rules[k] && built[k].Valid() && built[k].View() == map[]
        invariant forall j, k :: 0 <= j < k < i ==> built[j].repr !! built[k].repr
      {
        var st := new RuleState(rules[i]);
        built := built + [st];
        objects := objects + st.repr;
      }
      states := built;
      views := seq(|built|, _ => map[]);
      repr := objects;
      new;
      assert this !in repr;
      repr := repr + {this};
    }

    /** Emits exactly what the history so far and this batch determine: what these samples, after
        those before, call for. */
    method Evaluate(samples: seq<Sample>) returns (out: seq<Event>)
      requires Valid()
      modifies repr
      ensures Valid() && fresh(repr - old(repr))
      ensures history == old(history) + samples
      ensures out == WithIds(hash, Emitted(node, rules, old(history), samples))
      ensures var due := DueFor(node, rules, old(history), samples);
              |out| == |due| && forall i :: 0 <= i < |due| ==> out[i] == due[i].(id := EventId(hash, due[i]))
    {
      hide Engine.Valid, EmittedBy, DueFor;
      EmittedIsDue(node, rules, history, samples);
      out := [];
      for i := 0 to |samples|
        invariant Valid() && fresh(repr - old(repr))
        invariant history == old(history) + samples[..i]
        invariant out == Emitted(node, rules, old(history), samples[..i])
      {
        assert samples[..i + 1][..i] == samples[..i];
        var es := EvaluateSample(samples[i]);
        out := out + es;
      }
      assert samples[..|samples|] == samples;
      out := AssignIds(hash, out);
    }

    /** The inner loop: one sample against every rule. */
    method EvaluateSample(s: Sample) returns (out: seq<Event>)
      requires Valid()
      modifies repr
      ensures Valid() && fresh(repr - old(repr))
      ensures history == old(history) + [s]
      ensures out == EmittedBy(node, rules, old(history), s)
    {
      hide Engine.Separate, StepView, EmittedFrom, Emission, ViewOf;
      out := [];
      SameCounts();
      for j := 0 to |states|
        invariant Separate() && fresh(repr - old(repr)) && history == old(history) && |views| == |rules|
        invariant forall k :: 0 <= k < |rules| ==>
                    views[k] == if k < j then ViewOf(rules[k], history + [s]) else ViewOf(rules[k], history)
        invariant out == EmittedBy(node, rules[..j], history, s)
      {
        ViewStep(rules[j], history, s);
        EmissionIsLocal(node, rules[j], history, s);
        var es := EvaluateRule(j, s);
        assert rules[..j + 1][..j] == rules[..j];
        out := out + es;
      }
      assert rules[..|rules|] == rules;
      Remember(s);
    }

    lemma SameCounts()
      requires Separate()
      ensures |states| == |views| == |rules| && this in repr
    {}

    ghost method Remember(s: Sample)
      requires Separate()
      modifies this`history
      ensures Separate() && history == old(history) + [s]
    {
      hide RuleState.Valid, RuleState.View;
      history := history + [s];
    }

    method EvaluateRule(j: nat, s: Sample) returns (out: seq<Event>)
      requires Separate() && j < |states|
      modifies repr
      ensures Separate() && fresh(repr - old(repr)) && history == old(history)
      ensures views == old(views)[j := StepView(rules[j], old(views)[j], s)]
      ensures out == EmittedFrom(node, rules[j], old(views)[j], s)
    {
      hide StepView, EmittedFrom, RuleState.Valid, RuleState.View;
      var st := states[j];
      out := st.Observe(node, s);
      forall k | 0 <= k < |states| && k != j
        ensures states[k].repr == old(states[k].repr) && states[k].Valid() && states[k].View() == views[k]
      {
        assert states[k].repr !! old(st.repr);
      }
      repr := repr + st.repr;
      views := views[j := StepView(rules[j], views[j], s)];
    }
  }

  /** The final pass over the batch, patching each event in place. */
  method AssignIds(hash: Digest, es: seq<Event>) returns (out: seq<Event>)
    ensures out == WithIds(hash, es)
    ensures |out| == |es| && forall i :: 0 <= i < |es| ==> out[i] == es[i].(id := EventId(hash, es[i]))
  {
    out := es;
    for i := 0 to |out|
      invariant |out| == |es|
      invariant forall k :: 0 <= k < |es| ==> out[k] == if k < i then WithId(hash, es[k]) else es[k]
    {
      out := out[i := out[i].(id := EventId(hash, out[i]))];
    }
  }
}
