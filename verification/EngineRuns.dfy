/** Whole runs of the event engine: batching, isolation and order, event identity. */
module EngineRuns {
  import opened Text
  import opened Hardware
  import opened EventEngine
  import opened Thresholds
  import opened Deduplication

  // ----- batching -----

  lemma EmittedStep(node: string, rules: seq<Rule>, h: seq<Sample>, batch: seq<Sample>, s: Sample)
    ensures Emitted(node, rules, h, batch + [s]) ==
            Emitted(node, rules, h, batch) + EmittedBy(node, rules, h + batch, s)
  {
    assert (batch + [s])[..|batch|] == batch;
  }

  /** Cutting a batch in two changes nothing. */
  lemma {:induction false} Batching(node: string, rules: seq<Rule>, h: seq<Sample>, a: seq<Sample>, b: seq<Sample>)
    ensures Emitted(node, rules, h, a + b) == Emitted(node, rules, h, a) + Emitted(node, rules, h + a, b)
  {
    hide *;
    if b == [] {
      NothingEmittedFrom(node, rules, h + a);
      assert a + b == a && Emitted(node, rules, h, a) + [] == Emitted(node, rules, h, a);
    } else {
      var p, s := b[..|b| - 1], b[|b| - 1];
      Batching(node, rules, h, a, p);
      assert a + b == a + p + [s] && b == p + [s] && h + (a + p) == h + a + p;
      EmittedStep(node, rules, h, a + p, s);
      EmittedStep(node, rules, h + a, p, s);
    }
  }

  lemma NothingEmittedFrom(node: string, rules: seq<Rule>, h: seq<Sample>)
    ensures Emitted(node, rules, h, []) == []
  {}

  // ----- order and isolation -----

  /** An event together with the sample and the rule that produced it. */
  datatype Tagged = Tagged(sample: nat, rule: nat, event: Event)

  ghost function TagOf(node: string, rules: seq<Rule>, k: nat, h: seq<Sample>): seq<Tagged>
    requires k < |rules| && h != []
  {
    match TransitionAt(rules[k], h[..|h| - 1], h[|h| - 1])
    case None => []
    case Some(t) => [Tagged(|h| - 1, k, EventOf(node, rules[k], h[|h| - 1], t))]
  }

  ghost function TaggedBy(node: string, rules: seq<Rule>, k: nat, h: seq<Sample>): seq<Tagged>
    requires k <= |rules| && h != []
  {
    if k == 0 then [] else TaggedBy(node, rules, k - 1, h) + TagOf(node, rules, k - 1, h)
  }

  /** Everything the engine emits over a run, tagged. */
  ghost function TaggedRun(node: string, rules: seq<Rule>, h: seq<Sample>): seq<Tagged> {
    if h == [] then []
    else TaggedRun(node, rules, h[..|h| - 1]) + TaggedBy(node, rules, |rules|, h)
  }

  ghost function Events(ts: seq<Tagged>): (es: seq<Event>)
    ensures |es| == |ts|
    ensures forall i :: 0 <= i < |ts| ==> es[i] == ts[i].event
  {
    seq(|ts|, i requires 0 <= i < |ts| => ts[i].event)
  }

  lemma EventsOfSum(a: seq<Tagged>, b: seq<Tagged>)
    ensures Events(a + b) == Events(a) + Events(b)
  {}

  lemma {:induction false} TaggedByEvents(node: string, rules: seq<Rule>, k: nat, h: seq<Sample>)
    requires k <= |rules| && h != []
    ensures Events(TaggedBy(node, rules, k, h)) == EmittedBy(node, rules[..k], h[..|h| - 1], h[|h| - 1])
  {
    hide TransitionAt, EventOf;
    if k > 0 {
      TaggedByEvents(node, rules, k - 1, h);
      assert rules[..k][..k - 1] == rules[..k - 1];
    }
  }

  /** The tags decorate the engine's output and leave nothing out. */
  lemma {:induction false} TaggedRunEvents(node: string, rules: seq<Rule>, h: seq<Sample>)
    ensures Events(TaggedRun(node, rules, h)) == Emitted(node, rules, [], h)
  {
    if h != [] {
      var p := h[..|h| - 1];
      TaggedRunEvents(node, rules, p);
      TaggedByEvents(node, rules, |rules|, h);
      assert rules[..|rules|] == rules && [] + p == p;
      EventsOfSum(TaggedRun(node, rules, p), TaggedBy(node, rules, |rules|, h));
    }
  }

  ghost predicate Before(a: Tagged, b: Tagged) {
    a.sample < b.sample || (a.sample == b.sample && a.rule < b.rule)
  }

  /** A tag tells the truth: this rule's latch for this sample's device did that. */
  ghost predicate Truthful(node: string, rules: seq<Rule>, h: seq<Sample>, t: Tagged) {
    && t.rule < |rules| && t.sample < |h|
    && var e, r, s := t.event, rules[t.rule], h[t.sample];
       && e.node == node && e.tier == s.tier && e.device == s.device
       && e.condition == r.condition && e.severity == r.severity
       && e.detail == Threshold(s.value, r.threshold)
       && TransitionAt(r, h[..t.sample], s) == Some(ChangeIn(e))
  }

  function ChangeIn(e: Event): Latch.Transition {
    Latch.Transition(e.phase, e.number, e.startedAt, e.endedAt)
  }

  ghost predicate Ordered(ts: seq<Tagged>) {
    forall i, j :: 0 <= i < j < |ts| ==> Before(ts[i], ts[j])
  }

  lemma {:induction false} TaggedByShape(node: string, rules: seq<Rule>, k: nat, h: seq<Sample>)
    requires k <= |rules| && h != []
    ensures Ordered(TaggedBy(node, rules, k, h))
    ensures forall t :: t in TaggedBy(node, rules, k, h) ==>
              t.sample == |h| - 1 && t.rule < k && Truthful(node, rules, h, t)
  {
    hide TransitionAt;
    if k > 0 {
      TaggedByShape(node, rules, k - 1, h);
    }
  }

  /** The output is ordered by sample, then by rule, and every tag tells the truth. */
  lemma {:induction false} RunOrder(node: string, rules: seq<Rule>, h: seq<Sample>)
    ensures Ordered(TaggedRun(node, rules, h))
    ensures forall t :: t in TaggedRun(node, rules, h) ==> Truthful(node, rules, h, t)
  {
    if h != [] {
      hide TaggedBy, Truthful;
      var p := h[..|h| - 1];
      RunOrder(node, rules, p);
      TaggedByShape(node, rules, |rules|, h);
      var before, now := TaggedRun(node, rules, p), TaggedBy(node, rules, |rules|, h);
      forall t | t in before ensures Truthful(node, rules, h, t) && t.sample < |p| {
        StillTruthful(node, rules, h, t);
      }
      assert TaggedRun(node, rules, h) == before + now;
    }
  }

  lemma StillTruthful(node: string, rules: seq<Rule>, h: seq<Sample>, t: Tagged)
    requires h != [] && Truthful(node, rules, h[..|h| - 1], t)
    ensures Truthful(node, rules, h, t) && t.sample < |h| - 1
  {
    hide TransitionAt;
    assert h[..t.sample] == h[..|h| - 1][..t.sample];
  }

  /** The transitions of one (rule, device) pair found in a tagged output. */
  ghost function Project(ts: seq<Tagged>, k: nat, device: string): seq<Latch.Transition> {
    if ts == [] then []
    else
      var t := ts[|ts| - 1];
      Project(ts[..|ts| - 1], k, device) +
      if t.rule == k && t.event.device == device
      then [ChangeIn(t.event)] else []
  }

  lemma {:induction false} ProjectSum(a: seq<Tagged>, b: seq<Tagged>, k: nat, device: string)
    ensures Project(a + b, k, device) == Project(a, k, device) + Project(b, k, device)
  {
    if b == [] {
      assert a + b == a;
    } else {
      ProjectSum(a, b[..|b| - 1], k, device);
      assert (a + b)[..|a + b| - 1] == a + b[..|b| - 1];
    }
  }

  /** The transition the last sample of h causes in rule k's latch for this device, if any. */
  ghost function ChangeAt(rules: seq<Rule>, h: seq<Sample>, k: nat, device: string): seq<Latch.Transition>
    requires h != [] && k < |rules|
  {
    var change := TransitionAt(rules[k], h[..|h| - 1], h[|h| - 1]);
    if h[|h| - 1].device == device && change.Some? then [change.value] else []
  }

  lemma ProjectTagOf(node: string, rules: seq<Rule>, n: nat, h: seq<Sample>, k: nat, device: string)
    requires n < |rules| && h != [] && k < |rules|
    ensures Project(TagOf(node, rules, n, h), k, device) == if k == n then ChangeAt(rules, h, k, device) else []
  {
    hide TransitionAt;
    var ts := TagOf(node, rules, n, h);
    assert ts != [] ==> ts[..|ts| - 1] == [];
  }

  lemma {:induction false} ProjectTaggedBy(node: string, rules: seq<Rule>, n: nat, h: seq<Sample>,
                                           k: nat, device: string)
    requires n <= |rules| && h != [] && k < |rules|
    ensures Project(TaggedBy(node, rules, n, h), k, device) == if k < n then ChangeAt(rules, h, k, device) else []
  {
    hide ChangeAt, TagOf, Project;
    if n == 0 {
      ProjectNothing(k, device);
    } else {
      ProjectTaggedBy(node, rules, n - 1, h, k, device);
      ProjectTagOf(node, rules, n - 1, h, k, device);
      var before, now := TaggedBy(node, rules, n - 1, h), TagOf(node, rules, n - 1, h);
      ProjectSum(before, now, k, device);
      var a, b := Project(before, k, device), Project(now, k, device);
      assert a == [] ==> a + b == b;
      assert b == [] ==> a + b == a;
    }
  }

  lemma ProjectNothing(k: nat, device: string)
    ensures Project([], k, device) == []
  {}

  /** Isolation: restricted to one rule and one device, the engine's output is what a lone
      latch makes of just the samples with that metric and that device. */
  lemma {:induction false} Isolation(node: string, rules: seq<Rule>, h: seq<Sample>, k: nat, device: string)
    requires k < |rules|
    ensures Project(TaggedRun(node, rules, h), k, device) ==
            Latch.Transitions(WindowsOf(rules[k]), Readings(rules[k], device, h))
  {
    if h != [] {
      var p, s := h[..|h| - 1], h[|h| - 1];
      Isolation(node, rules, p, k, device);
      ProjectSum(TaggedRun(node, rules, p), TaggedBy(node, rules, |rules|, h), k, device);
      ProjectTaggedBy(node, rules, |rules|, h, k, device);
      var rs := Readings(rules[k], device, p);
      if Matches(rules[k], s) && s.device == device {
        var r := ReadingOf(rules[k], s);
        assert (rs + [r])[..|rs|] == rs;
      } else {
        assert Readings(rules[k], device, h) == rs;
      }
    }
  }

  // ----- event identity -----

  /** No device can be matched by two rules that publish the same condition. */
  ghost predicate NoSharedCondition(rules: seq<Rule>) {
    forall i, j :: 0 <= i < j < |rules| && rules[i].condition == rules[j].condition ==> !Overlap(rules[i], rules[j])
  }

  ghost predicate Overlap(a: Rule, b: Rule) {
    a.device == "" || b.device == "" || a.device == b.device
  }

  lemma {:induction false} PrefixNumber(w: Latch.Windows, a: seq<Latch.Reading>, b: seq<Latch.Reading>)
    ensures Latch.Run(w, a).number <= Latch.Run(w, a + b).number
  {
    if b == [] {
      assert a + b == a;
    } else {
      PrefixNumber(w, a, b[..|b| - 1]);
      assert a + b == a + b[..|b| - 1] + [b[|b| - 1]];
      Latch.RunStep(w, a + b[..|b| - 1], b[|b| - 1]);
    }
  }

  lemma {:induction false} ReadingsSum(rule: Rule, device: string, a: seq<Sample>, b: seq<Sample>)
    ensures Readings(rule, device, a + b) == Readings(rule, device, a) + Readings(rule, device, b)
  {
    if b == [] {
      assert a + b == a;
    } else {
      ReadingsSum(rule, device, a, b[..|b| - 1]);
      assert (a + b)[..|a + b| - 1] == a + b[..|b| - 1];
    }
  }

  /** Two transitions of one latch carry different sequence numbers. */
  lemma NumbersGrow(rule: Rule, h: seq<Sample>, i: nat, j: nat)
    requires i < j < |h| && h[i].device == h[j].device
    requires TransitionAt(rule, h[..i], h[i]).Some? && TransitionAt(rule, h[..j], h[j]).Some?
    ensures TransitionAt(rule, h[..i], h[i]).value.number < TransitionAt(rule, h[..j], h[j]).value.number
  {
    var d, w := h[i].device, WindowsOf(rule);
    var ri := Readings(rule, d, h[..i]);
    ReadingsSum(rule, d, h[..i], [h[i]]);
    assert h[..i] + [h[i]] + h[i + 1..j] == h[..j];
    ReadingsSum(rule, d, h[..i] + [h[i]], h[i + 1..j]);
    assert Readings(rule, d, [h[i]]) == [ReadingOf(rule, h[i])];
    Latch.RunStep(w, ri, ReadingOf(rule, h[i]));
    PrefixNumber(w, ri + [ReadingOf(rule, h[i])], Readings(rule, d, h[i + 1..j]));
  }

  lemma DistinctIdentities(node: string, rules: seq<Rule>, h: seq<Sample>, a: Tagged, b: Tagged)
    requires NoSharedCondition(rules)
    requires Truthful(node, rules, h, a) && Truthful(node, rules, h, b) && Before(a, b)
    ensures !SameIdentity(a.event, b.event)
  {
    if SameIdentity(a.event, b.event) {
      if a.rule == b.rule {
        NumbersGrow(rules[a.rule], h, a.sample, b.sample);
      } else {
        var lo, hi := if a.rule < b.rule then a.rule else b.rule, if a.rule < b.rule then b.rule else a.rule;
        assert rules[lo].condition == rules[hi].condition;
        assert Overlap(rules[lo], rules[hi]);
      }
    }
  }

  ghost predicate AllDistinct(es: seq<Event>) {
    forall i, j :: 0 <= i < j < |es| ==> !SameIdentity(es[i], es[j])
  }

  lemma SeparateConditionsSuffice(node: string, rules: seq<Rule>, h: seq<Sample>)
    requires NoSharedCondition(rules)
    ensures AllDistinct(Emitted(node, rules, [], h))
  {
    var ts, es := TaggedRun(node, rules, h), Emitted(node, rules, [], h);
    TaggedRunEvents(node, rules, h);
    RunOrder(node, rules, h);
    forall i, j | 0 <= i < j < |es| ensures !SameIdentity(es[i], es[j]) {
      assert ts[i] in ts && ts[j] in ts;
      DistinctIdentities(node, rules, h, ts[i], ts[j]);
    }
  }

  // The other half: a shared condition is enough for two events of one identity.

  /** Every transition shows up in the output. */
  lemma {:induction false} RunComplete(node: string, rules: seq<Rule>, h: seq<Sample>, n: nat, k: nat)
    requires n < |h| && k < |rules| && TransitionAt(rules[k], h[..n], h[n]).Some?
    ensures Tagged(n, k, EventOf(node, rules[k], h[n], TransitionAt(rules[k], h[..n], h[n]).value))
            in TaggedRun(node, rules, h)
  {
    hide TransitionAt, EventOf;
    var p := h[..|h| - 1];
    if n == |h| - 1 {
      TaggedByComplete(node, rules, |rules|, h, k);
    } else {
      assert p[..n] == h[..n];
      RunComplete(node, rules, p, n, k);
    }
  }

  lemma {:induction false} TaggedByComplete(node: string, rules: seq<Rule>, m: nat, h: seq<Sample>, k: nat)
    requires h != [] && k < m <= |rules| && TransitionAt(rules[k], h[..|h| - 1], h[|h| - 1]).Some?
    ensures var s, change := h[|h| - 1], TransitionAt(rules[k], h[..|h| - 1], h[|h| - 1]);
            Tagged(|h| - 1, k, EventOf(node, rules[k], s, change.value)) in TaggedBy(node, rules, m, h)
  {
    hide TransitionAt, EventOf;
    if k < m - 1 {
      TaggedByComplete(node, rules, m - 1, h, k);
    }
  }

  /** The run has an event for sample n and rule k exactly when that sample makes the rule active
      or inactive for its device. */
  lemma EventIffChange(node: string, rules: seq<Rule>, h: seq<Sample>, n: nat, k: nat)
    requires n < |h| && k < |rules|
    ensures (exists t :: t in TaggedRun(node, rules, h) && t.sample == n && t.rule == k) <==>
            Active(rules[k], h[n].device, h[..n]) != Active(rules[k], h[n].device, h[..n + 1])
  {
    hide TransitionAt, EventOf, TaggedRun, Active;
    EmissionIsDue(node, rules[k], h[..n], h[n]);
    assert h[..n] + [h[n]] == h[..n + 1];
    RunOrder(node, rules, h);
    if TransitionAt(rules[k], h[..n], h[n]).Some? {
      RunComplete(node, rules, h, n, k);
    }
    forall t | t in TaggedRun(node, rules, h) && t.sample == n && t.rule == k
      ensures TransitionAt(rules[k], h[..n], h[n]).Some?
    {
      assert Truthful(node, rules, h, t);
    }
  }

  /** All matching samples of h come from this device and breach this rule. */
  ghost predicate OnlyBreaches(rule: Rule, device: string, h: seq<Sample>) {
    forall s :: s in h && Matches(rule, s) ==> s.device == device && s.value > rule.threshold
  }

  lemma {:induction false} IdleBelowWindow(rule: Rule, device: string, h: seq<Sample>)
    requires OnlyBreaches(rule, device, h)
    requires |Readings(rule, device, h)| < WindowsOf(rule).enterFor
    ensures var l := Latch.Run(WindowsOf(rule), Readings(rule, device, h));
            !l.active && l.number == 0 && l.breachRun == |Readings(rule, device, h)|
  {
    if h != [] {
      var p, s := h[..|h| - 1], h[|h| - 1];
      IdleBelowWindow(rule, device, p);
      if Matches(rule, s) && s.device == device {
        Latch.RunStep(WindowsOf(rule), Readings(rule, device, p), ReadingOf(rule, s));
      } else {
        assert Readings(rule, device, h) == Readings(rule, device, p);
      }
    }
  }

  /** Enough breaches cause ENTER number 1 somewhere. */
  lemma {:induction false} FirstEnter(rule: Rule, device: string, h: seq<Sample>) returns (n: nat)
    requires OnlyBreaches(rule, device, h)
    requires |Readings(rule, device, h)| >= WindowsOf(rule).enterFor
    ensures n < |h| && h[n].device == device
    ensures var change := TransitionAt(rule, h[..n], h[n]);
            change.Some? && change.value.phase == Enter && change.value.number == 1
  {
    var p, s := h[..|h| - 1], h[|h| - 1];
    if |Readings(rule, device, p)| >= WindowsOf(rule).enterFor {
      n := FirstEnter(rule, device, p);
      assert h[..n] == p[..n];
    } else {
      n := |h| - 1;
      IdleBelowWindow(rule, device, p);
    }
  }

  function FloodSample(metric: string, device: string, value: real): Sample {
    Sample("", "", device, metric, value, map[], 0)
  }

  ghost function Flood(metric: string, device: string, value: real, n: nat): (h: seq<Sample>)
    ensures forall s :: s in h ==> s == FloodSample(metric, device, value)
  {
    if n == 0 then [] else Flood(metric, device, value, n - 1) + [FloodSample(metric, device, value)]
  }

  lemma {:induction false} FloodReadings(rule: Rule, device: string, value: real, n: nat)
    requires rule.device == "" || rule.device == device
    ensures |Readings(rule, device, Flood(rule.metric, device, value, n))| == n
  {
    if n > 0 {
      FloodReadings(rule, device, value, n - 1);
      var s := FloodSample(rule.metric, device, value);
      ReadingsSum(rule, device, Flood(rule.metric, device, value, n - 1), [s]);
      assert Readings(rule, device, [s]) == [ReadingOf(rule, s)];
    }
  }

  /** A device both rules watch, driven over both thresholds long enough. */
  ghost function CollidingRun(a: Rule, b: Rule): seq<Sample> {
    var device := if a.device != "" then a.device else b.device;
    var value := (if a.threshold > b.threshold then a.threshold else b.threshold) + 1.0;
    var n := WindowsOf(a).enterFor + WindowsOf(b).enterFor;
    Flood(a.metric, device, value, n) + Flood(b.metric, device, value, n)
  }

  /** A flooded rule publishes ENTER number 1 for the flooded device. */
  lemma FloodedRuleEnters(node: string, rules: seq<Rule>, k: nat, device: string, h: seq<Sample>) returns (t: Tagged)
    requires k < |rules| && OnlyBreaches(rules[k], device, h)
    requires |Readings(rules[k], device, h)| >= WindowsOf(rules[k]).enterFor
    requires forall s :: s in h ==> s.tier == ""
    ensures t in TaggedRun(node, rules, h) && t.rule == k
    ensures var e := t.event; e.node == node && e.tier == "" && e.device == device && e.condition == rules[k].condition
    ensures t.event.phase == Enter && t.event.number == 1
  {
    hide TransitionAt, TaggedRun, Readings;
    var n := FirstEnter(rules[k], device, h);
    RunComplete(node, rules, h, n, k);
    assert h[n] in h;
    t := Tagged(n, k, EventOf(node, rules[k], h[n], TransitionAt(rules[k], h[..n], h[n]).value));
  }

  lemma SharedConditionCollides(node: string, rules: seq<Rule>, i: nat, j: nat)
    requires i < j < |rules| && rules[i].condition == rules[j].condition && Overlap(rules[i], rules[j])
    ensures !AllDistinct(Emitted(node, rules, [], CollidingRun(rules[i], rules[j])))
  {
    hide TaggedRun, Readings, Emitted, AllDistinct;
    var a, b := rules[i], rules[j];
    var h := CollidingRun(a, b);
    var device := if a.device != "" then a.device else b.device;
    var value := (if a.threshold > b.threshold then a.threshold else b.threshold) + 1.0;
    var n := WindowsOf(a).enterFor + WindowsOf(b).enterFor;
    var ha, hb := Flood(a.metric, device, value, n), Flood(b.metric, device, value, n);
    ReadingsSum(a, device, ha, hb);
    ReadingsSum(b, device, ha, hb);
    FloodReadings(a, device, value, n);
    FloodReadings(b, device, value, n);
    var ta := FloodedRuleEnters(node, rules, i, device, h);
    var tb := FloodedRuleEnters(node, rules, j, device, h);
    TaggedRunEvents(node, rules, h);
    TwoOfOneIdentity(TaggedRun(node, rules, h), ta, tb);
  }

  lemma TwoOfOneIdentity(ts: seq<Tagged>, a: Tagged, b: Tagged)
    requires a in ts && b in ts && a != b
    requires SameIdentity(a.event, b.event) && SameIdentity(b.event, a.event)
    ensures !AllDistinct(Events(ts))
  {
    var x :| 0 <= x < |ts| && ts[x] == a;
    var y :| 0 <= y < |ts| && ts[y] == b;
    var lo, hi := if x < y then x else y, if x < y then y else x;
    assert SameIdentity(Events(ts)[lo], Events(ts)[hi]);
  }

  /** Every run's events have distinct identities exactly when no two rules publish the same
      condition for a common device: something that can be checked on the configuration. */
  lemma DistinctIffNoSharedCondition(node: string, rules: seq<Rule>)
    ensures NoSharedCondition(rules) <==> forall h :: AllDistinct(Emitted(node, rules, [], h))
  {
    if NoSharedCondition(rules) {
      forall h ensures AllDistinct(Emitted(node, rules, [], h)) {
        SeparateConditionsSuffice(node, rules, h);
      }
    } else {
      var i, j :| 0 <= i < j < |rules| && rules[i].condition == rules[j].condition && Overlap(rules[i], rules[j]);
      SharedConditionCollides(node, rules, i, j);
    }
  }


  ghost predicate CollisionFree(hash: Digest, es: seq<Event>) {
    forall i, j :: 0 <= i < j < |es| ==> NoCollision(hash, es[i], es[j])
  }

  /** With NUL-free identity fields and no digest collision, IDs are as unique as identities. */
  lemma IdsFollowIdentities(hash: Digest, es: seq<Event>)
    requires IsDigest(hash) && CollisionFree(hash, es)
    requires forall i :: 0 <= i < |es| ==> CleanIdentity(es[i])
    ensures UniqueIds(WithIds(hash, es)) <==> AllDistinct(es)
  {
    hide EventId, SameIdentity, CleanIdentity;
    forall i, j | 0 <= i < j < |es|
      ensures WithIds(hash, es)[i].id == WithIds(hash, es)[j].id <==> SameIdentity(es[i], es[j])
    {
      assert NoCollision(hash, es[i], es[j]);
      EventIdMeaning(hash, es[i], es[j]);
    }
  }
}
