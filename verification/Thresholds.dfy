/** What threshold rules promise (internal/event/event.go), said on the samples themselves: when a
    rule is active for a device, and which events a history of samples calls for. */
module Thresholds {
  import opened Text
  import opened Hardware

  // ----- when a rule is active -----

  /** The rule looks at this sample, and the sample is from this device. */
  ghost predicate Concerns(rule: Rule, device: string, s: Sample) {
    s.metric == rule.metric && s.device == device && (rule.device == "" || rule.device == device)
  }

  ghost function Concerning(rule: Rule, device: string, h: seq<Sample>): seq<Sample> {
    if h == [] then []
    else
      var s := h[|h| - 1];
      Concerning(rule, device, h[..|h| - 1]) + if Concerns(rule, device, s) then [s] else []
  }

  /** enterFor consecutive breaches, and at least one, end at index i. */
  ghost predicate BreachesEnd(rule: Rule, hs: seq<Sample>, i: nat) {
    && i < |hs|
    && 0 <= i + 1 - rule.enterFor && hs[i].value > rule.threshold
    && forall j :: i + 1 - rule.enterFor <= j <= i ==> hs[j].value > rule.threshold
  }

  /** exitFor consecutive clears, and at least one, end at index i. */
  ghost predicate ClearsEnd(rule: Rule, hs: seq<Sample>, i: nat) {
    && i < |hs|
    && 0 <= i + 1 - rule.exitFor && hs[i].value <= rule.threshold
    && forall j :: i + 1 - rule.exitFor <= j <= i ==> hs[j].value <= rule.threshold
  }

  /** The last full run of breaches ends later than every full run of clears. */
  ghost predicate Active(rule: Rule, device: string, h: seq<Sample>) {
    var hs := Concerning(rule, device, h);
    exists i: nat :: BreachesEnd(rule, hs, i) && forall j: nat :: i <= j ==> !ClearsEnd(rule, hs, j)
  }

  // ----- which events are due -----

  /** How often the rule has become active or inactive for this device. */
  ghost function Changes(rule: Rule, device: string, h: seq<Sample>): nat {
    if h == [] then 0
    else
      var before := h[..|h| - 1];
      Changes(rule, device, before) + if Active(rule, device, before) != Active(rule, device, h) then 1 else 0
  }

  /** The time of the sample that last made the rule active, 0 when none has. */
  ghost function ActiveSince(rule: Rule, device: string, h: seq<Sample>): int {
    if h == [] then 0
    else
      var before := h[..|h| - 1];
      if !Active(rule, device, before) && Active(rule, device, h) then h[|h| - 1].timestamp
      else ActiveSince(rule, device, before)
  }

  /** What sample s calls for under one rule, after history h: an event exactly when it makes the
      rule active or inactive for its device. */
  ghost function Due(node: string, rule: Rule, h: seq<Sample>, s: Sample): seq<Event> {
    var now := Active(rule, s.device, h + [s]);
    if Active(rule, s.device, h) == now then []
    else
      [Event("", node, s.tier, s.device, rule.condition, if now then Enter else Exit, rule.severity,
             Changes(rule, s.device, h + [s]), ActiveSince(rule, s.device, h + [s]),
             if now then None else Some(s.timestamp), Threshold(s.value, rule.threshold))]
  }

  /** Rule by rule, in configuration order. */
  ghost function DueUnder(node: string, rules: seq<Rule>, h: seq<Sample>, s: Sample): seq<Event> {
    if rules == [] then []
    else DueUnder(node, rules[..|rules| - 1], h, s) + Due(node, rules[|rules| - 1], h, s)
  }

  /** Sample by sample. */
  ghost function DueFor(node: string, rules: seq<Rule>, h: seq<Sample>, batch: seq<Sample>): seq<Event> {
    if batch == [] then []
    else
      var before := batch[..|batch| - 1];
      DueFor(node, rules, h, before) + DueUnder(node, rules, h + before, batch[|batch| - 1])
  }
}
