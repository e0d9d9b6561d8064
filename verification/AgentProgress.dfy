/** Deliveries end: no process of the agent ever gets stuck, and from any point on it takes at most
    a known number of steps of its own to finish its batch, whatever the others do. */
module AgentProgress {
  import opened Hardware
  import opened Delivery
  import opened AgentLoop
  import opened AgentOrder

  // ----- no process is stuck -----

  /** Some action a process may take next; the network may answer a POST in any way. */
  ghost function SomeAction(proc: Proc, sinks: nat, cancelled: bool): Action
    requires !proc.Idle?
  {
    match proc
    case Counting(b, k) => if k < |b| then Count else Counted
    case Sending(_, i, sizes, _) =>
      if i >= sinks then Finish
      else if |sizes| == MAX_ATTEMPTS then GivesUp
      else if cancelled then SeesCancel
      else Attempt
    case Posting(b, _, _, _, n) => if n < |b| then PostOne(FailedBeforeArrival) else EmitReturns
    case Dropping(_, _, _, _) => RecordsDrop
  }

  /** In every reachable state, every process that is not idle can act. */
  lemma NeverStuck(procs: nat, names: seq<string>, steps: seq<Step>, p: nat)
    requires Exec(Initial(procs, names), steps).Some? && p < |Exec(Initial(procs, names), steps).value.procs|
    ensures var s := Exec(Initial(procs, names), steps).value; var proc := s.procs[p];
            !proc.Idle? ==>
              var action := SomeAction(proc, |s.sinks|, s.cancelled); Can(s, p, action) && !action.Begin?
  {
    hide Exec, Initial;
    Conservation(procs, names, steps);
    SoundHolds(procs, names, steps, p);
    var s := Exec(Initial(procs, names), steps).value;
    if !s.procs[p].Idle? { ActionIsReady(s.procs[p], |s.sinks|, s.cancelled); }
  }

  /** What a busy process does next is forced, the network's answers aside: while fewer than five
      attempts have failed it attempts once more, or sees that the context is cancelled; after five
      it gives up. An idle process can begin any batch, a drain any single event. */
  lemma NextMoveIff(procs: nat, names: seq<string>, steps: seq<Step>, p: nat, action: Action)
    requires Exec(Initial(procs, names), steps).Some? && p < |Exec(Initial(procs, names), steps).value.procs|
    ensures var s := Exec(Initial(procs, names), steps).value;
            if s.procs[p].Idle? then
              Can(s, p, action) <==> action.Begin? && action.batch != [] && (p > 0 ==> |action.batch| == 1)
            else
              var next := SomeAction(s.procs[p], |s.sinks|, s.cancelled);
              && (Can(s, p, action) <==> action == next || (action.PostOne? && next.PostOne?))
              && (s.procs[p].Sending? && s.procs[p].sink < |s.sinks| ==>
                    next == if |s.procs[p].sizes| == 5 then GivesUp else if s.cancelled then SeesCancel else Attempt)
  {
    hide Exec, Initial;
    Conservation(procs, names, steps);
    SoundHolds(procs, names, steps, p);
    var s := Exec(Initial(procs, names), steps).value;
    if !s.procs[p].Idle? { MoveIsForced(s.procs[p], action, |s.sinks|, s.cancelled); }
  }

  lemma MoveIsForced(proc: Proc, action: Action, sinks: nat, cancelled: bool)
    requires !proc.Idle? && WellFormed(proc, sinks) && Sound(proc)
    ensures var next := SomeAction(proc, sinks, cancelled);
            Ready(proc, action, sinks, cancelled) <==> action == next || (action.PostOne? && next.PostOne?)
  {
    hide Within, AllFailed;
  }

  lemma ActionIsReady(proc: Proc, sinks: nat, cancelled: bool)
    requires !proc.Idle? && WellFormed(proc, sinks) && Sound(proc)
    ensures Ready(proc, SomeAction(proc, sinks, cancelled), sinks, cancelled)
  {}

  lemma {:induction false} SoundHolds(procs: nat, names: seq<string>, steps: seq<Step>, p: nat)
    requires Exec(Initial(procs, names), steps).Some? && p < |Exec(Initial(procs, names), steps).value.procs|
    ensures Sound(Exec(Initial(procs, names), steps).value.procs[p])
  {
    if steps != [] {
      hide Sound, NextProc, Standing;
      var before, step := steps[..|steps| - 1], steps[|steps| - 1];
      var s := Exec(Initial(procs, names), before).value;
      SameShape(s, step);
      SoundHolds(procs, names, before, p);
      if step.Act? && step.p == p {
        SoundStep(s.procs[p], step.action);
      }
    }
  }

  // ----- a bound on the steps left -----

  /** Steps of one attempt, at most: its start, its POSTs and its return. */
  function AttemptCost(b: seq<Event>): nat { |b| + 2 }

  /** Steps at one sink, at most: all attempts, giving up and counting the drop. */
  function SinkCost(b: seq<Event>): nat { MAX_ATTEMPTS * AttemptCost(b) + 3 }

  function SinksCost(b: seq<Event>, left: nat): nat {
    if left == 0 then 0 else SinkCost(b) + SinksCost(b, left - 1)
  }

  /** Sinks left, attempts left and events left, in steps. */
  ghost function Rank(proc: Proc, sinks: nat): int {
    match proc
    case Idle => 0
    case Counting(b, k) => 2 + SinksCost(b, sinks) + |b| - k
    case Sending(b, i, sizes, _) =>
      if i >= sinks then 1 else 1 + SinksCost(b, sinks - i) - |sizes| * AttemptCost(b)
    case Posting(b, i, sizes, _, n) =>
      if i >= sinks then 1 else SinksCost(b, sinks - i) - |sizes| * AttemptCost(b) - n
    case Dropping(b, i, _, _) =>
      if i >= sinks then 1 else 2 + SinksCost(b, sinks - i - 1)
  }

  lemma AttemptsFit(n: nat, cost: nat)
    requires n <= MAX_ATTEMPTS
    ensures n * cost <= MAX_ATTEMPTS * cost
    ensures n < MAX_ATTEMPTS ==> (n + 1) * cost == n * cost + cost <= MAX_ATTEMPTS * cost
  {}

  lemma RankIsPositive(proc: Proc, sinks: nat)
    requires WellFormed(proc, sinks) && Sound(proc)
    ensures Rank(proc, sinks) >= 0 && (proc.Idle? <==> Rank(proc, sinks) == 0)
  {
    if proc.Sending? || proc.Posting? {
      AttemptsFit(|proc.sizes|, AttemptCost(proc.batch));
    }
  }

  /** Every action of a process but the beginning of a batch lowers its rank. */
  lemma RankFalls(proc: Proc, action: Action, sinks: nat, cancelled: bool)
    requires Ready(proc, action, sinks, cancelled) && WellFormed(proc, sinks) && Sound(proc) && !action.Begin?
    ensures Rank(NextProc(proc, action), sinks) < Rank(proc, sinks)
  {
    hide Within;
    if proc.Counting? {
      CountingFalls(proc, action, sinks);
    } else if proc.Sending? {
      SendingFalls(proc, action, sinks, cancelled);
    } else if proc.Posting? {
      PostingFalls(proc, action, sinks);
    }
  }

  lemma CountingFalls(proc: Proc, action: Action, sinks: nat)
    requires Standing(proc, action) && proc.Counting? && proc.counted <= |proc.batch|
    ensures Rank(NextProc(proc, action), sinks) < Rank(proc, sinks)
  {
    hide SinksCost;
    if sinks == 0 { NoSinksCost(proc.batch); }
  }

  lemma NoSinksCost(b: seq<Event>)
    ensures SinksCost(b, 0) == 0
  {}

  lemma SendingFalls(proc: Proc, action: Action, sinks: nat, cancelled: bool)
    requires Ready(proc, action, sinks, cancelled) && WellFormed(proc, sinks) && Sound(proc) && proc.Sending?
    ensures Rank(NextProc(proc, action), sinks) < Rank(proc, sinks)
  {
    hide Within;
    AttemptsFit(|proc.sizes|, AttemptCost(proc.batch));
  }

  lemma PostingFalls(proc: Proc, action: Action, sinks: nat)
    requires Standing(proc, action) && WellFormed(proc, sinks) && Sound(proc) && proc.Posting?
    ensures Rank(NextProc(proc, action), sinks) < Rank(proc, sinks)
  {
    hide Within;
    AttemptsFit(|proc.sizes|, AttemptCost(proc.batch));
    if action == EmitReturns && proc.sink + 1 == sinks { NoSinksCost(proc.batch); }
  }

  /** The steps p takes in a run, the beginnings of batches aside. */
  ghost function OwnSteps(steps: seq<Step>, p: nat): nat {
    if steps == [] then 0
    else
      var last := steps[|steps| - 1];
      OwnSteps(steps[..|steps| - 1], p) + if last.Act? && last.p == p && !last.action.Begin? then 1 else 0
  }

  ghost predicate Fit(s: State) {
    forall p :: 0 <= p < |s.procs| ==> WellFormed(s.procs[p], |s.sinks|) && Sound(s.procs[p])
  }

  lemma FitStep(s: State, step: Step)
    requires Fit(s) && Enabled(s, step)
    ensures Fit(Apply(s, step))
  {
    hide WellFormed, Sound, NextProc, Standing;
    if step.Act? {
      KeepsShape(s.procs[step.p], step.action, |s.sinks|, s.cancelled);
      SoundStep(s.procs[step.p], step.action);
    }
  }

  lemma RankStep(s: State, step: Step, p: nat)
    requires Fit(s) && Enabled(s, step) && p < |s.procs|
    requires step.Act? && step.p == p ==> !step.action.Begin?
    ensures var s' := Apply(s, step);
            && |s'.procs| == |s.procs| && |s'.sinks| == |s.sinks|
            && Rank(s'.procs[p], |s'.sinks|) <= Rank(s.procs[p], |s.sinks|) - if step.Act? && step.p == p then 1 else 0
  {
    hide WellFormed, Sound, NextProc, Standing, Rank;
    if step.Act? && step.p == p {
      RankFalls(s.procs[p], step.action, |s.sinks|, s.cancelled);
    }
  }

  /** From here on, as long as p begins nothing new, its steps are paid for by its rank. */
  lemma {:induction false} RankPays(s: State, more: seq<Step>, p: nat)
    requires Fit(s) && Exec(s, more).Some? && p < |s.procs|
    requires forall k :: 0 <= k < |more| && more[k].Act? && more[k].p == p ==> !more[k].action.Begin?
    ensures var end := Exec(s, more).value;
            && Fit(end) && |end.procs| == |s.procs| && |end.sinks| == |s.sinks|
            && OwnSteps(more, p) + Rank(end.procs[p], |end.sinks|) <= Rank(s.procs[p], |s.sinks|)
  {
    if more != [] {
      hide Apply, Enabled, Fit, Rank;
      var before, step := more[..|more| - 1], more[|more| - 1];
      assert forall k :: 0 <= k < |before| ==> before[k] == more[k];
      RankPays(s, before, p);
      var mid := Exec(s, before).value;
      FitStep(mid, step);
      RankStep(mid, step, p);
    }
  }

  /** No delivery takes more than this many steps of its process: counting the batch, every POST
      of every attempt at every sink, and the steps around them. */
  function DeliveryCost(b: seq<Event>, sinks: nat): nat { 2 + |b| + SinksCost(b, sinks) }

  /** Five attempts per sink, each with its start, its POSTs and its return. */
  lemma {:induction false} CostInNumbers(b: seq<Event>, sinks: nat)
    ensures DeliveryCost(b, sinks) == 2 + |b| + sinks * (5 * (|b| + 2) + 3)
  {
    if sinks > 0 {
      CostInNumbers(b, sinks - 1);
      OneSinkMore(sinks - 1, 5 * (|b| + 2) + 3);
    }
  }

  lemma OneSinkMore(k: nat, cost: nat)
    ensures (k + 1) * cost == k * cost + cost
  {}

  lemma SinksCostGrows(b: seq<Event>, m: nat, n: nat)
    requires m <= n
    ensures SinksCost(b, m) <= SinksCost(b, n)
  {
    if m < n { SinksCostGrows(b, m, n - 1); }
  }

  lemma RankIsBounded(proc: Proc, sinks: nat)
    requires WellFormed(proc, sinks) && Sound(proc) && !proc.Idle?
    ensures Rank(proc, sinks) <= DeliveryCost(proc.batch, sinks)
  {
    hide SinksCost;
    if !proc.Counting? && proc.sink < sinks {
      SinksCostGrows(proc.batch, sinks - proc.sink, sinks);
      SinksCostGrows(proc.batch, sinks - proc.sink - 1, sinks);
      if !proc.Dropping? { assert |proc.sizes| * AttemptCost(proc.batch) >= 0; }
    }
  }

  /** Deliveries terminate: from every reachable state and in every continuation in which a busy
      process begins nothing new, it takes at most this many steps of its own, whatever the
      others do, and is idle or can act at the end; so it is idle once it has taken them all. */
  lemma DeliveryTerminates(procs: nat, names: seq<string>, steps: seq<Step>, more: seq<Step>, p: nat)
    requires Exec(Initial(procs, names), steps).Some?
    requires var s := Exec(Initial(procs, names), steps).value;
             p < |s.procs| && !s.procs[p].Idle? && Exec(s, more).Some?
    requires forall k :: 0 <= k < |more| && more[k].Act? && more[k].p == p ==> !more[k].action.Begin?
    ensures var s := Exec(Initial(procs, names), steps).value; var end := Exec(s, more).value;
            var n := |s.procs[p].batch|; var cost := 2 + n + |s.sinks| * (5 * (n + 2) + 3);
            && OwnSteps(more, p) <= cost
            && |end.procs| == |s.procs|
            && (OwnSteps(more, p) == cost ==> end.procs[p].Idle?)
            && (!end.procs[p].Idle? ==>
                  var action := SomeAction(end.procs[p], |end.sinks|, end.cancelled);
                  Can(end, p, action) && !action.Begin?)
  {
    hide Exec, Initial, Rank, DeliveryCost;
    FitHolds(procs, names, steps);
    var s := Exec(Initial(procs, names), steps).value;
    RankPays(s, more, p);
    var end := Exec(s, more).value;
    RankIsBounded(s.procs[p], |s.sinks|);
    CostInNumbers(s.procs[p].batch, |s.sinks|);
    RankIsPositive(end.procs[p], |end.sinks|);
    if !end.procs[p].Idle? { ActionIsReady(end.procs[p], |end.sinks|, end.cancelled); }
  }

  lemma FitHolds(procs: nat, names: seq<string>, steps: seq<Step>)
    requires Exec(Initial(procs, names), steps).Some?
    ensures Fit(Exec(Initial(procs, names), steps).value)
  {
    hide Exec, Initial, WellFormed, Sound;
    Conservation(procs, names, steps);
    var s := Exec(Initial(procs, names), steps).value;
    forall p | 0 <= p < |s.procs| ensures Sound(s.procs[p]) { SoundHolds(procs, names, steps, p); }
  }
}
