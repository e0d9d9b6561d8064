/** The agent's limits (internal/agent/agent.go, Tick and drainEventSource): an error of a delivery
    is earned by five failed attempts or by a cancelled context, and a drain takes one event at a
    time. */
module AgentLimits {
  import opened Hardware
  import opened Delivery
  import opened AgentLoop
  import opened AgentOrder
  import opened AgentLosses

  /** Enough attempts to give up, or a reason not to make any more. */
  ghost predicate Earned(sizes: seq<nat>, cancelled: bool) { |sizes| == 5 || cancelled }

  ghost predicate ProcEarned(proc: Proc, cancelled: bool) {
    proc.Dropping? ==> Earned(proc.sizes, cancelled)
  }

  ghost predicate SinkEarned(sink: Sink, cancelled: bool) {
    forall k :: 0 <= k < |sink.past| && !sink.past[k].ok ==> Earned(sink.past[k].sizes, cancelled)
  }

  ghost predicate AllEarned(s: State) {
    && (forall p :: 0 <= p < |s.procs| ==> ProcEarned(s.procs[p], s.cancelled))
    && (forall i :: 0 <= i < |s.sinks| ==> SinkEarned(s.sinks[i], s.cancelled))
  }

  lemma ProcEarnedStep(proc: Proc, action: Action, sinks: nat, cancelled: bool)
    requires Ready(proc, action, sinks, cancelled)
    ensures ProcEarned(NextProc(proc, action), cancelled)
  {}

  lemma SinkEarnedStep(p: nat, proc: Proc, action: Action, sink: Sink, i: nat, cancelled: bool)
    requires Standing(proc, action) && ProcEarned(proc, cancelled) && SinkEarned(sink, cancelled)
    ensures SinkEarned(SinkAfter(p, proc, action, sink, i), cancelled)
  {}

  lemma EarnedStep(s: State, step: Step)
    requires AllEarned(s) && Enabled(s, step)
    ensures AllEarned(Apply(s, step))
  {
    hide NextProc, SinkAfter, Standing, ProcEarned, SinkEarned;
    if step.Act? {
      ProcEarnedStep(s.procs[step.p], step.action, |s.sinks|, s.cancelled);
      forall i | 0 <= i < |s.sinks|
        ensures SinkEarned(SinkAfter(step.p, s.procs[step.p], step.action, s.sinks[i], i), s.cancelled)
      {
        SinkEarnedStep(step.p, s.procs[step.p], step.action, s.sinks[i], i, s.cancelled);
      }
    } else {
      CancelEarnsAll(s);
    }
  }

  lemma CancelEarnsAll(s: State)
    ensures AllEarned(s.(cancelled := true))
  {}

  lemma {:induction false} EarnedHolds(procs: nat, names: seq<string>, steps: seq<Step>)
    requires Exec(Initial(procs, names), steps).Some?
    ensures AllEarned(Exec(Initial(procs, names), steps).value)
  {
    if steps != [] {
      hide Apply, Enabled, AllEarned;
      var before := steps[..|steps| - 1];
      EarnedHolds(procs, names, before);
      EarnedStep(Exec(Initial(procs, names), before).value, steps[|steps| - 1]);
    }
  }

  /** In every reachable state, a delivery that is over made at most five attempts. One that returned
      an error had not one of them acknowledged in full, and it made all five unless the context has
      been cancelled; one that returned nil had failing attempts and then one acknowledged in full. */
  lemma ErrorsAreEarned(procs: nat, names: seq<string>, steps: seq<Step>, i: nat, k: nat)
    requires var end := Exec(Initial(procs, names), steps);
             end.Some? && i < |end.value.sinks| && k < |end.value.sinks[i].past|
    ensures var s := Exec(Initial(procs, names), steps).value; var d := s.sinks[i].past[k];
            && 1 <= |d.batch| && |d.sizes| <= 5
            && (forall a :: 0 <= a < |d.ends| ==> d.ends[a] != Acknowledged)
            && (!d.ok ==> |d.ends| == |d.sizes| && (|d.sizes| == 5 || s.cancelled))
            && (d.ok ==> |d.ends| == |d.sizes| - 1 && d.sizes[|d.ends|] == |d.batch|)
  {
    hide Exec, Initial, Within;
    EarnedHolds(procs, names, steps);
    PastIsProper(procs, names, steps, i);
    var s := Exec(Initial(procs, names), steps).value;
    assert SinkEarned(s.sinks[i], s.cancelled);
    NoneAcknowledged(s.sinks[i].past[k]);
  }

  lemma NoneAcknowledged(d: Past)
    requires Proper(d)
    ensures forall a :: 0 <= a < |d.ends| ==> d.ends[a] != Acknowledged
  {}

  /** Once the context is cancelled, no process starts an attempt any more. */
  lemma {:induction false} NoAttemptAfterCancel(s: State, steps: seq<Step>)
    requires Exec(s, steps).Some?
    ensures CancelContext in steps ==> Exec(s, steps).value.cancelled
    ensures forall j, k :: 0 <= j < k < |steps| && steps[j] == CancelContext && steps[k].Act? ==>
              steps[k].action != Attempt
  {
    if steps != [] {
      hide NextProc, SinkAfter, Standing, NewlyCounted;
      var before, last := steps[..|steps| - 1], steps[|steps| - 1];
      NoAttemptAfterCancel(s, before);
      assert forall k :: 0 <= k < |before| ==> steps[k] == before[k] && before[k] in before;
    }
  }

  /** The tick process takes its events batch by batch, a drain one by one. */
  lemma {:induction false} BatchSizes(procs: nat, names: seq<string>, steps: seq<Step>, p: nat)
    requires Exec(Initial(procs, names), steps).Some?
    ensures forall b :: b in Begun(steps, p) ==> b != [] && (p > 0 ==> |b| == 1)
  {
    if steps != [] {
      hide Apply, Begun;
      var before, step := steps[..|steps| - 1], steps[|steps| - 1];
      BatchSizes(procs, names, before, p);
      assert steps == before + [step];
      BegunStep(before, step, p);
    }
  }
}
