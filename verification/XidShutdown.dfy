/** The end of the XID pipeline: once the watcher has closed its channel, the forwarder
    (internal/collector/gpu.go, NewGPUCollector) closes the event channel behind it, and the agent's
    drain (internal/agent/agent.go, drainEventSource) ends. */
module XidShutdown {
  import opened Text
  import opened Hardware
  import opened XidPipeline

  // ----- why the drain ends -----

  /** Only a cancelled context or the end of the events ends the drain. */
  ghost predicate DrainInv(s: State) {
    s.drainer == DrainerGone ==> s.cancelled || s.eventsClosed
  }

  /** What the watcher leaves to the others. */
  lemma WatchTouches(s: State, w: WatcherStep)
    requires CanWatch(s, w)
    ensures var s' := Watched(s, w);
            && s'.cancelled == s.cancelled && s'.eventsClosed == s.eventsClosed && (s.xidClosed ==> s'.xidClosed)
            && (w == XidHandoff ==> !s.xidClosed && s.forwarder == Receive && s'.forwarder.Classifying?)
  {
    if w == XidHandoff { WatchHandsOver(s, w); }
    hide CanWatch;
  }

  lemma WatchHandsOver(s: State, w: WatcherStep)
    requires CanWatch(s, w) && w == XidHandoff
    ensures !s.xidClosed && s.forwarder == Receive && Watched(s, w).forwarder.Classifying?
  {}

  lemma DrainForward(g: Collector, s: State, f: ForwarderStep)
    requires DrainInv(s) && CanForward(s, f)
    ensures DrainInv(Forwarded(g, s, f))
  {
    hide ToEvent;
  }

  lemma DrainStep(g: Collector, s: State, step: Step)
    requires DrainInv(s) && Enabled(s, step)
    ensures DrainInv(Apply(g, s, step))
  {
    hide Watched, Forwarded, Closed, CanWatch, CanForward, CanClose;
    match step {
      case Watch(w) => WatchTouches(s, w);
      case Forward(f) => DrainForward(g, s, f);
      case Close(c, k) =>
    }
  }

  lemma {:induction false} DrainHolds(g: Collector, closers: nat, steps: seq<Step>)
    requires IsRun(g, Initial(closers), steps)
    ensures LifecycleInv(After(g, Initial(closers), steps)) && DrainInv(After(g, Initial(closers), steps))
  {
    LifecycleHolds(g, closers, steps);
    if steps != [] {
      hide Apply, Enabled, LifecycleInv, DrainInv;
      var before := steps[..|steps| - 1];
      DrainHolds(g, closers, before);
      DrainStep(g, After(g, Initial(closers), before), steps[|steps| - 1]);
    }
  }

  // ----- a bound on the steps left -----

  /** The steps of forwarder and drain, cancelling the context aside. */
  ghost predicate IsTailStep(step: Step) { step.Forward? && step.f != ContextCancelled }

  function ForwarderRank(f: Forwarder): nat {
    match f
    case Classifying(_) => 5
    case Hold(_) => 4
    case Receive => 2
    case CloseEvents => 1
    case ForwarderGone => 0
  }

  function DrainerRank(d: Drainer): nat {
    match d
    case Deliver(_) => 2
    case Select => 1
    case DrainerGone => 0
  }

  function TailRank(s: State): nat { ForwarderRank(s.forwarder) + DrainerRank(s.drainer) }

  lemma ForwardFalls(g: Collector, s: State, f: ForwarderStep)
    requires ForwarderInv(s) && CanForward(s, f)
    ensures var s' := Forwarded(g, s, f);
            && s'.xidClosed == s.xidClosed
            && (if f != ContextCancelled then TailRank(s') < TailRank(s) || !s.xidClosed
                else TailRank(s') == TailRank(s))
  {
    hide ToEvent;
  }

  /** With the XID channel closed, each step of forwarder or drain leaves fewer of them. */
  lemma TailFalls(g: Collector, s: State, step: Step)
    requires LifecycleInv(s) && s.xidClosed && Enabled(s, step)
    ensures var s' := Apply(g, s, step);
            && s'.xidClosed
            && (if IsTailStep(step) then TailRank(s') < TailRank(s) else TailRank(s') == TailRank(s))
  {
    hide Watched, Forwarded, Closed, CanWatch, CanForward, CanClose, OnceInv, WatcherInv, ForwarderInv;
    match step {
      case Watch(w) => WatchTouches(s, w);
      case Forward(f) => ForwardFalls(g, s, f);
      case Close(c, k) =>
    }
  }

  ghost function TailSteps(steps: seq<Step>): nat {
    if steps == [] then 0
    else TailSteps(steps[..|steps| - 1]) + if IsTailStep(steps[|steps| - 1]) then 1 else 0
  }

  lemma {:induction false} TailPays(g: Collector, s: State, more: seq<Step>)
    requires LifecycleInv(s) && DrainInv(s) && s.xidClosed && IsRun(g, s, more)
    ensures var end := After(g, s, more);
            && LifecycleInv(end) && DrainInv(end) && end.xidClosed
            && TailSteps(more) + TailRank(end) <= TailRank(s)
  {
    if more != [] {
      hide Apply, Enabled, LifecycleInv, DrainInv, TailRank, IsTailStep;
      var before, step := more[..|more| - 1], more[|more| - 1];
      TailPays(g, s, before);
      var mid := After(g, s, before);
      LifecycleStep(g, mid, step);
      DrainStep(g, mid, step);
      TailFalls(g, mid, step);
    }
  }

  /** Neither forwarder nor drain can take a step. */
  ghost predicate TailIsQuiet(s: State) {
    forall f: ForwarderStep :: f != ContextCancelled ==> !CanForward(s, f)
  }

  /** Where they come to rest: a drain that is not gone waits for an event that may still come; a
      forwarder that is not gone waits for an XID that may still come, or holds an event that no
      drain is left to take. */
  lemma QuietTail(s: State)
    requires LifecycleInv(s) && TailIsQuiet(s)
    ensures s.drainer == DrainerGone || (s.drainer == Select && s.forwarder == Receive && !s.xidClosed && !s.cancelled)
    ensures s.forwarder == ForwarderGone ==> s.eventsClosed
    ensures s.forwarder != ForwarderGone ==>
              (s.forwarder == Receive && !s.xidClosed) || (s.forwarder.Hold? && s.drainer == DrainerGone)
  {
    hide OnceInv, WatcherInv;
    assert !CanForward(s, Classifies(0)) && !CanForward(s, SeesXidClosed) && !CanForward(s, ClosesEvents);
    assert !CanForward(s, EventHandoff) && !CanForward(s, Delivered);
    assert !CanForward(s, SeesCancel) && !CanForward(s, SeesEventsClosed);
  }

  /** The forwarder's shutdown: from any reachable state with the XID channel closed, whatever else
      runs, forwarder and drain take at most 7 more steps; and when they can take none, the drain
      is gone, and so is the forwarder, with the event channel closed, unless the context was
      cancelled and the drain left an event in the forwarder's hand. */
  lemma ForwarderShutdown(g: Collector, closers: nat, steps: seq<Step>, more: seq<Step>)
    requires IsRun(g, Initial(closers), steps)
    requires After(g, Initial(closers), steps).xidClosed && IsRun(g, After(g, Initial(closers), steps), more)
    ensures var s := After(g, Initial(closers), steps); var end := After(g, s, more);
            && TailSteps(more) <= 7
            && (TailIsQuiet(end) ==>
                  && end.drainer == DrainerGone
                  && ((end.forwarder == ForwarderGone && end.eventsClosed) || (end.forwarder.Hold? && end.cancelled)))
  {
    hide Exec, Initial, LifecycleInv, TailIsQuiet;
    var s := After(g, Initial(closers), steps);
    DrainHolds(g, closers, steps);
    TailPays(g, s, more);
    var end := After(g, s, more);
    if TailIsQuiet(end) {
      QuietTail(end);
      HoldsWhileOpen(end);
    }
  }

  lemma HoldsWhileOpen(s: State)
    requires LifecycleInv(s)
    ensures s.forwarder.Hold? ==> !s.eventsClosed
  {}

  // ----- exactly when the event channel can still be closed -----

  /** The forwarder is not stuck with an XID that no drain is left to take as an event. */
  ghost predicate CanGetRid(s: State) {
    s.drainer != DrainerGone || (!s.forwarder.Classifying? && !s.forwarder.Hold?)
  }

  /** Some Close call has been made, or can be. */
  ghost predicate CanStop(s: State) { s.stop.done || s.stop.closers != [] }

  /** This Close call is the one that closes `done`, or can be. */
  ghost predicate MayClose(s: State, c: nat) {
    && c < |s.stop.closers|
    && (s.stop.closers[c] == ClosingDone ||
        (s.stop.once == Fresh && (s.stop.closers[c] == XidPipeline.Idle || s.stop.closers[c] == AtOnce)))
  }

  ghost function TowardsDone(s: State, c: nat): Step
    requires MayClose(s, c)
  {
    match s.stop.closers[c]
    case Idle => Close(c, Called)
    case AtOnce => Close(c, Entered)
    case _ => Close(c, ClosesDone)
  }

  lemma CloserMoves(g: Collector, s: State, c: nat)
    requires MayClose(s, c)
    ensures var step := TowardsDone(s, c); var s' := Apply(g, s, step);
            && Enabled(s, step) && (s'.stop.done || MayClose(s', c))
            && s'.forwarder == s.forwarder && s'.drainer == s.drainer && |s'.stop.closers| == |s.stop.closers|
            && CloserRank(s'.stop.closers[c]) < CloserRank(s.stop.closers[c])
  {}

  lemma CloserBeforeDone(s: State) returns (c: nat)
    requires LifecycleInv(s) && !s.stop.done && s.stop.closers != []
    ensures MayClose(s, c)
  {
    c := if s.stop.once.Running? then s.stop.once.owner else 0;
    assert InBody(s.stop.closers[c]) <==> s.stop.once == Running(c);
  }

  lemma {:induction false} DriveToDone(g: Collector, from: State, steps: seq<Step>, s: State, c: nat)
    returns (more: seq<Step>, s': State)
    requires Exec(g, from, steps) == Some(s) && LifecycleInv(s) && MayClose(s, c)
    ensures Exec(g, from, more) == Some(s') && LifecycleInv(s') && s'.stop.done
    ensures s'.forwarder == s.forwarder && s'.drainer == s.drainer && |s'.stop.closers| == |s.stop.closers|
    decreases CloserRank(s.stop.closers[c])
  {
    hide Exec, LifecycleInv, Apply, Enabled, TowardsDone, CloserRank;
    CloserMoves(g, s, c);
    more, s' := OneMore(g, from, steps, s, TowardsDone(s, c));
    if !s'.stop.done {
      more, s' := DriveToDone(g, from, more, s', c);
    }
  }

  lemma ReachDone(g: Collector, s: State) returns (steps: seq<Step>, s': State)
    requires LifecycleInv(s) && CanStop(s)
    ensures Exec(g, s, steps) == Some(s') && LifecycleInv(s') && s'.stop.done
    ensures s'.forwarder == s.forwarder && s'.drainer == s.drainer && |s'.stop.closers| == |s.stop.closers|
  {
    hide Exec, LifecycleInv, MayClose;
    Nothing(g, s);
    steps, s' := [], s;
    if !s.stop.done {
      var c := CloserBeforeDone(s);
      steps, s' := DriveToDone(g, s, steps, s, c);
    }
  }

  lemma OneMore(g: Collector, from: State, steps: seq<Step>, s: State, step: Step)
    returns (more: seq<Step>, s': State)
    requires Exec(g, from, steps) == Some(s) && LifecycleInv(s) && Enabled(s, step)
    ensures Exec(g, from, more) == Some(s') && s' == Apply(g, s, step) && LifecycleInv(s')
  {
    hide LifecycleInv, Apply, Enabled, Exec;
    more, s' := OneStep(g, from, steps, s, step);
    LifecycleStep(g, s, step);
  }

  lemma WatcherMoves(g: Collector, s: State)
    requires LifecycleInv(s) && s.stop.done && s.watcher != Gone
    ensures var step := WatcherMove(s); var s' := Apply(g, s, step);
            && Enabled(s, step) && s'.stop.done && s'.forwarder == s.forwarder && s'.drainer == s.drainer
            && WatcherRank(s'.watcher) < WatcherRank(s.watcher)
  {
    hide OnceInv;
  }

  lemma {:induction false} ReachXidClosed(g: Collector, from: State, steps: seq<Step>, s: State)
    returns (more: seq<Step>, s': State)
    requires Exec(g, from, steps) == Some(s) && LifecycleInv(s) && s.stop.done
    ensures Exec(g, from, more) == Some(s') && LifecycleInv(s') && s'.xidClosed
    ensures s'.forwarder == s.forwarder && s'.drainer == s.drainer
    decreases WatcherRank(s.watcher)
  {
    hide Exec, Apply, Enabled, WatcherRank, OnceInv, ForwarderInv;
    more, s' := steps, s;
    if s.watcher != Gone {
      WatcherMoves(g, s);
      more, s' := OneMore(g, from, steps, s, WatcherMove(s));
      more, s' := ReachXidClosed(g, from, more, s');
    }
  }

  /** With the XID channel closed, the forwarder gets rid of what it has and closes the events. */
  lemma ReachEventsClosed(g: Collector, from: State, steps: seq<Step>, s: State)
    returns (more: seq<Step>, s': State)
    requires Exec(g, from, steps) == Some(s) && LifecycleInv(s) && s.xidClosed && CanGetRid(s)
    ensures Exec(g, from, more) == Some(s') && s'.eventsClosed
  {
    hide ToEvent, Exec, OnceInv, WatcherInv;
    more, s' := steps, s;
    if s'.forwarder.Classifying? {
      more, s' := OneMore(g, from, more, s', Forward(Classifies(0)));
    }
    if s'.forwarder.Hold? {
      if s'.drainer.Deliver? {
        more, s' := OneMore(g, from, more, s', Forward(Delivered));
      }
      more, s' := OneMore(g, from, more, s', Forward(EventHandoff));
    }
    if s'.forwarder == Receive {
      more, s' := OneMore(g, from, more, s', Forward(SeesXidClosed));
    }
    if s'.forwarder == CloseEvents {
      more, s' := OneMore(g, from, more, s', Forward(ClosesEvents));
    }
  }

  /** The event channel will stay open. */
  ghost predicate StaysOpen(s: State) {
    LifecycleInv(s) && !(CanStop(s) && CanGetRid(s))
  }

  lemma StaysOpenStep(g: Collector, s: State, step: Step)
    requires StaysOpen(s) && Enabled(s, step)
    ensures StaysOpen(Apply(g, s, step)) && !s.eventsClosed
  {
    LifecycleStep(g, s, step);
    hide ToEvent;
  }

  lemma {:induction false} StaysOpenForever(g: Collector, s: State, steps: seq<Step>)
    requires StaysOpen(s) && IsRun(g, s, steps)
    ensures StaysOpen(After(g, s, steps)) && !After(g, s, steps).eventsClosed
  {
    if steps == [] {
      OpenNow(s);
    } else {
      hide Apply, Enabled, StaysOpen;
      var before := steps[..|steps| - 1];
      StaysOpenForever(g, s, before);
      StaysOpenStep(g, After(g, s, before), steps[|steps| - 1]);
      OpenNow(After(g, s, steps));
    }
  }

  lemma OpenNow(s: State)
    requires StaysOpen(s)
    ensures !s.eventsClosed
  {}

  ghost predicate CanStillCloseEvents(g: Collector, s: State) {
    exists t :: IsRun(g, s, t) && After(g, s, t).eventsClosed
  }

  /** From any state of the protocol some continuation closes the event channel exactly when a Close
      call has been or can be made, and no XID is stuck at the forwarder with the drain gone. */
  lemma EventsCloseIff(g: Collector, s: State)
    requires LifecycleInv(s)
    ensures CanStillCloseEvents(g, s) <==>
            && (s.stop.done || s.stop.closers != [])
            && (s.drainer != DrainerGone || (!s.forwarder.Classifying? && !s.forwarder.Hold?))
  {
    if CanStop(s) && CanGetRid(s) {
      hide LifecycleInv;
      var steps, s1 := ReachDone(g, s);
      var more, s2 := ReachXidClosed(g, s, steps, s1);
      var all, s3 := ReachEventsClosed(g, s, more, s2);
      assert IsRun(g, s, all) && After(g, s, all).eventsClosed;
    } else {
      hide LifecycleInv;
      forall t | IsRun(g, s, t) ensures !After(g, s, t).eventsClosed { StaysOpenForever(g, s, t); }
    }
  }

  /** The one way not to get there does happen: the context is cancelled while an event waits for the
      drain, the drain leaves, and from then on the event channel stays open. */
  lemma DrainLeavesEvent(g: Collector, raw: Raw) returns (steps: seq<Step>)
    ensures IsRun(g, Initial(1), steps)
    ensures var s := After(g, Initial(1), steps);
            && s.sent == [raw] && s.received == [] && s.forwarder.Hold? && s.drainer == DrainerGone
            && !CanStillCloseEvents(g, s)
  {
    hide ToEvent, Exec;
    var t := SendOne(g, raw);
    var s := Initial(1).(forwarder := Classifying(raw), waited := [raw], sent := [raw]);
    t, s := OneStep(g, Initial(1), t, s, Forward(Classifies(0)));
    t, s := OneStep(g, Initial(1), t, s, Forward(ContextCancelled));
    t, s := OneStep(g, Initial(1), t, s, Forward(SeesCancel));
    steps := t;
    LifecycleHolds(g, 1, steps);
    hide LifecycleInv;
    EventsCloseIff(g, s);
  }

  /** One XID on record, the protocol otherwise where it began. */
  ghost function OneDelivered(g: Collector, raw: Raw, now: int): State {
    Initial(1).(count := 1, waited := [raw], sent := [raw], received := [ToEvent(g, raw, 1, now)])
  }

  lemma SendOne(g: Collector, raw: Raw) returns (steps: seq<Step>)
    ensures Exec(g, Initial(1), steps) ==
            Some(Initial(1).(forwarder := Classifying(raw), waited := [raw], sent := [raw]))
  {
    hide Exec;
    var s0 := Initial(1);
    Nothing(g, s0);
    var t, s := OneStep(g, s0, [], s0, Watch(Checks));
    t, s := OneStep(g, s0, t, s, Watch(WaitStarts));
    t, s := OneStep(g, s0, t, s, Watch(WaitReturns(Ready(raw))));
    t, s := OneStep(g, s0, t, s, Watch(Identifies));
    t, s := OneStep(g, s0, t, s, Watch(XidHandoff));
    assert s.waited == [raw] && s.sent == [raw];
    steps := t;
  }

  lemma DeliverOne(g: Collector, raw: Raw, now: int) returns (steps: seq<Step>)
    ensures Exec(g, Initial(1), steps) == Some(OneDelivered(g, raw, now))
  {
    hide ToEvent, Exec;
    var t := SendOne(g, raw);
    var s := Initial(1).(forwarder := Classifying(raw), waited := [raw], sent := [raw]);
    t, s := OneStep(g, Initial(1), t, s, Forward(Classifies(now)));
    t, s := OneStep(g, Initial(1), t, s, Forward(EventHandoff));
    t, s := OneStep(g, Initial(1), t, s, Forward(Delivered));
    assert s.received == [ToEvent(g, raw, 1, now)];
    steps := t;
  }

  lemma Nothing(g: Collector, s: State)
    ensures Exec(g, s, []) == Some(s)
  {}

  /** A Close call up to the point where it waits for the watcher, and the watcher's closing of its
      channel. */
  lemma StopWatcher(g: Collector, from: State, steps: seq<Step>, s: State)
    returns (more: seq<Step>, s': State)
    requires Exec(g, from, steps) == Some(s) && s.watcher == Check && !s.xidClosed && !s.panicked
    requires s.stop == Closing([XidPipeline.Idle], Fresh, false, 0, 0)
    ensures Exec(g, from, more) == Some(s')
    ensures s' == s.(watcher := CloseStopped, xidClosed := true,
                     stop := Closing([AwaitStopped], Running(0), true, 0, 0))
  {
    hide Exec, ToEvent;
    more, s' := OneStep(g, from, steps, s, Close(0, Called));
    more, s' := OneStep(g, from, more, s', Close(0, Entered));
    more, s' := OneStep(g, from, more, s', Close(0, ClosesDone));
    more, s' := OneStep(g, from, more, s', Watch(Checks));
    more, s' := OneStep(g, from, more, s', Watch(ClosesXid));
  }

  /** What is left then: forwarder and drain end, and the Close call releases NVML and returns. */
  lemma FinishAll(g: Collector, from: State, steps: seq<Step>, s: State)
    returns (more: seq<Step>, s': State)
    requires Exec(g, from, steps) == Some(s)
    requires s.watcher == CloseStopped && s.forwarder == Receive && s.drainer == Select
    requires s.xidClosed && !s.eventsClosed && !s.stopped && !s.panicked
    requires s.stop == Closing([AwaitStopped], Running(0), true, 0, 0)
    ensures Exec(g, from, more) == Some(s')
    ensures s' == s.(watcher := Gone, forwarder := ForwarderGone, drainer := DrainerGone, eventsClosed := true,
                     stopped := true, stop := Closing([Returned], Finished, true, 1, 1))
  {
    hide Exec, ToEvent;
    more, s' := OneStep(g, from, steps, s, Forward(SeesXidClosed));
    more, s' := OneStep(g, from, more, s', Forward(ClosesEvents));
    more, s' := OneStep(g, from, more, s', Forward(SeesEventsClosed));
    more, s' := OneStep(g, from, more, s', Watch(ClosesStopped));
    more, s' := OneStep(g, from, more, s', Close(0, SeesStopped));
    more, s' := OneStep(g, from, more, s', Close(0, FreesSet));
    more, s' := OneStep(g, from, more, s', Close(0, ShutsDown));
  }

  /** One XID from the driver to the agent and a full shutdown: everything is closed, every goroutine
      is gone, NVML is released, and nothing was cancelled. */
  lemma CompleteRun(g: Collector, raw: Raw, now: int) returns (steps: seq<Step>)
    ensures IsRun(g, Initial(1), steps)
    ensures var s := After(g, Initial(1), steps);
            && s.watcher == Gone && s.forwarder == ForwarderGone && s.drainer == DrainerGone
            && s.xidClosed && s.eventsClosed && s.stopped && !s.cancelled && !s.panicked
            && s.stop == Closing([Returned], Finished, true, 1, 1)
            && s.waited == s.sent == [raw]
            && |s.received| == 1 && Reports(g, s.received[0], raw, 1) && s.received[0].startedAt == now
  {
    hide Exec, ToEvent, Reports;
    assert Initial(1).stop.closers == [XidPipeline.Idle];
    ToEventReports(g, raw, 1, now);
    StampOf(g, raw, 1, now);
    var t := DeliverOne(g, raw, now);
    var s := OneDelivered(g, raw, now);
    t, s := StopWatcher(g, Initial(1), t, s);
    t, s := FinishAll(g, Initial(1), t, s);
    steps := t;
  }

  // ----- what each goroutine may do -----

  /** The watcher is held up only by a send that no one receives, and then only until it is asked to
      stop; and Wait may return anything. */
  lemma WatcherIsHeldUpIff(s: State)
    requires LifecycleInv(s)
    ensures (forall w: WatcherStep :: !CanWatch(s, w)) <==>
            s.watcher == Gone || (s.watcher.Send? && s.forwarder != Receive && !s.stop.done)
    ensures s.watcher == Waiting ==> forall outcome: Outcome :: CanWatch(s, WaitReturns(outcome))
  {
    hide OnceInv, ForwarderInv;
    var w := match s.watcher
             case Check => Checks
             case BeforeWait => WaitStarts
             case Waiting => WaitReturns(Timeout)
             case Identify(_) => Identifies
             case Send(_) => if s.stop.done then Abandons else XidHandoff
             case CloseXid => ClosesXid
             case _ => ClosesStopped;
    assert s.watcher != Gone && !(s.watcher.Send? && s.forwarder != Receive && !s.stop.done) ==> CanWatch(s, w);
  }

  ghost function Deliveries(steps: seq<Step>): nat {
    if steps == [] then 0
    else Deliveries(steps[..|steps| - 1]) + if steps[|steps| - 1] == Forward(Delivered) then 1 else 0
  }

  ghost predicate DeliversLast(s: State, deliveries: nat) {
    && deliveries == |s.received| - (if s.drainer.Deliver? then 1 else 0)
    && (s.drainer.Deliver? ==> s.received != [] && s.received[|s.received| - 1] == s.drainer.ev)
  }

  lemma DeliverForward(g: Collector, s: State, f: ForwarderStep, n: nat)
    requires DeliversLast(s, n) && CanForward(s, f)
    ensures DeliversLast(Forwarded(g, s, f), n + if f == Delivered then 1 else 0)
  {
    hide ToEvent;
  }

  lemma DeliverStep(g: Collector, s: State, step: Step, n: nat)
    requires DeliversLast(s, n) && Enabled(s, step)
    ensures DeliversLast(Apply(g, s, step), n + if step == Forward(Delivered) then 1 else 0)
  {
    hide Watched, Forwarded, Closed, CanWatch, CanForward, CanClose;
    if step.Forward? { DeliverForward(g, s, step.f, n); }
  }

  /** The drain delivers one event after the other: every event received has been delivered, but for
      the last one while the drain is at it. */
  lemma {:induction false} DeliveredInTurn(g: Collector, closers: nat, steps: seq<Step>)
    requires IsRun(g, Initial(closers), steps)
    ensures DeliversLast(After(g, Initial(closers), steps), Deliveries(steps))
  {
    if steps != [] {
      hide Apply, Enabled, DeliversLast;
      var before := steps[..|steps| - 1];
      DeliveredInTurn(g, closers, before);
      DeliverStep(g, After(g, Initial(closers), before), steps[|steps| - 1], Deliveries(before));
    }
  }

  lemma StaysCalled(g: Collector, s: State, step: Step, c: nat)
    requires Enabled(s, step) && c < |s.stop.closers| && s.stop.closers[c] != XidPipeline.Idle
    ensures var s' := Apply(g, s, step);
            |s'.stop.closers| == |s.stop.closers| && s'.stop.closers[c] != XidPipeline.Idle
  {
    hide Watched, Forwarded, Closed, CanWatch, CanForward;
  }

  /** One unaided step nearer to the return of a Close call. */
  lemma CloserToReturn(g: Collector, from: State, steps: seq<Step>, s: State, c: nat)
    returns (more: seq<Step>, s': State)
    requires Exec(g, from, steps) == Some(s) && LifecycleInv(s) && s.stop.done
    requires c < |s.stop.closers| && s.stop.closers[c] != XidPipeline.Idle && s.stop.closers[c] != Returned
    ensures Exec(g, from, more) == Some(s') && LifecycleInv(s') && s'.stop.done && Rank(s') < Rank(s)
    ensures |s'.stop.closers| == |s.stop.closers| && s'.stop.closers[c] != XidPipeline.Idle
  {
    hide LifecycleInv, Exec, Rank, CanClose, CanWatch;
    var step := CloseIsNeverStuck(s, c);
    RankFalls(g, s, step);
    StaysCalled(g, s, step, c);
    more, s' := OneMore(g, from, steps, s, step);
  }

  lemma {:induction false} ReachReturn(g: Collector, from: State, steps: seq<Step>, s: State, c: nat)
    returns (more: seq<Step>, s': State)
    requires Exec(g, from, steps) == Some(s) && LifecycleInv(s) && s.stop.done
    requires c < |s.stop.closers| && s.stop.closers[c] != XidPipeline.Idle
    ensures Exec(g, from, more) == Some(s') && c < |s'.stop.closers| && s'.stop.closers[c] == Returned
    decreases Rank(s)
  {
    hide LifecycleInv, Exec, Rank;
    more, s' := steps, s;
    if s.stop.closers[c] != Returned {
      more, s' := CloserToReturn(g, from, steps, s, c);
      more, s' := ReachReturn(g, from, more, s', c);
    }
  }

  /** Whatever has happened so far, each Close call can still be made, and return. */
  lemma CloseCanReturn(g: Collector, s: State, c: nat) returns (steps: seq<Step>, s': State)
    requires LifecycleInv(s) && c < |s.stop.closers|
    ensures Exec(g, s, steps) == Some(s') && c < |s'.stop.closers| && s'.stop.closers[c] == Returned
  {
    hide LifecycleInv, Exec;
    steps, s' := ReachDone(g, s);
    if s'.stop.closers[c] == XidPipeline.Idle {
      steps, s' := OneMore(g, s, steps, s', Close(c, Called));
    }
    steps, s' := ReachReturn(g, s, steps, s', c);
  }

  // ----- calls of Wait -----

  /** How often Wait has been called, and how often it has returned. */
  ghost function WaitCalls(steps: seq<Step>): nat {
    if steps == [] then 0
    else WaitCalls(steps[..|steps| - 1]) + if steps[|steps| - 1] == Watch(WaitStarts) then 1 else 0
  }

  ghost function WaitReturnCount(steps: seq<Step>): nat {
    if steps == [] then 0
    else
      var last := steps[|steps| - 1];
      WaitReturnCount(steps[..|steps| - 1]) + if last.Watch? && last.w.WaitReturns? then 1 else 0
  }

  lemma WaitStep(g: Collector, s: State, step: Step)
    requires Enabled(s, step)
    ensures var s' := Apply(g, s, step);
            && (step == Watch(WaitStarts) ==> s.watcher == BeforeWait)
            && (step.Watch? && step.w.WaitReturns? ==> s.watcher == Waiting)
            && (s'.watcher == Waiting <==>
                step == Watch(WaitStarts) || (s.watcher == Waiting && !(step.Watch? && step.w.WaitReturns?)))
            && (s.stop.done && s'.watcher == BeforeWait ==> s.watcher == BeforeWait && step != Watch(WaitStarts))
            && (s.stop.done ==> s'.stop.done)
  {
    hide Watched, Forwarded, Closed, CanWatch, CanForward, CanClose;
    if step.Watch? { WaitWatch(s, step.w); }
  }

  lemma WaitWatch(s: State, w: WatcherStep)
    requires CanWatch(s, w)
    ensures (w == WaitStarts ==> s.watcher == BeforeWait) && (w.WaitReturns? ==> s.watcher == Waiting)
    ensures var s' := Watched(s, w);
            && (s'.watcher == Waiting <==> w == WaitStarts || (s.watcher == Waiting && !w.WaitReturns?))
            && (s.stop.done && s'.watcher == BeforeWait ==> s.watcher == BeforeWait && w != WaitStarts)
  {}

  /** Wait is called before it returns, one call at a time. */
  lemma {:induction false} WaitsInTurn(g: Collector, closers: nat, steps: seq<Step>)
    requires IsRun(g, Initial(closers), steps)
    ensures WaitCalls(steps) ==
            WaitReturnCount(steps) + if After(g, Initial(closers), steps).watcher == Waiting then 1 else 0
  {
    if steps != [] {
      hide Apply, Enabled;
      var before := steps[..|steps| - 1];
      WaitsInTurn(g, closers, before);
      WaitStep(g, After(g, Initial(closers), before), steps[|steps| - 1]);
    }
  }

  /** After `done` is closed Wait is called at most once more, and only if the watcher had already
      passed its poll. */
  lemma {:induction false} AtMostOneLateWait(g: Collector, s: State, more: seq<Step>)
    requires s.stop.done && IsRun(g, s, more)
    ensures var end := After(g, s, more);
            && end.stop.done
            && WaitCalls(more) + (if end.watcher == BeforeWait then 1 else 0) <=
               if s.watcher == BeforeWait then 1 else 0
  {
    if more != [] {
      hide Apply, Enabled;
      var before := more[..|more| - 1];
      AtMostOneLateWait(g, s, before);
      WaitStep(g, After(g, s, before), more[|more| - 1]);
    }
  }

  // ----- when events are stamped -----

  /** The clock readings the forwarder took, in order. */
  ghost function Clocks(steps: seq<Step>): seq<int> {
    if steps == [] then []
    else Clocks(steps[..|steps| - 1]) + Reading(steps[|steps| - 1])
  }

  ghost function Reading(step: Step): seq<int> {
    if step.Forward? && step.f.Classifies? then [step.f.now] else []
  }

  lemma MadeForward(g: Collector, s: State, f: ForwarderStep)
    requires CanForward(s, f)
    ensures var s' := Forwarded(g, s, f);
            Made(s') == Made(s) + if f.Classifies? then [ToEvent(g, s.forwarder.raw, s.count + 1, f.now)] else []
  {
    hide ToEvent;
    assert Made(s) + [] == Made(s);
  }

  lemma StampOf(g: Collector, raw: Raw, n: nat, now: int)
    ensures ToEvent(g, raw, n, now).startedAt == now
  {}

  lemma MadeStep(g: Collector, s: State, step: Step)
    requires Enabled(s, step)
    ensures var s' := Apply(g, s, step);
            && |Made(s')| == |Made(s)| + |Reading(step)|
            && (forall i :: 0 <= i < |Made(s)| ==> Made(s')[i] == Made(s)[i])
            && (Reading(step) != [] ==> Made(s')[|Made(s)|].startedAt == Reading(step)[0])
  {
    hide Watched, Forwarded, Closed, CanWatch, CanClose, ToEvent;
    match step {
      case Watch(w) => WatchTouches(s, w);
      case Forward(f) =>
        MadeForward(g, s, f);
        if f.Classifies? { StampOf(g, s.forwarder.raw, s.count + 1, f.now); }
      case Close(c, k) =>
    }
  }

  /** The n-th event is stamped with the clock reading its forwarder took for it. */
  lemma {:induction false} XidStamps(g: Collector, closers: nat, steps: seq<Step>)
    requires IsRun(g, Initial(closers), steps)
    ensures var made, clocks := Made(After(g, Initial(closers), steps)), Clocks(steps);
            |made| == |clocks| && forall i :: 0 <= i < |made| ==> made[i].startedAt == clocks[i]
  {
    if steps != [] {
      hide Apply, Enabled, Made, Reading;
      var before := steps[..|steps| - 1];
      XidStamps(g, closers, before);
      MadeStep(g, After(g, Initial(closers), before), steps[|steps| - 1]);
    }
  }
}
