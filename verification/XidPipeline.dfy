/** The asynchronous XID pipeline: the NVML watcher and its closers
    (internal/collector/gpu_nvml.go), the forwarder (internal/collector/gpu.go) and the
    agent's drain goroutine (internal/agent/agent.go), as interleaved steps. All channels
    are unbuffered, so a send and its receive are one step. */
module XidPipeline {
  import opened Text
  import opened Hardware

  datatype Raw = Raw(device: nat, uuid: string, xid: nat)

  // ----- classification -----

  /** Severity and description of an Xid code. */
  datatype Class = Class(severity: string, description: string)

  /** What turns XIDs into events: the node's name, the ID digest and the table of Xid codes. */
  datatype Collector = Collector(node: string, hash: Digest, classify: nat -> Class)

  const XID_CONDITION := "gpu_xid_error"

  /** The event made of the n-th XID, at a clock reading. */
  function ToEvent(g: Collector, raw: Raw, n: nat, now: int): Event {
    var kind := g.classify(raw.xid);
    WithId(g.hash, Event("", g.node, "gpu", "gpu" + Decimal(raw.device), XID_CONDITION, Enter, kind.severity, n,
                         now, None, Xid(raw.xid, kind.description)))
  }

  /** ev is the n-th event and reports this XID; only its clock reading is free. */
  ghost predicate Reports(g: Collector, ev: Event, raw: Raw, n: nat) {
    && ev.id == EventId(g.hash, ev)
    && ev.node == g.node && ev.tier == "gpu" && ev.device == "gpu" + Decimal(raw.device)
    && ev.condition == "gpu_xid_error" && ev.phase == Enter && ev.number == n && ev.endedAt == None
    && ev.severity == g.classify(raw.xid).severity
    && ev.detail == Xid(raw.xid, g.classify(raw.xid).description)
  }

  // ----- program counters -----

  /** watchXid: the poll of `done`, the call of Wait, the blocked call, the device lookups, the
      send, and the two deferred closes. */
  datatype Watcher = Check | BeforeWait | Waiting | Identify(raw: Raw) | Send(raw: Raw) | CloseXid | CloseStopped | Gone

  /** The goroutine of NewGPUCollector. */
  datatype Forwarder = Receive | Classifying(raw: Raw) | Hold(ev: Event) | CloseEvents | ForwarderGone

  /** drainEventSource. */
  datatype Drainer = Select | Deliver(ev: Event) | DrainerGone

  /** One call of Close: before it, at the Once, then the four statements of its body. */
  datatype Closer = Idle | AtOnce | ClosingDone | AwaitStopped | Freeing | ShuttingDown | Returned

  /** Steps a closer still has ahead of it. */
  function CloserRank(c: Closer): nat {
    match c
    case Idle => 6
    case AtOnce => 5
    case ClosingDone => 4
    case AwaitStopped => 3
    case Freeing => 2
    case ShuttingDown => 1
    case Returned => 0
  }

  datatype Once = Fresh | Running(owner: nat) | Finished

  /** What the Close calls share. */
  datatype Closing = Closing(closers: seq<Closer>, once: Once, done: bool, freed: nat, shutdowns: nat)

  datatype State = State(
    watcher: Watcher, forwarder: Forwarder, drainer: Drainer, stop: Closing,
    stopped: bool, xidClosed: bool, eventsClosed: bool, cancelled: bool, count: nat, panicked: bool,
    // what has happened so far
    waited: seq<Raw>, sent: seq<Raw>, received: seq<Event>)

  function Initial(closers: nat): State {
    State(Check, Receive, Select, Closing(seq(closers, _ => Idle), Fresh, false, 0, 0),
          false, false, false, false, 0, false, [], [], [])
  }

  datatype Outcome = Timeout | Failed | Ready(raw: Raw)

  /** The watcher's steps; the last three end its loop. A send on a closed channel panics. */
  datatype WatcherStep =
    | Checks | WaitStarts | WaitReturns(outcome: Outcome) | Identifies | XidHandoff | XidSendOnClosed
    | Abandons | ClosesXid | ClosesStopped

  /** Steps of the forwarder and of the agent behind it. */
  datatype ForwarderStep =
    | Classifies(now: int) | SeesXidClosed | ClosesEvents | EventHandoff | EventSendOnClosed
    | Delivered | SeesCancel | SeesEventsClosed | ContextCancelled

  /** Steps of one Close call. */
  datatype CloserStep = Called | Entered | Skipped | ClosesDone | SeesStopped | FreesSet | ShutsDown

  datatype Step = Watch(w: WatcherStep) | Forward(f: ForwarderStep) | Close(c: nat, k: CloserStep)

  ghost predicate CanWatch(s: State, w: WatcherStep) {
    match w
    case Checks => s.watcher == Check
    case WaitStarts => s.watcher == BeforeWait
    case WaitReturns(_) => s.watcher == Waiting
    case Identifies => s.watcher.Identify?
    case XidHandoff => s.watcher.Send? && !s.xidClosed && s.forwarder == Receive
    case XidSendOnClosed => s.watcher.Send? && s.xidClosed
    case Abandons => s.watcher.Send? && s.stop.done
    case ClosesXid => s.watcher == CloseXid
    case ClosesStopped => s.watcher == CloseStopped
  }

  ghost function Watched(s: State, w: WatcherStep): (s': State)
    requires CanWatch(s, w)
    ensures s'.stop.closers == s.stop.closers && s'.stop.done == s.stop.done
    ensures s'.received == s.received && s'.count == s.count && s'.drainer == s.drainer
    ensures w != XidHandoff ==> s'.forwarder == s.forwarder && s'.sent == s.sent
  {
    match w
    case Checks => s.(watcher := if s.stop.done then CloseXid else BeforeWait)
    case WaitStarts => s.(watcher := Waiting)
    case WaitReturns(Ready(raw)) => s.(watcher := Identify(raw), waited := s.waited + [raw])
    case WaitReturns(_) => s.(watcher := Check)
    case Identifies => s.(watcher := Send(s.watcher.raw))
    case XidHandoff =>
      s.(watcher := Check, forwarder := Classifying(s.watcher.raw), sent := s.sent + [s.watcher.raw])
    case XidSendOnClosed => s.(panicked := true)
    case Abandons => s.(watcher := CloseXid)
    case ClosesXid => s.(watcher := CloseStopped, xidClosed := true, panicked := s.panicked || s.xidClosed)
    case ClosesStopped => s.(watcher := Gone, stopped := true, panicked := s.panicked || s.stopped)
  }

  ghost predicate CanForward(s: State, f: ForwarderStep) {
    match f
    case Classifies(_) => s.forwarder.Classifying?
    case SeesXidClosed => s.forwarder == Receive && s.xidClosed
    case ClosesEvents => s.forwarder == CloseEvents
    case EventHandoff => s.forwarder.Hold? && !s.eventsClosed && s.drainer == Select
    case EventSendOnClosed => s.forwarder.Hold? && s.eventsClosed
    case Delivered => s.drainer.Deliver?
    case SeesCancel => s.drainer == Select && s.cancelled
    case SeesEventsClosed => s.drainer == Select && s.eventsClosed
    case ContextCancelled => true
  }

  ghost function Forwarded(g: Collector, s: State, f: ForwarderStep): (s': State)
    requires CanForward(s, f)
    ensures s'.stop.closers == s.stop.closers && s'.stop.done == s.stop.done && s'.watcher == s.watcher
    ensures s'.waited == s.waited && s'.sent == s.sent
  {
    match f
    case Classifies(now) =>
      s.(forwarder := Hold(ToEvent(g, s.forwarder.raw, s.count + 1, now)), count := s.count + 1)
    case SeesXidClosed => s.(forwarder := CloseEvents)
    case ClosesEvents => s.(forwarder := ForwarderGone, eventsClosed := true, panicked := s.panicked || s.eventsClosed)
    case EventHandoff =>
      s.(forwarder := Receive, drainer := Deliver(s.forwarder.ev), received := s.received + [s.forwarder.ev])
    case EventSendOnClosed => s.(panicked := true)
    case Delivered => s.(drainer := Select)
    case SeesCancel => s.(drainer := DrainerGone)
    case SeesEventsClosed => s.(drainer := DrainerGone)
    case ContextCancelled => s.(cancelled := true)
  }

  /** sync.Once lets one caller run the body; the others wait for it to finish. */
  ghost predicate CanProceed(cl: Closing, stopped: bool, c: nat, k: CloserStep) {
    && c < |cl.closers|
    && match k
       case Called => cl.closers[c] == Idle
       case Entered => cl.closers[c] == AtOnce && cl.once == Fresh
       case Skipped => cl.closers[c] == AtOnce && cl.once == Finished
       case ClosesDone => cl.closers[c] == ClosingDone
       case SeesStopped => cl.closers[c] == AwaitStopped && stopped
       case FreesSet => cl.closers[c] == Freeing
       case ShutsDown => cl.closers[c] == ShuttingDown
  }

  ghost predicate CanClose(s: State, c: nat, k: CloserStep) {
    CanProceed(s.stop, s.stopped, c, k)
  }

  /** Where a Close call stands after its step. */
  function NextCloser(k: CloserStep): Closer {
    match k
    case Called => AtOnce
    case Entered => ClosingDone
    case Skipped => Returned
    case ClosesDone => AwaitStopped
    case SeesStopped => Freeing
    case FreesSet => ShuttingDown
    case ShutsDown => Returned
  }

  ghost function NextClosing(cl: Closing, c: nat, k: CloserStep): Closing
    requires c < |cl.closers|
  {
    var closers := cl.closers[c := NextCloser(k)];
    match k
    case Entered => cl.(closers := closers, once := Running(c))
    case ClosesDone => cl.(closers := closers, done := true)
    case FreesSet => cl.(closers := closers, freed := cl.freed + 1)
    case ShutsDown => cl.(closers := closers, shutdowns := cl.shutdowns + 1, once := Finished)
    case _ => cl.(closers := closers)
  }

  /** Closing `done` a second time would panic. */
  ghost function Closed(s: State, c: nat, k: CloserStep): (s': State)
    requires CanClose(s, c, k)
    ensures s' == s.(stop := s'.stop, panicked := s'.panicked)
    ensures s'.stop.closers == s.stop.closers[c := NextCloser(k)]
    ensures s.stop.done ==> s'.stop.done
  {
    s.(stop := NextClosing(s.stop, c, k), panicked := s.panicked || (k == ClosesDone && s.stop.done))
  }

  ghost predicate Enabled(s: State, step: Step) {
    match step
    case Watch(w) => CanWatch(s, w)
    case Forward(f) => CanForward(s, f)
    case Close(c, k) => CanClose(s, c, k)
  }

  ghost function Apply(g: Collector, s: State, step: Step): State
    requires Enabled(s, step)
  {
    match step
    case Watch(w) => Watched(s, w)
    case Forward(f) => Forwarded(g, s, f)
    case Close(c, k) => Closed(s, c, k)
  }

  /** Any number of steps of any goroutines, in any order; None when one of them is not enabled. */
  ghost function Exec(g: Collector, from: State, steps: seq<Step>): Option<State> {
    if steps == [] then Some(from)
    else
      match Exec(g, from, steps[..|steps| - 1])
      case None => None
      case Some(s) =>
        if Enabled(s, steps[|steps| - 1]) then Some(Apply(g, s, steps[|steps| - 1])) else None
  }

  ghost predicate IsRun(g: Collector, from: State, steps: seq<Step>) {
    Exec(g, from, steps).Some?
  }

  ghost function After(g: Collector, from: State, steps: seq<Step>): State
    requires IsRun(g, from, steps)
  { Exec(g, from, steps).value }

  // ----- the shutdown protocol -----

  ghost predicate InBody(pc: Closer) {
    pc == ClosingDone || pc == AwaitStopped || pc == Freeing || pc == ShuttingDown
  }

  /** The watcher is inside, or still on its way to, a call into NVML. */
  ghost predicate MayCallNvml(w: Watcher) {
    w == Check || w == BeforeWait || w == Waiting || w.Identify? || w.Send?
  }

  ghost predicate WatcherInv(s: State) {
    && (s.xidClosed <==> s.watcher == CloseStopped || s.watcher == Gone)
    && (s.stopped <==> s.watcher == Gone)
    && (!MayCallNvml(s.watcher) ==> s.stop.done)
  }

  ghost predicate OnceInv(cl: Closing, stopped: bool) {
    && (forall c :: 0 <= c < |cl.closers| ==>
          && (InBody(cl.closers[c]) <==> cl.once == Running(c))
          && (cl.closers[c] == Returned ==> cl.once == Finished))
    && (cl.once == Fresh ==> !cl.done && cl.freed == 0 && cl.shutdowns == 0)
    && (cl.once.Running? ==> cl.once.owner < |cl.closers| && BodyInv(cl, stopped, cl.closers[cl.once.owner]))
    && (cl.once == Finished ==> cl.done && stopped && cl.freed == 1 && cl.shutdowns == 1)
  }

  ghost predicate BodyInv(cl: Closing, stopped: bool, pc: Closer) {
    && (cl.done <==> pc != ClosingDone)
    && (pc == Freeing || pc == ShuttingDown ==> stopped)
    && cl.freed == (if pc == ShuttingDown then 1 else 0)
    && cl.shutdowns == 0
  }

  ghost predicate ForwarderInv(s: State) {
    && (s.eventsClosed <==> s.forwarder == ForwarderGone)
    && (s.forwarder == CloseEvents || s.forwarder == ForwarderGone ==> s.xidClosed)
  }

  ghost predicate LifecycleInv(s: State) {
    WatcherInv(s) && OnceInv(s.stop, s.stopped) && ForwarderInv(s) && !s.panicked
  }

  lemma WatchKeepsLifecycle(s: State, w: WatcherStep)
    requires LifecycleInv(s) && CanWatch(s, w)
    ensures LifecycleInv(Watched(s, w))
  {}

  lemma ForwardKeepsLifecycle(g: Collector, s: State, f: ForwarderStep)
    requires LifecycleInv(s) && CanForward(s, f)
    ensures LifecycleInv(Forwarded(g, s, f))
  {
    hide ToEvent;
  }

  lemma CloseKeepsOnce(cl: Closing, stopped: bool, c: nat, k: CloserStep)
    requires OnceInv(cl, stopped) && CanProceed(cl, stopped, c, k)
    ensures OnceInv(NextClosing(cl, c, k), stopped) && (k == ClosesDone ==> !cl.done)
  {
    var pc := cl.closers[c];
    assert InBody(pc) ==> cl.once == Running(c);
  }

  lemma CloseKeepsLifecycle(s: State, c: nat, k: CloserStep)
    requires LifecycleInv(s) && CanClose(s, c, k)
    ensures LifecycleInv(Closed(s, c, k))
  {
    CloseKeepsOnce(s.stop, s.stopped, c, k);
    hide MayCallNvml, OnceInv, NextClosing, CanProceed;
  }

  lemma LifecycleStep(g: Collector, s: State, step: Step)
    requires LifecycleInv(s) && Enabled(s, step)
    ensures LifecycleInv(Apply(g, s, step))
  {
    hide LifecycleInv, Watched, Forwarded, Closed;
    match step {
      case Watch(w) => WatchKeepsLifecycle(s, w);
      case Forward(f) => ForwardKeepsLifecycle(g, s, f);
      case Close(c, k) => CloseKeepsLifecycle(s, c, k);
    }
  }

  lemma {:induction false} LifecycleHolds(g: Collector, closers: nat, steps: seq<Step>)
    requires IsRun(g, Initial(closers), steps)
    ensures LifecycleInv(After(g, Initial(closers), steps))
  {
    hide Apply, Enabled, LifecycleInv;
    if steps == [] {
      LifecycleAtStart(closers);
    } else {
      var before := steps[..|steps| - 1];
      LifecycleHolds(g, closers, before);
      LifecycleStep(g, After(g, Initial(closers), before), steps[|steps| - 1]);
    }
  }

  lemma LifecycleAtStart(closers: nat)
    ensures LifecycleInv(Initial(closers))
  {}

  /** In every interleaving, with any number of concurrent closers: nothing ever closes a
      channel twice or sends on a closed one, and nothing is about to; NVML is freed and shut down
      at most once, and only once the watcher is gone for good, so no Wait overlaps or follows;
      and a Close that has returned has released NVML. */
  lemma ShutdownIsSafe(g: Collector, closers: nat, steps: seq<Step>)
    requires IsRun(g, Initial(closers), steps)
    ensures var s := After(g, Initial(closers), steps);
            && !s.panicked && !CanWatch(s, XidSendOnClosed) && !CanForward(s, EventSendOnClosed)
            && (s.watcher == CloseXid ==> !s.xidClosed) && (s.watcher == CloseStopped ==> !s.stopped)
            && (s.forwarder == CloseEvents ==> !s.eventsClosed) && (ClosingDone in s.stop.closers ==> !s.stop.done)
            && (s.watcher.Send? ==> !s.xidClosed) && (s.forwarder.Hold? ==> !s.eventsClosed)
            && s.stop.freed <= 1 && s.stop.shutdowns <= s.stop.freed
            && (s.stop.freed > 0 || Freeing in s.stop.closers ==> s.watcher == Gone)
            && (Returned in s.stop.closers ==> s.stop.freed == 1 && s.stop.shutdowns == 1)
  {
    LifecycleHolds(g, closers, steps);
  }

  /** A step panics when it closes a channel that is closed, or sends on one. */
  lemma PanicIff(g: Collector, s: State, step: Step)
    requires Enabled(s, step)
    ensures Apply(g, s, step).panicked <==>
            || s.panicked || step == Watch(XidSendOnClosed) || step == Forward(EventSendOnClosed)
            || (step == Watch(ClosesXid) && s.xidClosed) || (step == Watch(ClosesStopped) && s.stopped)
            || (step == Forward(ClosesEvents) && s.eventsClosed)
            || (step.Close? && step.k == ClosesDone && s.stop.done)
  {
    hide Watched, Forwarded, NextClosing, CanWatch, CanForward, CanClose;
    match step {
      case Watch(w) => PanicWatch(s, w);
      case Forward(f) => PanicForward(g, s, f);
      case Close(c, k) =>
    }
  }

  lemma PanicWatch(s: State, w: WatcherStep)
    requires CanWatch(s, w)
    ensures Watched(s, w).panicked <==>
            s.panicked || w == XidSendOnClosed || (w == ClosesXid && s.xidClosed) || (w == ClosesStopped && s.stopped)
  {}

  lemma PanicForward(g: Collector, s: State, f: ForwarderStep)
    requires CanForward(s, f)
    ensures Forwarded(g, s, f).panicked <==>
            s.panicked || f == EventSendOnClosed || (f == ClosesEvents && s.eventsClosed)
  {
    hide ToEvent;
  }

  // ----- end to end order -----

  /** The events made so far: those the agent has, then the one in the forwarder's hand. */
  ghost function Made(s: State): seq<Event> {
    s.received + if s.forwarder.Hold? then [s.forwarder.ev] else []
  }

  ghost predicate OrderInv(g: Collector, s: State) {
    && s.count == |Made(s)|
    && |s.sent| == |Made(s)| + (if s.forwarder.Classifying? then 1 else 0)
    && (s.forwarder.Classifying? ==> s.sent[|s.sent| - 1] == s.forwarder.raw)
    && (forall i :: 0 <= i < |Made(s)| ==> Reports(g, Made(s)[i], s.sent[i], i + 1))
  }

  /** What Wait has returned: what was sent, and the one XID between Wait and the send, which
      a shutdown may drop. */
  ghost predicate WaitedInv(s: State) {
    match s.watcher
    case Check | BeforeWait | Waiting => s.waited == s.sent
    case Identify(raw) => s.waited == s.sent + [raw]
    case Send(raw) => s.waited == s.sent + [raw]
    case _ => s.waited == s.sent || (s.waited != [] && s.waited[..|s.waited| - 1] == s.sent)
  }

  lemma ToEventReports(g: Collector, raw: Raw, n: nat, now: int)
    ensures Reports(g, ToEvent(g, raw, n, now), raw, n)
  {}

  lemma WatchKeepsOrder(g: Collector, s: State, w: WatcherStep)
    requires OrderInv(g, s) && CanWatch(s, w)
    ensures OrderInv(g, Watched(s, w))
  {
    hide Reports;
    assert Made(Watched(s, w)) == Made(s);
    if w != XidHandoff {
      hide Watched, CanWatch;
      assert OrderInv(g, Watched(s, w));
    }
  }

  lemma WatchKeepsWaited(s: State, w: WatcherStep)
    requires WaitedInv(s) && CanWatch(s, w)
    ensures WaitedInv(Watched(s, w))
  {
    match w {
      case Checks =>
      case WaitReturns(outcome) =>
      case XidHandoff =>
      case Abandons => assert (s.sent + [s.watcher.raw])[..|s.sent|] == s.sent;
      case _ =>
    }
  }

  lemma ForwardKeepsOrder(g: Collector, s: State, f: ForwarderStep)
    requires OrderInv(g, s) && WaitedInv(s) && CanForward(s, f)
    ensures OrderInv(g, Forwarded(g, s, f)) && WaitedInv(Forwarded(g, s, f))
  {
    hide ToEvent, Reports;
    var s' := Forwarded(g, s, f);
    if f.Classifies? {
      ToEventReports(g, s.forwarder.raw, s.count + 1, f.now);
      assert Made(s') == Made(s) + [s'.forwarder.ev];
    } else {
      assert Made(s') == Made(s);
    }
  }

  lemma CloseKeepsOrder(g: Collector, s: State, c: nat, k: CloserStep)
    requires OrderInv(g, s) && WaitedInv(s) && CanClose(s, c, k)
    ensures OrderInv(g, Closed(s, c, k)) && WaitedInv(Closed(s, c, k))
  {
    hide Reports, Closed;
    assert Made(Closed(s, c, k)) == Made(s);
  }

  lemma OrderStep(g: Collector, s: State, step: Step)
    requires OrderInv(g, s) && WaitedInv(s) && Enabled(s, step)
    ensures OrderInv(g, Apply(g, s, step)) && WaitedInv(Apply(g, s, step))
  {
    hide OrderInv, WaitedInv, Watched, Forwarded, Closed;
    match step {
      case Watch(w) =>
        WatchKeepsOrder(g, s, w);
        WatchKeepsWaited(s, w);
      case Forward(f) => ForwardKeepsOrder(g, s, f);
      case Close(c, k) => CloseKeepsOrder(g, s, c, k);
    }
  }

  lemma {:induction false} OrderHolds(g: Collector, closers: nat, steps: seq<Step>)
    requires IsRun(g, Initial(closers), steps)
    ensures OrderInv(g, After(g, Initial(closers), steps))
    ensures WaitedInv(After(g, Initial(closers), steps))
  {
    if steps == [] {
    } else {
      hide Apply, Enabled, OrderInv, WaitedInv;
      var before := steps[..|steps| - 1];
      OrderHolds(g, closers, before);
      OrderStep(g, After(g, Initial(closers), before), steps[|steps| - 1]);
    }
  }

  /** End to end, in every interleaving: the n-th event handed on reports the n-th XID sent and
      carries number n; every XID Wait returned was sent, except at most the last one; and once
      the event channel is closed, every XID sent has been handed to the agent. */
  lemma XidOrder(g: Collector, closers: nat, steps: seq<Step>)
    requires IsRun(g, Initial(closers), steps)
    ensures var s := After(g, Initial(closers), steps);
            && |Made(s)| <= |s.sent| <= |Made(s)| + 1
            && (forall i :: 0 <= i < |Made(s)| ==> Reports(g, Made(s)[i], s.sent[i], i + 1))
            && (s.waited == s.sent || (s.waited != [] && s.waited[..|s.waited| - 1] == s.sent))
            && (s.waited != s.sent && !s.watcher.Identify? && !s.watcher.Send? ==> s.stop.done)
            && (s.eventsClosed ==> |s.received| == |s.sent|)
  {
    OrderHolds(g, closers, steps);
    LifecycleHolds(g, closers, steps);
    var s := After(g, Initial(closers), steps);
    match s.watcher {
      case Identify(raw) => assert s.waited[..|s.waited| - 1] == s.sent;
      case Send(raw) => assert s.waited[..|s.waited| - 1] == s.sent;
      case _ =>
    }
  }

  /** No two XID events ever share an identity. */
  lemma XidEventsAreDistinct(g: Collector, closers: nat, steps: seq<Step>)
    requires IsRun(g, Initial(closers), steps)
    ensures var es := After(g, Initial(closers), steps).received;
            forall i, j :: 0 <= i < j < |es| ==> !SameIdentity(es[i], es[j])
  {
    OrderHolds(g, closers, steps);
    var s := After(g, Initial(closers), steps);
    forall i | 0 <= i < |s.received| ensures s.received[i].number == i + 1 {
      assert Made(s)[i] == s.received[i];
    }
  }

  // ----- shutdown terminates -----

  function WatcherRank(w: Watcher): nat {
    match w
    case BeforeWait => 7
    case Waiting => 6
    case Identify(_) => 5
    case Send(_) => 4
    case Check => 3
    case CloseXid => 2
    case CloseStopped => 1
    case Gone => 0
  }

  function ClosersRank(cs: seq<Closer>): nat {
    if cs == [] then 0 else ClosersRank(cs[..|cs| - 1]) + CloserRank(cs[|cs| - 1])
  }

  ghost function Rank(s: State): nat { WatcherRank(s.watcher) + ClosersRank(s.stop.closers) }

  ghost predicate IsShutdownStep(step: Step) { step.Watch? || step.Close? }

  lemma {:induction false} RankOfUpdate(cs: seq<Closer>, c: nat, pc: Closer)
    requires c < |cs|
    ensures ClosersRank(cs[c := pc]) == ClosersRank(cs) - CloserRank(cs[c]) + CloserRank(pc)
  {
    if c == |cs| - 1 {
      assert cs[c := pc][..c] == cs[..c];
    } else {
      RankOfUpdate(cs[..|cs| - 1], c, pc);
      assert cs[c := pc][..|cs| - 1] == cs[..|cs| - 1][c := pc];
    }
  }

  lemma CloserRankFalls(s: State, c: nat, k: CloserStep)
    requires CanClose(s, c, k)
    ensures var s' := Closed(s, c, k);
            && (s.stop.done ==> s'.stop.done) && s'.watcher == s.watcher
            && ClosersRank(s'.stop.closers) < ClosersRank(s.stop.closers)
  {
    hide ClosersRank, Closed;
    RankOfUpdate(s.stop.closers, c, NextCloser(k));
  }

  /** Once `done` is closed, every step of the watcher or of a closer lowers the rank, and no
      other step changes it. */
  lemma RankFalls(g: Collector, s: State, step: Step)
    requires LifecycleInv(s) && s.stop.done && Enabled(s, step)
    ensures Apply(g, s, step).stop.done
    ensures IsShutdownStep(step) ==> Rank(Apply(g, s, step)) < Rank(s)
    ensures !IsShutdownStep(step) ==> Rank(Apply(g, s, step)) == Rank(s)
  {
    hide ClosersRank, Forwarded, Closed;
    if step.Close? {
      CloserRankFalls(s, step.c, step.k);
    }
  }

  ghost function ShutdownSteps(steps: seq<Step>): nat {
    if steps == [] then 0
    else ShutdownSteps(steps[..|steps| - 1]) + if IsShutdownStep(steps[|steps| - 1]) then 1 else 0
  }

  lemma {:induction false} RankPays(g: Collector, s: State, steps: seq<Step>)
    requires LifecycleInv(s) && s.stop.done && IsRun(g, s, steps)
    ensures var end := After(g, s, steps);
            LifecycleInv(end) && end.stop.done && Rank(end) + ShutdownSteps(steps) <= Rank(s)
  {
    if steps != [] {
      hide Apply, Enabled, LifecycleInv, Rank;
      var before := steps[..|steps| - 1];
      RankPays(g, s, before);
      var mid := After(g, s, before);
      LifecycleStep(g, mid, steps[|steps| - 1]);
      RankFalls(g, mid, steps[|steps| - 1]);
    }
  }

  /** Steps that complete a shutdown without any help from the forwarder or the agent. */
  ghost predicate IsUnaided(step: Step) {
    (step.Watch? && step.w != XidHandoff) || (step.Close? && step.k != Called)
  }

  /** While a Close has been called and not returned, some unaided step is enabled: a forwarder
      or an agent that is blocked forever cannot hold it up. */
  lemma CloseIsNeverStuck(s: State, c: nat) returns (step: Step)
    requires LifecycleInv(s) && c < |s.stop.closers| && s.stop.closers[c] != Idle && s.stop.closers[c] != Returned
    ensures IsUnaided(step) && Enabled(s, step)
  {
    if s.stop.once == Fresh {
      step := Close(c, Entered);
    } else if s.stop.once == Finished {
      step := Close(c, Skipped);
    } else {
      var owner := s.stop.once.owner;
      var pc := s.stop.closers[owner];
      assert InBody(pc);
      if pc == ClosingDone {
        step := Close(owner, ClosesDone);
      } else if pc == Freeing {
        step := Close(owner, FreesSet);
      } else if pc == ShuttingDown {
        step := Close(owner, ShutsDown);
      } else if s.stopped {
        step := Close(owner, SeesStopped);
      } else {
        step := WatcherMove(s);
      }
    }
  }

  /** With `done` closed and the watcher not gone, the watcher itself can step, if Wait returns. */
  ghost function WatcherMove(s: State): (step: Step)
    requires s.stop.done && s.watcher != Gone
    ensures IsUnaided(step) && Enabled(s, step)
  {
    match s.watcher
    case Check => Watch(Checks)
    case BeforeWait => Watch(WaitStarts)
    case Waiting => Watch(WaitReturns(Timeout))
    case Identify(_) => Watch(Identifies)
    case Send(_) => Watch(Abandons)
    case CloseXid => Watch(ClosesXid)
    case CloseStopped => Watch(ClosesStopped)
  }

  /** Shutdown terminates: after `done` is closed, whatever else runs, at most Rank more steps
      of the watcher and the closers can happen, and when no unaided one is left, every Close
      that was called has returned and the watcher is gone. */
  lemma ShutdownTerminates(g: Collector, closers: nat, steps: seq<Step>, more: seq<Step>)
    requires IsRun(g, Initial(closers), steps)
    requires After(g, Initial(closers), steps).stop.done
    requires IsRun(g, After(g, Initial(closers), steps), more)
    ensures var s := After(g, Initial(closers), steps);
            var end := After(g, s, more);
            && ShutdownSteps(more) <= Rank(s) <= 7 + 6 * closers
            && ((forall step :: IsUnaided(step) ==> !Enabled(end, step)) ==>
                  && end.watcher == Gone
                  && forall c :: 0 <= c < |end.stop.closers| ==>
                       end.stop.closers[c] == Idle || end.stop.closers[c] == Returned)
  {
    hide Apply, Enabled, IsUnaided;
    var s := After(g, Initial(closers), steps);
    var end := After(g, s, more);
    LifecycleHolds(g, closers, steps);
    RankPays(g, s, more);
    CloserCountIsFixed(g, closers, steps);
    RankBound(s.stop.closers);
    if forall step :: IsUnaided(step) ==> !Enabled(end, step) {
      if end.watcher != Gone { var step := WatcherMove(end); }
      forall c | 0 <= c < |end.stop.closers| ensures end.stop.closers[c] == Idle || end.stop.closers[c] == Returned {
        if end.stop.closers[c] != Idle && end.stop.closers[c] != Returned { var step := CloseIsNeverStuck(end, c); }
      }
    }
  }

  // ----- sends after the request to stop -----

  /** One XID may still be on its way to the channel. */
  ghost function MaySend(w: Watcher): (n: nat)
    ensures n <= 1
  {
    if w == BeforeWait || w == Waiting || w.Identify? || w.Send? then 1 else 0
  }

  lemma LateSendWatch(s: State, w: WatcherStep)
    requires s.stop.done && CanWatch(s, w)
    ensures var s' := Watched(s, w);
            s.sent <= s'.sent && |s'.sent| + MaySend(s'.watcher) <= |s.sent| + MaySend(s.watcher)
  {}

  lemma LateSendStep(g: Collector, s: State, step: Step)
    requires s.stop.done && Enabled(s, step)
    ensures var s' := Apply(g, s, step);
            s'.stop.done && s.sent <= s'.sent && |s'.sent| + MaySend(s'.watcher) <= |s.sent| + MaySend(s.watcher)
  {
    hide Watched, Forwarded, Closed, MaySend;
    if step.Watch? {
      LateSendWatch(s, step.w);
    }
  }

  /** Once `done` is closed, at most one more XID is sent, whatever runs. */
  lemma {:induction false} AtMostOneLateSend(g: Collector, s: State, steps: seq<Step>)
    requires s.stop.done && IsRun(g, s, steps)
    ensures var end := After(g, s, steps);
            && end.stop.done && s.sent <= end.sent
            && |end.sent| + MaySend(end.watcher) <= |s.sent| + MaySend(s.watcher) <= |s.sent| + 1
  {
    if steps != [] {
      hide Apply, Enabled, MaySend;
      var before := steps[..|steps| - 1];
      AtMostOneLateSend(g, s, before);
      LateSendStep(g, After(g, s, before), steps[|steps| - 1]);
    }
  }

  /** That one does happen: a Close that arrives while an XID waits at the send does not stop it. */
  lemma LateSendHappens(g: Collector, raw: Raw) returns (steps: seq<Step>)
    ensures IsRun(g, Initial(1), steps)
    ensures var s := After(g, Initial(1), steps); s.stop.done && Enabled(s, Watch(XidHandoff))
  {
    var s0 := Initial(1);
    var t, s := [], s0;
    t, s := OneStep(g, s0, t, s, Watch(Checks));
    t, s := OneStep(g, s0, t, s, Watch(WaitStarts));
    t, s := OneStep(g, s0, t, s, Watch(WaitReturns(Ready(raw))));
    t, s := OneStep(g, s0, t, s, Watch(Identifies));
    t, s := OneStep(g, s0, t, s, Close(0, Called));
    t, s := OneStep(g, s0, t, s, Close(0, Entered));
    t, s := OneStep(g, s0, t, s, Close(0, ClosesDone));
    steps := t;
  }

  lemma OneStep(g: Collector, from: State, steps: seq<Step>, s: State, step: Step)
    returns (more: seq<Step>, s': State)
    requires Exec(g, from, steps) == Some(s) && Enabled(s, step)
    ensures Exec(g, from, more) == Some(s') && s' == Apply(g, s, step)
  {
    more, s' := steps + [step], Apply(g, s, step);
    assert more[..|more| - 1] == steps;
  }

  // Exactly when that one can happen.

  /** No XID can be sent any more: the watcher is past its last send, or the forwarder holds an
      event that no one is left to take. */
  ghost predicate Blocked(s: State) {
    && LifecycleInv(s) && s.stop.done
    && (MaySend(s.watcher) == 0 || (s.forwarder != Receive && s.drainer == DrainerGone))
  }

  lemma WatchKeepsBlocked(s: State, w: WatcherStep)
    requires Blocked(s) && CanWatch(s, w)
    ensures var s' := Watched(s, w);
            && s'.sent == s.sent && s'.forwarder == s.forwarder && s'.drainer == s.drainer
            && s'.stop.done && MaySend(s'.watcher) <= MaySend(s.watcher)
  {
    hide LifecycleInv, Watched;
    assert w != XidHandoff;
    LateSendWatch(s, w);
  }

  lemma ForwardKeepsBlocked(g: Collector, s: State, f: ForwarderStep)
    requires Blocked(s) && CanForward(s, f)
    ensures var s' := Forwarded(g, s, f); s'.sent == s.sent && s'.watcher == s.watcher
    ensures var s' := Forwarded(g, s, f);
            MaySend(s.watcher) == 0 || (s'.forwarder != Receive && s'.drainer == DrainerGone)
  {
    hide LifecycleInv, ToEvent;
  }

  lemma BlockedStep(g: Collector, s: State, step: Step)
    requires Blocked(s) && Enabled(s, step)
    ensures Blocked(Apply(g, s, step)) && Apply(g, s, step).sent == s.sent
  {
    LifecycleStep(g, s, step);
    hide LifecycleInv, Watched, Forwarded, Closed, MaySend;
    match step {
      case Watch(w) => WatchKeepsBlocked(s, w);
      case Forward(f) => ForwardKeepsBlocked(g, s, f);
      case Close(c, k) =>
    }
  }

  lemma {:induction false} BlockedForever(g: Collector, s: State, steps: seq<Step>)
    requires Blocked(s) && IsRun(g, s, steps)
    ensures Blocked(After(g, s, steps)) && After(g, s, steps).sent == s.sent
  {
    if steps != [] {
      hide Apply, Enabled, Blocked;
      BlockedForever(g, s, steps[..|steps| - 1]);
      BlockedStep(g, After(g, s, steps[..|steps| - 1]), steps[|steps| - 1]);
    }
  }

  /** A drain that is still there takes what the forwarder holds. */
  lemma FreeForwarder(g: Collector, s: State) returns (steps: seq<Step>, s': State)
    requires LifecycleInv(s) && !s.xidClosed && (s.forwarder == Receive || s.drainer != DrainerGone)
    ensures Exec(g, s, steps) == Some(s') && s'.forwarder == Receive
    ensures s'.watcher == s.watcher && s'.sent == s.sent && s'.xidClosed == s.xidClosed
  {
    hide ToEvent;
    steps, s' := [], s;
    if s'.forwarder.Classifying? {
      steps, s' := OneStep(g, s, steps, s', Forward(Classifies(0)));
    }
    if s'.forwarder.Hold? {
      if s'.drainer.Deliver? {
        steps, s' := OneStep(g, s, steps, s', Forward(Delivered));
      }
      steps, s' := OneStep(g, s, steps, s', Forward(EventHandoff));
    }
  }

  /** A watcher on its way to a send gets one step closer, if Wait returns an XID. */
  ghost function TowardsSend(s: State): WatcherStep {
    match s.watcher
    case BeforeWait => WaitStarts
    case Waiting => WaitReturns(Ready(Raw(0, "", 0)))
    case _ => Identifies
  }

  lemma CloserToSend(s: State)
    requires MaySend(s.watcher) == 1 && !s.watcher.Send?
    ensures CanWatch(s, TowardsSend(s))
    ensures var s' := Watched(s, TowardsSend(s));
            && MaySend(s'.watcher) == 1 && WatcherRank(s'.watcher) < WatcherRank(s.watcher)
            && s'.forwarder == s.forwarder && s'.sent == s.sent && s'.xidClosed == s.xidClosed
  {
    match s.watcher {
      case BeforeWait => assert TowardsSend(s) == WaitStarts;
      case Waiting => assert TowardsSend(s) == WaitReturns(Ready(Raw(0, "", 0)));
      case Identify(_) => assert TowardsSend(s) == Identifies;
    }
  }

  lemma {:induction false} ReachSend(g: Collector, from: State, steps: seq<Step>, s: State)
    returns (more: seq<Step>, s': State)
    requires Exec(g, from, steps) == Some(s) && MaySend(s.watcher) == 1
    ensures Exec(g, from, more) == Some(s') && s'.watcher.Send?
    ensures s'.forwarder == s.forwarder && s'.sent == s.sent && s'.xidClosed == s.xidClosed
    decreases WatcherRank(s.watcher)
  {
    hide Watched, CanWatch, WatcherRank, MaySend, TowardsSend, Exec;
    more, s' := steps, s;
    if !s.watcher.Send? {
      CloserToSend(s);
      more, s' := OneStep(g, from, more, s', Watch(TowardsSend(s)));
      more, s' := ReachSend(g, from, more, s');
    }
  }

  ghost predicate CanStillSend(g: Collector, s: State) {
    exists t :: IsRun(g, s, t) && After(g, s, t).sent != s.sent
  }

  /** After the request to stop, an XID can still be sent exactly when the watcher had already
      passed its poll of `done` and the forwarder is, or can get, ready to receive. */
  lemma SendAfterStopIff(g: Collector, s: State)
    requires LifecycleInv(s) && s.stop.done
    ensures CanStillSend(g, s) <==>
            MaySend(s.watcher) == 1 && (s.forwarder == Receive || s.drainer != DrainerGone)
  {
    if MaySend(s.watcher) == 1 && (s.forwarder == Receive || s.drainer != DrainerGone) {
      hide LifecycleInv, MaySend;
      OpenWhileSending(s);
      var steps, s1 := FreeForwarder(g, s);
      var more, s2 := ReachSend(g, s, steps, s1);
      var all, s3 := OneStep(g, s, more, s2, Watch(XidHandoff));
      assert IsRun(g, s, all) && After(g, s, all).sent != s.sent;
    } else {
      hide LifecycleInv, MaySend;
      assert Blocked(s);
      forall t | IsRun(g, s, t) ensures After(g, s, t).sent == s.sent { BlockedForever(g, s, t); }
    }
  }

  lemma OpenWhileSending(s: State)
    requires LifecycleInv(s) && MaySend(s.watcher) == 1
    ensures !s.xidClosed
  {}

  lemma {:induction false} RankBound(cs: seq<Closer>)
    ensures ClosersRank(cs) <= 6 * |cs|
  {
    if cs != [] {
      RankBound(cs[..|cs| - 1]);
    }
  }

  lemma CloserCountStep(g: Collector, s: State, step: Step)
    requires Enabled(s, step)
    ensures |Apply(g, s, step).stop.closers| == |s.stop.closers|
  {
    hide Watched, Forwarded, Closed;
  }

  lemma {:induction false} CloserCountIsFixed(g: Collector, closers: nat, steps: seq<Step>)
    requires IsRun(g, Initial(closers), steps)
    ensures |After(g, Initial(closers), steps).stop.closers| == closers
  {
    hide Apply, Enabled;
    if steps != [] {
      var before := steps[..|steps| - 1];
      CloserCountIsFixed(g, closers, before);
      CloserCountStep(g, After(g, Initial(closers), before), steps[|steps| - 1]);
    }
  }
}
