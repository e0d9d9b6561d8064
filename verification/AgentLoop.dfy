/** The agent's concurrent deliveries (internal/agent/agent.go, Tick and drainEventSource):
    process 0 is the tick loop, the others drain one event source each. Every process counts its
    batch, then takes it to each sink in turn. The steps of different processes interleave
    freely, down to the single counter increment and the single POST. */
module AgentLoop {
  import opened Text
  import opened Hardware
  import opened Deduplication
  import opened Delivery

  const MAX_ATTEMPTS := 5

  datatype Proc =
    | Idle
    /** RecordEvents, with the first `counted` events counted. */
    | Counting(batch: seq<Event>, counted: nat)
    /** DeliverWithRetry at the head of its loop; `sizes` says how many events arrived in each
        attempt so far, `ends` how the POST went that ended it. */
    | Sending(batch: seq<Event>, sink: nat, sizes: seq<nat>, ends: seq<Post>)
    /** EmitEvents, with the first `posted` events acknowledged. */
    | Posting(batch: seq<Event>, sink: nat, sizes: seq<nat>, ends: seq<Post>, posted: nat)
    /** DeliverWithRetry has returned an error. */
    | Dropping(batch: seq<Event>, sink: nat, sizes: seq<nat>, ends: seq<Post>)

  /** An event that arrived, and the process that posted it. */
  datatype Arrival = Arrival(owner: nat, event: Event)

  /** A delivery that has returned nil (`ok`) or an error: how many events arrived in each of its
      attempts, and how the POST went that ended each attempt that failed. */
  datatype Past = Past(owner: nat, batch: seq<Event>, sizes: seq<nat>, ends: seq<Post>, ok: bool)

  /** A webhook: its redacted name, what reached its receiver, the deliveries it is done with, and
      the events in those that returned nil or an error. */
  datatype Sink = Sink(
    name: string, log: seq<Arrival>, past: seq<Past>, delivered: multiset<Event>, lost: multiset<Event>)

  datatype State = State(
    procs: seq<Proc>, sinks: seq<Sink>, cancelled: bool,
    recorded: multiset<Event>, dropped: map<string, nat>)

  function Initial(procs: nat, names: seq<string>): State {
    State(seq(procs, _ => Idle),
          seq(|names|, i requires 0 <= i < |names| => Sink(names[i], [], [], multiset{}, multiset{})),
          false, multiset{}, map[])
  }

  datatype Action =
    | Begin(batch: seq<Event>) | Count | Counted | Attempt | PostOne(answer: Post) | EmitReturns
    | SeesCancel | GivesUp | RecordsDrop | Finish

  datatype Step = Act(p: nat, action: Action) | CancelContext

  /** Where in its program a process must stand to take this action. */
  ghost predicate Standing(proc: Proc, action: Action) {
    match action
    case Begin(batch) => proc.Idle? && batch != []
    case Count => proc.Counting? && proc.counted < |proc.batch|
    case Counted => proc.Counting? && proc.counted == |proc.batch|
    case Attempt => proc.Sending? && |proc.sizes| < MAX_ATTEMPTS
    case PostOne(_) => proc.Posting? && proc.posted < |proc.batch|
    case EmitReturns => proc.Posting? && proc.posted == |proc.batch|
    case SeesCancel => proc.Sending? && |proc.sizes| < MAX_ATTEMPTS
    case GivesUp => proc.Sending? && |proc.sizes| == MAX_ATTEMPTS
    case RecordsDrop => proc.Dropping?
    case Finish => proc.Sending?
  }

  /** The context is looked at before each attempt; after the last sink the process is done. */
  ghost predicate Ready(proc: Proc, action: Action, sinks: nat, cancelled: bool) {
    && Standing(proc, action)
    && (action == Attempt || action == SeesCancel || action == GivesUp ==> proc.sink < sinks)
    && (action == Attempt ==> !cancelled)
    && (action == SeesCancel ==> cancelled)
    && (action == Finish ==> proc.sink == sinks)
  }

  /** A drain process takes one event at a time. */
  ghost predicate Can(s: State, p: nat, action: Action) {
    && p < |s.procs| && Ready(s.procs[p], action, |s.sinks|, s.cancelled)
    && (action.Begin? && p > 0 ==> |action.batch| == 1)
  }

  ghost predicate AtSink(proc: Proc, i: nat) {
    !proc.Idle? && !proc.Counting? && proc.sink == i
  }

  predicate StaysAtSink(action: Action) {
    action.Attempt? || action.PostOne? || action.SeesCancel? || action.GivesUp?
  }

  ghost function NextProc(proc: Proc, action: Action): (r: Proc)
    requires Standing(proc, action)
    ensures StaysAtSink(action) ==> AtSink(r, proc.sink) && r.batch == proc.batch
    ensures action == EmitReturns || action == RecordsDrop ==> r == Sending(proc.batch, proc.sink + 1, [], [])
  {
    match action
    case Begin(batch) => Counting(batch, 0)
    case Count => Counting(proc.batch, proc.counted + 1)
    case Counted => Sending(proc.batch, 0, [], [])
    case Attempt => Posting(proc.batch, proc.sink, proc.sizes, proc.ends, 0)
    case PostOne(Acknowledged) => Posting(proc.batch, proc.sink, proc.sizes, proc.ends, proc.posted + 1)
    case PostOne(FailedAfterArrival) =>
      Sending(proc.batch, proc.sink, proc.sizes + [proc.posted + 1], proc.ends + [FailedAfterArrival])
    case PostOne(FailedBeforeArrival) =>
      Sending(proc.batch, proc.sink, proc.sizes + [proc.posted], proc.ends + [FailedBeforeArrival])
    case EmitReturns => Sending(proc.batch, proc.sink + 1, [], [])
    case SeesCancel => Dropping(proc.batch, proc.sink, proc.sizes, proc.ends)
    case GivesUp => Dropping(proc.batch, proc.sink, proc.sizes, proc.ends)
    case RecordsDrop => Sending(proc.batch, proc.sink + 1, [], [])
    case Finish => Idle
  }

  /** What process p's action does to the sink it is at. */
  ghost function NextSink(p: nat, proc: Proc, action: Action, sink: Sink): (r: Sink)
    requires Standing(proc, action)
    ensures r.name == sink.name
    ensures !action.EmitReturns? ==> r.delivered == sink.delivered
    ensures !action.RecordsDrop? ==> r.lost == sink.lost
    ensures !action.PostOne? ==> r.log == sink.log
  {
    match action
    case PostOne(answer) =>
      if answer == FailedBeforeArrival then sink
      else sink.(log := sink.log + [Arrival(p, proc.batch[proc.posted])])
    case EmitReturns =>
      sink.(past := sink.past + [Past(p, proc.batch, proc.sizes + [|proc.batch|], proc.ends, true)],
            delivered := sink.delivered + multiset(proc.batch))
    case RecordsDrop =>
      sink.(past := sink.past + [Past(p, proc.batch, proc.sizes, proc.ends, false)],
            lost := sink.lost + multiset(proc.batch))
    case _ => sink
  }

  ghost function NewlyCounted(proc: Proc, action: Action): multiset<Event>
    requires Standing(proc, action)
  {
    if action == Count then multiset{proc.batch[proc.counted]} else multiset{}
  }

  ghost function SinkAfter(p: nat, proc: Proc, action: Action, sink: Sink, i: nat): Sink
    requires Standing(proc, action)
  {
    if AtSink(proc, i) then NextSink(p, proc, action, sink) else sink
  }

  function Counter(dropped: map<string, nat>, name: string): nat {
    if name in dropped then dropped[name] else 0
  }

  ghost function Acted(s: State, p: nat, action: Action): State
    requires Can(s, p, action)
  {
    var proc := s.procs[p];
    State(
      s.procs[p := NextProc(proc, action)],
      seq(|s.sinks|, i requires 0 <= i < |s.sinks| => SinkAfter(p, proc, action, s.sinks[i], i)),
      s.cancelled,
      s.recorded + NewlyCounted(proc, action),
      if action == RecordsDrop && proc.sink < |s.sinks| then
        s.dropped[s.sinks[proc.sink].name := Counter(s.dropped, s.sinks[proc.sink].name) + |proc.batch|]
      else s.dropped)
  }

  ghost predicate Enabled(s: State, step: Step) {
    match step
    case Act(p, action) => Can(s, p, action)
    case CancelContext => true
  }

  ghost function Apply(s: State, step: Step): State
    requires Enabled(s, step)
  {
    match step
    case Act(p, action) => Acted(s, p, action)
    case CancelContext => s.(cancelled := true)
  }

  ghost function Exec(from: State, steps: seq<Step>): Option<State> {
    if steps == [] then Some(from)
    else
      match Exec(from, steps[..|steps| - 1])
      case None => None
      case Some(s) => if Enabled(s, steps[|steps| - 1]) then Some(Apply(s, steps[|steps| - 1])) else None
  }

  // ----- conservation -----

  /** What process proc has counted and not settled with sink i yet. */
  ghost function Unsettled(proc: Proc, i: nat): multiset<Event> {
    if proc.Idle? then multiset{}
    else if proc.Counting? && proc.counted <= |proc.batch| then multiset(proc.batch[..proc.counted])
    else if !proc.Counting? && proc.sink <= i then multiset(proc.batch)
    else multiset{}
  }

  /** How often event e is in some process's hand, as seen from sink i. */
  ghost function InHand(procs: seq<Proc>, i: nat, e: Event): nat {
    if procs == [] then 0 else InHand(procs[..|procs| - 1], i, e) + Unsettled(procs[|procs| - 1], i)[e]
  }

  lemma {:induction false} InHandUpdate(procs: seq<Proc>, p: nat, q: Proc, i: nat, e: Event)
    requires p < |procs|
    ensures InHand(procs[p := q], i, e) == InHand(procs, i, e) + Unsettled(q, i)[e] - Unsettled(procs[p], i)[e]
  {
    hide Unsettled;
    var n := |procs| - 1;
    if p < n {
      InHandUpdate(procs[..n], p, q, i, e);
      assert procs[p := q][..n] == procs[..n][p := q];
    } else {
      assert procs[p := q][..n] == procs[..n];
    }
  }

  /** For this sink: counted = delivered + lost + still in some process's hand. */
  ghost predicate Balanced(s: State, i: nat)
    requires i < |s.sinks|
  {
    forall e :: s.recorded[e] == s.sinks[i].delivered[e] + s.sinks[i].lost[e] + InHand(s.procs, i, e)
  }

  ghost function LostUnder(sinks: seq<Sink>, name: string): nat {
    if sinks == [] then 0
    else
      LostUnder(sinks[..|sinks| - 1], name) +
      if sinks[|sinks| - 1].name == name then |sinks[|sinks| - 1].lost| else 0
  }

  /** The drop counter of a label adds up the losses of the sinks that share it. */
  ghost predicate CountersAgree(s: State) {
    forall name :: Counter(s.dropped, name) == LostUnder(s.sinks, name)
  }

  ghost predicate WellFormed(proc: Proc, sinks: nat) {
    match proc
    case Idle => true
    case Counting(b, k) => k <= |b|
    case Sending(_, i, _, _) => i <= sinks
    case Posting(b, i, _, _, n) => n <= |b| && i < sinks
    case Dropping(_, i, _, _) => i < sinks
  }

  ghost predicate Conserved(s: State) {
    && (forall p :: 0 <= p < |s.procs| ==> WellFormed(s.procs[p], |s.sinks|))
    && (forall i :: 0 <= i < |s.sinks| ==> Balanced(s, i))
    && CountersAgree(s)
  }

  lemma BatchMultiset(b: seq<Event>, k: nat)
    requires k < |b|
    ensures multiset(b[..k + 1]) == multiset(b[..k]) + multiset{b[k]}
  {
    assert b[..k + 1] == b[..k] + [b[k]];
  }

  lemma SameBatch(proc: Proc, action: Action, i: nat)
    requires Standing(proc, action) && StaysAtSink(action)
    ensures Unsettled(NextProc(proc, action), i) == Unsettled(proc, i)
    ensures NewlyCounted(proc, action) == multiset{}
  {
    hide NextProc;
  }

  lemma NothingCounted(b: seq<Event>, i: nat)
    ensures Unsettled(Counting(b, 0), i) == multiset{}
  {
    assert b[..0] == [];
  }

  lemma OneMoreCounted(b: seq<Event>, k: nat, i: nat)
    requires k < |b|
    ensures Unsettled(Counting(b, k + 1), i) == Unsettled(Counting(b, k), i) + multiset{b[k]}
  {
    BatchMultiset(b, k);
  }

  lemma AllCountedOut(b: seq<Event>, i: nat)
    ensures Unsettled(Sending(b, 0, [], []), i) == Unsettled(Counting(b, |b|), i)
  {
    assert b[..|b|] == b;
  }

  lemma AllSettled(proc: Proc, i: nat)
    requires proc.Idle? || (proc.Sending? && i < proc.sink)
    ensures Unsettled(proc, i) == multiset{}
  {}

  lemma CountingAction(proc: Proc, action: Action, sinks: nat, cancelled: bool, i: nat, e: Event)
    requires Ready(proc, action, sinks, cancelled) && i < sinks
    requires !StaysAtSink(action) && action != EmitReturns && action != RecordsDrop
    ensures Unsettled(NextProc(proc, action), i)[e] == Unsettled(proc, i)[e] + NewlyCounted(proc, action)[e]
  {
    hide Unsettled;
    match action {
      case Begin(batch) =>
        NothingCounted(batch, i);
        AllSettled(proc, i);
      case Count =>
        OneMoreCounted(proc.batch, proc.counted, i);
      case Counted =>
        AllCountedOut(proc.batch, i);
      case Finish =>
        AllSettled(proc, i);
        AllSettled(Idle, i);
    }
  }

  ghost predicate Even(p: nat, proc: Proc, action: Action, sink: Sink, i: nat, e: Event)
    requires Standing(proc, action)
  {
    var sink' := SinkAfter(p, proc, action, sink, i);
    sink'.delivered[e] + sink'.lost[e] + Unsettled(NextProc(proc, action), i)[e] ==
    sink.delivered[e] + sink.lost[e] + Unsettled(proc, i)[e] + NewlyCounted(proc, action)[e]
  }

  lemma QuietIsEven(p: nat, proc: Proc, action: Action, sinks: nat, cancelled: bool, sink: Sink, i: nat, e: Event)
    requires Ready(proc, action, sinks, cancelled) && i < sinks && action != EmitReturns && action != RecordsDrop
    ensures Even(p, proc, action, sink, i, e)
  {
    hide Unsettled, NextProc, Standing, StaysAtSink, NewlyCounted, NextSink;
    if StaysAtSink(action) {
      SameBatch(proc, action, i);
    } else {
      CountingAction(proc, action, sinks, cancelled, i, e);
    }
  }

  lemma SettlingIsEven(p: nat, proc: Proc, action: Action, sink: Sink, i: nat, e: Event)
    requires Standing(proc, action) && (action == EmitReturns || action == RecordsDrop)
    ensures Even(p, proc, action, sink, i, e)
  {
    assert !proc.Idle?;
    hide Standing, NextProc, NextSink, Unsettled, NewlyCounted;
    SettlingProc(proc, action, i);
    SettlingSink(p, proc, action, sink);
    if !AtSink(proc, i) {
      assert SinkAfter(p, proc, action, sink, i) == sink;
    } else if action == EmitReturns {
      MovesOver(sink.delivered, multiset(proc.batch), e);
    } else {
      MovesOver(sink.lost, multiset(proc.batch), e);
    }
  }

  lemma SettlingProc(proc: Proc, action: Action, i: nat)
    requires Standing(proc, action) && (action == EmitReturns || action == RecordsDrop)
    ensures NewlyCounted(proc, action) == multiset{}
    ensures AtSink(proc, i) ==>
              Unsettled(NextProc(proc, action), i) == multiset{} && Unsettled(proc, i) == multiset(proc.batch)
    ensures !AtSink(proc, i) ==> Unsettled(NextProc(proc, action), i) == Unsettled(proc, i)
  {
    hide NextProc;
    assert !proc.Idle? && !proc.Counting?;
    hide Standing;
  }

  lemma SettlingSink(p: nat, proc: Proc, action: Action, sink: Sink)
    requires Standing(proc, action) && (action == EmitReturns || action == RecordsDrop)
    ensures var r := NextSink(p, proc, action, sink);
            && r.delivered == (if action == EmitReturns then sink.delivered + multiset(proc.batch) else sink.delivered)
            && r.lost == (if action == RecordsDrop then sink.lost + multiset(proc.batch) else sink.lost)
  {}

  lemma MovesOver(books: multiset<Event>, batch: multiset<Event>, e: Event)
    ensures (books + batch)[e] == books[e] + batch[e] && multiset{}[e] == 0
  {}

  /** What leaves a process's hand reaches the books, and the other way round. */
  lemma ActionBalances(p: nat, proc: Proc, action: Action, sinks: nat, cancelled: bool, sink: Sink, i: nat, e: Event)
    requires Ready(proc, action, sinks, cancelled) && i < sinks
    ensures Even(p, proc, action, sink, i, e)
  {
    hide Even, Standing;
    if action == EmitReturns || action == RecordsDrop {
      SettlingIsEven(p, proc, action, sink, i, e);
    } else {
      QuietIsEven(p, proc, action, sinks, cancelled, sink, i, e);
    }
  }

  lemma KeepsBalance(s: State, p: nat, action: Action, i: nat)
    requires Can(s, p, action) && i < |s.sinks| && WellFormed(s.procs[p], |s.sinks|) && Balanced(s, i)
    ensures Balanced(Acted(s, p, action), i)
  {
    hide InHand, Unsettled, NextProc, WellFormed, SinkAfter, NewlyCounted;
    var s' := Acted(s, p, action);
    forall e ensures s'.recorded[e] == s'.sinks[i].delivered[e] + s'.sinks[i].lost[e] + InHand(s'.procs, i, e) {
      ActionBalances(p, s.procs[p], action, |s.sinks|, s.cancelled, s.sinks[i], i, e);
      InHandUpdate(s.procs, p, NextProc(s.procs[p], action), i, e);
    }
  }

  lemma {:induction false} LostUnderUpdate(a: seq<Sink>, b: seq<Sink>, k: nat, name: string)
    requires |a| == |b| && forall i :: 0 <= i < |a| ==> b[i].name == a[i].name && (i != k ==> b[i].lost == a[i].lost)
    ensures LostUnder(b, name) ==
            LostUnder(a, name) + if k < |a| && a[k].name == name then |b[k].lost| - |a[k].lost| else 0
  {
    if a != [] {
      LostUnderUpdate(a[..|a| - 1], b[..|b| - 1], k, name);
    }
  }

  /** Only a recorded drop touches the losses, and only at its own sink. */
  lemma KeepsCounters(s: State, p: nat, action: Action)
    requires Can(s, p, action) && WellFormed(s.procs[p], |s.sinks|) && CountersAgree(s)
    ensures CountersAgree(Acted(s, p, action))
  {
    hide NextProc, LostUnder;
    var s', k := Acted(s, p, action), if action == RecordsDrop then s.procs[p].sink else |s.sinks|;
    forall name ensures Counter(s'.dropped, name) == LostUnder(s'.sinks, name) {
      LostUnderUpdate(s.sinks, s'.sinks, k, name);
      assert Counter(s.dropped, name) == LostUnder(s.sinks, name);
    }
  }

  lemma KeepsShape(proc: Proc, action: Action, sinks: nat, cancelled: bool)
    requires Ready(proc, action, sinks, cancelled) && WellFormed(proc, sinks)
    ensures WellFormed(NextProc(proc, action), sinks)
  {}

  lemma ConservedStep(s: State, step: Step)
    requires Conserved(s) && Enabled(s, step)
    ensures Conserved(Apply(s, step))
  {
    hide CountersAgree, NextProc, NextSink, Ready, WellFormed, InHand;
    if step.Act? {
      var s' := Acted(s, step.p, step.action);
      KeepsShape(s.procs[step.p], step.action, |s.sinks|, s.cancelled);
      KeepsCounters(s, step.p, step.action);
      forall i | 0 <= i < |s'.sinks| ensures Balanced(s', i) {
        KeepsBalance(s, step.p, step.action, i);
      }
    } else {
      CancelIsQuiet(s);
    }
  }

  lemma CancelIsQuiet(s: State)
    requires Conserved(s)
    ensures Conserved(s.(cancelled := true))
  {
    var s' := s.(cancelled := true);
    forall i | 0 <= i < |s'.sinks| ensures Balanced(s', i) {
      assert Balanced(s, i);
    }
    forall name ensures Counter(s'.dropped, name) == LostUnder(s'.sinks, name) {
      assert Counter(s.dropped, name) == LostUnder(s.sinks, name);
    }
  }

  lemma {:induction false} NothingInHand(procs: seq<Proc>, i: nat, e: Event)
    requires forall p :: 0 <= p < |procs| ==> procs[p] == Idle
    ensures InHand(procs, i, e) == 0
  {
    if procs != [] { NothingInHand(procs[..|procs| - 1], i, e); }
  }

  lemma {:induction false} NothingLost(sinks: seq<Sink>, name: string)
    requires forall i :: 0 <= i < |sinks| ==> sinks[i].lost == multiset{}
    ensures LostUnder(sinks, name) == 0
  {
    if sinks != [] { NothingLost(sinks[..|sinks| - 1], name); }
  }

  /** In every reachable state, for every sink, each event counted was delivered, or counted as
      dropped, or is in a process's hand, and in no two of these. */
  lemma {:induction false} Conservation(procs: nat, names: seq<string>, steps: seq<Step>)
    ensures var end := Exec(Initial(procs, names), steps); end.Some? ==> Conserved(end.value)
  {
    hide Apply, Enabled;
    if steps == [] {
      var s := Initial(procs, names);
      forall i | 0 <= i < |s.sinks| ensures Balanced(s, i) {
        forall e ensures InHand(s.procs, i, e) == 0 { NothingInHand(s.procs, i, e); }
      }
      forall name ensures LostUnder(s.sinks, name) == 0 { NothingLost(s.sinks, name); }
    } else {
      hide Conserved;
      var before := steps[..|steps| - 1];
      Conservation(procs, names, before);
      var end := Exec(Initial(procs, names), before);
      if end.Some? && Enabled(end.value, steps[|steps| - 1]) {
        ConservedStep(end.value, steps[|steps| - 1]);
      }
    }
  }

  /** At rest nothing is in flight: per sink the books are closed, and a label's drop counter is
      what its sinks together did not get delivered. */
  ghost predicate AtRest(s: State) {
    forall p :: 0 <= p < |s.procs| ==> s.procs[p] == Idle
  }

  ghost function Undelivered(sinks: seq<Sink>, recorded: multiset<Event>, name: string): int {
    if sinks == [] then 0
    else
      Undelivered(sinks[..|sinks| - 1], recorded, name) +
      if sinks[|sinks| - 1].name == name then |recorded| - |sinks[|sinks| - 1].delivered| else 0
  }

  lemma SettledBooks(s: State, i: nat)
    requires Conserved(s) && AtRest(s) && i < |s.sinks|
    ensures s.recorded == s.sinks[i].delivered + s.sinks[i].lost
    ensures |s.recorded| == |s.sinks[i].delivered| + |s.sinks[i].lost|
  {
    assert Balanced(s, i);
    forall e ensures InHand(s.procs, i, e) == 0 { NothingInHand(s.procs, i, e); }
  }

  lemma {:induction false} UndeliveredIsLost(sinks: seq<Sink>, recorded: multiset<Event>, name: string)
    requires forall i :: 0 <= i < |sinks| ==> |recorded| == |sinks[i].delivered| + |sinks[i].lost|
    ensures Undelivered(sinks, recorded, name) == LostUnder(sinks, name)
  {
    if sinks != [] { UndeliveredIsLost(sinks[..|sinks| - 1], recorded, name); }
  }

  lemma CountersAtRest(procs: nat, names: seq<string>, steps: seq<Step>, name: string)
    requires Exec(Initial(procs, names), steps).Some? && AtRest(Exec(Initial(procs, names), steps).value)
    ensures var s := Exec(Initial(procs, names), steps).value;
            && Counter(s.dropped, name) == Undelivered(s.sinks, s.recorded, name)
            && forall i :: 0 <= i < |s.sinks| ==> s.recorded == s.sinks[i].delivered + s.sinks[i].lost
  {
    hide Exec, Initial, Balanced;
    Conservation(procs, names, steps);
    var s := Exec(Initial(procs, names), steps).value;
    forall i | 0 <= i < |s.sinks|
      ensures s.recorded == s.sinks[i].delivered + s.sinks[i].lost
      ensures |s.recorded| == |s.sinks[i].delivered| + |s.sinks[i].lost|
    {
      SettledBooks(s, i);
    }
    UndeliveredIsLost(s.sinks, s.recorded, name);
  }

  // ----- what the receivers have -----

  ghost function Received(log: seq<Arrival>): (es: seq<Event>)
    ensures |es| == |log| && forall j :: 0 <= j < |log| ==> es[j] == log[j].event
  {
    seq(|log|, j requires 0 <= j < |log| => log[j].event)
  }

  lemma ReceivedStep(log: seq<Arrival>, x: Arrival)
    ensures Received(log + [x]) == Received(log) + [x.event]
  {}

  ghost predicate AllCounted(es: seq<Event>, recorded: multiset<Event>) {
    forall j :: 0 <= j < |es| ==> recorded[es[j]] > 0
  }

  ghost predicate Contains(log: seq<Event>, es: seq<Event>) {
    forall j :: 0 <= j < |es| ==> es[j] in log
  }

  /** A process only posts what it has counted, and what it posted has arrived. */
  ghost predicate ProcHonest(proc: Proc, sinks: seq<Sink>, recorded: multiset<Event>) {
    match proc
    case Idle => true
    case Counting(b, k) => k <= |b| && AllCounted(b[..k], recorded)
    case Sending(b, _, _, _) => AllCounted(b, recorded)
    case Posting(b, i, _, _, n) =>
      AllCounted(b, recorded) && n <= |b| && i < |sinks| && Contains(Received(sinks[i].log), b[..n])
    case Dropping(b, _, _, _) => AllCounted(b, recorded)
  }

  /** What was reported delivered did arrive, and nothing arrives uncounted. */
  ghost predicate SinkHonest(sink: Sink, recorded: multiset<Event>) {
    AllCounted(Received(sink.log), recorded) && forall e :: e in sink.delivered ==> e in Received(sink.log)
  }

  ghost predicate Honest(s: State) {
    && (forall p :: 0 <= p < |s.procs| ==> ProcHonest(s.procs[p], s.sinks, s.recorded))
    && (forall i :: 0 <= i < |s.sinks| ==> SinkHonest(s.sinks[i], s.recorded))
  }

  ghost predicate Grown(a: seq<Sink>, b: seq<Sink>) {
    |a| == |b| && forall i :: 0 <= i < |a| ==> Received(a[i].log) <= Received(b[i].log)
  }

  lemma LogsGrow(s: State, p: nat, action: Action)
    requires Can(s, p, action)
    ensures Grown(s.sinks, Acted(s, p, action).sinks)
  {
    hide NextProc, NewlyCounted;
  }

  lemma StaysHonest(proc: Proc, a: seq<Sink>, b: seq<Sink>, recorded: multiset<Event>, more: multiset<Event>)
    requires ProcHonest(proc, a, recorded) && Grown(a, b)
    ensures ProcHonest(proc, b, recorded + more)
  {}

  lemma ActorStaysHonest(s: State, p: nat, action: Action)
    requires Can(s, p, action) && WellFormed(s.procs[p], |s.sinks|) && ProcHonest(s.procs[p], s.sinks, s.recorded)
    ensures ProcHonest(NextProc(s.procs[p], action), Acted(s, p, action).sinks, Acted(s, p, action).recorded)
  {
    var proc, s' := s.procs[p], Acted(s, p, action);
    if action == PostOne(Acknowledged) {
      var b, n := proc.batch, proc.posted;
      assert s'.sinks[proc.sink].log == s.sinks[proc.sink].log + [Arrival(p, b[n])];
      hide Standing, NextSink, Received;
      ReceivedStep(s.sinks[proc.sink].log, Arrival(p, b[n]));
      OneMoreArrived(Received(s.sinks[proc.sink].log), b, n);
    } else if action == Count {
      OneMoreRecorded(s.recorded, proc.batch, proc.counted);
      hide Standing, NextSink, Received;
    } else {
      assert proc.Counting? ==> proc.batch[..|proc.batch|] == proc.batch;
      assert !proc.Idle? ==> proc.batch[..0] == [];
      hide Received, NextSink;
    }
  }

  lemma OneMoreArrived(log: seq<Event>, b: seq<Event>, n: nat)
    requires n < |b| && Contains(log, b[..n])
    ensures Contains(log + [b[n]], b[..n + 1])
  {
    assert b[..n + 1] == b[..n] + [b[n]];
  }

  lemma OneMoreRecorded(recorded: multiset<Event>, b: seq<Event>, k: nat)
    requires k < |b| && AllCounted(b[..k], recorded)
    ensures AllCounted(b[..k + 1], recorded + multiset{b[k]})
  {
    assert b[..k + 1] == b[..k] + [b[k]];
  }

  lemma SinkStaysHonest(p: nat, proc: Proc, action: Action, sinks: seq<Sink>, recorded: multiset<Event>, i: nat)
    requires Standing(proc, action) && ProcHonest(proc, sinks, recorded)
    requires i < |sinks| && SinkHonest(sinks[i], recorded)
    ensures SinkHonest(SinkAfter(p, proc, action, sinks[i], i), recorded + NewlyCounted(proc, action))
  {
    if action.PostOne? {
      ReceivedStep(sinks[i].log, Arrival(p, proc.batch[proc.posted]));
    }
    if action == EmitReturns && AtSink(proc, i) {
      assert proc.batch[..|proc.batch|] == proc.batch;
      forall e | e in multiset(proc.batch) ensures e in Received(sinks[i].log) {
        assert e in proc.batch;
      }
    }
  }

  lemma HonestStep(s: State, step: Step)
    requires Conserved(s) && Honest(s) && Enabled(s, step)
    ensures Honest(Apply(s, step))
  {
    hide Balanced, CountersAgree, WellFormed, ProcHonest, SinkHonest, NextProc, NextSink, Standing, NewlyCounted;
    if step.Act? {
      var p, action := step.p, step.action;
      var s' := Acted(s, p, action);
      ActorStaysHonest(s, p, action);
      LogsGrow(s, p, action);
      forall q | 0 <= q < |s'.procs| && q != p ensures ProcHonest(s'.procs[q], s'.sinks, s'.recorded) {
        StaysHonest(s.procs[q], s.sinks, s'.sinks, s.recorded, NewlyCounted(s.procs[p], action));
      }
      forall i | 0 <= i < |s'.sinks| ensures SinkHonest(s'.sinks[i], s'.recorded) {
        SinkStaysHonest(p, s.procs[p], action, s.sinks, s.recorded, i);
      }
    }
  }

  lemma {:induction false} Honesty(procs: nat, names: seq<string>, steps: seq<Step>)
    ensures var end := Exec(Initial(procs, names), steps); end.Some? ==> Honest(end.value)
  {
    hide Apply, Enabled, Conserved;
    if steps != [] {
      hide Honest;
      var before := steps[..|steps| - 1];
      Honesty(procs, names, before);
      Conservation(procs, names, before);
      var end := Exec(Initial(procs, names), before);
      if end.Some? && Enabled(end.value, steps[|steps| - 1]) {
        HonestStep(end.value, steps[|steps| - 1]);
      }
    }
  }

  /** Every event was counted once, and no ID stands for two events. */
  ghost predicate DistinctlyRecorded(recorded: multiset<Event>) {
    && (forall e :: recorded[e] <= 1)
    && (forall e, f :: e in recorded && f in recorded && e.id == f.id ==> e == f)
  }

  lemma {:induction false} UniqueOnce(es: seq<Event>, e: Event)
    requires UniqueIds(es)
    ensures multiset(es)[e] <= 1
  {
    if es != [] {
      var p, last := es[..|es| - 1], es[|es| - 1];
      assert es == p + [last];
      assert forall i :: 0 <= i < |p| ==> p[i] == es[i] && es[i].id != es[|p|].id;
      assert last !in p;
      UniqueOnce(p, e);
    }
  }

  lemma KeptBetween(sink: Sink, recorded: multiset<Event>)
    requires SinkHonest(sink, recorded) && DistinctlyRecorded(recorded) && sink.delivered <= recorded
    ensures sink.delivered <= multiset(Dedup(Received(sink.log))) <= recorded
  {
    hide UniqueIds, HasId, Dedup;
    var log := Received(sink.log);
    KeptOfDistinct(log, recorded);
    forall e ensures sink.delivered[e] <= multiset(Dedup(log))[e] {
      if e in sink.delivered {
        assert e in log;
        assert recorded[e] <= 1;
      }
    }
  }

  /** Where no ID stands for two events, deduplicating a log leaves each of its events once. */
  lemma KeptOfDistinct(log: seq<Event>, recorded: multiset<Event>)
    requires AllCounted(log, recorded) && DistinctlyRecorded(recorded)
    ensures forall e :: multiset(Dedup(log))[e] == if e in log then 1 else 0
    ensures multiset(Dedup(log)) <= recorded
  {
    hide UniqueIds, HasId, Dedup;
    DedupMeaning(log);
    forall e ensures multiset(Dedup(log))[e] == if e in log then 1 else 0 {
      UniqueOnce(Dedup(log), e);
      assert e in Dedup(log) ==> FirstOfItsId(log, e);
      if e in log {
        StillThere(log, recorded, e);
      }
    }
  }

  lemma StillThere(log: seq<Event>, recorded: multiset<Event>, e: Event)
    requires AllCounted(log, recorded) && DistinctlyRecorded(recorded) && e in log
    ensures e in Dedup(log)
  {
    hide Dedup;
    DedupMeaning(log);
    var i :| 0 <= i < |log| && log[i] == e;
    assert HasId(log, e.id);
    var j :| 0 <= j < |Dedup(log)| && Dedup(log)[j].id == e.id;
    assert Dedup(log)[j] in Dedup(log);
    assert FirstOfItsId(log, Dedup(log)[j]);
  }

  /** The drop counter is a sound loss signal: whatever the interleaving, a deduplicating
      receiver holds every event whose delivery returned nil and nothing that was not counted;
      at rest it misses no more events than its sink has counted as dropped. */
  lemma DropCounterBoundsLoss(procs: nat, names: seq<string>, steps: seq<Step>, i: nat)
    requires Exec(Initial(procs, names), steps).Some?
    requires i < |Exec(Initial(procs, names), steps).value.sinks|
    requires DistinctlyRecorded(Exec(Initial(procs, names), steps).value.recorded)
    ensures var s := Exec(Initial(procs, names), steps).value;
            && s.sinks[i].delivered <= multiset(Dedup(Received(s.sinks[i].log))) <= s.recorded
            && (AtRest(s) ==> |s.recorded| - |Dedup(Received(s.sinks[i].log))| <= |s.sinks[i].lost|)
  {
    hide Exec, Initial, Dedup, SinkHonest, DistinctlyRecorded, CountersAgree;
    Conservation(procs, names, steps);
    Honesty(procs, names, steps);
    var s := Exec(Initial(procs, names), steps).value;
    assert Balanced(s, i);
    KeptBetween(s.sinks[i], s.recorded);
    if AtRest(s) {
      SettledBooks(s, i);
      Smaller(s.sinks[i].delivered, multiset(Dedup(Received(s.sinks[i].log))));
    }
  }

  lemma Smaller(a: multiset<Event>, b: multiset<Event>)
    requires a <= b
    ensures |a| <= |b|
  {
    assert b == a + (b - a);
  }
}
