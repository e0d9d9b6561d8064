/** What concurrent deliveries leave at a receiver, seen process by process. Each delivery of the
    step machine is one that DeliverWithRetry's specification allows, so what is proved about
    retried deliveries holds under every interleaving. */
module AgentOrder {
  import opened Sequences
  import opened Hardware
  import opened Deduplication
  import opened Delivery
  import opened DeliveryRuns
  import opened AgentLoop

  // ----- a finished delivery as the retry loop sees it -----

  /** An attempt at a batch of n that got this many events through ended with this failing POST:
      its event was the first one not to arrive, or the last one that did. */
  ghost predicate FailedWith(end: Post, size: nat, n: nat) {
    match end
    case Acknowledged => false
    case FailedBeforeArrival => size < n
    case FailedAfterArrival => 1 <= size <= n
  }

  ghost predicate AllFailed(sizes: seq<nat>, ends: seq<Post>, n: nat) {
    |ends| == |sizes| && forall a :: 0 <= a < |ends| ==> FailedWith(ends[a], sizes[a], n)
  }

  /** A delivery that returned an error had failing attempts only; one that returned nil had, after
      those, one attempt acknowledged in full. */
  ghost predicate Proper(d: Past) {
    && d.batch != [] && |d.sizes| <= MAX_ATTEMPTS && Within(d.sizes, |d.batch|)
    && (!d.ok ==> AllFailed(d.sizes, d.ends, |d.batch|))
    && (d.ok ==>
          && d.sizes != [] && d.sizes[|d.sizes| - 1] == |d.batch|
          && AllFailed(d.sizes[..|d.sizes| - 1], d.ends, |d.batch|))
  }

  /** The answer to POST i of attempt a: the one that ended the attempt, at the place where it did. */
  ghost function AnswerIn(d: Past, a: nat, i: nat): Post {
    if a >= |d.ends| || a >= |d.sizes| then Acknowledged
    else if d.sizes[a] == i + (if d.ends[a] == FailedAfterArrival then 1 else 0) then d.ends[a]
    else Acknowledged
  }

  ghost function TryOf(d: Past): Try {
    Try(MAX_ATTEMPTS, (a: nat) => ((i: nat) => AnswerIn(d, a, i)), (a: nat) => a >= |d.sizes|)
  }

  lemma AttemptInTry(d: Past, a: nat)
    requires Proper(d) && a < |d.sizes|
    ensures Arrivals(|d.batch|, TryOf(d).net(a)) == d.sizes[a]
    ensures AllAcknowledged(|d.batch|, TryOf(d).net(a)) <==> d.ok && a == |d.sizes| - 1
  {
    var n, net, k := |d.batch|, TryOf(d).net(a), d.sizes[a];
    assert forall i :: net(i) == AnswerIn(d, a, i);
    ArrivalsMeaning(n, net, k);
    if !(d.ok && a == |d.sizes| - 1) {
      if d.ends[a] == FailedBeforeArrival {
        assert net(k) == FailedBeforeArrival;
      } else {
        assert net(k - 1) == FailedAfterArrival;
      }
    }
  }

  lemma {:induction false} AttemptsInTry(d: Past, m: nat)
    requires Proper(d) && m <= |d.sizes|
    ensures Attempts(|d.batch|, m, TryOf(d).net, TryOf(d).cancelled) ==
            (d.sizes[..m], if d.ok && m == |d.sizes| then Delivered else Trying)
  {
    hide Arrivals, AllAcknowledged;
    if m > 0 {
      AttemptsInTry(d, m - 1);
      AttemptInTry(d, m - 1);
      assert d.sizes[..m] == d.sizes[..m - 1] + [d.sizes[m - 1]];
    }
  }

  /** A finished delivery made exactly the attempts, and ended as, the retry loop would. */
  lemma DeliveryIsRetry(d: Past)
    requires Proper(d)
    ensures Sent(d.batch, TryOf(d)) == Replay(d.batch, d.sizes)
    ensures Succeeds(d.batch, TryOf(d)) <==> d.ok
  {
    hide AllAcknowledged, Arrivals, Within, Attempts, Replay, AnswerIn;
    var n, m, t := |d.batch|, |d.sizes|, TryOf(d);
    AttemptsInTry(d, m);
    assert d.sizes[..m] == d.sizes;
    if d.ok {
      Settled(n, m, MAX_ATTEMPTS, t.net, t.cancelled);
    } else if m < MAX_ATTEMPTS {
      CancelledNext(n, m, t.net, t.cancelled);
      Settled(n, m + 1, MAX_ATTEMPTS, t.net, t.cancelled);
    }
  }

  lemma CancelledNext(n: nat, m: nat, net: nat -> Answers, cancelled: nat -> bool)
    requires Attempts(n, m, net, cancelled).1 == Trying && cancelled(m)
    ensures Attempts(n, m + 1, net, cancelled) == (Attempts(n, m, net, cancelled).0, Cancelled)
  {
    hide AllAcknowledged, Arrivals, Within;
  }

  // ----- one process at one sink -----

  /** What process p got through to this receiver. */
  ghost function OwnPosts(log: seq<Arrival>, p: nat): seq<Event> {
    if log == [] then []
    else if log[|log| - 1].owner == p then OwnPosts(log[..|log| - 1], p) + [log[|log| - 1].event]
    else OwnPosts(log[..|log| - 1], p)
  }

  /** The deliveries p is done with at this sink. */
  ghost function OwnPast(past: seq<Past>, p: nat): seq<Past> {
    if past == [] then []
    else if past[|past| - 1].owner == p then OwnPast(past[..|past| - 1], p) + [past[|past| - 1]]
    else OwnPast(past[..|past| - 1], p)
  }

  ghost function Batches(ds: seq<Past>): (bs: seq<seq<Event>>)
    ensures |bs| == |ds|
  { seq(|ds|, i requires 0 <= i < |ds| => ds[i].batch) }

  ghost function Tries(ds: seq<Past>): (ts: seq<Try>)
    ensures |ts| == |ds|
  { seq(|ds|, i requires 0 <= i < |ds| => TryOf(ds[i])) }

  /** What p has got through of the delivery it is at. */
  ghost function Ongoing(proc: Proc, i: nat): seq<Event> {
    if !AtSink(proc, i) || !Within(proc.sizes, |proc.batch|) then []
    else if proc.Posting? && proc.posted <= |proc.batch| then Replay(proc.batch, proc.sizes) + proc.batch[..proc.posted]
    else Replay(proc.batch, proc.sizes)
  }

  ghost predicate Sound(proc: Proc) {
    match proc
    case Idle => true
    case Counting(b, _) => b != []
    case Sending(b, _, sizes, ends) =>
      b != [] && |sizes| <= MAX_ATTEMPTS && Within(sizes, |b|) && AllFailed(sizes, ends, |b|)
    case Posting(b, _, sizes, ends, n) =>
      b != [] && |sizes| < MAX_ATTEMPTS && Within(sizes, |b|) && AllFailed(sizes, ends, |b|) && n <= |b|
    case Dropping(b, _, sizes, ends) =>
      b != [] && |sizes| <= MAX_ATTEMPTS && Within(sizes, |b|) && AllFailed(sizes, ends, |b|)
  }

  /** Everything p posted to this receiver is the traffic of its finished deliveries, in order,
      and of the one it is at. */
  ghost predicate Tracked(p: nat, proc: Proc, sink: Sink, i: nat) {
    var own := OwnPast(sink.past, p);
    && Sound(proc)
    && (forall k :: 0 <= k < |own| ==> Proper(own[k]))
    && OwnPosts(sink.log, p) == AllSent(Batches(own), Tries(own)) + Ongoing(proc, i)
  }

  lemma OwnPostsStep(log: seq<Arrival>, x: Arrival, p: nat)
    ensures OwnPosts(log + [x], p) == if x.owner == p then OwnPosts(log, p) + [x.event] else OwnPosts(log, p)
  {
    assert (log + [x])[..|log|] == log;
  }

  lemma OwnPastStep(past: seq<Past>, d: Past, p: nat)
    ensures OwnPast(past + [d], p) == if d.owner == p then OwnPast(past, p) + [d] else OwnPast(past, p)
  {
    assert (past + [d])[..|past|] == past;
  }

  lemma AllSentStep(own: seq<Past>, d: Past)
    ensures Batches(own + [d]) == Batches(own) + [d.batch]
    ensures AllSent(Batches(own + [d]), Tries(own + [d])) == AllSent(Batches(own), Tries(own)) + Sent(d.batch, TryOf(d))
  {
    hide Sent, TryOf;
    var bs, ts := Batches(own + [d]), Tries(own + [d]);
    assert bs[..|own|] == Batches(own) && ts[..|own|] == Tries(own);
  }

  /** Another process's action changes nothing of p's own. */
  lemma OthersKeepTrack(p: nat, proc: Proc, q: nat, actor: Proc, action: Action, sink: Sink, i: nat)
    requires p != q && Standing(actor, action) && Tracked(p, proc, sink, i)
    ensures Tracked(p, proc, SinkAfter(q, actor, action, sink, i), i)
  {
    hide Ongoing, Sound, Proper, OwnPosts, OwnPast, Batches, Tries, NextProc;
    if AtSink(actor, i) {
      match action {
        case PostOne(_) =>
          OwnPostsStep(sink.log, Arrival(q, actor.batch[actor.posted]), p);
        case EmitReturns =>
          OwnPastStep(sink.past, Past(q, actor.batch, actor.sizes + [|actor.batch|], actor.ends, true), p);
        case RecordsDrop =>
          OwnPastStep(sink.past, Past(q, actor.batch, actor.sizes, actor.ends, false), p);
        case _ =>
      }
    }
  }

  lemma SoundStep(proc: Proc, action: Action)
    requires Sound(proc) && Standing(proc, action)
    ensures Sound(NextProc(proc, action))
  {}

  /** A finished delivery moves from the ongoing part to the past. */
  lemma Finished(p: nat, sink: Sink, ongoing: seq<Event>, d: Past)
    requires d.owner == p && Proper(d) && Replay(d.batch, d.sizes) == ongoing
    requires forall k :: 0 <= k < |OwnPast(sink.past, p)| ==> Proper(OwnPast(sink.past, p)[k])
    requires var own := OwnPast(sink.past, p);
             OwnPosts(sink.log, p) == AllSent(Batches(own), Tries(own)) + ongoing
    ensures var own := OwnPast(sink.past + [d], p);
            && (forall k :: 0 <= k < |own| ==> Proper(own[k]))
            && OwnPosts(sink.log, p) == AllSent(Batches(own), Tries(own)) + []
  {
    hide Proper, OwnPosts, OwnPast, Batches, Tries, Sent, AllSent, TryOf;
    OwnPastStep(sink.past, d, p);
    AllSentStep(OwnPast(sink.past, p), d);
    DeliveryIsRetry(d);
  }

  lemma SettlingKeepsTrack(p: nat, proc: Proc, action: Action, sink: Sink, i: nat)
    requires Standing(proc, action) && Tracked(p, proc, sink, i) && AtSink(proc, i)
    requires action == EmitReturns || action == RecordsDrop
    ensures Tracked(p, NextProc(proc, action), SinkAfter(p, proc, action, sink, i), i)
  {
    hide Proper, OwnPosts, OwnPast, Batches, Tries, AllSent, Replay, Sound;
    SoundStep(proc, action);
    var d := if action == EmitReturns then Past(p, proc.batch, proc.sizes + [|proc.batch|], proc.ends, true)
             else Past(p, proc.batch, proc.sizes, proc.ends, false);
    FinishedIsProper(p, proc, action, i);
    Finished(p, sink, Ongoing(proc, i), d);
    assert SinkAfter(p, proc, action, sink, i).past == sink.past + [d];
    assert Ongoing(NextProc(proc, action), i) == [];
  }

  lemma FinishedIsProper(p: nat, proc: Proc, action: Action, i: nat)
    requires Standing(proc, action) && Sound(proc) && AtSink(proc, i)
    requires action == EmitReturns || action == RecordsDrop
    ensures var d := if action == EmitReturns then Past(p, proc.batch, proc.sizes + [|proc.batch|], proc.ends, true)
                     else Past(p, proc.batch, proc.sizes, proc.ends, false);
            Proper(d) && Replay(d.batch, d.sizes) == Ongoing(proc, i)
  {
    if action == EmitReturns {
      ReplayStep(proc.batch, proc.sizes, |proc.batch|);
    }
  }

  /** An attempt's progress shows up in the receiver's log one for one. */
  lemma PostKeepsOngoing(p: nat, proc: Proc, answer: Post, i: nat)
    requires Standing(proc, PostOne(answer)) && Sound(proc) && AtSink(proc, i)
    ensures Ongoing(NextProc(proc, PostOne(answer)), i) ==
            if answer == FailedBeforeArrival then Ongoing(proc, i) else Ongoing(proc, i) + [proc.batch[proc.posted]]
  {
    var b, n := proc.batch, proc.posted;
    assert b[..n + 1] == b[..n] + [b[n]];
    match answer {
      case Acknowledged =>
      case FailedAfterArrival => ReplayStep(b, proc.sizes, n + 1);
      case FailedBeforeArrival => ReplayStep(b, proc.sizes, n);
    }
  }

  lemma PostingKeepsTrack(p: nat, proc: Proc, answer: Post, sink: Sink, i: nat)
    requires Standing(proc, PostOne(answer)) && Tracked(p, proc, sink, i) && AtSink(proc, i)
    ensures Tracked(p, NextProc(proc, PostOne(answer)), SinkAfter(p, proc, PostOne(answer), sink, i), i)
  {
    hide Proper, OwnPosts, OwnPast, Batches, Tries, AllSent, Replay, Ongoing, Sound, NextProc;
    SoundStep(proc, PostOne(answer));
    PostKeepsOngoing(p, proc, answer, i);
    OwnPostsStep(sink.log, Arrival(p, proc.batch[proc.posted]), p);
  }

  lemma QuietKeepsOngoing(proc: Proc, action: Action, i: nat)
    requires Standing(proc, action) && Sound(proc)
    requires !action.PostOne?
    requires AtSink(proc, i) ==> action != EmitReturns && action != RecordsDrop && action != Finish
    ensures Ongoing(NextProc(proc, action), i) == Ongoing(proc, i)
  {
    if action == Attempt {
      if Within(proc.sizes, |proc.batch|) {
        assert Replay(proc.batch, proc.sizes) + proc.batch[..0] == Replay(proc.batch, proc.sizes);
      }
    } else if AtSink(proc, i) && AtSink(NextProc(proc, action), i) {
      assert action == SeesCancel || action == GivesUp;
    } else if AtSink(NextProc(proc, action), i) {
      assert NextProc(proc, action).sizes == [];
    }
  }

  lemma QuietKeepsTrack(p: nat, proc: Proc, action: Action, sink: Sink, i: nat)
    requires Standing(proc, action) && Tracked(p, proc, sink, i)
    requires AtSink(proc, i) ==> action != EmitReturns && action != RecordsDrop && action != Finish && !action.PostOne?
    ensures Tracked(p, NextProc(proc, action), SinkAfter(p, proc, action, sink, i), i)
  {
    hide Proper, OwnPosts, OwnPast, Batches, Tries, AllSent, Ongoing, Sound, NextProc;
    SoundStep(proc, action);
    if !action.PostOne? {
      QuietKeepsOngoing(proc, action, i);
    } else {
      ElsewhereKeepsOngoing(proc, action, i);
    }
  }

  lemma ElsewhereKeepsOngoing(proc: Proc, action: Action, i: nat)
    requires Standing(proc, action) && action.PostOne? && !AtSink(proc, i)
    ensures Ongoing(NextProc(proc, action), i) == Ongoing(proc, i)
  {}

  lemma ActorKeepsTrack(p: nat, proc: Proc, action: Action, sink: Sink, i: nat)
    requires Standing(proc, action) && Tracked(p, proc, sink, i) && (AtSink(proc, i) ==> action != Finish)
    ensures Tracked(p, NextProc(proc, action), SinkAfter(p, proc, action, sink, i), i)
  {
    hide Tracked, NextProc, SinkAfter, Standing;
    if AtSink(proc, i) && (action == EmitReturns || action == RecordsDrop) {
      SettlingKeepsTrack(p, proc, action, sink, i);
    } else if AtSink(proc, i) && action.PostOne? {
      PostingKeepsTrack(p, proc, action.answer, sink, i);
    } else {
      QuietKeepsTrack(p, proc, action, sink, i);
    }
  }

  ghost predicate AllTracked(s: State) {
    forall p, i :: 0 <= p < |s.procs| && 0 <= i < |s.sinks| ==> Tracked(p, s.procs[p], s.sinks[i], i)
  }

  lemma TrackedStep(s: State, step: Step)
    requires AllTracked(s) && Enabled(s, step)
    ensures AllTracked(Apply(s, step))
  {
    hide Tracked, NextProc, SinkAfter, Standing;
    if step.Act? {
      var q, action := step.p, step.action;
      var s' := Acted(s, q, action);
      forall p, i | 0 <= p < |s'.procs| && 0 <= i < |s'.sinks| ensures Tracked(p, s'.procs[p], s'.sinks[i], i) {
        assert Tracked(p, s.procs[p], s.sinks[i], i);
        if p == q {
          ActorKeepsTrack(p, s.procs[p], action, s.sinks[i], i);
        } else {
          OthersKeepTrack(p, s.procs[p], q, s.procs[q], action, s.sinks[i], i);
        }
      }
    }
  }

  lemma {:induction false} TrackHolds(procs: nat, names: seq<string>, steps: seq<Step>)
    ensures var end := Exec(Initial(procs, names), steps); end.Some? ==> AllTracked(end.value)
  {
    if steps != [] {
      hide Apply, Enabled, AllTracked;
      var before := steps[..|steps| - 1];
      TrackHolds(procs, names, before);
      var end := Exec(Initial(procs, names), before);
      if end.Some? && Enabled(end.value, steps[|steps| - 1]) {
        TrackedStep(end.value, steps[|steps| - 1]);
      }
    }
  }

  // ----- what each process has begun -----

  ghost function NewBatch(action: Action): seq<seq<Event>> {
    if action.Begin? then [action.batch] else []
  }

  /** The batches process p has begun, in order. */
  ghost function Begun(steps: seq<Step>, p: nat): seq<seq<Event>> {
    if steps == [] then []
    else
      var step := steps[|steps| - 1];
      Begun(steps[..|steps| - 1], p) + if step.Act? && step.p == p then NewBatch(step.action) else []
  }

  /** The batch p still owes sink i. */
  ghost function Owed(proc: Proc, i: nat): seq<seq<Event>> {
    if proc.Idle? then []
    else if proc.Counting? || proc.sink <= i then [proc.batch]
    else []
  }

  /** Sink i has had, or is still owed, exactly the batches p has begun, in their order. */
  ghost predicate InTurn(s: State, steps: seq<Step>, p: nat, i: nat)
    requires p < |s.procs| && i < |s.sinks|
  {
    Begun(steps, p) == Batches(OwnPast(s.sinks[i].past, p)) + Owed(s.procs[p], i)
  }

  ghost predicate AllInTurn(s: State, steps: seq<Step>) {
    forall p, i :: 0 <= p < |s.procs| && 0 <= i < |s.sinks| ==> InTurn(s, steps, p, i)
  }

  lemma BegunStep(steps: seq<Step>, step: Step, p: nat)
    ensures Begun(steps + [step], p) == Begun(steps, p) + if step.Act? && step.p == p then NewBatch(step.action) else []
  {
    assert (steps + [step])[..|steps|] == steps;
  }

  /** A batch is owed from its beginning until the sink is done with it. */
  lemma OwedStep(p: nat, proc: Proc, action: Action, sinks: nat, cancelled: bool, sink: Sink, i: nat)
    requires Ready(proc, action, sinks, cancelled) && WellFormed(proc, sinks) && i < sinks
    ensures Batches(OwnPast(SinkAfter(p, proc, action, sink, i).past, p)) + Owed(NextProc(proc, action), i) ==
            Batches(OwnPast(sink.past, p)) + Owed(proc, i) + NewBatch(action)
  {
    hide Batches, OwnPast;
    if AtSink(proc, i) && (action == EmitReturns || action == RecordsDrop) {
      var d := if action == EmitReturns then Past(p, proc.batch, proc.sizes + [|proc.batch|], proc.ends, true)
               else Past(p, proc.batch, proc.sizes, proc.ends, false);
      OwnPastStep(sink.past, d, p);
      AllSentStep(OwnPast(sink.past, p), d);
    } else {
      QuietKeepsPast(p, proc, action, sink, i);
      QuietKeepsOwed(proc, action, sinks, cancelled, i);
    }
  }

  lemma QuietKeepsPast(p: nat, proc: Proc, action: Action, sink: Sink, i: nat)
    requires Standing(proc, action) && !(AtSink(proc, i) && (action == EmitReturns || action == RecordsDrop))
    ensures SinkAfter(p, proc, action, sink, i).past == sink.past
  {}

  lemma QuietKeepsOwed(proc: Proc, action: Action, sinks: nat, cancelled: bool, i: nat)
    requires Ready(proc, action, sinks, cancelled) && WellFormed(proc, sinks) && i < sinks
    requires !(AtSink(proc, i) && (action == EmitReturns || action == RecordsDrop))
    ensures Owed(NextProc(proc, action), i) == Owed(proc, i) + NewBatch(action)
  {}

  lemma OthersKeepPast(p: nat, q: nat, actor: Proc, action: Action, sink: Sink, i: nat)
    requires p != q && Standing(actor, action)
    ensures OwnPast(SinkAfter(q, actor, action, sink, i).past, p) == OwnPast(sink.past, p)
  {
    hide OwnPast;
    if AtSink(actor, i) && (action == EmitReturns || action == RecordsDrop) {
      var d := if action == EmitReturns then Past(q, actor.batch, actor.sizes + [|actor.batch|], actor.ends, true)
               else Past(q, actor.batch, actor.sizes, actor.ends, false);
      OwnPastStep(sink.past, d, p);
    } else {
      QuietKeepsPast(q, actor, action, sink, i);
    }
  }

  lemma InTurnStep(s: State, steps: seq<Step>, step: Step, p: nat, i: nat)
    requires Conserved(s) && Enabled(s, step) && p < |s.procs| && i < |s.sinks| && InTurn(s, steps, p, i)
    ensures InTurn(Apply(s, step), steps + [step], p, i)
  {
    hide OwnPast, Batches, Owed, NextProc, SinkAfter, Standing, Balanced, CountersAgree, Begun, WellFormed;
    BegunStep(steps, step, p);
    if step.Act? {
      var q, action := step.p, step.action;
      if p == q {
        OwedStep(p, s.procs[p], action, |s.sinks|, s.cancelled, s.sinks[i], i);
      } else {
        OthersKeepPast(p, q, s.procs[q], action, s.sinks[i], i);
      }
    }
  }

  lemma {:induction false} InTurnHolds(procs: nat, names: seq<string>, steps: seq<Step>)
    ensures var end := Exec(Initial(procs, names), steps); end.Some? ==> AllInTurn(end.value, steps)
  {
    if steps != [] {
      hide Apply, Enabled, InTurn, Conserved;
      var before, step := steps[..|steps| - 1], steps[|steps| - 1];
      InTurnHolds(procs, names, before);
      Conservation(procs, names, before);
      var end := Exec(Initial(procs, names), before);
      if end.Some? && Enabled(end.value, step) {
        assert steps == before + [step];
        SameShape(end.value, step);
        var s' := Apply(end.value, step);
        forall p, i | 0 <= p < |s'.procs| && 0 <= i < |s'.sinks| ensures InTurn(s', steps, p, i) {
          InTurnStep(end.value, before, step, p, i);
        }
      }
    }
  }

  lemma SameShape(s: State, step: Step)
    requires Enabled(s, step)
    ensures |Apply(s, step).procs| == |s.procs| && |Apply(s, step).sinks| == |s.sinks|
  {}

  lemma {:induction false} RunShape(procs: nat, names: seq<string>, steps: seq<Step>)
    requires Exec(Initial(procs, names), steps).Some?
    ensures var s := Exec(Initial(procs, names), steps).value; |s.procs| == procs && |s.sinks| == |names|
    ensures forall q :: q >= procs ==> Begun(steps, q) == []
  {
    if steps != [] {
      hide Apply, Enabled, Begun;
      var before, step := steps[..|steps| - 1], steps[|steps| - 1];
      RunShape(procs, names, before);
      var s := Exec(Initial(procs, names), before).value;
      SameShape(s, step);
      assert steps == before + [step];
      forall q: nat | q >= procs ensures Begun(steps, q) == [] {
        BegunStep(before, step, q);
        ActorInRange(s, step);
      }
    }
  }

  lemma ActorInRange(s: State, step: Step)
    requires Enabled(s, step)
    ensures step.Act? ==> step.p < |s.procs|
  {}

  // ----- the receiver -----

  /** The events that carry one of these IDs. */
  ghost function OfIds(es: seq<Event>, ids: set<string>): seq<Event> {
    if es == [] then []
    else if es[|es| - 1].id in ids then OfIds(es[..|es| - 1], ids) + [es[|es| - 1]]
    else OfIds(es[..|es| - 1], ids)
  }

  lemma OfIdsStep(es: seq<Event>, e: Event, ids: set<string>)
    ensures OfIds(es + [e], ids) == if e.id in ids then OfIds(es, ids) + [e] else OfIds(es, ids)
  {
    assert (es + [e])[..|es|] == es;
  }

  lemma {:induction false} HasIdOfIds(es: seq<Event>, ids: set<string>, id: string)
    requires id in ids
    ensures HasId(OfIds(es, ids), id) <==> HasId(es, id)
  {
    if es != [] {
      var p, e := es[..|es| - 1], es[|es| - 1];
      HasIdOfIds(p, ids, id);
      assert es == p + [e];
      HasIdSum(p, [e], id);
      HasIdSum(OfIds(p, ids), [e], id);
      HasIdOne(e, id);
      hide HasId;
    }
  }

  /** Deduplication works on each set of IDs by itself. */
  lemma {:induction false} DedupOfIds(es: seq<Event>, ids: set<string>)
    ensures Dedup(OfIds(es, ids)) == OfIds(Dedup(es), ids)
  {
    if es != [] {
      var p, e := es[..|es| - 1], es[|es| - 1];
      DedupOfIds(p, ids);
      assert es == p + [e];
      DedupStep(p, e);
      OfIdsStep(Dedup(p), e, ids);
      OfIdsStep(p, e, ids);
      if e.id in ids {
        HasIdOfIds(p, ids, e.id);
        DedupStep(OfIds(p, ids), e);
      }
      hide HasId, Dedup, OfIds;
    }
  }

  // ----- where arrivals come from -----

  /** Whatever arrived was in a batch its process had begun. */
  ghost predicate FromOwnBatches(s: State, steps: seq<Step>) {
    forall i, j :: 0 <= i < |s.sinks| && 0 <= j < |s.sinks[i].log| ==>
      var a := s.sinks[i].log[j]; a.event in Concat(Begun(steps, a.owner))
  }

  lemma BegunGrows(steps: seq<Step>, step: Step, q: nat, e: Event)
    requires e in Concat(Begun(steps, q))
    ensures e in Concat(Begun(steps + [step], q))
  {
    hide Begun, Concat;
    BegunStep(steps, step, q);
    if step.Act? && step.p == q && step.action.Begin? {
      ConcatStep(Begun(steps, q), step.action.batch);
    } else {
      assert Begun(steps, q) + [] == Begun(steps, q);
    }
  }

  lemma PostedIsBegun(s: State, steps: seq<Step>, p: nat, answer: Post)
    requires Can(s, p, PostOne(answer)) && WellFormed(s.procs[p], |s.sinks|)
    requires InTurn(s, steps, p, s.procs[p].sink)
    ensures s.procs[p].batch[s.procs[p].posted] in Concat(Begun(steps, p))
  {
    hide Begun, Concat, Batches, OwnPast;
    var proc := s.procs[p];
    ConcatStep(Batches(OwnPast(s.sinks[proc.sink].past, p)), proc.batch);
  }

  /** The one entry an action may add to a receiver's log. */
  lemma LogStep(p: nat, proc: Proc, action: Action, sink: Sink, i: nat)
    requires Standing(proc, action)
    ensures var log' := SinkAfter(p, proc, action, sink, i).log;
            log' == sink.log ||
            (action.PostOne? && AtSink(proc, i) && log' == sink.log + [Arrival(p, proc.batch[proc.posted])])
  {}

  lemma FromOwnStep(s: State, steps: seq<Step>, step: Step)
    requires Enabled(s, step) && Conserved(s) && AllInTurn(s, steps) && FromOwnBatches(s, steps)
    ensures FromOwnBatches(Apply(s, step), steps + [step])
  {
    hide Begun, Concat, InTurn, NextProc, NextSink, Standing, Balanced, CountersAgree, WellFormed;
    var s' := Apply(s, step);
    forall i, j | 0 <= i < |s'.sinks| && 0 <= j < |s'.sinks[i].log|
      ensures var a := s'.sinks[i].log[j]; a.event in Concat(Begun(steps + [step], a.owner))
    {
      var a := s'.sinks[i].log[j];
      if j < |s.sinks[i].log| && s.sinks[i].log[j] == a {
      } else {
        var p := step.p;
        LogStep(p, s.procs[p], step.action, s.sinks[i], i);
        assert InTurn(s, steps, p, i);
        PostedIsBegun(s, steps, p, step.action.answer);
      }
      BegunGrows(steps, step, a.owner, a.event);
    }
  }

  lemma {:induction false} FromOwnHolds(procs: nat, names: seq<string>, steps: seq<Step>)
    ensures var end := Exec(Initial(procs, names), steps); end.Some? ==> FromOwnBatches(end.value, steps)
  {
    if steps != [] {
      hide Apply, Enabled, FromOwnBatches, Conserved, AllInTurn;
      var before, step := steps[..|steps| - 1], steps[|steps| - 1];
      FromOwnHolds(procs, names, before);
      InTurnHolds(procs, names, before);
      Conservation(procs, names, before);
      var end := Exec(Initial(procs, names), before);
      if end.Some? && Enabled(end.value, step) {
        assert steps == before + [step];
        FromOwnStep(end.value, before, step);
      }
    }
  }

  // ----- what the receiver keeps of one process -----

  ghost function IdsOf(es: seq<Event>): set<string> {
    set e | e in es :: e.id
  }

  /** No other process begins an event with an ID of p's. */
  ghost predicate OwnIds(steps: seq<Step>, p: nat) {
    forall q: nat :: q != p ==> IdsOf(Concat(Begun(steps, q))) !! IdsOf(Concat(Begun(steps, p)))
  }

  lemma {:induction false} OwnPostsAreOfIds(log: seq<Arrival>, p: nat, ids: set<string>)
    requires forall j :: 0 <= j < |log| ==> (log[j].event.id in ids <==> log[j].owner == p)
    ensures OwnPosts(log, p) == OfIds(Received(log), ids)
  {
    if log != [] {
      var before := log[..|log| - 1];
      OwnPostsAreOfIds(before, p, ids);
      assert Received(log)[..|log| - 1] == Received(before);
    }
  }

  lemma OwnLogIsOfIds(s: State, steps: seq<Step>, p: nat, i: nat)
    requires FromOwnBatches(s, steps) && OwnIds(steps, p) && i < |s.sinks|
    ensures OwnPosts(s.sinks[i].log, p) == OfIds(Received(s.sinks[i].log), IdsOf(Concat(Begun(steps, p))))
  {
    hide Begun, Concat, OwnPosts, OfIds, Received;
    var log, ids := s.sinks[i].log, IdsOf(Concat(Begun(steps, p)));
    forall j | 0 <= j < |log| ensures log[j].event.id in ids <==> log[j].owner == p {
      assert log[j].event.id in IdsOf(Concat(Begun(steps, log[j].owner)));
    }
    OwnPostsAreOfIds(log, p, ids);
  }

  /** The attempts at the delivery in hand, the unfinished one included. */
  ghost function SizesInHand(proc: Proc): seq<nat>
    requires !proc.Idle? && !proc.Counting?
  {
    if proc.Posting? then proc.sizes + [proc.posted] else proc.sizes
  }

  /** The part of the batch in hand that the farthest attempt so far got through to sink i. */
  ghost function ReachedInHand(proc: Proc, i: nat): (r: seq<Event>)
    ensures AtSink(proc, i) ==> r <= proc.batch
    ensures !AtSink(proc, i) ==> r == []
  {
    if AtSink(proc, i) && MaxOf(SizesInHand(proc)) <= |proc.batch| then proc.batch[..MaxOf(SizesInHand(proc))] else []
  }

  lemma OngoingIsReplay(proc: Proc, i: nat)
    requires Sound(proc) && AtSink(proc, i)
    ensures Within(SizesInHand(proc), |proc.batch|)
    ensures Ongoing(proc, i) == Replay(proc.batch, SizesInHand(proc))
  {
    if proc.Posting? {
      ReplayStep(proc.batch, proc.sizes, proc.posted);
    }
  }

  /** The unfinished delivery, too, is worth sending one prefix once. */
  lemma OngoingKeeps(log: seq<Event>, proc: Proc, i: nat)
    requires Sound(proc)
    ensures Dedup(log + Ongoing(proc, i)) == Dedup(log + ReachedInHand(proc, i))
  {
    hide Dedup, Replay, Sound;
    if AtSink(proc, i) {
      OngoingIsReplay(proc, i);
      ReplayKeeps(log, proc.batch, SizesInHand(proc));
    }
  }

  lemma PrefixesAreUnique(batches: seq<seq<Event>>, tries: seq<Try>, batch: seq<Event>, reached: seq<Event>)
    requires |tries| == |batches| && UniqueIds(Concat(batches) + batch) && reached <= batch
    ensures Dedup(AllReached(batches, tries) + reached) == AllReached(batches, tries) + reached
  {
    hide Dedup, Concat, AllReached, UniqueIds;
    UniqueSum(Concat(batches), batch);
    ReachedUnique(batches, tries);
    UniquePrefixes(Concat(batches), batch, AllReached(batches, tries), reached);
    DedupOfUnique(AllReached(batches, tries) + reached);
  }

  /** What p owes and what it has reached fit together, in every state. */
  lemma KeptOfOwn(p: nat, proc: Proc, sink: Sink, i: nat, begun: seq<seq<Event>>)
    requires Tracked(p, proc, sink, i) && begun == Batches(OwnPast(sink.past, p)) + Owed(proc, i)
    requires UniqueIds(Concat(begun))
    ensures var own := OwnPast(sink.past, p);
            Dedup(OwnPosts(sink.log, p)) == AllReached(Batches(own), Tries(own)) + ReachedInHand(proc, i)
  {
    hide OwnPosts, OwnPast, Batches, Tries, AllSent, AllReached, Concat, UniqueIds, Dedup, Ongoing, ReachedInHand,
         Sound, Proper;
    var own := OwnPast(sink.past, p);
    var bs, ts := Batches(own), Tries(own);
    RunKeepsPrefixes(bs, ts);
    DedupAppend(AllSent(bs, ts), AllReached(bs, ts), Ongoing(proc, i));
    OngoingKeeps(AllReached(bs, ts), proc, i);
    if Owed(proc, i) == [] {
      assert begun == bs && Concat(bs) + [] == Concat(bs);
      PrefixesAreUnique(bs, ts, [], ReachedInHand(proc, i));
    } else {
      ConcatStep(bs, proc.batch);
      PrefixesAreUnique(bs, ts, proc.batch, ReachedInHand(proc, i));
    }
  }

  /** Order under concurrency: in every reachable state and for every process whose event IDs are
      distinct and its own, a deduplicating receiver holds of that process's events exactly one
      prefix of each batch it is done with, in order, and then the farthest prefix of the batch
      in hand, whatever the other processes posted in between; batches whose delivery returned
      nil are whole. */
  lemma OrderUnderConcurrency(procs: nat, names: seq<string>, steps: seq<Step>, p: nat, i: nat)
    requires Exec(Initial(procs, names), steps).Some?
    requires var s := Exec(Initial(procs, names), steps).value; p < |s.procs| && i < |s.sinks|
    requires OwnIds(steps, p) && UniqueIds(Concat(Begun(steps, p)))
    ensures var s := Exec(Initial(procs, names), steps).value;
            var own := OwnPast(s.sinks[i].past, p);
            var kept := OfIds(Dedup(Received(s.sinks[i].log)), IdsOf(Concat(Begun(steps, p))));
            && Begun(steps, p) == Batches(own) + Owed(s.procs[p], i)
            && kept == AllReached(Batches(own), Tries(own)) + ReachedInHand(s.procs[p], i)
            && (forall k :: 0 <= k < |own| && own[k].ok ==> Reached(own[k].batch, TryOf(own[k])) == own[k].batch)
            && ((forall k :: 0 <= k < |own| ==> own[k].ok) ==>
                  AllReached(Batches(own), Tries(own)) == Concat(Batches(own)))
  {
    hide Exec, Initial, OwnPast, OwnPosts, Dedup, OfIds, IdsOf, UniqueIds, Concat, AllSent, AllReached, Proper, Begun,
         OwnIds, Succeeds, TryOf, Reached, FromOwnBatches, Owed, Batches, Tries, ReachedInHand, Received;
    TrackHolds(procs, names, steps);
    InTurnHolds(procs, names, steps);
    FromOwnHolds(procs, names, steps);
    var s := Exec(Initial(procs, names), steps).value;
    var sink, own := s.sinks[i], OwnPast(s.sinks[i].past, p);
    assert Tracked(p, s.procs[p], sink, i);
    assert InTurn(s, steps, p, i);
    KeptOfOwn(p, s.procs[p], sink, i, Begun(steps, p));
    OwnLogIsOfIds(s, steps, p, i);
    DedupOfIds(Received(sink.log), IdsOf(Concat(Begun(steps, p))));
    DoneBatches(own);
  }

  lemma DoneBatches(own: seq<Past>)
    requires forall k :: 0 <= k < |own| ==> Proper(own[k])
    ensures forall k :: 0 <= k < |own| && own[k].ok ==> Reached(own[k].batch, TryOf(own[k])) == own[k].batch
    ensures (forall k :: 0 <= k < |own| ==> own[k].ok) ==> AllReached(Batches(own), Tries(own)) == Concat(Batches(own))
  {
    hide Succeeds, TryOf, Reached, AllReached, Concat, Dedup, AllSent;
    forall k | 0 <= k < |own| && own[k].ok
      ensures Succeeds(own[k].batch, TryOf(own[k])) && Reached(own[k].batch, TryOf(own[k])) == own[k].batch
    {
      DeliveryIsRetry(own[k]);
      RetryKeepsPrefix([], own[k].batch, TryOf(own[k]));
    }
    RunKeepsPrefixes(Batches(own), Tries(own));
  }
}
