/** How much the drop counters overstate: a failed delivery is counted whole, although some of its
    batch may have arrived. At rest, what a deduplicating receiver misses is exactly what its
    failed deliveries did not get through. */
module AgentLosses {
  import opened Hardware
  import opened Deduplication
  import opened Delivery
  import opened DeliveryRuns
  import opened AgentLoop
  import opened AgentOrder

  // ----- the books, delivery by delivery -----

  /** The batches of the deliveries that returned nil, or of those that returned an error. */
  ghost function BatchesOf(past: seq<Past>, ok: bool): multiset<Event> {
    if past == [] then multiset{}
    else
      var last := past[|past| - 1];
      BatchesOf(past[..|past| - 1], ok) + if last.ok == ok then multiset(last.batch) else multiset{}
  }

  ghost predicate Booked(sink: Sink, procs: nat) {
    && sink.delivered == BatchesOf(sink.past, true) && sink.lost == BatchesOf(sink.past, false)
    && forall k :: 0 <= k < |sink.past| ==> sink.past[k].owner < procs
  }

  lemma BatchesOfStep(past: seq<Past>, d: Past, ok: bool)
    ensures BatchesOf(past + [d], ok) ==
            if d.ok == ok then BatchesOf(past, ok) + multiset(d.batch) else BatchesOf(past, ok)
  {
    assert (past + [d])[..|past|] == past;
  }

  lemma BookedStep(p: nat, proc: Proc, action: Action, sink: Sink, i: nat, procs: nat)
    requires Standing(proc, action) && p < procs && Booked(sink, procs)
    ensures Booked(SinkAfter(p, proc, action, sink, i), procs)
  {
    hide BatchesOf;
    if AtSink(proc, i) && (action == EmitReturns || action == RecordsDrop) {
      var d := if action == EmitReturns then Past(p, proc.batch, proc.sizes + [|proc.batch|], proc.ends, true)
               else Past(p, proc.batch, proc.sizes, proc.ends, false);
      BatchesOfStep(sink.past, d, true);
      BatchesOfStep(sink.past, d, false);
    } else {
      QuietKeepsPast(p, proc, action, sink, i);
      QuietKeepsBooks(p, proc, action, sink, i);
      hide NextSink, Standing;
    }
  }

  lemma QuietKeepsBooks(p: nat, proc: Proc, action: Action, sink: Sink, i: nat)
    requires Standing(proc, action) && !(AtSink(proc, i) && (action == EmitReturns || action == RecordsDrop))
    ensures var sink' := SinkAfter(p, proc, action, sink, i);
            sink'.delivered == sink.delivered && sink'.lost == sink.lost
  {
    hide NextSink;
  }

  ghost predicate AllBooked(s: State) {
    forall i :: 0 <= i < |s.sinks| ==> Booked(s.sinks[i], |s.procs|)
  }

  lemma AllBookedStep(s: State, step: Step)
    requires AllBooked(s) && Enabled(s, step)
    ensures AllBooked(Apply(s, step))
  {
    hide Booked, NextProc, SinkAfter, Standing;
    if step.Act? {
      forall i | 0 <= i < |s.sinks|
        ensures Booked(SinkAfter(step.p, s.procs[step.p], step.action, s.sinks[i], i), |s.procs|)
      {
        BookedStep(step.p, s.procs[step.p], step.action, s.sinks[i], i, |s.procs|);
      }
    }
  }

  /** In every reachable state, what a sink has delivered and lost are the batches of its past
      deliveries that returned nil and an error. */
  lemma {:induction false} BooksHold(procs: nat, names: seq<string>, steps: seq<Step>)
    ensures var end := Exec(Initial(procs, names), steps); end.Some? ==> AllBooked(end.value)
  {
    if steps != [] {
      hide Apply, Enabled, AllBooked;
      var before := steps[..|steps| - 1];
      BooksHold(procs, names, before);
      var end := Exec(Initial(procs, names), before);
      if end.Some? && Enabled(end.value, steps[|steps| - 1]) {
        AllBookedStep(end.value, steps[|steps| - 1]);
      }
    }
  }

  // ----- what a delivery got through -----

  /** The events of the batch that arrived in some attempt: the farthest attempt's prefix. */
  ghost function GotThrough(d: Past): (r: seq<Event>)
    ensures r <= d.batch
  {
    if MaxOf(d.sizes) <= |d.batch| then d.batch[..MaxOf(d.sizes)] else []
  }

  lemma {:induction false} ReplayMembers(events: seq<Event>, sizes: seq<nat>)
    requires Within(sizes, |events|)
    ensures MaxOf(sizes) <= |events|
    ensures forall e :: e in Replay(events, sizes) <==> e in events[..MaxOf(sizes)]
  {
    MaxWithin(sizes, |events|);
    if sizes != [] {
      var p, k := sizes[..|sizes| - 1], sizes[|sizes| - 1];
      ReplayMembers(events, p);
      LongerPrefix(events, MaxOf(p), k);
    }
  }

  lemma LongerPrefix(events: seq<Event>, m: nat, k: nat)
    requires m <= |events| && k <= |events|
    ensures forall e :: e in events[..m] + events[..k] <==> e in events[..if m < k then k else m]
  {
    var lo, hi := if m < k then m else k, if m < k then k else m;
    assert events[..hi] == events[..lo] + events[lo..hi];
  }

  lemma SentMembers(d: Past)
    requires Proper(d)
    ensures forall e :: e in Sent(d.batch, TryOf(d)) <==> e in GotThrough(d)
    ensures d.ok ==> GotThrough(d) == d.batch
  {
    hide Sent, TryOf, Replay;
    DeliveryIsRetry(d);
    ReplayMembers(d.batch, d.sizes);
    if d.ok {
      MaxIsGreatest(d.sizes);
      assert d.batch[..|d.batch|] == d.batch;
    }
  }

  /** e arrived in one of these deliveries. */
  ghost predicate ThroughIn(ds: seq<Past>, e: Event) {
    exists k :: 0 <= k < |ds| && e in GotThrough(ds[k])
  }

  lemma ThroughStep(ds: seq<Past>, d: Past, e: Event)
    ensures ThroughIn(ds + [d], e) <==> ThroughIn(ds, e) || e in GotThrough(d)
  {
    hide GotThrough;
    if ThroughIn(ds, e) {
      var k :| 0 <= k < |ds| && e in GotThrough(ds[k]);
      assert (ds + [d])[k] == ds[k];
    }
    if e in GotThrough(d) { assert (ds + [d])[|ds|] == d; }
  }

  lemma {:induction false} AllSentMembers(ds: seq<Past>, e: Event)
    requires forall k :: 0 <= k < |ds| ==> Proper(ds[k])
    ensures e in AllSent(Batches(ds), Tries(ds)) <==> ThroughIn(ds, e)
  {
    hide Proper, AllSent, ThroughIn, GotThrough, TryOf, Sent, Batches, Tries;
    if ds == [] {
      NothingThrough(e);
      NothingSent();
    } else {
      var p, d := ds[..|ds| - 1], ds[|ds| - 1];
      assert forall k :: 0 <= k < |p| ==> p[k] == ds[k];
      AllSentMembers(p, e);
      AllSentStep(p, d);
      SentMembers(d);
      ThroughStep(p, d, e);
      assert ds == p + [d];
    }
  }

  lemma NothingSent()
    ensures AllSent(Batches([]), Tries([])) == []
  {}

  lemma {:induction false} OwnPastMembers(past: seq<Past>, p: nat, e: Event)
    ensures ThroughIn(OwnPast(past, p), e) <==>
            exists k :: 0 <= k < |past| && past[k].owner == p && e in GotThrough(past[k])
  {
    hide GotThrough, ThroughIn;
    if past == [] {
      NothingThrough(e);
    } else {
      var before, d := past[..|past| - 1], past[|past| - 1];
      OwnPastMembers(before, p, e);
      ThroughStep(OwnPast(before, p), d, e);
      assert forall k :: 0 <= k < |before| ==> before[k] == past[k];
    }
  }

  lemma NothingThrough(e: Event)
    ensures !ThroughIn([], e)
  {}

  lemma {:induction false} OwnPostsMembers(log: seq<Arrival>, p: nat, e: Event)
    ensures e in OwnPosts(log, p) <==> exists j :: 0 <= j < |log| && log[j] == Arrival(p, e)
  {
    if log != [] {
      var before := log[..|log| - 1];
      OwnPostsMembers(before, p, e);
      assert forall j :: 0 <= j < |before| ==> before[j] == log[j];
    }
  }

  /** At rest, the receiver has seen an event exactly when some past delivery got it through. */
  lemma ArrivedIff(procs: nat, names: seq<string>, steps: seq<Step>, i: nat, e: Event)
    requires var end := Exec(Initial(procs, names), steps);
             end.Some? && AtRest(end.value) && i < |end.value.sinks|
    ensures var sink := Exec(Initial(procs, names), steps).value.sinks[i];
            e in Received(sink.log) <==> ThroughIn(sink.past, e)
  {
    hide Exec, Initial, GotThrough, ThroughIn, OwnPast, OwnPosts, AllSent, Batches, Tries, Begun, Sound, Proper,
         BatchesOf, FromOwnBatches, Owed;
    var s := Exec(Initial(procs, names), steps).value;
    var sink := s.sinks[i];
    TrackHolds(procs, names, steps);
    BooksHold(procs, names, steps);
    RunShape(procs, names, steps);
    forall p | 0 <= p < procs ensures e in OwnPosts(sink.log, p) <==> ThroughIn(OwnPast(sink.past, p), e) {
      assert Tracked(p, s.procs[p], sink, i);
      AllSentMembers(OwnPast(sink.past, p), e);
    }
    OwnersInRange(procs, names, steps, i);
    if e in Received(sink.log) {
      var j :| 0 <= j < |sink.log| && Received(sink.log)[j] == e;
      var p := sink.log[j].owner;
      OwnPostsMembers(sink.log, p, e);
      OwnPastMembers(sink.past, p, e);
      ThroughSomewhere(sink.past, e);
    }
    if ThroughIn(sink.past, e) {
      ThroughSomewhere(sink.past, e);
      var k :| 0 <= k < |sink.past| && e in GotThrough(sink.past[k]);
      var p := sink.past[k].owner;
      assert Booked(sink, procs);
      OwnPastMembers(sink.past, p, e);
      OwnPostsMembers(sink.log, p, e);
      var j :| 0 <= j < |sink.log| && sink.log[j] == Arrival(p, e);
      assert Received(sink.log)[j] == e;
    }
  }

  lemma ThroughSomewhere(past: seq<Past>, e: Event)
    ensures ThroughIn(past, e) <==> exists k :: 0 <= k < |past| && e in GotThrough(past[k])
  {}

  lemma OwnersInRange(procs: nat, names: seq<string>, steps: seq<Step>, i: nat)
    requires Exec(Initial(procs, names), steps).Some? && i < |Exec(Initial(procs, names), steps).value.sinks|
    ensures forall j :: 0 <= j < |Exec(Initial(procs, names), steps).value.sinks[i].log| ==>
              Exec(Initial(procs, names), steps).value.sinks[i].log[j].owner < procs
  {
    hide Exec, Initial, Begun;
    FromOwnHolds(procs, names, steps);
    RunShape(procs, names, steps);
  }

  // ----- counting -----

  /** Everything the past deliveries got through. */
  ghost function Through(past: seq<Past>): multiset<Event> {
    if past == [] then multiset{}
    else Through(past[..|past| - 1]) + multiset(GotThrough(past[|past| - 1]))
  }

  /** What the failed ones did not. */
  ghost function Shortfall(past: seq<Past>): nat {
    if past == [] then 0
    else
      var last := past[|past| - 1];
      Shortfall(past[..|past| - 1]) + if last.ok then 0 else |last.batch| - |GotThrough(last)|
  }

  lemma PrefixMultiset(a: seq<Event>, b: seq<Event>, e: Event)
    requires a <= b
    ensures multiset(a)[e] <= multiset(b)[e]
  {
    assert b == a + b[|a|..];
  }

  lemma {:induction false} ThroughWithin(past: seq<Past>, e: Event)
    ensures Through(past)[e] <= BatchesOf(past, true)[e] + BatchesOf(past, false)[e]
    ensures Through(past)[e] > 0 <==> ThroughIn(past, e)
  {
    hide GotThrough, ThroughIn;
    if past == [] {
      NothingThrough(e);
    } else {
      var p, d := past[..|past| - 1], past[|past| - 1];
      ThroughWithin(p, e);
      PrefixMultiset(GotThrough(d), d.batch, e);
      ThroughStep(p, d, e);
      assert past == p + [d];
    }
  }

  lemma {:induction false} ThroughSize(past: seq<Past>)
    requires forall k :: 0 <= k < |past| ==> past[k].ok ==> GotThrough(past[k]) == past[k].batch
    ensures |Through(past)| + Shortfall(past) == |BatchesOf(past, true)| + |BatchesOf(past, false)|
    ensures Shortfall(past) <= |BatchesOf(past, false)|
    ensures Shortfall(past) == |BatchesOf(past, false)| <==>
            forall k :: 0 <= k < |past| && !past[k].ok ==> GotThrough(past[k]) == []
  {
    hide GotThrough;
    if past != [] {
      var p := past[..|past| - 1];
      assert forall k :: 0 <= k < |p| ==> p[k] == past[k];
      ThroughSize(p);
    }
  }

  /** No failed delivery got anything through. */
  ghost predicate FailedInFull(past: seq<Past>) {
    forall k :: 0 <= k < |past| && !past[k].ok ==> GotThrough(past[k]) == []
  }

  /** Where each event is counted once under an ID of its own: at rest, the events a deduplicating
      receiver misses are as many as its failed deliveries did not get through, and as many as
      its sink counted as dropped exactly when no failed delivery got anything through. */
  lemma MissingAtRest(procs: nat, names: seq<string>, steps: seq<Step>, i: nat)
    requires var end := Exec(Initial(procs, names), steps);
             end.Some? && AtRest(end.value) && i < |end.value.sinks| && DistinctlyRecorded(end.value.recorded)
    ensures var s := Exec(Initial(procs, names), steps).value;
            var missing := |s.recorded| - |Dedup(Received(s.sinks[i].log))|;
            && missing == Shortfall(s.sinks[i].past) <= |s.sinks[i].lost|
            && (missing == |s.sinks[i].lost| <==> FailedInFull(s.sinks[i].past))
  {
    hide Exec, Initial, Dedup, Through, ThroughIn, GotThrough, BatchesOf, Shortfall, CountersAgree, DistinctlyRecorded,
         Honest;
    var s := Exec(Initial(procs, names), steps).value;
    var sink, log := s.sinks[i], Received(s.sinks[i].log);
    Conservation(procs, names, steps);
    SettledBooks(s, i);
    BooksHold(procs, names, steps);
    assert Booked(sink, |s.procs|);
    Honesty(procs, names, steps);
    LogIsCounted(s, i);
    KeptOfDistinct(log, s.recorded);
    OnceEach(s.recorded);
    forall e ensures multiset(Dedup(log))[e] == Through(sink.past)[e] {
      ArrivedIff(procs, names, steps, i, e);
      ThroughWithin(sink.past, e);
    }
    assert multiset(Dedup(log)) == Through(sink.past);
    assert |multiset(Dedup(log))| == |Dedup(log)|;
    PastIsProper(procs, names, steps, i);
    ThroughSize(sink.past);
  }

  lemma LogIsCounted(s: State, i: nat)
    requires Honest(s) && i < |s.sinks|
    ensures AllCounted(Received(s.sinks[i].log), s.recorded)
  {
    assert SinkHonest(s.sinks[i], s.recorded);
  }

  lemma OnceEach(recorded: multiset<Event>)
    requires DistinctlyRecorded(recorded)
    ensures forall e :: recorded[e] <= 1
  {}

  lemma PastIsProper(procs: nat, names: seq<string>, steps: seq<Step>, i: nat)
    requires Exec(Initial(procs, names), steps).Some? && i < |Exec(Initial(procs, names), steps).value.sinks|
    ensures var past := Exec(Initial(procs, names), steps).value.sinks[i].past;
            forall k :: 0 <= k < |past| ==> Proper(past[k]) && (past[k].ok ==> GotThrough(past[k]) == past[k].batch)
  {
    hide Exec, Initial, Proper, GotThrough, AllSent, OwnPosts, OwnPast, Batches, Tries, Sound, BatchesOf, Ongoing;
    TrackHolds(procs, names, steps);
    BooksHold(procs, names, steps);
    RunShape(procs, names, steps);
    var s := Exec(Initial(procs, names), steps).value;
    var past := s.sinks[i].past;
    assert Booked(s.sinks[i], procs);
    forall k | 0 <= k < |past| ensures Proper(past[k]) && (past[k].ok ==> GotThrough(past[k]) == past[k].batch) {
      var p := past[k].owner;
      assert Tracked(p, s.procs[p], s.sinks[i], i);
      InOwnPast(past, k);
      var m :| 0 <= m < |OwnPast(past, p)| && OwnPast(past, p)[m] == past[k];
      SentMembers(past[k]);
    }
  }

  lemma {:induction false} InOwnPast(past: seq<Past>, k: nat)
    requires k < |past|
    ensures past[k] in OwnPast(past, past[k].owner)
  {
    if k < |past| - 1 {
      InOwnPast(past[..|past| - 1], k);
    }
  }

  // ----- the counters -----

  /** What the receivers behind a label miss, added up. */
  ghost function MissingUnder(sinks: seq<Sink>, recorded: multiset<Event>, name: string): int {
    if sinks == [] then 0
    else
      var last := sinks[|sinks| - 1];
      MissingUnder(sinks[..|sinks| - 1], recorded, name) +
      if last.name == name then |recorded| - |Dedup(Received(last.log))| else 0
  }

  lemma {:induction false} MissingAddsUp(sinks: seq<Sink>, recorded: multiset<Event>, name: string)
    requires forall i :: 0 <= i < |sinks| ==> |recorded| - |Dedup(Received(sinks[i].log))| <= |sinks[i].lost|
    ensures MissingUnder(sinks, recorded, name) <= LostUnder(sinks, name)
    ensures MissingUnder(sinks, recorded, name) == LostUnder(sinks, name) <==>
            forall i :: 0 <= i < |sinks| && sinks[i].name == name ==>
              |recorded| - |Dedup(Received(sinks[i].log))| == |sinks[i].lost|
  {
    hide Dedup, Received;
    if sinks != [] {
      var p := sinks[..|sinks| - 1];
      assert forall i :: 0 <= i < |p| ==> p[i] == sinks[i];
      MissingAddsUp(p, recorded, name);
    }
  }

  /** At rest, a label's drop counter is never below what the receivers behind it miss, and equals
      it exactly when no failed delivery to any of them got anything through. */
  lemma DropCounterExactIff(procs: nat, names: seq<string>, steps: seq<Step>, name: string)
    requires var end := Exec(Initial(procs, names), steps);
             end.Some? && AtRest(end.value) && DistinctlyRecorded(end.value.recorded)
    ensures var s := Exec(Initial(procs, names), steps).value;
            && MissingUnder(s.sinks, s.recorded, name) <= Counter(s.dropped, name)
            && (MissingUnder(s.sinks, s.recorded, name) == Counter(s.dropped, name) <==>
                  forall i :: 0 <= i < |s.sinks| && s.sinks[i].name == name ==> FailedInFull(s.sinks[i].past))
  {
    hide Exec, Initial, Dedup, Received, FailedInFull, AtRest, DistinctlyRecorded, Balanced;
    var s := Exec(Initial(procs, names), steps).value;
    Conservation(procs, names, steps);
    forall i | 0 <= i < |s.sinks|
      ensures |s.recorded| - |Dedup(Received(s.sinks[i].log))| <= |s.sinks[i].lost|
      ensures |s.recorded| - |Dedup(Received(s.sinks[i].log))| == |s.sinks[i].lost| <==> FailedInFull(s.sinks[i].past)
    {
      MissingAtRest(procs, names, steps, i);
    }
    MissingAddsUp(s.sinks, s.recorded, name);
    assert Counter(s.dropped, name) == LostUnder(s.sinks, name);
  }
}
