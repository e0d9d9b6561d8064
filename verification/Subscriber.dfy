/** From the hardware to a subscriber: the engine's events, delivered by the tick process
    (process 0), and the XID events, delivered by the process that drains the GPU collector
    (process 1), at one deduplicating receiver. */
module Subscriber {
  import opened Sequences
  import opened Text
  import opened Hardware
  import opened Deduplication
  import opened DeliveryRuns
  import opened EventEngine
  import opened EngineRuns
  import opened AgentLoop
  import opened AgentOrder
  import Xid = XidPipeline

  // ----- what the two processes begin -----

  /** The tick loop delivers nothing when no event was emitted. */
  ghost function NonEmpty(batches: seq<seq<Event>>): seq<seq<Event>> {
    if batches == [] then []
    else
      var last := batches[|batches| - 1];
      NonEmpty(batches[..|batches| - 1]) + if last == [] then [] else [last]
  }

  lemma {:induction false} NonEmptyConcat(batches: seq<seq<Event>>)
    ensures Concat(NonEmpty(batches)) == Concat(batches)
  {
    if batches != [] {
      var p, last := batches[..|batches| - 1], batches[|batches| - 1];
      NonEmptyConcat(p);
      if last == [] {
        assert NonEmpty(p) + [] == NonEmpty(p);
      } else {
        ConcatStep(NonEmpty(p), last);
      }
    }
  }

  /** The drain takes one event at a time. */
  ghost function Singly(es: seq<Event>): (r: seq<seq<Event>>)
    ensures |r| == |es| && forall i :: 0 <= i < |es| ==> r[i] == [es[i]]
  {
    seq(|es|, i requires 0 <= i < |es| => [es[i]])
  }

  lemma {:induction false} SinglyConcat(es: seq<Event>)
    ensures Concat(Singly(es)) == es
  {
    if es != [] {
      var p, last := es[..|es| - 1], es[|es| - 1];
      SinglyConcat(p);
      assert Singly(es) == Singly(p) + [[last]];
      ConcatStep(Singly(p), [last]);
    }
  }

  // ----- the two kinds of events have different IDs -----

  /** The configuration and the node: no rule shares a condition with another rule on a common
      device, or publishes the XID condition; and the node's name holds no NUL. */
  ghost predicate SeparateSources(rules: seq<Rule>, g: Xid.Collector) {
    && NoSharedCondition(rules) && (forall i :: 0 <= i < |rules| ==> rules[i].condition != Xid.XID_CONDITION)
    && IsDigest(g.hash) && NulFree(g.node)
  }

  /** The digest confuses no two fingerprints among these events. */
  ghost predicate NoCollisions(hash: Digest, es: set<Event>) {
    forall a, b :: a in es && b in es ==> NoCollision(hash, a, b)
  }

  ghost function AsSet(es: seq<Event>): set<Event> { set e | e in es }

  lemma EngineConditions(node: string, rules: seq<Rule>, h: seq<Sample>, e: Event)
    requires e in Emitted(node, rules, [], h)
    ensures exists i :: 0 <= i < |rules| && rules[i].condition == e.condition
  {
    hide TaggedRun, Emitted;
    var ts := TaggedRun(node, rules, h);
    TaggedRunEvents(node, rules, h);
    RunOrder(node, rules, h);
    var k :| 0 <= k < |Events(ts)| && Events(ts)[k] == e;
    assert ts[k] in ts && Truthful(node, rules, h, ts[k]);
  }

  lemma {:induction false} DecimalIsNulFree(n: nat)
    ensures NulFree(Decimal(n))
  {
    forall i | 0 <= i < |Decimal(n)| ensures Decimal(n)[i] != NUL {
      assert IsDigit(Decimal(n)[i]);
    }
  }

  /** What the XID pipeline has handed to the drain. */
  ghost function Handed(g: Xid.Collector, closers: nat, xids: seq<Xid.Step>): seq<Event>
    requires Xid.IsRun(g, Xid.Initial(closers), xids)
  {
    Xid.After(g, Xid.Initial(closers), xids).received
  }

  lemma HandedEvents(g: Xid.Collector, closers: nat, xids: seq<Xid.Step>)
    requires Xid.IsRun(g, Xid.Initial(closers), xids) && NulFree(g.node)
    ensures var s := Xid.After(g, Xid.Initial(closers), xids);
            && |s.received| <= |s.sent|
            && forall k :: 0 <= k < |s.received| ==>
                 && Xid.Reports(g, s.received[k], s.sent[k], k + 1)
                 && CleanIdentity(s.received[k])
  {
    hide Xid.Reports, Xid.Exec, EventId, Decimal;
    Xid.XidOrder(g, closers, xids);
    var s := Xid.After(g, Xid.Initial(closers), xids);
    forall k | 0 <= k < |s.received|
      ensures Xid.Reports(g, s.received[k], s.sent[k], k + 1) && CleanIdentity(s.received[k])
    {
      assert Xid.Made(s)[k] == s.received[k];
      ReportIsClean(g, s.received[k], s.sent[k], k + 1);
    }
  }

  lemma ReportIsClean(g: Xid.Collector, e: Event, raw: Xid.Raw, n: nat)
    requires Xid.Reports(g, e, raw, n) && NulFree(g.node)
    ensures CleanIdentity(e) && e.id == EventId(g.hash, e) && e.condition == Xid.XID_CONDITION
  {
    hide EventId;
    DecimalIsNulFree(raw.device);
  }

  lemma XidIdsAreUnique(g: Xid.Collector, closers: nat, xids: seq<Xid.Step>)
    requires Xid.IsRun(g, Xid.Initial(closers), xids) && NulFree(g.node) && IsDigest(g.hash)
    requires NoCollisions(g.hash, AsSet(Handed(g, closers, xids)))
    ensures UniqueIds(Handed(g, closers, xids))
  {
    hide EventId, CleanIdentity, SameIdentity, NoCollision, Xid.Exec;
    var es := Handed(g, closers, xids);
    HandedEvents(g, closers, xids);
    Xid.XidEventsAreDistinct(g, closers, xids);
    forall i, j | 0 <= i < j < |es| ensures es[i].id != es[j].id {
      assert es[i] in AsSet(es) && es[j] in AsSet(es);
      EventIdMeaning(g.hash, es[i], es[j]);
    }
  }

  /** No engine event carries the ID of an XID event. */
  lemma SourcesHaveOwnIds(g: Xid.Collector, rules: seq<Rule>, h: seq<Sample>, closers: nat, xids: seq<Xid.Step>)
    requires Xid.IsRun(g, Xid.Initial(closers), xids) && SeparateSources(rules, g)
    requires forall e :: e in Emitted(g.node, rules, [], h) ==> CleanIdentity(e)
    requires NoCollisions(g.hash, AsSet(Emitted(g.node, rules, [], h)) + AsSet(Handed(g, closers, xids)))
    ensures IdsOf(WithIds(g.hash, Emitted(g.node, rules, [], h))) !! IdsOf(Handed(g, closers, xids))
  {
    hide EventId, CleanIdentity, NoCollision, Xid.Exec, Emitted;
    var es, xs := Emitted(g.node, rules, [], h), Handed(g, closers, xids);
    HandedEvents(g, closers, xids);
    forall a, x | a in WithIds(g.hash, es) && x in xs ensures a.id != x.id {
      var i :| 0 <= i < |es| && WithIds(g.hash, es)[i] == a;
      assert es[i] in AsSet(es) && x in AsSet(xs);
      EngineConditions(g.node, rules, h, es[i]);
      EventIdMeaning(g.hash, es[i], x);
    }
  }

  // ----- end to end -----

  /** A run of the agent: one engine, one GPU collector, the tick process and its drain. */
  ghost predicate IsAgentRun(g: Xid.Collector, rules: seq<Rule>, batches: seq<seq<Sample>>, closers: nat,
                             xids: seq<Xid.Step>, names: seq<string>, steps: seq<Step>) {
    && Xid.IsRun(g, Xid.Initial(closers), xids)
    && Exec(Initial(2, names), steps).Some?
    && Begun(steps, 0) == NonEmpty(Evaluated(g.node, g.hash, rules, batches))
    && Begun(steps, 1) <= Singly(Handed(g, closers, xids))
  }

  /** What the names and the digest must not do in this run. */
  ghost predicate CleanRun(g: Xid.Collector, rules: seq<Rule>, batches: seq<seq<Sample>>, closers: nat,
                           xids: seq<Xid.Step>)
    requires Xid.IsRun(g, Xid.Initial(closers), xids)
  {
    var es := Emitted(g.node, rules, [], Concat(batches));
    && (forall e :: e in es ==> CleanIdentity(e))
    && NoCollisions(g.hash, AsSet(es) + AsSet(Handed(g, closers, xids)))
  }

  /** The two processes begin events with IDs of their own, distinct within each. */
  lemma ProcessesHaveOwnIds(g: Xid.Collector, rules: seq<Rule>, batches: seq<seq<Sample>>, closers: nat,
                            xids: seq<Xid.Step>, names: seq<string>, steps: seq<Step>)
    requires IsAgentRun(g, rules, batches, closers, xids, names, steps)
    requires SeparateSources(rules, g) && CleanRun(g, rules, batches, closers, xids)
    ensures Concat(Begun(steps, 0)) == WithIds(g.hash, Emitted(g.node, rules, [], Concat(batches)))
    ensures Concat(Begun(steps, 1)) <= Handed(g, closers, xids)
    ensures UniqueIds(Concat(Begun(steps, 0))) && UniqueIds(Concat(Begun(steps, 1)))
    ensures OwnIds(steps, 0) && OwnIds(steps, 1)
  {
    hide Exec, Initial, Begun, Emitted, Evaluated, NonEmpty, Singly, Handed, Concat, WithIds, UniqueIds, CleanIdentity,
         NoCollision, NoSharedCondition, AllDistinct, Xid.Exec, Xid.Initial, IsDigest, NulFree;
    var es, xs := Emitted(g.node, rules, [], Concat(batches)), Handed(g, closers, xids);
    NonEmptyConcat(Evaluated(g.node, g.hash, rules, batches));
    EvaluatedConcat(g.node, g.hash, rules, batches);
    SeparateConditionsSuffice(g.node, rules, Concat(batches));
    EngineIdsAreUnique(g.hash, es);
    XidIdsAreUnique(g, closers, xids);
    SinglyPrefix(Begun(steps, 1), xs);
    UniquePrefix(Concat(Begun(steps, 1)), xs);
    SourcesHaveOwnIds(g, rules, Concat(batches), closers, xids);
    RunShape(2, names, steps);
    OnlyTwo(steps, WithIds(g.hash, es), xs);
  }

  lemma EngineIdsAreUnique(hash: Digest, es: seq<Event>)
    requires IsDigest(hash) && AllDistinct(es) && forall e :: e in es ==> CleanIdentity(e)
    requires forall a, b :: a in es && b in es ==> NoCollision(hash, a, b)
    ensures UniqueIds(WithIds(hash, es))
  {
    hide NoCollision, CleanIdentity, IsDigest, AllDistinct, UniqueIds;
    IdsFollowIdentities(hash, es);
  }

  lemma SinglyPrefix(bs: seq<seq<Event>>, es: seq<Event>)
    requires bs <= Singly(es)
    ensures |bs| <= |es| && Concat(bs) == es[..|bs|]
  {
    hide Concat;
    assert bs == Singly(es[..|bs|]);
    SinglyConcat(es[..|bs|]);
  }

  lemma UniquePrefix(a: seq<Event>, b: seq<Event>)
    requires a <= b && UniqueIds(b)
    ensures UniqueIds(a)
  {}

  lemma OnlyTwo(steps: seq<Step>, es: seq<Event>, xs: seq<Event>)
    requires Concat(Begun(steps, 0)) == es && Concat(Begun(steps, 1)) <= xs && IdsOf(es) !! IdsOf(xs)
    requires forall q :: q >= 2 ==> Begun(steps, q) == []
    ensures OwnIds(steps, 0) && OwnIds(steps, 1)
  {
    assert IdsOf(Concat(Begun(steps, 1))) <= IdsOf(xs);
    forall q: nat | q >= 2 ensures IdsOf(Concat(Begun(steps, q))) == {} {
      assert Begun(steps, q) == [];
    }
    hide Begun, Concat, IdsOf;
  }

  /** What a deduplicating receiver holds. */
  ghost function Kept(s: State, i: nat): seq<Event> {
    if i < |s.sinks| then Dedup(Received(s.sinks[i].log)) else []
  }

  /** What it holds under the IDs of these events. */
  ghost function KeptOf(s: State, i: nat, events: seq<Event>): seq<Event> {
    OfIds(Kept(s, i), IdsOf(events))
  }

  /** Sink i has had everything process p has begun, each delivery returning nil. */
  ghost predicate AllDelivered(s: State, p: nat, i: nat) {
    && p < |s.procs| && i < |s.sinks|
    && Owed(s.procs[p], i) == []
    && forall k :: 0 <= k < |OwnPast(s.sinks[i].past, p)| ==> OwnPast(s.sinks[i].past, p)[k].ok
  }

  lemma DeliveredIsKept(procs: nat, names: seq<string>, steps: seq<Step>, p: nat, i: nat)
    requires Exec(Initial(procs, names), steps).Some?
    requires OwnIds(steps, p) && UniqueIds(Concat(Begun(steps, p)))
    requires AllDelivered(Exec(Initial(procs, names), steps).value, p, i)
    ensures KeptOf(Exec(Initial(procs, names), steps).value, i, Concat(Begun(steps, p))) == Concat(Begun(steps, p))
  {
    hide Exec, Initial, OwnIds, UniqueIds, Begun, Concat, Dedup, OfIds, IdsOf, AllReached, OwnPast;
    OrderUnderConcurrency(procs, names, steps, p, i);
    var s := Exec(Initial(procs, names), steps).value;
    var own := OwnPast(s.sinks[i].past, p);
    assert Batches(own) + [] == Batches(own) && Concat(Batches(own)) + [] == Concat(Batches(own));
  }

  /** From samples and XIDs to the subscriber. The two sources run side by side, batched,
      interleaved, retried and cancelled in any way. Where sink i has had all the engine's
      events, its receiver has kept, of their IDs, exactly the engine's output on all samples;
      where it has had all XID events begun, it has kept, of theirs, exactly these, the n-th
      reporting the n-th XID the watcher sent; and it has kept nothing else. */
  lemma HardwareToSubscriber(g: Xid.Collector, rules: seq<Rule>, batches: seq<seq<Sample>>, closers: nat,
                             xids: seq<Xid.Step>, names: seq<string>, steps: seq<Step>, i: nat)
    requires IsAgentRun(g, rules, batches, closers, xids, names, steps) && i < |names|
    requires SeparateSources(rules, g) && CleanRun(g, rules, batches, closers, xids)
    ensures var s, x := Exec(Initial(2, names), steps).value, Xid.After(g, Xid.Initial(closers), xids);
            var engine, xid := WithIds(g.hash, Emitted(g.node, rules, [], Concat(batches))), Concat(Begun(steps, 1));
            && (AllDelivered(s, 0, i) ==> KeptOf(s, i, engine) == engine)
            && (AllDelivered(s, 1, i) ==> KeptOf(s, i, xid) == xid)
            && |xid| <= |x.sent| && (forall k :: 0 <= k < |xid| ==> Xid.Reports(g, xid[k], x.sent[k], k + 1))
            && IdsOf(engine) !! IdsOf(xid)
            && (forall e :: e in Kept(s, i) ==> e in engine || e in xid)
  {
    hide Exec, Initial, Begun, Emitted, Concat, WithIds, UniqueIds, Xid.Exec, Xid.Initial, Xid.Reports, KeptOf,
         AllDelivered, Dedup, SeparateSources, CleanRun, IdsOf;
    RunShape(2, names, steps);
    ProcessesHaveOwnIds(g, rules, batches, closers, xids, names, steps);
    var s := Exec(Initial(2, names), steps).value;
    if AllDelivered(s, 0, i) { DeliveredIsKept(2, names, steps, 0, i); }
    if AllDelivered(s, 1, i) { DeliveredIsKept(2, names, steps, 1, i); }
    NulFreeNode(rules, g);
    HandedEvents(g, closers, xids);
    TwoOwners(s, names, steps, i);
    OwnIdsApart(steps);
  }

  lemma NulFreeNode(rules: seq<Rule>, g: Xid.Collector)
    requires SeparateSources(rules, g)
    ensures NulFree(g.node)
  {}

  lemma OwnIdsApart(steps: seq<Step>)
    requires OwnIds(steps, 0)
    ensures IdsOf(Concat(Begun(steps, 0))) !! IdsOf(Concat(Begun(steps, 1)))
  {}

  lemma TwoOwners(s: State, names: seq<string>, steps: seq<Step>, i: nat)
    requires Exec(Initial(2, names), steps) == Some(s) && i < |s.sinks|
    ensures forall e :: e in Dedup(Received(s.sinks[i].log)) ==>
              e in Concat(Begun(steps, 0)) || e in Concat(Begun(steps, 1))
  {
    hide Exec, Initial, Begun, Concat, Dedup, HasId;
    var log := s.sinks[i].log;
    FromOwnHolds(2, names, steps);
    RunShape(2, names, steps);
    DedupMeaning(Received(log));
    NothingBegun();
    forall e | e in Dedup(Received(log)) ensures e in Concat(Begun(steps, 0)) || e in Concat(Begun(steps, 1)) {
      var j :| 0 <= j < |Received(log)| && Received(log)[j] == e;
      assert log[j].event in Concat(Begun(steps, log[j].owner));
    }
  }

  lemma NothingBegun()
    ensures Concat<Event>([]) == []
  {}
}
