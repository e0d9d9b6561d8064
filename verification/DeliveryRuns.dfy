/** What deduplication makes of retried deliveries: of one batch, of a run of batches, and of
    everything the engine emits. */
module DeliveryRuns {
  import opened Sequences
  import opened Hardware
  import opened Deduplication
  import opened Delivery
  import opened EventEngine
  import opened EngineRuns

  // ----- one batch -----

  ghost function MaxOf(sizes: seq<nat>): nat {
    if sizes == [] then 0
    else
      var before, last := MaxOf(sizes[..|sizes| - 1]), sizes[|sizes| - 1];
      if before < last then last else before
  }

  lemma {:induction false} MaxIsGreatest(sizes: seq<nat>)
    ensures forall i :: 0 <= i < |sizes| ==> sizes[i] <= MaxOf(sizes)
    ensures sizes != [] ==> MaxOf(sizes) in sizes
  {
    if sizes != [] {
      var p := sizes[..|sizes| - 1];
      MaxIsGreatest(p);
      assert forall i :: 0 <= i < |p| ==> sizes[i] == p[i];
    }
  }

  lemma {:induction false} MaxWithin(sizes: seq<nat>, n: nat)
    requires Within(sizes, n)
    ensures MaxOf(sizes) <= n
  {
    MaxIsGreatest(sizes);
  }

  lemma PrefixKnown(log: seq<Event>, events: seq<Event>, k: nat, m: nat)
    requires k <= m <= |events|
    ensures KnownIds(log + events[..m], events[..k])
  {
    forall i | 0 <= i < k ensures HasId(log + events[..m], events[i].id) {
      assert (log + events[..m])[|log| + i] == events[i];
    }
  }

  /** Re-posting a prefix adds only what was not posted before. */
  lemma RepostPrefix(log: seq<Event>, events: seq<Event>, m: nat, k: nat)
    requires m <= |events| && k <= |events|
    ensures Dedup(log + events[..m] + events[..k]) == Dedup(log + events[..if k < m then m else k])
  {
    hide Dedup;
    if k <= m {
      PrefixKnown(log, events, k, m);
      DedupKnown(log + events[..m], events[..k]);
    } else {
      PrefixKnown(log, events, m, m);
      DedupKnown(log + events[..m], events[..m]);
      DedupAppend(log + events[..m] + events[..m], log + events[..m], events[m..k]);
      assert log + events[..m] + events[..k] == log + events[..m] + events[..m] + events[m..k];
      assert log + events[..k] == log + events[..m] + events[m..k];
    }
  }

  /** However often the batch was re-posted, the receiver keeps what the farthest attempt sent. */
  lemma {:induction false} ReplayKeeps(log: seq<Event>, events: seq<Event>, sizes: seq<nat>)
    requires Within(sizes, |events|)
    ensures MaxOf(sizes) <= |events|
    ensures Dedup(log + Replay(events, sizes)) == Dedup(log + events[..MaxOf(sizes)])
  {
    hide Dedup, HasId;
    MaxWithin(sizes, |events|);
    if sizes != [] {
      var p, k := sizes[..|sizes| - 1], sizes[|sizes| - 1];
      ReplayKeeps(log, events, p);
      assert log + Replay(events, sizes) == log + Replay(events, p) + events[..k];
      DedupAppend(log + Replay(events, p), log + events[..MaxOf(p)], events[..k]);
      RepostPrefix(log, events, MaxOf(p), k);
    }
  }

  /** One delivery's circumstances. */
  datatype Try = Try(maxAttempts: int, net: nat -> Answers, cancelled: nat -> bool)

  ghost function Sent(events: seq<Event>, t: Try): seq<Event> {
    Traffic(events, AtLeastZero(t.maxAttempts), t.net, t.cancelled)
  }

  ghost predicate Succeeds(events: seq<Event>, t: Try) {
    Attempts(|events|, AtLeastZero(t.maxAttempts), t.net, t.cancelled).1 == Delivered
  }

  /** The part of the batch the farthest attempt got through. */
  ghost function Reached(events: seq<Event>, t: Try): (r: seq<Event>)
    ensures r <= events
  {
    var sizes := Attempts(|events|, AtLeastZero(t.maxAttempts), t.net, t.cancelled).0;
    MaxWithin(sizes, |events|);
    events[..MaxOf(sizes)]
  }

  /** Any retry pattern is equivalent, for a deduplicating receiver, to sending one prefix once;
      after a success that prefix is the whole batch. */
  lemma RetryKeepsPrefix(log: seq<Event>, events: seq<Event>, t: Try)
    ensures Dedup(log + Sent(events, t)) == Dedup(log + Reached(events, t))
    ensures Succeeds(events, t) ==> Reached(events, t) == events
  {
    hide Dedup, Replay;
    var m := AtLeastZero(t.maxAttempts);
    var sizes := Attempts(|events|, m, t.net, t.cancelled).0;
    ReplayKeeps(log, events, sizes);
    AttemptsShape(|events|, m, t.net, t.cancelled);
    MaxIsGreatest(sizes);
  }

  /** After a success the receiver has gained exactly the batch, in order, exactly when the
      batch's IDs are distinct and new to it. */
  lemma RetryIsExactIff(log: seq<Event>, events: seq<Event>, t: Try)
    requires Succeeds(events, t)
    ensures Dedup(log + Sent(events, t)) == Dedup(log) + events <==> UniqueIds(events) && FreshIds(log, events)
  {
    hide *;
    RetryKeepsPrefix(log, events, t);
    DedupFreshIff(log, events);
  }

  // ----- a run of batches -----

  ghost function AllSent(batches: seq<seq<Event>>, tries: seq<Try>): seq<Event>
    requires |tries| == |batches|
  {
    if batches == [] then []
    else
      var n := |batches| - 1;
      AllSent(batches[..n], tries[..n]) + Sent(batches[n], tries[n])
  }

  ghost function AllReached(batches: seq<seq<Event>>, tries: seq<Try>): seq<Event>
    requires |tries| == |batches|
  {
    if batches == [] then []
    else
      var n := |batches| - 1;
      AllReached(batches[..n], tries[..n]) + Reached(batches[n], tries[n])
  }

  ghost predicate AllSucceed(batches: seq<seq<Event>>, tries: seq<Try>)
    requires |tries| == |batches|
  {
    forall i :: 0 <= i < |batches| ==> Succeeds(batches[i], tries[i])
  }

  /** Over a whole run, the receiver is left with one prefix of each batch. */
  lemma {:induction false} RunKeepsPrefixes(batches: seq<seq<Event>>, tries: seq<Try>)
    requires |tries| == |batches|
    ensures Dedup(AllSent(batches, tries)) == Dedup(AllReached(batches, tries))
    ensures AllSucceed(batches, tries) ==> AllReached(batches, tries) == Concat(batches)
  {
    hide Dedup, Sent, Reached, Succeeds;
    if batches != [] {
      var n := |batches| - 1;
      RunKeepsPrefixes(batches[..n], tries[..n]);
      var sent, reached := AllSent(batches[..n], tries[..n]), AllReached(batches[..n], tries[..n]);
      DedupAppend(sent, reached, Sent(batches[n], tries[n]));
      RetryKeepsPrefix(reached, batches[n], tries[n]);
    }
  }

  /** With distinct IDs over the run nothing is kept twice and nothing changes order, even where
      some deliveries failed. */
  lemma RunIsOrdered(batches: seq<seq<Event>>, tries: seq<Try>)
    requires |tries| == |batches| && UniqueIds(Concat(batches))
    ensures Dedup(AllSent(batches, tries)) == AllReached(batches, tries)
  {
    hide Dedup;
    RunKeepsPrefixes(batches, tries);
    ReachedUnique(batches, tries);
    DedupOfUnique(AllReached(batches, tries));
  }

  lemma DedupOfUnique(es: seq<Event>)
    requires UniqueIds(es)
    ensures Dedup(es) == es
  {
    hide Dedup;
    NothingKnown(es);
    DedupFreshIff([], es);
    assert [] + es == es;
    DedupNothing();
  }

  lemma DedupNothing()
    ensures Dedup([]) == []
  {}

  lemma NothingKnown(es: seq<Event>)
    ensures FreshIds([], es)
  {}

  ghost predicate IdsWithin(a: seq<Event>, b: seq<Event>) {
    forall i :: 0 <= i < |a| ==> HasId(b, a[i].id)
  }

  lemma {:induction false} ReachedUnique(batches: seq<seq<Event>>, tries: seq<Try>)
    requires |tries| == |batches| && UniqueIds(Concat(batches))
    ensures UniqueIds(AllReached(batches, tries))
    ensures IdsWithin(AllReached(batches, tries), Concat(batches))
  {
    if batches != [] {
      var n := |batches| - 1;
      var p, b := Concat(batches[..n]), batches[n];
      assert Concat(batches) == p + b;
      UniqueSum(p, b);
      ReachedUnique(batches[..n], tries[..n]);
      hide Reached;
      UniquePrefixes(p, b, AllReached(batches[..n], tries[..n]), Reached(b, tries[n]));
    }
  }

  lemma UniqueSum(a: seq<Event>, b: seq<Event>)
    requires UniqueIds(a + b)
    ensures UniqueIds(a)
  {
    assert forall i :: 0 <= i < |a| ==> (a + b)[i] == a[i];
  }

  lemma UniquePrefixes(a: seq<Event>, b: seq<Event>, x: seq<Event>, y: seq<Event>)
    requires UniqueIds(a + b) && UniqueIds(x) && IdsWithin(x, a) && y <= b
    ensures UniqueIds(x + y) && IdsWithin(x + y, a + b)
  {
    var s := a + b;
    assert forall i :: 0 <= i < |b| ==> s[|a| + i] == b[i];
    assert forall i :: 0 <= i < |a| ==> s[i] == a[i];
    assert forall i :: 0 <= i < |y| ==> y[i] == b[i];
    forall i | 0 <= i < |x| + |y| ensures HasId(s, (x + y)[i].id) {
      if i < |x| {
        HasIdSum(a, b, x[i].id);
      } else {
        assert s[|a| + (i - |x|)].id == y[i - |x|].id;
      }
    }
    forall i, j | 0 <= i < |x| && 0 <= j < |y| ensures x[i].id != y[j].id {
      var k :| 0 <= k < |a| && a[k].id == x[i].id;
      assert s[k].id != s[|a| + j].id;
    }
  }

  // ----- the engine's output, delivered -----

  /** What one Evaluate call per sample batch returns. */
  ghost function Evaluated(node: string, hash: Digest, rules: seq<Rule>, batches: seq<seq<Sample>>)
    : (r: seq<seq<Event>>)
    ensures |r| == |batches|
  {
    if batches == [] then []
    else
      var p := batches[..|batches| - 1];
      Evaluated(node, hash, rules, p) +
      [WithIds(hash, Emitted(node, rules, Concat(p), batches[|batches| - 1]))]
  }

  lemma WithIdsSum(hash: Digest, a: seq<Event>, b: seq<Event>)
    ensures WithIds(hash, a + b) == WithIds(hash, a) + WithIds(hash, b)
  {
    hide WithId;
  }

  /** Batched or not, the engine produces the same events with the same IDs. */
  lemma {:induction false} EvaluatedConcat(node: string, hash: Digest, rules: seq<Rule>, batches: seq<seq<Sample>>)
    ensures Concat(Evaluated(node, hash, rules, batches)) == WithIds(hash, Emitted(node, rules, [], Concat(batches)))
  {
    hide Emitted, WithIds, Concat;
    if batches == [] {
      NothingEmitted(node, hash, rules);
    } else {
      var p, b := batches[..|batches| - 1], batches[|batches| - 1];
      var before, now := Emitted(node, rules, [], Concat(p)), Emitted(node, rules, Concat(p), b);
      EvaluatedConcat(node, hash, rules, p);
      ConcatStep(p, b);
      assert batches == p + [b];
      Batching(node, rules, [], Concat(p), b);
      assert [] + Concat(p) == Concat(p);
      ConcatStep(Evaluated(node, hash, rules, p), WithIds(hash, now));
      WithIdsSum(hash, before, now);
    }
  }

  lemma NothingEmitted(node: string, hash: Digest, rules: seq<Rule>)
    ensures Concat<Event>([]) == [] == WithIds(hash, Emitted(node, rules, [], Concat<Sample>([])))
  {}

  /** From samples to the subscriber: with no shared condition, clean names and no digest
      collision, every run of the engine, batched in any way and delivered with any pattern of
      retries that ends well each time, leaves a deduplicating receiver with exactly the
      engine's events, each once and in order. */
  lemma SamplesToSubscriber(node: string, hash: Digest, rules: seq<Rule>, batches: seq<seq<Sample>>, tries: seq<Try>)
    requires NoSharedCondition(rules) && IsDigest(hash)
    requires CollisionFree(hash, Emitted(node, rules, [], Concat(batches)))
    requires forall e :: e in Emitted(node, rules, [], Concat(batches)) ==> CleanIdentity(e)
    requires |tries| == |batches| && AllSucceed(Evaluated(node, hash, rules, batches), tries)
    ensures Dedup(AllSent(Evaluated(node, hash, rules, batches), tries)) ==
            WithIds(hash, Emitted(node, rules, [], Concat(batches)))
  {
    var events := Evaluated(node, hash, rules, batches);
    EvaluatedConcat(node, hash, rules, batches);
    SeparateConditionsSuffice(node, rules, Concat(batches));
    IdsFollowIdentities(hash, Emitted(node, rules, [], Concat(batches)));
    RunKeepsPrefixes(events, tries);
    RunIsOrdered(events, tries);
  }
}
