/** Delivery of a batch to one receiver: the in-order, stop-at-first-failure poster
    (internal/sink/webhook.go, EmitEvents) under retry (internal/queue/queue.go,
    DeliverWithRetry). */
module Delivery {
  import opened Hardware
  import opened Backoffs

  /** How one POST ends. A failing one may have reached the receiver all the same. */
  datatype Post = Acknowledged | FailedAfterArrival | FailedBeforeArrival

  /** The network's answers within one attempt, by position in the batch. */
  type Answers = nat -> Post

  // ----- one attempt -----

  ghost predicate AllAcknowledged(n: nat, net: Answers) {
    forall i :: 0 <= i < n ==> net(i) == Acknowledged
  }

  /** How many of n events reach the receiver: those before the first failure, and the failed
      one itself if it arrived. */
  ghost function Arrivals(n: nat, net: Answers): (k: nat)
    ensures k <= n
  {
    if n == 0 then 0
    else if !AllAcknowledged(n - 1, net) then Arrivals(n - 1, net)
    else if net(n - 1) == FailedBeforeArrival then n - 1
    else n
  }

  /** k is the arrival count exactly when everything before the k-th event was acknowledged, the
      k-th arrived, and the k+1st, if there is one, was lost on the way or never posted. */
  lemma {:induction false} ArrivalsMeaning(n: nat, net: Answers, k: nat)
    requires k <= n
    ensures k == Arrivals(n, net) <==>
            && (k > 0 ==> AllAcknowledged(k - 1, net) && net(k - 1) != FailedBeforeArrival)
            && (k < n ==> (k > 0 && net(k - 1) == FailedAfterArrival) || net(k) == FailedBeforeArrival)
  {
    var a := Arrivals(n, net);
    ArrivalsShape(n, net);
  }

  lemma {:induction false} ArrivalsShape(n: nat, net: Answers)
    ensures var k := Arrivals(n, net);
            && (k > 0 ==> AllAcknowledged(k - 1, net) && net(k - 1) != FailedBeforeArrival)
            && (k < n ==> (k > 0 && net(k - 1) == FailedAfterArrival) || net(k) == FailedBeforeArrival)
    ensures AllAcknowledged(n, net) ==> Arrivals(n, net) == n
  {
    if n > 0 {
      ArrivalsShape(n - 1, net);
      if !AllAcknowledged(n - 1, net) && Arrivals(n - 1, net) == n - 1 {
        assert net(n - 2) == FailedAfterArrival;
      }
    }
  }

  lemma {:induction false} StoppedAt(n: nat, net: Answers, i: nat)
    requires i < n && AllAcknowledged(i, net) && net(i) != Acknowledged
    ensures Arrivals(n, net) == if net(i) == FailedAfterArrival then i + 1 else i
  {
    if n > i + 1 {
      assert !AllAcknowledged(n - 1, net);
      StoppedAt(n - 1, net, i);
    }
  }

  // ----- all attempts -----

  datatype Outcome = Trying | Delivered | Cancelled

  /** What the first m rounds of the retry loop do: how many events arrive in each attempt made,
      and how matters stand. */
  ghost function Attempts(n: nat, m: nat, net: nat -> Answers, cancelled: nat -> bool): (r: (seq<nat>, Outcome))
    ensures Within(r.0, n)
  {
    if m == 0 then ([], Trying)
    else
      var before := Attempts(n, m - 1, net, cancelled);
      if before.1 != Trying then before
      else if cancelled(m - 1) then (before.0, Cancelled)
      else (before.0 + [Arrivals(n, net(m - 1))], if AllAcknowledged(n, net(m - 1)) then Delivered else Trying)
  }

  ghost predicate Within(sizes: seq<nat>, n: nat) {
    forall i :: 0 <= i < |sizes| ==> sizes[i] <= n
  }

  /** The loop ends at the first round that settles the matter. */
  lemma {:induction false} Settled(n: nat, m: nat, limit: nat, net: nat -> Answers, cancelled: nat -> bool)
    requires m <= limit && Attempts(n, m, net, cancelled).1 != Trying
    ensures Attempts(n, limit, net, cancelled) == Attempts(n, m, net, cancelled)
  {
    if m < limit { Settled(n, m, limit - 1, net, cancelled); }
  }

  lemma {:induction false} AttemptsShape(n: nat, m: nat, net: nat -> Answers, cancelled: nat -> bool)
    ensures var (sizes, outcome) := Attempts(n, m, net, cancelled);
            && |sizes| <= m
            && (outcome == Trying ==> |sizes| == m)
            && (outcome == Cancelled ==> |sizes| < m && cancelled(|sizes|))
            && (outcome == Delivered ==> sizes != [] && sizes[|sizes| - 1] == n && AllAcknowledged(n, net(|sizes| - 1)))
    ensures var (sizes, outcome) := Attempts(n, m, net, cancelled);
            && (forall a :: 0 <= a < |sizes| ==> !cancelled(a))
            && (forall a :: 0 <= a < |sizes| ==> sizes[a] == Arrivals(n, net(a)))
            && (forall a :: 0 <= a < |sizes| ==>
                  AllAcknowledged(n, net(a)) ==> outcome == Delivered && a == |sizes| - 1)
  {
    hide AllAcknowledged, Arrivals, Within;
    if m > 0 {
      AttemptsShape(n, m - 1, net, cancelled);
      ArrivalsShape(n, net(m - 1));
    }
  }

  /** Delivery succeeds exactly when some attempt within the limit is acknowledged in full and
      nothing was cancelled up to it. */
  lemma SuccessIff(n: nat, m: nat, net: nat -> Answers, cancelled: nat -> bool)
    ensures Attempts(n, m, net, cancelled).1 == Delivered <==>
            exists a :: 0 <= a < m && AllAcknowledged(n, net(a)) && forall c :: 0 <= c <= a ==> !cancelled(c)
  {
    hide AllAcknowledged, Attempts, Within;
    AttemptsShape(n, m, net, cancelled);
    var (sizes, outcome) := Attempts(n, m, net, cancelled);
    if outcome == Delivered {
      var a := |sizes| - 1;
      assert AllAcknowledged(n, net(a)) && forall c :: 0 <= c <= a ==> !cancelled(c);
    }
  }

  /** The receiver's view: each attempt re-posts the batch from its start. */
  ghost function Replay(events: seq<Event>, sizes: seq<nat>): seq<Event>
    requires Within(sizes, |events|)
  {
    if sizes == [] then []
    else Replay(events, sizes[..|sizes| - 1]) + events[..sizes[|sizes| - 1]]
  }

  lemma ReplayStep(events: seq<Event>, sizes: seq<nat>, k: nat)
    requires Within(sizes, |events|) && k <= |events|
    ensures Within(sizes + [k], |events|)
    ensures Replay(events, sizes + [k]) == Replay(events, sizes) + events[..k]
  {
    assert (sizes + [k])[..|sizes|] == sizes;
  }

  /** Everything the rounds of the loop send to the receiver. */
  ghost function Traffic(events: seq<Event>, m: nat, net: nat -> Answers, cancelled: nat -> bool): seq<Event> {
    Replay(events, Attempts(|events|, m, net, cancelled).0)
  }

  lemma NoTraffic(events: seq<Event>, net: nat -> Answers, cancelled: nat -> bool)
    ensures Traffic(events, 0, net, cancelled) == []
    ensures Attempts(|events|, 0, net, cancelled) == ([], Trying)
  {}

  /** One more round of the loop: it ends it, or adds one attempt and that attempt's arrivals. */
  lemma NextRound(events: seq<Event>, m: nat, net: nat -> Answers, cancelled: nat -> bool)
    requires Attempts(|events|, m, net, cancelled).1 == Trying
    ensures var before, after := Attempts(|events|, m, net, cancelled), Attempts(|events|, m + 1, net, cancelled);
            var k := Arrivals(|events|, net(m));
            && (cancelled(m) ==> after == (before.0, Cancelled))
            && (!cancelled(m) ==>
                  && |after.0| == |before.0| + 1
                  && after.1 == (if AllAcknowledged(|events|, net(m)) then Delivered else Trying)
                  && Traffic(events, m + 1, net, cancelled) == Traffic(events, m, net, cancelled) + events[..k])
  {
    hide AllAcknowledged, Arrivals, Within, Replay;
    if !cancelled(m) {
      ReplayStep(events, Attempts(|events|, m, net, cancelled).0, Arrivals(|events|, net(m)));
    }
  }

  lemma SameTraffic(events: seq<Event>, m: nat, limit: nat, net: nat -> Answers, cancelled: nat -> bool)
    requires Attempts(|events|, m, net, cancelled).0 == Attempts(|events|, limit, net, cancelled).0
    ensures Traffic(events, m, net, cancelled) == Traffic(events, limit, net, cancelled)
  {}

  function AtLeastZero(n: int): nat { if n < 0 then 0 else n }

  /** The receiving end: every event that reached it, in order of arrival. */
  class Receiver {
    var log: seq<Event>

    constructor ()
      ensures log == []
    { log := []; }

    /** POSTs the batch in order and stops at the first failure. */
    method EmitEvents(events: seq<Event>, net: Answers) returns (ok: bool)
      modifies this
      ensures log == old(log) + events[..Arrivals(|events|, net)]
      ensures ok <==> AllAcknowledged(|events|, net)
    {
      for i := 0 to |events|
        invariant log == old(log) + events[..i]
        invariant AllAcknowledged(i, net)
      {
        match net(i) {
          case Acknowledged =>
            log := log + [events[i]];
          case FailedAfterArrival =>
            log := log + [events[i]];
            StoppedAt(|events|, net, i);
            return false;
          case FailedBeforeArrival =>
            StoppedAt(|events|, net, i);
            return false;
        }
      }
      ArrivalsShape(|events|, net);
      ok := true;
    }

    /** `net(a, i)` answers the i-th POST of attempt a; `cancelled(a)` is the context's state when
        attempt a is about to start; `rnd` feeds the jitter. The time slept is returned as well. */
    method DeliverWithRetry(events: seq<Event>, maxAttempts: int, b: Backoff, net: nat -> Answers,
                            cancelled: nat -> bool, rnd: nat -> real)
      returns (ok: bool, slept: int)
      modifies this
      ensures log == old(log) + Traffic(events, AtLeastZero(maxAttempts), net, cancelled)
      ensures var (sizes, outcome) := Attempts(|events|, AtLeastZero(maxAttempts), net, cancelled);
              && (ok <==> outcome == Delivered)
              && slept == TotalSleep(b, rnd, AtLeastZero(|sizes| - 1))
    {
      hide Arrivals, AllAcknowledged, Attempts, Traffic, Backoff.For;
      slept, ok := 0, false;
      NoTraffic(events, net, cancelled);
      assert old(log) + [] == old(log);
      if maxAttempts <= 0 {
        return;
      }
      var attempt := 0;
      while attempt < maxAttempts
        invariant 0 <= attempt <= maxAttempts
        invariant Attempts(|events|, attempt, net, cancelled).1 == Trying
        invariant |Attempts(|events|, attempt, net, cancelled).0| == attempt
        invariant log == old(log) + Traffic(events, attempt, net, cancelled)
        invariant slept == TotalSleep(b, rnd, AtLeastZero(attempt - 1))
      {
        NextRound(events, attempt, net, cancelled);
        if cancelled(attempt) {
          Settled(|events|, attempt + 1, maxAttempts, net, cancelled);
          SameTraffic(events, attempt, maxAttempts, net, cancelled);
          return;
        }
        if attempt > 0 {
          slept := slept + b.For(attempt - 1, rnd(attempt - 1));
        }
        ok := EmitEvents(events, net(attempt));
        attempt := attempt + 1;
        if ok {
          Settled(|events|, attempt, maxAttempts, net, cancelled);
          SameTraffic(events, attempt, maxAttempts, net, cancelled);
          return;
        }
      }
    }
  }
}
