/** Whole runs of the history store: it agrees with a plain log of the samples it was given,
    cut at the flushes that committed. */
module HistoryRuns {
  import opened Sequences
  import opened Hardware
  import opened SeriesKeys
  import opened Timestamps
  import opened Bolt
  import opened History

  ghost function Run(c: Config, db0: map<string, Bucket>, calls: seq<Call>): State
    requires c.flushInterval > 0
  {
    if calls == [] then State(map[], 0, db0)
    else Step(c, Run(c, db0, calls[..|calls| - 1]), calls[|calls| - 1])
  }

  // ----- boundaries -----

  /** The greatest clock value seen. */
  ghost function Latest(calls: seq<Call>): Time
    requires calls != []
  {
    var now := calls[|calls| - 1].now;
    if |calls| == 1 then now
    else
      var before := Latest(calls[..|calls| - 1]);
      if before < now then now else before
  }

  /** Call i closes a boundary: its clock is in a later period than every clock before it. */
  ghost predicate Closes(f: int, calls: seq<Call>, i: nat)
    requires f > 0
  {
    0 < i < |calls| && forall j :: 0 <= j < i ==> Truncate(calls[j].now, f) < Truncate(calls[i].now, f)
  }

  lemma Quotient(t: Time, f: int)
    requires f > 0
    ensures Truncate(t, f) == t / f * f && Truncate(t, f) <= t < Truncate(t, f) + f
  {}

  lemma TruncateOrder(s: Time, t: Time, f: int)
    requires f > 0
    ensures s <= t ==> Truncate(s, f) <= Truncate(t, f)
    ensures Truncate(s, f) < Truncate(t, f) <==> Truncate(s, f) + f <= t
    ensures Truncate(s, f) < Truncate(t, f) ==> Truncate(s, f) + f <= Truncate(t, f)
  {
    Quotient(s, f);
    Quotient(t, f);
    var a, b := s / f, t / f;
    if a < b { MultiplesApart(a, b, f); }
    if b < a { MultiplesApart(b, a, f); }
  }

  lemma {:induction false} LatestIsGreatest(calls: seq<Call>)
    requires calls != []
    ensures exists i :: 0 <= i < |calls| && calls[i].now == Latest(calls)
    ensures forall i :: 0 <= i < |calls| ==> calls[i].now <= Latest(calls)
  {
    if |calls| > 1 {
      var p := calls[..|calls| - 1];
      LatestIsGreatest(p);
      var i :| 0 <= i < |p| && p[i].now == Latest(p);
      assert calls[i].now == Latest(p);
      forall j | 0 <= j < |calls| ensures calls[j].now <= Latest(calls) {
        if j < |p| { assert p[j] == calls[j]; }
      }
    } else {
      assert calls[0].now == Latest(calls);
    }
  }

  /** The last call closes a boundary when its period is past that of the latest clock before. */
  lemma ClosesLast(f: int, calls: seq<Call>)
    requires f > 0 && |calls| > 1
    ensures var p, now := calls[..|calls| - 1], calls[|calls| - 1].now;
            Closes(f, calls, |calls| - 1) <==> Truncate(Latest(p), f) < Truncate(now, f)
  {
    var p, now := calls[..|calls| - 1], calls[|calls| - 1].now;
    LatestIsGreatest(p);
    var i :| 0 <= i < |p| && p[i].now == Latest(p);
    assert calls[i] == p[i];
    forall j | 0 <= j < |p| ensures Truncate(calls[j].now, f) <= Truncate(Latest(p), f) {
      assert p[j] == calls[j];
      TruncateOrder(calls[j].now, Latest(p), f);
    }
  }

  lemma PassedFrom(f: int, m: Time, now: Time)
    requires f > 0
    ensures var open := Truncate(m, f) + f;
            && (open <= now <==> Truncate(m, f) < Truncate(now, f))
            && LastPassed(f, open, now) == (if open <= now then Truncate(now, f) else 0)
            && NextAfter(f, open, now) == (if m < now then Truncate(now, f) else Truncate(m, f)) + f
  {
    TruncateOrder(m, now, f);
    TruncateOrder(now, m, f);
    Quotient(m, f);
    Quotient(now, f);
    var open := Truncate(m, f) + f;
    if open <= now {
      var a, b := m / f, now / f;
      assert open == (a + 1) * f by { NextMultiple(a, f); }
      assert (b - a - 1) * f == b * f - (a + 1) * f;
      DivBetween(now - open, f, b - a - 1);
    }
  }

  /** The boundary moves as its loop does, from unset before the first call. */
  lemma NextOfRun(c: Config, db0: map<string, Bucket>, calls: seq<Call>)
    requires c.flushInterval > 0 && calls != []
    ensures var f, p, now := c.flushInterval, calls[..|calls| - 1], calls[|calls| - 1].now;
            && Run(c, db0, calls).next == NextAfter(f, Opened(f, Run(c, db0, p).next, now), now)
            && (p == [] ==> Run(c, db0, p).next == 0)
  {
    hide Fold, FlushDb, NextAfter, LastPassed, Opened;
  }

  /** For any clock, monotone or not: `next` is always one period past the latest clock's
      boundary, and a call flushes, once, exactly when it closes a boundary, stamped with
      the greatest boundary not after its own clock. */
  lemma {:induction false} Boundaries(c: Config, db0: map<string, Bucket>, calls: seq<Call>)
    requires c.flushInterval > 0 && calls != [] && calls[0].now >= 0
    ensures var f := c.flushInterval;
            Run(c, db0, calls).next == Truncate(Latest(calls), f) + f > 0
    ensures var f, p, now := c.flushInterval, calls[..|calls| - 1], calls[|calls| - 1].now;
            LastPassed(f, Opened(f, Run(c, db0, p).next, now), now) ==
            if Closes(f, calls, |calls| - 1) then Truncate(now, f) else 0
  {
    hide Run, Closes, Truncate, LastPassed, NextAfter;
    var f, p, now := c.flushInterval, calls[..|calls| - 1], calls[|calls| - 1].now;
    NextOfRun(c, db0, calls);
    if |calls| == 1 {
      FirstBoundary(f, calls);
    } else {
      assert p[0] == calls[0];
      Boundaries(c, db0, p);
      ClosesLast(f, calls);
      PassedFrom(f, Latest(p), now);
      LatestIsGreatest(p);
      TruncateOrder(Latest(p), now, f);
      TruncateOrder(now, Latest(p), f);
      NotBeforeZero(p[0].now, Latest(p), f);
      NotBeforeZero(p[0].now, if Latest(p) < now then now else Latest(p), f);
    }
  }

  lemma FirstBoundary(f: int, calls: seq<Call>)
    requires f > 0 && |calls| == 1 && calls[0].now >= 0
    ensures var now := calls[0].now; var open := Opened(f, 0, now);
            && NextAfter(f, open, now) == Truncate(Latest(calls), f) + f > 0
            && LastPassed(f, open, now) == 0 && !Closes(f, calls, 0)
  {
    Quotient(calls[0].now, f);
  }

  lemma NotBeforeZero(s: Time, t: Time, f: int)
    requires f > 0 && 0 <= s <= t
    ensures Truncate(t, f) >= 0
  {
    Quotient(0, f);
    TruncateOrder(0, t, f);
  }

  // ----- the plain log -----

  /** What one committed flush covers. */
  datatype Segment = Segment(stamp: Time, samples: seq<Sample>)

  ghost function Allowed(metrics: set<string>, samples: seq<Sample>): seq<Sample> {
    if samples == [] then []
    else
      var s := samples[|samples| - 1];
      Allowed(metrics, samples[..|samples| - 1]) + if s.metric in metrics then [s] else []
  }

  ghost predicate FlushedLast(c: Config, calls: seq<Call>)
    requires c.flushInterval > 0 && calls != []
  {
    Closes(c.flushInterval, calls, |calls| - 1) && calls[|calls| - 1].ok
  }

  /** The allowlisted samples since the last committed flush. */
  ghost function Pending(c: Config, calls: seq<Call>): seq<Sample>
    requires c.flushInterval > 0
  {
    if calls == [] || FlushedLast(c, calls) then []
    else Pending(c, calls[..|calls| - 1]) + Allowed(c.metrics, calls[|calls| - 1].samples)
  }

  /** The committed flushes: each covers the samples since the one before, its own call's included. */
  ghost function Segments(c: Config, calls: seq<Call>): seq<Segment>
    requires c.flushInterval > 0
  {
    if calls == [] then []
    else
      var p, call := calls[..|calls| - 1], calls[|calls| - 1];
      Segments(c, p) +
      if FlushedLast(c, calls)
      then [Segment(Truncate(call.now, c.flushInterval), Pending(c, p) + Allowed(c.metrics, call.samples))] else []
  }

  /** Every allowlisted sample ever given, in order. */
  ghost function Log(c: Config, calls: seq<Call>): seq<Sample> {
    if calls == [] then []
    else Log(c, calls[..|calls| - 1]) + Allowed(c.metrics, calls[|calls| - 1].samples)
  }

  ghost function Windows(segs: seq<Segment>): (r: seq<seq<Sample>>)
    ensures |r| == |segs|
  {
    seq(|segs|, i requires 0 <= i < |segs| => segs[i].samples)
  }

  ghost function Covered(segs: seq<Segment>): seq<Sample> {
    Concat(Windows(segs))
  }

  lemma CoveredSnoc(segs: seq<Segment>, s: Segment)
    ensures Covered(segs + [s]) == Covered(segs) + s.samples
  {
    assert Windows(segs + [s]) == Windows(segs) + [s.samples];
    ConcatStep(Windows(segs), s.samples);
  }

  /** Nothing is lost and nothing is counted twice, failed transactions included: the
      committed windows followed by what is still in flight are the log. */
  lemma {:induction false} Partition(c: Config, calls: seq<Call>)
    requires c.flushInterval > 0
    ensures Covered(Segments(c, calls)) + Pending(c, calls) == Log(c, calls)
  {
    if calls == [] {
      NothingLogged(c);
    } else {
      hide Covered, Segments, Pending, Log, Allowed, FlushedLast;
      var p, call := calls[..|calls| - 1], calls[|calls| - 1];
      var allowed := Allowed(c.metrics, call.samples);
      Partition(c, p);
      OneMoreCall(c, calls);
      Reassociate(Covered(Segments(c, p)), Pending(c, p), allowed);
      if FlushedLast(c, calls) {
        CoveredSnoc(Segments(c, p), Segment(Truncate(call.now, c.flushInterval), Pending(c, p) + allowed));
      }
    }
  }

  lemma NothingLogged(c: Config)
    requires c.flushInterval > 0
    ensures Covered(Segments(c, [])) == Pending(c, []) == Log(c, []) == []
  {}

  lemma OneMoreCall(c: Config, calls: seq<Call>)
    requires c.flushInterval > 0 && calls != []
    ensures var p, call := calls[..|calls| - 1], calls[|calls| - 1];
            var window := Pending(c, p) + Allowed(c.metrics, call.samples);
            && Log(c, calls) == Log(c, p) + Allowed(c.metrics, call.samples)
            && Pending(c, calls) == (if FlushedLast(c, calls) then [] else window)
            && Segments(c, calls) == (if FlushedLast(c, calls)
                                      then Segments(c, p) + [Segment(Truncate(call.now, c.flushInterval), window)]
                                      else Segments(c, p))
  {
    hide FlushedLast, Allowed;
    assert Segments(c, calls[..|calls| - 1]) + [] == Segments(c, calls[..|calls| - 1]);
  }

  lemma Reassociate<T>(a: seq<T>, b: seq<T>, c: seq<T>)
    ensures a + (b + c) == a + b + c && a + (b + c) + [] == a + b + c
  {}

  // ----- the accumulators hold what is pending -----

  /** The values of one series in a list of samples. */
  ghost function Values(samples: seq<Sample>, key: string): seq<real> {
    if samples == [] then []
    else
      var s := samples[|samples| - 1];
      Values(samples[..|samples| - 1], key) + if KeyOf(IdOf(s)) == key then [s.value] else []
  }

  ghost function Sum(vs: seq<real>): real {
    if vs == [] then 0.0 else Sum(vs[..|vs| - 1]) + vs[|vs| - 1]
  }

  ghost function Mean(vs: seq<real>): real
    requires vs != []
  { Sum(vs) / |vs| as real }

  ghost predicate AccShows(acc: map<string, Acc>, log: seq<Sample>) {
    && (forall k :: k in acc <==> Values(log, k) != [])
    && (forall k :: k in acc ==> acc[k] == Acc(Sum(Values(log, k)), |Values(log, k)|))
  }

  lemma ValuesSnoc(log: seq<Sample>, s: Sample, key: string)
    ensures Values(log + [s], key) == if KeyOf(IdOf(s)) == key then Values(log, key) + [s.value] else Values(log, key)
  {
    assert (log + [s])[..|log|] == log;
  }

  lemma ValuesSumSnoc(a: seq<Sample>, b: seq<Sample>, s: Sample, key: string)
    requires Values(a + b, key) == Values(a, key) + Values(b, key)
    ensures Values(a + b + [s], key) == Values(a, key) + Values(b + [s], key)
  {
    hide Values, KeyOf;
    ValuesSnoc(a + b, s, key);
    ValuesSnoc(b, s, key);
    Reassociate(Values(a, key), Values(b, key), [s.value]);
  }

  lemma {:induction false} ValuesSum(a: seq<Sample>, b: seq<Sample>, key: string)
    ensures Values(a + b, key) == Values(a, key) + Values(b, key)
  {
    hide *;
    if b == [] {
      NoValues(key);
      assert a + b == a && Values(a, key) + [] == Values(a, key);
    } else {
      var p, s := b[..|b| - 1], b[|b| - 1];
      ValuesSum(a, p, key);
      ValuesSumSnoc(a, p, s, key);
      assert b == p + [s];
      Reassociate(a, p, [s]);
    }
  }

  lemma NoValues(key: string)
    ensures Values([], key) == []
  {}

  lemma SumSnoc(vs: seq<real>, v: real)
    ensures Sum(vs + [v]) == Sum(vs) + v
  {
    assert (vs + [v])[..|vs|] == vs;
  }

  lemma FoldOne(acc: map<string, Acc>, log: seq<Sample>, s: Sample)
    requires AccShows(acc, log)
    ensures var key := KeyOf(IdOf(s));
            AccShows(acc[key := Acc(AccIn(acc, key).sum + s.value, AccIn(acc, key).count + 1)], log + [s])
  {
    hide KeyOf, Values, Sum;
    var key := KeyOf(IdOf(s));
    forall k { ValuesSnoc(log, s, k); }
    SumSnoc(Values(log, key), s.value);
    SumOfNone();
  }

  lemma SumOfNone()
    ensures Sum([]) == 0.0
  {}

  lemma {:induction false} FoldShows(metrics: set<string>, acc: map<string, Acc>, log: seq<Sample>,
                                     samples: seq<Sample>)
    requires AccShows(acc, log)
    ensures AccShows(Fold(metrics, acc, samples), log + Allowed(metrics, samples))
  {
    hide AccShows, KeyOf;
    if samples == [] {
      assert log + Allowed(metrics, samples) == log;
    } else {
      var p, s := samples[..|samples| - 1], samples[|samples| - 1];
      FoldShows(metrics, acc, log, p);
      FoldOne(Fold(metrics, acc, p), log + Allowed(metrics, p), s);
      if s.metric in metrics {
        assert log + Allowed(metrics, samples) == log + Allowed(metrics, p) + [s];
      } else {
        assert Allowed(metrics, samples) == Allowed(metrics, p);
      }
    }
  }

  /** The in-flight accumulators are exactly the sums and counts of the pending samples. */
  lemma {:induction false} InFlight(c: Config, db0: map<string, Bucket>, calls: seq<Call>)
    requires c.flushInterval > 0 && (calls != [] ==> calls[0].now >= 0)
    ensures AccShows(Run(c, db0, calls).acc, Pending(c, calls))
  {
    hide Fold, FlushDb, AccShows, LastPassed, Opened, Allowed;
    if calls == [] {
      NothingPending();
    } else {
      var p, call := calls[..|calls| - 1], calls[|calls| - 1];
      assert p != [] ==> p[0] == calls[0];
      InFlight(c, db0, p);
      Boundaries(c, db0, calls);
      ClosingStampIsPositive(c, calls);
      FoldShows(c.metrics, Run(c, db0, p).acc, Pending(c, p), call.samples);
      NothingPending();
    }
  }

  lemma NothingPending()
    ensures AccShows(map[], [])
  {}

  lemma ClosingStampIsPositive(c: Config, calls: seq<Call>)
    requires c.flushInterval > 0 && calls != [] && calls[0].now >= 0
    ensures Closes(c.flushInterval, calls, |calls| - 1) ==>
              Truncate(calls[|calls| - 1].now, c.flushInterval) >=
              Truncate(calls[0].now, c.flushInterval) + c.flushInterval > 0
  {
    var f, now := c.flushInterval, calls[|calls| - 1].now;
    if Closes(f, calls, |calls| - 1) {
      TruncateOrder(calls[0].now, now, f);
      Quotient(calls[0].now, f);
    }
  }
}
