/** Series that fall silent: the store prunes a series only when that series is flushed, so what
    the clock says about retention holds exactly under a condition on the series' own points. */
module HistorySilence {
  import opened Text
  import opened Hardware
  import opened SeriesKeys
  import opened Timestamps
  import opened Bolt
  import opened History
  import opened HistoryRuns
  import opened HistoryStored
  import opened HistoryLaws

  /** The series' own last flush did not prune this point: it lies at or after that flush's
      cutoff, or the cutoff was before the epoch and nothing was pruned. */
  ghost predicate SparedBy(retention: int, last: Time, p: Point) {
    last - retention < EPOCH || Unix(last - retention) <= Unix(p.at)
  }

  /** Something older than the clock's retention is still in the bucket. */
  ghost predicate HoldsOld(b: Bucket, cutoff: Time) {
    exists e :: e in b && Less(e.key, Encode(cutoff))
  }

  /** Some mean of the series lies between its own cutoff and the clock's. */
  ghost predicate LeftBehind(retention: int, ps: seq<Point>, cutoff: Time) {
    exists p :: p in ps && SparedBy(retention, ps[|ps| - 1].at, p) && Unix(p.at) < Unix(cutoff)
  }

  /** So does some pair the file held at the start; with no flush since, nothing pruned it. */
  ghost predicate LeftInFile(retention: int, initial: Bucket, ps: seq<Point>, cutoff: Time) {
    exists e :: e in initial && Less(e.key, Encode(cutoff)) && (ps == [] || Outlives(retention, ps[|ps| - 1].at, e))
  }

  ghost predicate Outlives(retention: int, last: Time, e: Entry) {
    last - retention < EPOCH || !Less(e.key, Encode(last - retention))
  }

  lemma RetainMembers(retention: int, whole: Bucket, last: Time)
    ensures forall e :: e in Retain(retention, whole, last) <==> e in whole && Outlives(retention, last, e)
  {
    hide Less, Encode;
    if last - retention >= EPOCH {
      FromMembers(whole, Encode(last - retention));
    }
  }

  /** On the series' own points, key order says what the clock says. */
  lemma EntryOfPoint(retention: int, p: Point, last: Time, cutoff: Time)
    requires retention >= 0 && Storable(p.at) && Storable(last) && Storable(cutoff)
    ensures var e := Entry(Encode(p.at), p.value);
            && (Outlives(retention, last, e) <==> SparedBy(retention, last, p))
            && (Less(e.key, Encode(cutoff)) <==> Unix(p.at) < Unix(cutoff))
  {
    hide Less, Encode, Unix;
    EncodeOrder(p.at, cutoff);
    if last - retention >= EPOCH {
      UnixOrder(last - retention, last);
      UnixOrder(last - retention, last - retention);
      EncodeOrder(p.at, last - retention);
    }
  }

  lemma OldInExpected(retention: int, initial: Bucket, ps: seq<Point>, cutoff: Time)
    requires retention >= 0 && Storable(cutoff) && InKeyOrder(initial, ps)
    ensures HoldsOld(Expected(retention, initial, ps), cutoff) <==>
            LeftBehind(retention, ps, cutoff) || LeftInFile(retention, initial, ps, cutoff)
  {
    hide Less, Encode, Unix, Retain, Outlives, SparedBy;
    if ps != [] {
      var b, last := EntriesOf(ps), ps[|ps| - 1].at;
      forall i | 0 <= i < |ps|
        ensures Outlives(retention, last, b[i]) <==> SparedBy(retention, last, ps[i])
        ensures Less(b[i].key, Encode(cutoff)) <==> Unix(ps[i].at) < Unix(cutoff)
      {
        EntryOfPoint(retention, ps[i], last, cutoff);
      }
      assert Matched(retention, ps, cutoff);
      if HoldsOld(Expected(retention, initial, ps), cutoff) { OldOneWay(retention, initial, ps, cutoff); }
      if LeftBehind(retention, ps, cutoff) || LeftInFile(retention, initial, ps, cutoff) {
        OldOtherWay(retention, initial, ps, cutoff);
      }
    }
  }

  /** Entries and points of ps match, one for one. */
  ghost predicate Matched(retention: int, ps: seq<Point>, cutoff: Time) {
    ps != [] && forall i :: 0 <= i < |ps| ==>
      && (Outlives(retention, ps[|ps| - 1].at, EntriesOf(ps)[i]) <==> SparedBy(retention, ps[|ps| - 1].at, ps[i]))
      && (Less(EntriesOf(ps)[i].key, Encode(cutoff)) <==> Unix(ps[i].at) < Unix(cutoff))
  }

  lemma OldOneWay(retention: int, initial: Bucket, ps: seq<Point>, cutoff: Time)
    requires Matched(retention, ps, cutoff) && HoldsOld(Expected(retention, initial, ps), cutoff)
    ensures LeftBehind(retention, ps, cutoff) || LeftInFile(retention, initial, ps, cutoff)
  {
    hide Less, Encode, Unix, Retain, Outlives, SparedBy;
    RetainMembers(retention, initial + EntriesOf(ps), ps[|ps| - 1].at);
    var e :| e in Expected(retention, initial, ps) && Less(e.key, Encode(cutoff));
    if e !in initial {
      var i :| 0 <= i < |ps| && EntriesOf(ps)[i] == e;
      assert ps[i] in ps;
    }
  }

  lemma OldOtherWay(retention: int, initial: Bucket, ps: seq<Point>, cutoff: Time)
    requires Matched(retention, ps, cutoff)
    requires LeftBehind(retention, ps, cutoff) || LeftInFile(retention, initial, ps, cutoff)
    ensures HoldsOld(Expected(retention, initial, ps), cutoff)
  {
    hide Less, Encode, Unix, Retain, Outlives, SparedBy;
    var b, last := EntriesOf(ps), ps[|ps| - 1].at;
    RetainMembers(retention, initial + b, last);
    if LeftInFile(retention, initial, ps, cutoff) {
      var e :| e in initial && Less(e.key, Encode(cutoff)) && Outlives(retention, last, e);
      assert e in initial + b;
    } else {
      var p :| p in ps && SparedBy(retention, last, p) && Unix(p.at) < Unix(cutoff);
      var i :| 0 <= i < |ps| && ps[i] == p;
      assert b[i] in initial + b;
    }
  }

  /** At any instant ts, and whatever the file held at the start, the bucket of a series holds
      something older than ts - retention exactly when one of its window means, or of the pairs
      it started with, lies between the series' own last cutoff and that one. */
  lemma ClockRetentionIff(c: Config, db0: map<string, Bucket>, calls: seq<Call>, key: string, ts: Time)
    requires Setting(c, db0, calls) && Storable(ts - c.retention)
    ensures var ps, cutoff := Points(Segments(c, calls), key), ts - c.retention;
            HoldsOld(BucketIn(Run(c, db0, calls).db, key), cutoff) <==>
            LeftBehind(c.retention, ps, cutoff) || LeftInFile(c.retention, BucketIn(db0, key), ps, cutoff)
  {
    hide Run, Segments, Points, Expected, HoldsOld, LeftBehind, LeftInFile, Unix;
    FileAgreesWithLog(c, db0, calls);
    PointsInKeyOrder(c, db0, calls, key);
    OldInExpected(c.retention, BucketIn(db0, key), Points(Segments(c, calls), key), ts - c.retention);
  }

  /** A series flushed at ts itself holds nothing old. */
  lemma FlushedSeriesIsClean(c: Config, db0: map<string, Bucket>, calls: seq<Call>, key: string, ts: Time)
    requires Setting(c, db0, calls) && Storable(ts - c.retention)
    requires var ps := Points(Segments(c, calls), key); ps != [] && ps[|ps| - 1].at == ts
    ensures !HoldsOld(BucketIn(Run(c, db0, calls).db, key), ts - c.retention)
  {
    hide Run, Segments, Points, HoldsOld, Setting, Less, Encode;
    ClockRetentionIff(c, db0, calls, key, ts);
    UnixOrder(ts - c.retention, ts - c.retention);
  }

  // ----- a silent series -----

  function Talking(metric: string): Sample { TriggerSample(metric).(device := "x") }

  lemma DifferentSeries(metric: string)
    ensures KeyOf(IdOf(TriggerSample(metric))) != KeyOf(IdOf(Talking(metric)))
  {
    PlainKey(IdOf(TriggerSample(metric)));
    PlainKey(IdOf(Talking(metric)));
    hide KeyOf;
    assert |KeyOf(IdOf(TriggerSample(metric)))| + 1 == |KeyOf(IdOf(Talking(metric)))|;
  }

  lemma PlainKey(id: SeriesId)
    requires id.labels == map[]
    ensures KeyOf(id) == id.metric + [NUL] + id.node + [NUL] + id.tier + [NUL] + id.device
  {
    hide Join;
    var names := Sorted(id.labels.Keys);
    SortedUnique(names, []);
    assert [id.metric, id.node, id.tier, id.device] + [] == [id.metric, id.node, id.tier, id.device];
    JoinOfFour(id.metric, id.node, id.tier, id.device);
  }

  /** An aligned start after the epoch, and a whole number of intervals that outlasts retention. */
  lemma LongEnough(f: int, retention: int) returns (start: Time, end: Time)
    requires SECOND <= f < TWO63 && 0 <= retention < TWO63
    ensures EPOCH <= start && Truncate(start, f) == start && Truncate(start + f, f) == start + f
    ensures Truncate(end, f) == end && start + f + retention + SECOND <= end < EPOCH + TWO63 * SECOND
  {
    var k, n := EPOCH / f + 1, (retention + SECOND) / f + 1;
    start, end := k * f, (k + 1 + n) * f;
    Quotient(EPOCH, f);
    Quotient(retention + SECOND, f);
    NextMultiple(EPOCH / f, f);
    NextMultiple((retention + SECOND) / f, f);
    NextMultiple(k, f);
    Multiple(k, f);
    Multiple(k + 1, f);
    Multiple(k + 1 + n, f);
    Times(k + 1, n, f);
  }

  lemma Times(a: int, b: int, f: int)
    ensures (a + b) * f == a * f + b * f
  {}

  /** Whatever the interval and the retention: a series sampled only in the first window keeps
      its point on disk, though another series flushes more than retention later. */
  lemma SilentSeriesKeepsOldPoints(c: Config, metric: string) returns (calls: seq<Call>, ts: Time)
    requires SECOND <= c.flushInterval < TWO63 && 0 <= c.retention < TWO63 && metric in c.metrics
    ensures Setting(c, map[], calls) && calls != [] && FlushedLast(c, calls)
    ensures ts == Truncate(calls[|calls| - 1].now, c.flushInterval) && Storable(ts - c.retention)
    ensures HoldsOld(BucketIn(Run(c, map[], calls).db, KeyOf(IdOf(TriggerSample(metric)))), ts - c.retention)
  {
    hide Values, Allowed, KeyOf, Run, Segments, Points, Unix, Encode, Pending, Mean, Less, HoldsOld, Truncate;
    var f, s, key := c.flushInterval, TriggerSample(metric), KeyOf(IdOf(TriggerSample(metric)));
    var start, end := LongEnough(f, c.retention);
    var one := [Call([s], start, true)];
    var two := one + [Call([], start + f, true)];
    calls, ts := two + [Call([Talking(metric)], end, true)], end;
    assert two[..1] == one && calls[..2] == two;
    UnixOrder(start + f, ts - c.retention);
    UnixOrder(ts - c.retention, ts);
    SilentRun(c, metric, one, two, calls);
    ClockRetentionIff(c, map[], calls, key, ts);
    var ps := Points(Segments(c, calls), key);
    UnixOrder(start + f - c.retention, start + f);
    assert ps[0] in ps && SparedBy(c.retention, ps[|ps| - 1].at, ps[0]);
  }

  lemma SilentRun(c: Config, metric: string, one: seq<Call>, two: seq<Call>, calls: seq<Call>)
    requires c.flushInterval > 0 && metric in c.metrics
    requires |one| == 1 && |two| == 2 && |calls| == 3 && two[..1] == one && calls[..2] == two
    requires one[0].samples == [TriggerSample(metric)] && two[1].samples == [] && calls[2].samples == [Talking(metric)]
    requires one[0].now >= 0 && FlushedLast(c, two) && FlushedLast(c, calls)
    ensures var ps := Points(Segments(c, calls), KeyOf(IdOf(TriggerSample(metric))));
            |ps| == 1 && ps[0].at == Truncate(two[1].now, c.flushInterval)
  {
    hide Values, KeyOf, Segments, Points, Mean, Truncate, FlushedLast;
    var s, key := TriggerSample(metric), KeyOf(IdOf(TriggerSample(metric)));
    NotFlushedFirst(c, one);
    FirstCallStoresNothing(c, one, key);
    OneSample(c.metrics, s);
    OneSample(c.metrics, Talking(metric));
    OneMoreCall(c, one);
    OneMoreCall(c, two);
    OneMoreCall(c, calls);
    assert one[..0] == [] && Pending(c, []) == [];
    assert [] + [s] == [s] && [s] + Allowed(c.metrics, []) == [s] && [] + [Talking(metric)] == [Talking(metric)];
    NoValues(key);
    ValuesSnoc([], s, key);
    ValuesSnoc([], Talking(metric), key);
    DifferentSeries(metric);
    PointsSnoc(Segments(c, one), Segment(Truncate(two[1].now, c.flushInterval), [s]), key);
    PointsSnoc(Segments(c, two), Segment(Truncate(calls[2].now, c.flushInterval), [Talking(metric)]), key);
  }

  lemma NotFlushedFirst(c: Config, one: seq<Call>)
    requires c.flushInterval > 0 && |one| == 1
    ensures !FlushedLast(c, one)
  {}

  lemma OneSample(metrics: set<string>, s: Sample)
    requires s.metric in metrics
    ensures Allowed(metrics, [s]) == [s]
  {
    assert [s][..0] == [];
  }
}
