/** Consequences of the agreement between file and log: a fresh file in plain terms,
    conservation per series, and the exact condition for never overwriting a point. */
module HistoryLaws {
  import opened Sequences
  import opened Hardware
  import opened SeriesKeys
  import opened Timestamps
  import opened Bolt
  import opened History
  import opened HistoryRuns
  import opened HistoryStored

  // ----- what the log, its sums and its means are -----

  /** The log takes each sample by itself: an allowlisted one is in, any other is out. */
  lemma {:induction false} AllowedMeaning(metrics: set<string>, a: seq<Sample>, b: seq<Sample>, s: Sample)
    ensures Allowed(metrics, a + b) == Allowed(metrics, a) + Allowed(metrics, b)
    ensures Allowed(metrics, [s]) == if s.metric in metrics then [s] else []
  {
    hide Allowed;
    AllowedNothing(metrics);
    AllowedSnoc(metrics, [], s);
    assert [] + [s] == [s];
    if b == [] {
      assert a + b == a && Allowed(metrics, a) + [] == Allowed(metrics, a);
    } else {
      var p, last := b[..|b| - 1], b[|b| - 1];
      AllowedMeaning(metrics, a, p, s);
      AllowedSnoc(metrics, a + p, last);
      AllowedSnoc(metrics, p, last);
      assert a + b == a + p + [last] && b == p + [last];
    }
  }

  lemma AllowedNothing(metrics: set<string>)
    ensures Allowed(metrics, []) == []
  {}

  lemma AllowedSnoc(metrics: set<string>, a: seq<Sample>, s: Sample)
    ensures Allowed(metrics, a + [s]) == Allowed(metrics, a) + if s.metric in metrics then [s] else []
  {
    assert (a + [s])[..|a|] == a;
  }

  lemma {:induction false} SumMeaning(a: seq<real>, b: seq<real>, v: real)
    ensures Sum(a + b) == Sum(a) + Sum(b) && Sum([v]) == v
  {
    hide Sum;
    SumOfNone();
    SumSnoc([], v);
    assert [] + [v] == [v];
    if b == [] {
      assert a + b == a;
    } else {
      var p, last := b[..|b| - 1], b[|b| - 1];
      SumMeaning(a, p, v);
      SumSnoc(a + p, last);
      SumSnoc(p, last);
      assert a + b == a + p + [last] && b == p + [last];
    }
  }

  lemma {:induction false} SumBetween(vs: seq<real>, lo: real, hi: real)
    requires forall i :: 0 <= i < |vs| ==> lo <= vs[i] <= hi
    ensures lo * |vs| as real <= Sum(vs) <= hi * |vs| as real
  {
    if vs != [] {
      SumBetween(vs[..|vs| - 1], lo, hi);
      assert |vs| as real == (|vs| - 1) as real + 1.0;
    }
  }

  /** A window's mean makes up its sum, and lies between any bounds on its values. */
  lemma MeanMeaning(vs: seq<real>, lo: real, hi: real)
    requires vs != [] && forall i :: 0 <= i < |vs| ==> lo <= vs[i] <= hi
    ensures Mean(vs) * |vs| as real == Sum(vs)
    ensures lo <= Mean(vs) <= hi
  {
    hide Sum;
    SumBetween(vs, lo, hi);
    var n := |vs| as real;
    Quotients(Sum(vs), n, lo, hi);
  }

  lemma Quotients(sum: real, n: real, lo: real, hi: real)
    requires n >= 1.0 && lo * n <= sum <= hi * n
    ensures sum / n * n == sum && lo <= sum / n <= hi
  {
    var m := sum / n;
    assert m * n == sum;
    TimesPositive(lo - m, n);
    TimesPositive(m - hi, n);
  }

  lemma TimesPositive(d: real, n: real)
    requires n >= 1.0
    ensures d > 0.0 ==> d * n > 0.0
  {}

  // ----- conservation, series by series -----

  ghost function WindowValues(segs: seq<Segment>, key: string): seq<seq<real>> {
    if segs == [] then []
    else
      var vs := Values(segs[|segs| - 1].samples, key);
      WindowValues(segs[..|segs| - 1], key) + if vs == [] then [] else [vs]
  }

  lemma WindowSnoc(segs: seq<Segment>, seg: Segment, key: string)
    ensures Concat(WindowValues(segs + [seg], key)) == Concat(WindowValues(segs, key)) + Values(seg.samples, key)
  {
    hide Values;
    assert (segs + [seg])[..|segs|] == segs;
    var vs := Values(seg.samples, key);
    if vs == [] {
      assert WindowValues(segs + [seg], key) == WindowValues(segs, key);
    } else {
      ConcatStep(WindowValues(segs, key), vs);
    }
  }

  lemma {:induction false} CoveredValues(segs: seq<Segment>, key: string)
    ensures Values(Covered(segs), key) == Concat(WindowValues(segs, key))
  {
    hide Values, Covered, WindowValues, Concat;
    if segs == [] {
      NothingCovered(key);
    } else {
      var p, seg := segs[..|segs| - 1], segs[|segs| - 1];
      CoveredValues(p, key);
      ValuesSum(Covered(p), seg.samples, key);
      CoveredSnoc(p, seg);
      WindowSnoc(p, seg, key);
      assert segs == p + [seg];
    }
  }

  lemma NothingCovered(key: string)
    ensures Values(Covered([]), key) == Concat(WindowValues([], key)) == []
  {}

  /** The means on record are those of the series' windows, in order. */
  lemma {:induction false} PointsAreMeans(segs: seq<Segment>, key: string)
    ensures |Points(segs, key)| == |WindowValues(segs, key)|
    ensures forall i :: 0 <= i < |Points(segs, key)| ==>
              WindowValues(segs, key)[i] != [] && Points(segs, key)[i].value == Mean(WindowValues(segs, key)[i])
  {
    if segs != [] {
      PointsAreMeans(segs[..|segs| - 1], key);
    }
  }

  /** Each series' values, in the order given, are the values behind its means one after the
      other, then those behind its accumulator: every value is in exactly one place. */
  lemma ValuesConserved(c: Config, db0: map<string, Bucket>, calls: seq<Call>, key: string)
    requires c.flushInterval > 0 && (calls != [] ==> calls[0].now >= 0)
    ensures var windows, acc := WindowValues(Segments(c, calls), key), AccIn(Run(c, db0, calls).acc, key);
            var pending := Values(Pending(c, calls), key);
            && Values(Log(c, calls), key) == Concat(windows) + pending
            && acc == Acc(Sum(pending), |pending|)
            && |Points(Segments(c, calls), key)| == |windows|
            && forall i :: 0 <= i < |windows| ==>
                 windows[i] != [] && Points(Segments(c, calls), key)[i].value == Mean(windows[i])
  {
    Partition(c, calls);
    CoveredValues(Segments(c, calls), key);
    ValuesSum(Covered(Segments(c, calls)), Pending(c, calls), key);
    PointsAreMeans(Segments(c, calls), key);
    InFlight(c, db0, calls);
    SumOfNone();
  }

  // ----- a fresh file -----

  ghost function Survivors(ps: seq<Point>, cutoff: Time): seq<Point> {
    if ps == [] then []
    else (if Unix(ps[0].at) < Unix(cutoff) then [] else [ps[0]]) + Survivors(ps[1..], cutoff)
  }

  lemma {:induction false} SurvivorsMembers(ps: seq<Point>, cutoff: Time)
    ensures forall p :: p in Survivors(ps, cutoff) <==> p in ps && Unix(cutoff) <= Unix(p.at)
  {
    hide Unix;
    if ps != [] {
      SurvivorsMembers(ps[1..], cutoff);
      assert forall p :: p in ps <==> p == ps[0] || p in ps[1..];
    }
  }

  /** The points within retention of the series' own latest point, by whole seconds; all of
      them while that reaches back before the epoch. */
  ghost function Kept(retention: int, ps: seq<Point>): seq<Point> {
    if ps == [] then []
    else
      var cutoff := ps[|ps| - 1].at - retention;
      if cutoff >= EPOCH then Survivors(ps, cutoff) else ps
  }

  lemma {:induction false} FromIsSurvivors(ps: seq<Point>, cutoff: Time)
    requires Storable(cutoff) && forall i :: 0 <= i < |ps| ==> Storable(ps[i].at)
    ensures From(EntriesOf(ps), Encode(cutoff)) == EntriesOf(Survivors(ps, cutoff))
  {
    hide Encode, Unix, EntriesOf;
    if ps == [] {
      assert EntriesOf(ps) == [];
    } else {
      var b, rest := EntriesOf(ps), EntriesOf(ps[1..]);
      assert b[1..] == rest;
      assert forall i :: 0 <= i < |ps| - 1 ==> ps[1..][i] == ps[i + 1];
      FromIsSurvivors(ps[1..], cutoff);
      EncodeOrder(ps[0].at, cutoff);
      var p, left := ps[0], Survivors(ps[1..], cutoff);
      assert EntriesOf([p] + left) == [Entry(Encode(p.at), p.value)] + EntriesOf(left);
      assert [] + left == left && [] + EntriesOf(left) == EntriesOf(left);
    }
  }

  /** The point just written always survives its own prune. */
  lemma {:induction false} NewestSurvives(ps: seq<Point>, cutoff: Time)
    requires ps != [] && cutoff <= ps[|ps| - 1].at
    ensures Survivors(ps, cutoff) != []
    ensures Survivors(ps, cutoff)[|Survivors(ps, cutoff)| - 1] == ps[|ps| - 1]
  {
    UnixOrder(cutoff, ps[|ps| - 1].at);
    if |ps| > 1 {
      NewestSurvives(ps[1..], cutoff);
    }
  }

  lemma NewestIsKept(retention: int, ps: seq<Point>)
    requires retention >= 0 && ps != []
    ensures Kept(retention, ps) != [] && Kept(retention, ps)[|Kept(retention, ps)| - 1] == ps[|ps| - 1]
  {
    if ps[|ps| - 1].at - retention >= EPOCH {
      NewestSurvives(ps, ps[|ps| - 1].at - retention);
    }
  }

  lemma PointsStorable(c: Config, calls: seq<Call>, key: string)
    requires Setting(c, map[], calls) && calls != []
    ensures forall i :: 0 <= i < |Points(Segments(c, calls), key)| ==> Storable(Points(Segments(c, calls), key)[i].at)
  {
    hide Points, Segments, Encode, Unix;
    PointsInKeyOrder(c, map[], calls, key);
  }

  lemma ExpectedFresh(retention: int, ps: seq<Point>)
    requires retention >= 0 && forall i :: 0 <= i < |ps| ==> Storable(ps[i].at)
    ensures Expected(retention, [], ps) == EntriesOf(Kept(retention, ps))
  {
    hide Encode, Unix, From, Survivors, EntriesOf;
    if ps != [] {
      assert [] + EntriesOf(ps) == EntriesOf(ps);
      var cutoff := ps[|ps| - 1].at - retention;
      if cutoff >= EPOCH {
        UnixOrder(cutoff, ps[|ps| - 1].at);
        UnixOrder(cutoff, cutoff);
        FromIsSurvivors(ps, cutoff);
      }
    }
  }

  /** Starting from an empty file, a series is on disk exactly when a committed flush covered
      it, and then its bucket holds its retained points, newest included. */
  lemma FreshFile(c: Config, calls: seq<Call>, key: string)
    requires Setting(c, map[], calls)
    ensures var db, ps := Run(c, map[], calls).db, Points(Segments(c, calls), key);
            && (key in db <==> ps != [])
            && BucketIn(db, key) == EntriesOf(Kept(c.retention, ps))
            && (ps != [] ==> Kept(c.retention, ps) != [])
  {
    hide Run, Segments, Points, Expected, Kept;
    var ps := Points(Segments(c, calls), key);
    FileAgreesWithLog(c, map[], calls);
    if calls == [] {
      NoSegments(c);
    } else {
      PointsStorable(c, calls, key);
    }
    ExpectedFresh(c.retention, ps);
    if ps != [] {
      NewestIsKept(c.retention, ps);
    }
  }

  // ----- overwriting -----

  /** After a run from an empty file, every retained point of the series is on disk. */
  ghost predicate NothingOverwritten(c: Config, calls: seq<Call>, key: string)
    requires c.flushInterval > 0
  {
    |BucketIn(Run(c, map[], calls).db, key)| == |Kept(c.retention, Points(Segments(c, calls), key))|
  }

  /** The clocks of Setting, for any flush interval. */
  ghost predicate SoundClocks(calls: seq<Call>) {
    && (calls != [] ==> calls[0].now >= EPOCH)
    && forall i :: 0 <= i < |calls| ==> calls[i].now < EPOCH + TWO63 * SECOND
  }

  lemma AtLeastASecondSuffices(c: Config, calls: seq<Call>, key: string)
    requires c.flushInterval >= SECOND && c.retention >= 0 && SoundClocks(calls)
    ensures NothingOverwritten(c, calls, key)
  {
    FreshFile(c, calls, key);
  }

  /** A committed flush, seen on one bucket. */
  lemma FlushedBucket(c: Config, calls: seq<Call>, key: string)
    requires c.flushInterval > 0 && calls != [] && calls[0].now >= 0 && FlushedLast(c, calls)
    requires Values(Pending(c, calls[..|calls| - 1]) + Allowed(c.metrics, calls[|calls| - 1].samples), key) != []
    ensures var p, call := calls[..|calls| - 1], calls[|calls| - 1];
            var ts := Truncate(call.now, c.flushInterval);
            var vs := Values(Pending(c, p) + Allowed(c.metrics, call.samples), key);
            && BucketIn(Run(c, map[], calls).db, key) ==
               FlushBucket(c.retention, BucketIn(Run(c, map[], p).db, key), Mean(vs), ts)
            && Points(Segments(c, calls), key) == Points(Segments(c, p), key) + [Point(ts, Mean(vs))]
  {
    hide Fold, AccShows, LastPassed, Opened, Closes, Values, Allowed, FlushBucket, Mean, Points;
    var p, call := calls[..|calls| - 1], calls[|calls| - 1];
    assert p != [] ==> p[0] == calls[0];
    Boundaries(c, map[], calls);
    ClosingStampIsPositive(c, calls);
    InFlight(c, map[], p);
    FoldShows(c.metrics, Run(c, map[], p).acc, Pending(c, p), call.samples);
    var window := Pending(c, p) + Allowed(c.metrics, call.samples);
    var folded := Fold(c.metrics, Run(c, map[], p).acc, call.samples);
    ActiveMeaning(folded, window, key);
    PointsSnoc(Segments(c, p), Segment(Truncate(call.now, c.flushInterval), window), key);
  }

  /** A boundary on a whole second, less than a second before the next one. */
  lemma AlignedBoundary(f: int) returns (t: Time)
    requires 0 < f < SECOND
    ensures EPOCH + f <= t <= EPOCH + 2 * SECOND * SECOND
    ensures Truncate(t - f, f) == t - f && Truncate(t, f) == t && Truncate(t + f, f) == t + f
    ensures Unix(t) == Unix(t + f) && Storable(t) && Storable(t + f)
  {
    var p := SECOND * f;
    var m := EPOCH / p + 2;
    t := p * m;
    assert EPOCH == p * (EPOCH / p) + EPOCH % p;
    assert p * m == p * (EPOCH / p) + 2 * p;
    Multiple(SECOND * m, f);
    Multiple(SECOND * m - 1, f);
    Multiple(SECOND * m + 1, f);
    assert t == (SECOND * m) * f && t - f == (SECOND * m - 1) * f && t + f == (SECOND * m + 1) * f;
    assert t == SECOND * (f * m);
    WholeSecond(f * m, f);
  }

  lemma Multiple(k: int, f: int)
    requires f > 0
    ensures Truncate(k * f, f) == k * f
  {
    Quotient(k * f, f);
    DivBetween(k * f, f, k);
  }

  lemma WholeSecond(s: int, f: int)
    requires 0 < f < SECOND
    ensures Unix(SECOND * s) == s - 62_135_596_800 == Unix(SECOND * s + f)
  {}

  lemma FlushOnOwnKey(retention: int, b: Bucket, mean: real, ts: Time)
    requires retention >= 0 && Storable(ts)
    requires b == [] || (|b| == 1 && b[0].key == Encode(ts))
    ensures FlushBucket(retention, b, mean, ts) == [Entry(Encode(ts), mean)]
  {
    hide Encode, Unix;
    var written := Put(b, Encode(ts), mean);
    assert written == [Entry(Encode(ts), mean)];
    if ts - retention >= EPOCH {
      UnixOrder(ts - retention, ts);
      UnixOrder(ts - retention, ts - retention);
      EncodeOrder(ts, ts - retention);
      FromOne(Entry(Encode(ts), mean), Encode(ts - retention));
    }
  }

  function TriggerSample(metric: string): Sample { Sample("", "", "", metric, 1.0, map[], 0) }

  lemma OneAllowed(metrics: set<string>, before: seq<Sample>, metric: string)
    requires metric in metrics
    ensures var s := TriggerSample(metric); Values(before + Allowed(metrics, [s]), KeyOf(IdOf(s))) != []
  {
    var s := TriggerSample(metric);
    assert [s][..0] == [];
    assert Allowed(metrics, [s]) == [s];
    ValuesSnoc(before, s, KeyOf(IdOf(s)));
  }

  /** Below one second: two flushes fall into one second and the second overwrites the first. */
  lemma SubSecondOverwrites(c: Config, metric: string) returns (calls: seq<Call>)
    requires 0 < c.flushInterval < SECOND && c.retention >= 0 && metric in c.metrics
    ensures SoundClocks(calls) && !NothingOverwritten(c, calls, KeyOf(IdOf(TriggerSample(metric))))
  {
    hide Values, Allowed, KeyOf, Run, Segments, Points, FlushBucket, Unix, Encode, Pending, Mean;
    var f := c.flushInterval;
    var t := AlignedBoundary(f);
    var s := TriggerSample(metric);
    var key := KeyOf(IdOf(s));
    var one := [Call([s], t - f, true)];
    var two := one + [Call([s], t, true)];
    calls := two + [Call([s], t + f, true)];
    assert two[..1] == one && calls[..2] == two;
    FirstCallStoresNothing(c, one, key);
    OneAllowed(c.metrics, Pending(c, one), metric);
    FlushedBucket(c, two, key);
    OneAllowed(c.metrics, Pending(c, two), metric);
    FlushedBucket(c, calls, key);
    var m1 := Mean(Values(Pending(c, one) + Allowed(c.metrics, [s]), key));
    var m2 := Mean(Values(Pending(c, two) + Allowed(c.metrics, [s]), key));
    SameSecondSameKey(t, f);
    FlushOnOwnKey(c.retention, [], m1, t);
    FlushOnOwnKey(c.retention, [Entry(Encode(t), m1)], m2, t + f);
    BothKept(c.retention, Point(t, m1), Point(t + f, m2));
    assert [] + [Point(t, m1)] + [Point(t + f, m2)] == [Point(t, m1), Point(t + f, m2)];
  }

  lemma FirstCallStoresNothing(c: Config, one: seq<Call>, key: string)
    requires c.flushInterval > 0 && |one| == 1 && one[0].now >= 0
    ensures BucketIn(Run(c, map[], one).db, key) == [] && Points(Segments(c, one), key) == []
  {
    Boundaries(c, map[], one);
    assert one[..0] == [];
  }

  lemma SameSecondSameKey(t: Time, f: int)
    requires Unix(t) == Unix(t + f)
    ensures Encode(t) == Encode(t + f)
  {}

  lemma BothKept(retention: int, p: Point, q: Point)
    requires retention >= 0 && Unix(p.at) == Unix(q.at)
    ensures |Kept(retention, [p, q])| == 2
  {
    var cutoff := q.at - retention;
    UnixOrder(cutoff, q.at);
    assert [p, q][1..] == [q] && [q][1..] == [];
    assert Survivors([q], cutoff) == [q];
    assert Survivors([p, q], cutoff) == [p] + [q];
  }

  /** Whatever the clocks do, no retained point is ever overwritten exactly when the flush
      interval is at least one second: the resolution of a stored key. */
  lemma NeverOverwritesIff(c: Config)
    requires c.flushInterval > 0 && c.retention >= 0 && c.metrics != {}
    ensures c.flushInterval >= SECOND <==>
            forall calls, key :: SoundClocks(calls) ==> NothingOverwritten(c, calls, key)
  {
    if c.flushInterval >= SECOND {
      forall calls, key | SoundClocks(calls) ensures NothingOverwritten(c, calls, key) {
        AtLeastASecondSuffices(c, calls, key);
      }
    } else {
      var metric :| metric in c.metrics;
      var calls := SubSecondOverwrites(c, metric);
    }
  }
}
