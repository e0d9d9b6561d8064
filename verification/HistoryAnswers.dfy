/** From ingested samples to query answers: the store's runs (internal/history/history.go,
    Ingest) composed with its queries (Query). */
module HistoryAnswers {
  import opened Text
  import opened Hardware
  import opened SeriesKeys
  import opened Timestamps
  import opened Bolt
  import opened History
  import opened HistoryRuns
  import opened HistoryStored
  import opened HistoryLaws
  import opened HistoryQuery

  /** No field of a sample ever given gets in the way of the key's separators. */
  ghost predicate CleanSamples(calls: seq<Call>) {
    forall i, s :: 0 <= i < |calls| && s in calls[i].samples ==> CleanFields(s)
  }

  lemma {:induction false} AllowedAreGiven(metrics: set<string>, samples: seq<Sample>)
    ensures forall s :: s in Allowed(metrics, samples) ==> s in samples && s.metric in metrics
  {
    if samples != [] {
      AllowedAreGiven(metrics, samples[..|samples| - 1]);
    }
  }

  /** Some call was given this sample, and its metric is on the allowlist. */
  ghost predicate Given(c: Config, calls: seq<Call>, s: Sample) {
    s.metric in c.metrics && exists i :: 0 <= i < |calls| && s in calls[i].samples
  }

  lemma {:induction false} LogIsGiven(c: Config, calls: seq<Call>)
    ensures forall s :: s in Log(c, calls) ==> Given(c, calls, s)
  {
    if calls != [] {
      var p, call := calls[..|calls| - 1], calls[|calls| - 1];
      LogIsGiven(c, p);
      AllowedAreGiven(c.metrics, call.samples);
      forall s | s in Log(c, calls) ensures Given(c, calls, s) {
        if s in Log(c, p) {
          var i :| 0 <= i < |p| && s in p[i].samples;
          assert calls[i] == p[i];
        } else {
          assert s in calls[|calls| - 1].samples;
        }
      }
    }
  }

  lemma LogIsClean(c: Config, calls: seq<Call>)
    requires CleanSamples(calls)
    ensures forall s :: s in Log(c, calls) ==> CleanFields(s) && WellFormed(IdOf(s))
  {
    hide Log;
    LogIsGiven(c, calls);
  }

  lemma {:induction false} ValueHasSample(samples: seq<Sample>, key: string) returns (s: Sample)
    requires Values(samples, key) != []
    ensures s in samples && KeyOf(IdOf(s)) == key
  {
    s := samples[|samples| - 1];
    if KeyOf(IdOf(s)) != key {
      s := ValueHasSample(samples[..|samples| - 1], key);
    }
  }

  lemma {:induction false} PointHasSample(segs: seq<Segment>, key: string) returns (s: Sample)
    requires Points(segs, key) != []
    ensures s in Covered(segs) && KeyOf(IdOf(s)) == key
  {
    hide Values, Mean, KeyOf, Covered;
    var p, seg := segs[..|segs| - 1], segs[|segs| - 1];
    CoveredSnoc(p, seg);
    assert segs == p + [seg];
    if Values(seg.samples, key) != [] {
      s := ValueHasSample(seg.samples, key);
    } else {
      s := PointHasSample(p, key);
    }
  }

  /** Bucket names come from samples that were ingested. */
  lemma StoredNamesAreGood(c: Config, calls: seq<Call>, key: string)
    requires Setting(c, map[], calls) && CleanSamples(calls) && key in Run(c, map[], calls).db
    ensures GoodName(key)
  {
    hide Run, Segments, Points, Kept, WellFormed, KeyOf, Parse, IsKey;
    FreshFile(c, calls, key);
    var s := PointHasSample(Segments(c, calls), key);
    Partition(c, calls);
    assert s in Covered(Segments(c, calls)) + Pending(c, calls);
    LogIsClean(c, calls);
    RoundTripIff(IdOf(s));
  }

  lemma FlushBucketInOrder(retention: int, b: Bucket, mean: real, ts: Time)
    requires InOrder(b)
    ensures InOrder(FlushBucket(retention, b, mean, ts))
  {
    PutMeaning(b, Encode(ts), mean);
    if ts - retention >= EPOCH {
      FromInOrder(Put(b, Encode(ts), mean), Encode(ts - retention));
    }
  }

  lemma {:induction false} RunInOrder(c: Config, db0: map<string, Bucket>, calls: seq<Call>)
    requires c.flushInterval > 0 && AllInOrder(db0)
    ensures AllInOrder(Run(c, db0, calls).db)
  {
    hide Fold, Opened, LastPassed, FlushBucket, InOrder, Encode;
    if calls != [] {
      var p, call := calls[..|calls| - 1], calls[|calls| - 1];
      RunInOrder(c, db0, p);
      var st := Run(c, db0, p);
      var acc := Fold(c.metrics, st.acc, call.samples);
      var ts := LastPassed(c.flushInterval, Opened(c.flushInterval, st.next, call.now), call.now);
      EmptyInOrder();
      forall k | k in FlushDb(c.retention, st.db, acc, ts) ensures InOrder(FlushDb(c.retention, st.db, acc, ts)[k]) {
        if k in Active(acc) {
          FlushBucketInOrder(c.retention, BucketIn(st.db, k), acc[k].sum / acc[k].count as real, ts);
        }
      }
    }
  }

  lemma EmptyInOrder()
    ensures InOrder([])
  {}

  /** Every name in the file can be parsed: it was there, or some sample printed to it. */
  lemma StoredNamesAreKeys(c: Config, db0: map<string, Bucket>, calls: seq<Call>, key: string)
    requires c.flushInterval > 0 && (calls != [] ==> calls[0].now >= 0)
    requires (forall n :: n in db0 ==> IsKey(n)) && key in Run(c, db0, calls).db
    ensures IsKey(key)
  {
    hide Run, Segments, Points, Replayed, KeyOf, IsKey;
    FileReplaysLog(c, db0, calls);
    if key !in db0 {
      var s := PointHasSample(Segments(c, calls), key);
      KeyIsKey(IdOf(s));
    }
  }

  lemma StoredBucketsAreGood(c: Config, db0: map<string, Bucket>, calls: seq<Call>, key: string)
    requires Setting(c, db0, calls) && (forall n :: n in db0 ==> GoodBucket(db0[n])) && key in Run(c, db0, calls).db
    ensures GoodBucket(Run(c, db0, calls).db[key])
  {
    hide Run, Segments, Points, Encode, Unix, GoodKey, InOrder, InKeyOrder, Expected;
    var ps := Points(Segments(c, calls), key);
    RunInOrder(c, db0, calls);
    FileAgreesWithLog(c, db0, calls);
    PointsInKeyOrder(c, db0, calls, key);
    ExpectedIsGood(c.retention, BucketIn(db0, key), ps);
  }

  lemma ExpectedIsGood(retention: int, initial: Bucket, ps: seq<Point>)
    requires InKeyOrder(initial, ps) && forall e :: e in initial ==> GoodKey(e.key)
    ensures forall e :: e in Expected(retention, initial, ps) ==> GoodKey(e.key)
  {
    hide Encode, Unix, GoodKey, From;
    forall i | 0 <= i < |ps| ensures GoodKey(Encode(ps[i].at)) { EncodedIsGood(ps[i].at); }
    var whole := initial + EntriesOf(ps);
    forall e | e in whole ensures GoodKey(e.key) {}
    if ps != [] && ps[|ps| - 1].at - retention >= EPOCH {
      FromMembers(whole, Encode(ps[|ps| - 1].at - retention));
    }
  }

  /** From samples to answers: after any run over any readable file, a query returns exactly the
      buckets of its metric that match the filter and were there at the start or are covered by
      a committed flush; and each with exactly what it should hold at or after `since`, to the
      second. */
  lemma QueryAfterRun(c: Config, db0: map<string, Bucket>, calls: seq<Call>, metric: string, since: Time,
                      filter: map<string, string>)
    requires Setting(c, db0, calls) && Readable(db0) && NulFree(metric) && IsInt64(Unix(since))
    ensures Readable(Run(c, db0, calls).db)
    ensures var db, segs := Run(c, db0, calls).db, Segments(c, calls);
            var out, hits := Answer(db, Sorted(db.Keys), metric, since, filter), Wanted(db, metric, filter);
            && StrictlySorted(hits) && |out| == |hits|
            && (forall n :: n in hits <==>
                  && (n in db0 || Points(segs, n) != [])
                  && IsKey(n) && Parse(n).metric == metric && Passes(Parse(n), filter))
            && forall i :: 0 <= i < |hits| ==>
                 && out[i].id == Parse(hits[i])
                 && var held := Decoded(Expected(c.retention, BucketIn(db0, hits[i]), Points(segs, hits[i])));
                    out[i].points == if Expressible(since) then PointsFrom(held, Unix(since)) else []
  {
    hide Run, Segments, Points, Expected, Parse, IsKey, Unix, Encode, GoodBucket, Answer, Wanted, Sorted, PointsFrom,
         Passes, StrictlySorted, Decoded;
    var db := Run(c, db0, calls).db;
    forall n | n in db ensures IsKey(n) && GoodBucket(db[n]) {
      StoredNamesAreKeys(c, db0, calls, n);
      StoredBucketsAreGood(c, db0, calls, n);
    }
    QueryMeaning(db, metric, since, filter);
    FileAgreesWithLog(c, db0, calls);
    var hits := Wanted(db, metric, filter);
    forall n | n in hits
      ensures StoredIn(db, n) == Decoded(Expected(c.retention, BucketIn(db0, n), Points(Segments(c, calls), n)))
    {}
    assert forall i :: 0 <= i < |hits| ==> hits[i] in hits;
  }

  /** Points as a query reports them. */
  ghost function Reported(ps: seq<Point>): (r: seq<Stored>)
    ensures |r| == |ps|
    ensures forall i :: 0 <= i < |ps| ==> r[i] == Stored(Unix(ps[i].at), ps[i].value)
  {
    seq(|ps|, i requires 0 <= i < |ps| => Stored(Unix(ps[i].at), ps[i].value))
  }

  // ----- series by series, field by field -----

  /** The sample is one of this series: all five identity fields agree. */
  ghost predicate Belongs(s: Sample, id: SeriesId) {
    s.metric == id.metric && s.node == id.node && s.tier == id.tier && s.device == id.device && s.labels == id.labels
  }

  /** The values of the samples of one series, in order. */
  ghost function ValuesOf(samples: seq<Sample>, id: SeriesId): seq<real> {
    if samples == [] then []
    else
      var s := samples[|samples| - 1];
      ValuesOf(samples[..|samples| - 1], id) + if Belongs(s, id) then [s.value] else []
  }

  /** The mean of each committed flush's samples of one series, at that flush's stamp; none for a
      flush without such samples. */
  ghost function MeansOf(segs: seq<Segment>, id: SeriesId): seq<Point> {
    if segs == [] then []
    else
      var seg := segs[|segs| - 1];
      var vs := ValuesOf(seg.samples, id);
      MeansOf(segs[..|segs| - 1], id) + if vs == [] then [] else [Point(seg.stamp, Mean(vs))]
  }

  lemma SameKeyIsSameSeries(s: Sample, id: SeriesId)
    requires CleanFields(s) && WellFormed(id)
    ensures KeyOf(IdOf(s)) == KeyOf(id) <==> Belongs(s, id)
  {
    hide KeyOf;
    KeysAreInjective(IdOf(s), id);
  }

  lemma {:induction false} ValuesAgree(samples: seq<Sample>, id: SeriesId)
    requires (forall s :: s in samples ==> CleanFields(s)) && WellFormed(id)
    ensures Values(samples, KeyOf(id)) == ValuesOf(samples, id)
  {
    if samples != [] {
      hide KeyOf, CleanFields, WellFormed, Belongs;
      ValuesAgree(samples[..|samples| - 1], id);
      SameKeyIsSameSeries(samples[|samples| - 1], id);
    }
  }

  /** Means by bucket name are means by identity. */
  lemma {:induction false} MeansAgree(segs: seq<Segment>, id: SeriesId)
    requires (forall s :: s in Covered(segs) ==> CleanFields(s)) && WellFormed(id)
    ensures Points(segs, KeyOf(id)) == MeansOf(segs, id)
  {
    if segs != [] {
      hide KeyOf, CleanFields, WellFormed, Covered, Values, ValuesOf, Mean;
      var p, seg := segs[..|segs| - 1], segs[|segs| - 1];
      assert segs == p + [seg];
      CoveredSnoc(p, seg);
      MeansAgree(p, id);
      ValuesAgree(seg.samples, id);
    }
  }

  lemma CoveredIsClean(c: Config, calls: seq<Call>)
    requires c.flushInterval > 0 && CleanSamples(calls)
    ensures forall s :: s in Covered(Segments(c, calls)) ==> Given(c, calls, s) && CleanFields(s)
  {
    hide Covered, Segments, Pending, Log, CleanFields, Given;
    Partition(c, calls);
    LogIsGiven(c, calls);
    LogIsClean(c, calls);
    forall s | s in Covered(Segments(c, calls)) ensures s in Log(c, calls) {
      assert s in Covered(Segments(c, calls)) + Pending(c, calls);
    }
  }

  /** A series that is stored has a sample of its own behind it. */
  lemma StoredSeriesHasSample(c: Config, calls: seq<Call>, id: SeriesId) returns (s: Sample)
    requires c.flushInterval > 0 && CleanSamples(calls) && WellFormed(id)
    requires Points(Segments(c, calls), KeyOf(id)) != []
    ensures Given(c, calls, s) && Belongs(s, id)
  {
    hide Covered, Segments, CleanFields, Given, KeyOf, Points, WellFormed, Belongs;
    s := PointHasSample(Segments(c, calls), KeyOf(id));
    CoveredIsClean(c, calls);
    SameKeyIsSameSeries(s, id);
  }

  /** Series by series, over an empty file and clean samples: a series is returned exactly when a
      committed flush covered samples with its five fields and it passes the filter, and then with
      exactly the means of those samples within its retention at or after `since`; and every
      entry carries the five fields of some allowlisted sample that was given. */
  lemma SeriesAfterRun(c: Config, calls: seq<Call>, id: SeriesId, since: Time, filter: map<string, string>)
    requires Setting(c, map[], calls) && CleanSamples(calls) && WellFormed(id)
    requires IsInt64(Unix(since))
    ensures forall n :: n in Run(c, map[], calls).db ==> IsKey(n)
    ensures var db, means := Run(c, map[], calls).db, MeansOf(Segments(c, calls), id);
            var out := Answer(db, Sorted(db.Keys), id.metric, since, filter);
            && ((exists h :: h in out && h.id == id) <==> means != [] && Passes(id, filter))
            && (forall h :: h in out && h.id == id ==>
                  h.points ==
                  if Expressible(since) then PointsFrom(Reported(Kept(c.retention, means)), Unix(since)) else [])
            && (forall h :: h in out ==> exists s :: Given(c, calls, s) && Belongs(s, h.id))
  {
    assert NulFree(id.metric);
    hide Run, Segments, Points, Kept, WellFormed, KeyOf, Parse, Unix, Encode, GoodBucket, Answer, Sorted, PointsFrom,
         Passes, Survivors, MeansOf, Covered, CleanFields, Given, CleanSamples, Belongs;
    var db := Run(c, map[], calls).db;
    forall n | n in db ensures GoodName(n) && GoodBucket(db[n]) {
      StoredNamesAreGood(c, calls, n);
      StoredBucketsAreGood(c, map[], calls, n);
    }
    SeriesMeaning(db, id.metric, since, filter, id);
    CoveredIsClean(c, calls);
    MeansAgree(Segments(c, calls), id);
    FreshFile(c, calls, KeyOf(id));
    if KeyOf(id) in db {
      DecodedIsReported(c, calls, KeyOf(id));
    }
    forall h | h in Answer(db, Sorted(db.Keys), id.metric, since, filter)
      ensures exists s :: Given(c, calls, s) && Belongs(s, h.id)
    {
      EntryHasSample(c, calls, id.metric, since, filter, h);
    }
  }

  lemma EntryHasSample(c: Config, calls: seq<Call>, metric: string, since: Time, filter: map<string, string>,
                       h: SeriesHistory)
    requires Setting(c, map[], calls) && CleanSamples(calls) && NulFree(metric) && IsInt64(Unix(since))
    requires var db := Run(c, map[], calls).db;
             && (forall n :: n in db ==> GoodName(n) && GoodBucket(db[n]))
             && h in Answer(db, Sorted(db.Keys), metric, since, filter)
    ensures exists s :: Given(c, calls, s) && Belongs(s, h.id)
  {
    hide Run, Segments, Points, Kept, WellFormed, KeyOf, Parse, Unix, Encode, GoodBucket, Answer, Sorted, PointsFrom,
         Passes, Survivors, Given, CleanSamples, Belongs;
    var db := Run(c, map[], calls).db;
    QueryMeaning(db, metric, since, filter);
    var out, hits := Answer(db, Sorted(db.Keys), metric, since, filter), Wanted(db, metric, filter);
    var i :| 0 <= i < |out| && out[i] == h;
    assert hits[i] in hits;
    assert KeyOf(h.id) == hits[i];
    FreshFile(c, calls, hits[i]);
    var s := StoredSeriesHasSample(c, calls, h.id);
  }

  lemma DecodedIsReported(c: Config, calls: seq<Call>, key: string)
    requires Setting(c, map[], calls) && key in Run(c, map[], calls).db
    ensures Decoded(Run(c, map[], calls).db[key]) == Reported(Kept(c.retention, Points(Segments(c, calls), key)))
  {
    hide Run, Segments, Points, Encode, Unix, Survivors, GoodKey, DecodeSeconds;
    FreshFile(c, calls, key);
    var ps := Points(Segments(c, calls), key);
    var kept := Kept(c.retention, ps);
    if calls == [] {
      NoSegments(c);
    } else {
      PointsStorable(c, calls, key);
      SurvivorsMembers(ps, ps[|ps| - 1].at - c.retention);
      forall i | 0 <= i < |kept| ensures DecodeSeconds(Encode(kept[i].at)) == Unix(kept[i].at) {
        assert kept[i] in ps;
        EncodedIsGood(kept[i].at);
      }
    }
  }
}
