/** What is on disk after any run of the history store, in terms of the plain log. */
module HistoryStored {
  import opened Text
  import opened Hardware
  import opened Timestamps
  import opened Bolt
  import opened History
  import opened HistoryRuns

  datatype Point = Point(at: Time, value: real)

  /** One mean per committed flush whose window holds a sample of the series. */
  ghost function Points(segs: seq<Segment>, key: string): seq<Point> {
    if segs == [] then []
    else
      var seg := segs[|segs| - 1];
      var vs := Values(seg.samples, key);
      Points(segs[..|segs| - 1], key) + if vs == [] then [] else [Point(seg.stamp, Mean(vs))]
  }

  ghost function EntriesOf(ps: seq<Point>): (b: Bucket)
    ensures |b| == |ps|
    ensures forall i :: 0 <= i < |ps| ==> b[i] == Entry(Encode(ps[i].at), ps[i].value)
  {
    seq(|ps|, i requires 0 <= i < |ps| => Entry(Encode(ps[i].at), ps[i].value))
  }

  /** The prune rule of one flush at `last`, applied to everything ever written. */
  ghost function Retain(retention: int, whole: Bucket, last: Time): Bucket {
    if last - retention >= EPOCH then From(whole, Encode(last - retention)) else whole
  }

  /** What a series' bucket should hold: what it held at the start and one pair per point,
      pruned by the series' own latest flush, and by nothing if it never flushed. */
  ghost function Expected(retention: int, initial: Bucket, ps: seq<Point>): Bucket {
    if ps == [] then initial else Retain(retention, initial + EntriesOf(ps), ps[|ps| - 1].at)
  }

  /** Every flush of a series carried out on its bucket, oldest first. */
  ghost function Replayed(retention: int, initial: Bucket, ps: seq<Point>): Bucket {
    if ps == [] then initial
    else
      var last := ps[|ps| - 1];
      FlushBucket(retention, Replayed(retention, initial, ps[..|ps| - 1]), last.value, last.at)
  }

  ghost predicate DbReplays(retention: int, db0: map<string, Bucket>, db: map<string, Bucket>, segs: seq<Segment>) {
    forall key {:trigger Points(segs, key)} {:trigger key in db} ::
      && (key in db <==> key in db0 || Points(segs, key) != [])
      && BucketIn(db, key) == Replayed(retention, BucketIn(db0, key), Points(segs, key))
  }

  ghost predicate DbShows(retention: int, db0: map<string, Bucket>, db: map<string, Bucket>, segs: seq<Segment>) {
    forall key {:trigger Points(segs, key)} {:trigger key in db} ::
      && (key in db <==> key in db0 || Points(segs, key) != [])
      && BucketIn(db, key) == Expected(retention, BucketIn(db0, key), Points(segs, key))
  }

  // ----- clocks -----

  ghost predicate OlderThan(db: map<string, Bucket>, ts: Time) {
    forall key, e :: key in db && e in db[key] ==> Less(e.key, Encode(ts))
  }

  /** Where the store is promised to work: a flush interval of at least a second, clocks that
      start after the epoch and stay representable, and a file whose pairs are older than the
      first boundary. The clocks need not be monotone. */
  ghost predicate Setting(c: Config, db0: map<string, Bucket>, calls: seq<Call>) {
    && c.flushInterval >= SECOND && c.retention >= 0
    && (calls != [] ==>
          && calls[0].now >= EPOCH
          && OlderThan(db0, Truncate(calls[0].now, c.flushInterval) + c.flushInterval))
    && (forall i :: 0 <= i < |calls| ==> calls[i].now < EPOCH + TWO63 * SECOND)
  }

  /** Flush stamps lie between the first boundary and the latest one, at least a period apart. */
  ghost predicate SpacedOut(f: int, first: Time, segs: seq<Segment>, end: Time) {
    && (forall i :: 0 <= i < |segs| ==> first <= segs[i].stamp <= end)
    && (forall i, j :: 0 <= i < j < |segs| ==> segs[i].stamp + f <= segs[j].stamp)
  }

  lemma {:induction false} StampsAreSpacedOut(c: Config, calls: seq<Call>)
    requires c.flushInterval > 0 && calls != []
    ensures var f := c.flushInterval;
            SpacedOut(f, Truncate(calls[0].now, f) + f, Segments(c, calls), Truncate(Latest(calls), f))
  {
    var f := c.flushInterval;
    var p, now := calls[..|calls| - 1], calls[|calls| - 1].now;
    if |calls| > 1 {
      StampsAreSpacedOut(c, p);
      assert p[0] == calls[0];
      ClosesLast(f, calls);
      TruncateOrder(Latest(p), Latest(calls), f);
      TruncateOrder(Latest(p), now, f);
      LatestIsGreatest(p);
      TruncateOrder(p[0].now, Latest(p), f);
      var segs, before := Segments(c, calls), Segments(c, p);
      assert forall i :: 0 <= i < |before| ==> segs[i] == before[i];
    }
  }

  lemma UnixOrder(s: Time, t: Time)
    ensures s <= t ==> Unix(s) <= Unix(t)
    ensures s + SECOND <= t ==> Unix(s) < Unix(t)
    ensures s >= EPOCH <==> Unix(s) >= 0
    ensures s < EPOCH + TWO63 * SECOND ==> Unix(s) < TWO63
  {}

  ghost predicate Storable(t: Time) { 0 <= Unix(t) < TWO63 }

  // ----- one flush on one bucket -----

  lemma {:induction false} FromSum(a: Bucket, b: Bucket, key: string)
    ensures From(a + b, key) == From(a, key) + From(b, key)
  {
    hide Less, From;
    if a == [] {
      FromNothing(key);
      assert a + b == b && [] + From(b, key) == From(b, key);
    } else {
      FromSum(a[1..], b, key);
      assert (a + b)[1..] == a[1..] + b && (a + b)[0] == a[0];
      FromHead(a, key);
      FromHead(a + b, key);
      Reassociate(if Less(a[0].key, key) then [] else [a[0]], From(a[1..], key), From(b, key));
    }
  }

  lemma FromNothing(key: string)
    ensures From([], key) == []
  {}

  lemma FromHead(b: Bucket, key: string)
    requires b != []
    ensures From(b, key) == (if Less(b[0].key, key) then [] else [b[0]]) + From(b[1..], key)
  {
    hide Less;
  }

  /** Pruning at an earlier cutoff first makes no difference. */
  lemma {:induction false} FromTwice(b: Bucket, lo: string, hi: string)
    requires lo == hi || Less(lo, hi)
    ensures From(From(b, lo), hi) == From(b, hi)
  {
    if b != [] {
      FromTwice(b[1..], lo, hi);
      if Less(b[0].key, lo) {
        if lo != hi { LessTransitive(b[0].key, lo, hi); }
        assert From(b, lo) == From(b[1..], lo);
      } else {
        assert From(b, lo)[1..] == From(b[1..], lo);
      }
    }
  }

  lemma FromOne(e: Entry, key: string)
    ensures From([e], key) == if Less(e.key, key) then [] else [e]
  {
    assert [e][1..] == [];
  }

  lemma RetainAfterRetain(retention: int, whole: Bucket, last: Time, e: Entry, ts: Time)
    requires last < ts && Storable(ts) && retention >= 0
    ensures Retain(retention, Retain(retention, whole, last) + [e], ts) == Retain(retention, whole + [e], ts)
  {
    hide From, Less, Encode, Unix;
    if last - retention >= EPOCH {
      var lo, hi := Encode(last - retention), Encode(ts - retention);
      CutoffsInOrder(last - retention, ts - retention, ts);
      FromSum(From(whole, lo), [e], hi);
      FromSum(whole, [e], hi);
      FromTwice(whole, lo, hi);
    }
  }

  lemma CutoffsInOrder(s: Time, t: Time, limit: Time)
    requires EPOCH <= s <= t <= limit && Storable(limit)
    ensures Encode(s) == Encode(t) || Less(Encode(s), Encode(t))
  {
    hide Less, Bytes, Unix;
    UnixOrder(s, t);
    UnixOrder(t, limit);
    UnixOrder(s, s);
    EncodeOrder(s, t);
  }

  lemma ExpectedIsOlder(retention: int, initial: Bucket, ps: seq<Point>, ts: Time)
    requires forall e :: e in initial ==> Less(e.key, Encode(ts))
    requires forall i :: 0 <= i < |ps| ==> Less(Encode(ps[i].at), Encode(ts))
    ensures forall e :: e in Expected(retention, initial, ps) ==> Less(e.key, Encode(ts))
  {
    if ps != [] {
      var whole := initial + EntriesOf(ps);
      forall e | e in whole ensures Less(e.key, Encode(ts)) {}
      forall key { FromMembers(whole, key); }
    }
  }

  lemma {:induction false} FromMembers(b: Bucket, key: string)
    ensures forall e :: e in From(b, key) <==> e in b && !Less(e.key, key)
  {
    hide Less;
    if b != [] {
      FromMembers(b[1..], key);
      assert forall e :: e in b <==> e == b[0] || e in b[1..];
    }
  }

  /** Whatever the bucket holds and whatever the retention, the mean just written survives the
      prune of its own flush. */
  lemma NewestSurvivesFlush(retention: int, b: Bucket, mean: real, ts: Time)
    requires InOrder(b) && retention >= 0 && IsInt64(Unix(ts))
    ensures Entry(Encode(ts), mean) in FlushBucket(retention, b, mean, ts)
  {
    hide Less, Encode, Unix, Put;
    PutMeaning(b, Encode(ts), mean);
    if ts - retention >= EPOCH {
      UnixOrder(ts - retention, ts);
      UnixOrder(ts - retention, ts - retention);
      EncodeOrder(ts, ts - retention);
      FromMembers(Put(b, Encode(ts), mean), Encode(ts - retention));
    }
  }

  /** A flush turns the expected bucket into the expected bucket with one more point. */
  lemma FlushAddsPoint(retention: int, initial: Bucket, ps: seq<Point>, ts: Time, mean: real)
    requires retention >= 0 && Storable(ts)
    requires forall e :: e in initial ==> Less(e.key, Encode(ts))
    requires forall i :: 0 <= i < |ps| ==> ps[i].at < ts && Less(Encode(ps[i].at), Encode(ts))
    ensures FlushBucket(retention, Expected(retention, initial, ps), mean, ts) ==
            Expected(retention, initial, ps + [Point(ts, mean)])
  {
    var b, e := Expected(retention, initial, ps), Entry(Encode(ts), mean);
    var ps' := ps + [Point(ts, mean)];
    ExpectedIsOlder(retention, initial, ps, ts);
    PutAtEnd(b, Encode(ts), mean);
    assert FlushBucket(retention, b, mean, ts) == Retain(retention, b + [e], ts);
    assert initial + EntriesOf(ps') == initial + EntriesOf(ps) + [e];
    if ps == [] {
      assert initial + EntriesOf(ps) == initial;
    } else {
      RetainAfterRetain(retention, initial + EntriesOf(ps), ps[|ps| - 1].at, e, ts);
    }
  }

  // ----- points and windows -----

  /** A series' points are spaced as the flushes are. */
  lemma {:induction false} PointsSpacedOut(segs: seq<Segment>, key: string, f: int, first: Time, end: Time)
    requires SpacedOut(f, first, segs, end)
    ensures forall i :: 0 <= i < |Points(segs, key)| ==> first <= Points(segs, key)[i].at <= end
    ensures forall i, j :: 0 <= i < j < |Points(segs, key)| ==> Points(segs, key)[i].at + f <= Points(segs, key)[j].at
  {
    if segs != [] {
      hide Values, Mean;
      var p, seg := segs[..|segs| - 1], segs[|segs| - 1];
      assert SpacedOut(f, first, p, seg.stamp - f) && SpacedOut(f, first, p, end);
      PointsSpacedOut(p, key, f, first, seg.stamp - f);
      PointsSpacedOut(p, key, f, first, end);
    }
  }

  lemma PointsSnoc(segs: seq<Segment>, seg: Segment, key: string)
    ensures Points(segs + [seg], key) ==
            if Values(seg.samples, key) == [] then Points(segs, key)
            else Points(segs, key) + [Point(seg.stamp, Mean(Values(seg.samples, key)))]
  {
    assert (segs + [seg])[..|segs|] == segs;
  }

  lemma ActiveMeaning(acc: map<string, Acc>, log: seq<Sample>, key: string)
    requires AccShows(acc, log)
    ensures key in Active(acc) <==> Values(log, key) != []
    ensures key in Active(acc) ==> acc[key].count > 0 && acc[key].sum / acc[key].count as real == Mean(Values(log, key))
  {}

  // ----- whole runs, in any setting -----

  lemma FlushReplaysKey(retention: int, db0: map<string, Bucket>, db: map<string, Bucket>, segs: seq<Segment>,
                        acc: map<string, Acc>, window: seq<Sample>, ts: Time, key: string)
    requires DbReplays(retention, db0, db, segs) && AccShows(acc, window)
    ensures var db', segs' := FlushDb(retention, db, acc, ts), segs + [Segment(ts, window)];
            && (key in db' <==> key in db0 || Points(segs', key) != [])
            && BucketIn(db', key) == Replayed(retention, BucketIn(db0, key), Points(segs', key))
  {
    hide Values, FlushBucket, Mean, AccShows;
    var ps := Points(segs, key);
    assert key in db <==> key in db0 || ps != [];
    ActiveMeaning(acc, window, key);
    PointsSnoc(segs, Segment(ts, window), key);
    if key in Active(acc) {
      var q := Point(ts, Mean(Values(window, key)));
      assert (ps + [q])[..|ps|] == ps;
    }
  }

  lemma FlushReplays(retention: int, db0: map<string, Bucket>, db: map<string, Bucket>, segs: seq<Segment>,
                     acc: map<string, Acc>, window: seq<Sample>, ts: Time)
    requires DbReplays(retention, db0, db, segs) && AccShows(acc, window)
    ensures DbReplays(retention, db0, FlushDb(retention, db, acc, ts), segs + [Segment(ts, window)])
  {
    hide Replayed, FlushDb, BucketIn;
    forall key {
      FlushReplaysKey(retention, db0, db, segs, acc, window, ts, key);
    }
  }

  /** The file replays the plain log: for any flush interval, any retention, any file and any
      clocks, after any run with failed transactions included, every bucket is its initial
      content with the series' means put and pruned flush by flush, and no other bucket exists. */
  lemma {:induction false} FileReplaysLog(c: Config, db0: map<string, Bucket>, calls: seq<Call>)
    requires c.flushInterval > 0 && (calls != [] ==> calls[0].now >= 0)
    ensures DbReplays(c.retention, db0, Run(c, db0, calls).db, Segments(c, calls))
  {
    hide Fold, FlushDb, AccShows, LastPassed, Opened, Allowed, Closes, DbReplays;
    if calls == [] {
      UntouchedFile(c.retention, db0);
    } else {
      var p, call := calls[..|calls| - 1], calls[|calls| - 1];
      assert p != [] ==> p[0] == calls[0];
      FileReplaysLog(c, db0, p);
      Boundaries(c, db0, calls);
      ClosingStampIsPositive(c, calls);
      InFlight(c, db0, p);
      FoldShows(c.metrics, Run(c, db0, p).acc, Pending(c, p), call.samples);
      if FlushedLast(c, calls) {
        FlushReplays(c.retention, db0, Run(c, db0, p).db, Segments(c, p),
                     Fold(c.metrics, Run(c, db0, p).acc, call.samples),
                     Pending(c, p) + Allowed(c.metrics, call.samples), Truncate(call.now, c.flushInterval));
      } else {
        assert Segments(c, calls) == Segments(c, p);
      }
    }
  }

  lemma UntouchedFile(retention: int, db0: map<string, Bucket>)
    ensures DbReplays(retention, db0, db0, [])
  {}

  // ----- whole runs, where stamps are new seconds -----

  /** The points come in key order, after everything in the initial bucket. */
  ghost predicate InKeyOrder(initial: Bucket, ps: seq<Point>) {
    && (forall i :: 0 <= i < |ps| ==> Storable(ps[i].at) && forall e :: e in initial ==> Less(e.key, Encode(ps[i].at)))
    && (forall i, j :: 0 <= i < j < |ps| ==> ps[i].at < ps[j].at && Less(Encode(ps[i].at), Encode(ps[j].at)))
  }

  /** Then nothing is overwritten, and the latest prune is the only one that matters. */
  lemma {:induction false} ReplayedIsExpected(retention: int, initial: Bucket, ps: seq<Point>)
    requires retention >= 0 && InKeyOrder(initial, ps)
    ensures Replayed(retention, initial, ps) == Expected(retention, initial, ps)
  {
    if ps != [] {
      hide Less, Encode, Expected, FlushBucket, Unix, InKeyOrder;
      var p, last := ps[..|ps| - 1], ps[|ps| - 1];
      BeforeTheLast(initial, ps);
      ReplayedIsExpected(retention, initial, p);
      FlushAddsPoint(retention, initial, p, last.at, last.value);
      assert ps == p + [last];
    }
  }

  lemma BeforeTheLast(initial: Bucket, ps: seq<Point>)
    requires ps != [] && InKeyOrder(initial, ps)
    ensures var p, ts := ps[..|ps| - 1], ps[|ps| - 1].at;
            && InKeyOrder(initial, p) && Storable(ts)
            && (forall e :: e in initial ==> Less(e.key, Encode(ts)))
            && (forall i :: 0 <= i < |p| ==> p[i].at < ts && Less(Encode(p[i].at), Encode(ts)))
  {
    hide Less, Encode, Unix;
  }

  lemma StoredBefore(s: Time, t: Time)
    requires EPOCH <= s && s + SECOND <= t && t < EPOCH + TWO63 * SECOND
    ensures Storable(s) && Storable(t) && Less(Encode(s), Encode(t))
  {
    UnixOrder(s, t);
    UnixOrder(t, t);
    EncodeOrder(s, t);
  }

  lemma StillBefore(key: string, s: Time, t: Time)
    requires Less(key, Encode(s)) && EPOCH <= s <= t && t < EPOCH + TWO63 * SECOND
    ensures Less(key, Encode(t)) && Storable(t)
  {
    hide Less, Bytes;
    UnixOrder(s, t);
    UnixOrder(t, t);
    EncodeOrder(s, t);
    if Unix(s) != Unix(t) {
      LessTransitive(key, Encode(s), Encode(t));
    }
  }

  /** The points lie from the first boundary on, in representable time, seconds apart. */
  ghost predicate Spaced(ps: seq<Point>, first: Time) {
    && (forall i :: 0 <= i < |ps| ==> first <= ps[i].at < EPOCH + TWO63 * SECOND)
    && (forall i, j :: 0 <= i < j < |ps| ==> ps[i].at + SECOND <= ps[j].at)
  }

  lemma PointsAreSpaced(c: Config, db0: map<string, Bucket>, calls: seq<Call>, key: string, ps: seq<Point>)
    requires Setting(c, db0, calls) && calls != [] && ps == Points(Segments(c, calls), key)
    ensures var first := Truncate(calls[0].now, c.flushInterval) + c.flushInterval;
            EPOCH <= first && OlderThan(db0, first) && Spaced(ps, first)
  {
    hide Segments, Points, OlderThan;
    var f := c.flushInterval;
    Quotient(calls[0].now, f);
    Quotient(Latest(calls), f);
    LatestIsGreatest(calls);
    StampsAreSpacedOut(c, calls);
    hide Truncate, SpacedOut, Latest;
    PointsSpacedOut(Segments(c, calls), key, f, Truncate(calls[0].now, f) + f, Truncate(Latest(calls), f));
  }

  lemma SpacedIsInKeyOrder(initial: Bucket, ps: seq<Point>, first: Time)
    requires EPOCH <= first && forall e :: e in initial ==> Less(e.key, Encode(first))
    requires Spaced(ps, first)
    ensures InKeyOrder(initial, ps)
  {
    hide Less, Encode, Unix;
    forall i | 0 <= i < |ps|
      ensures Storable(ps[i].at) && forall e :: e in initial ==> Less(e.key, Encode(ps[i].at))
    {
      UnixOrder(ps[i].at, ps[i].at);
      forall e | e in initial ensures Less(e.key, Encode(ps[i].at)) {
        StillBefore(e.key, first, ps[i].at);
      }
    }
    forall i, j | 0 <= i < j < |ps| ensures Less(Encode(ps[i].at), Encode(ps[j].at)) {
      StoredBefore(ps[i].at, ps[j].at);
    }
  }

  lemma PointsInKeyOrder(c: Config, db0: map<string, Bucket>, calls: seq<Call>, key: string)
    requires Setting(c, db0, calls)
    ensures InKeyOrder(BucketIn(db0, key), Points(Segments(c, calls), key))
  {
    hide Less, Encode, Unix, Segments, Points, Truncate, InKeyOrder, Spaced, OlderThan;
    if calls == [] {
      NoSegments(c);
      NoPointsInOrder(BucketIn(db0, key));
    } else {
      var ps := Points(Segments(c, calls), key);
      var first := Truncate(calls[0].now, c.flushInterval) + c.flushInterval;
      PointsAreSpaced(c, db0, calls, key, ps);
      BucketIsOlder(db0, key, first);
      SpacedIsInKeyOrder(BucketIn(db0, key), ps, first);
    }
  }

  lemma BucketIsOlder(db0: map<string, Bucket>, key: string, ts: Time)
    requires OlderThan(db0, ts)
    ensures forall e :: e in BucketIn(db0, key) ==> Less(e.key, Encode(ts))
  {
    hide Less, Encode;
  }

  lemma NoPointsInOrder(initial: Bucket)
    ensures InKeyOrder(initial, [])
  {}

  lemma NoSegments(c: Config)
    requires c.flushInterval > 0
    ensures Segments(c, []) == [] && forall key :: Points([], key) == []
  {}

  /** The file is an exact index of the plain log: after any run, with failed transactions and
      clocks running backwards included, every series holds what it held at the start and one
      mean for each committed flush that covered it, nothing overwritten, less what its own
      latest flush pruned. */
  lemma FileAgreesWithLog(c: Config, db0: map<string, Bucket>, calls: seq<Call>)
    requires Setting(c, db0, calls)
    ensures DbShows(c.retention, db0, Run(c, db0, calls).db, Segments(c, calls))
  {
    hide Run, Segments, Points, Replayed, Expected, InKeyOrder, BucketIn;
    FileReplaysLog(c, db0, calls);
    forall key
      ensures Replayed(c.retention, BucketIn(db0, key), Points(Segments(c, calls), key)) ==
              Expected(c.retention, BucketIn(db0, key), Points(Segments(c, calls), key))
    {
      PointsInKeyOrder(c, db0, calls, key);
      ReplayedIsExpected(c.retention, BucketIn(db0, key), Points(Segments(c, calls), key));
    }
  }
}
