/** The downsampling store (internal/history/history.go): Ingest, the flush transaction and
    the prune pass, as a class, and the state transition they amount to. */
module History {
  import opened Hardware
  import opened SeriesKeys
  import opened Timestamps
  import opened Bolt

  datatype Config = Config(metrics: set<string>, flushInterval: int, retention: int)

  datatype Acc = Acc(sum: real, count: nat)

  /** One Ingest call: its arguments, and whether it returned without an error. */
  datatype Call = Call(samples: seq<Sample>, now: Time, ok: bool)

  datatype State = State(acc: map<string, Acc>, next: Time, db: map<string, Bucket>)

  // ----- one call, as a function of the state -----

  function AccIn(acc: map<string, Acc>, key: string): Acc { if key in acc then acc[key] else Acc(0.0, 0) }

  function BucketIn(db: map<string, Bucket>, key: string): Bucket { if key in db then db[key] else [] }

  /** Folding the allowlisted samples into the accumulators. */
  ghost function Fold(metrics: set<string>, acc: map<string, Acc>, samples: seq<Sample>): map<string, Acc> {
    if samples == [] then acc
    else
      var before, s := Fold(metrics, acc, samples[..|samples| - 1]), samples[|samples| - 1];
      if s.metric !in metrics then before
      else
        var key := KeyOf(IdOf(s));
        before[key := Acc(AccIn(before, key).sum + s.value, AccIn(before, key).count + 1)]
  }

  /** The next boundary once the first call has set it. */
  function Opened(f: int, next: Time, now: Time): Time
    requires f > 0
  { if next == 0 then Truncate(now, f) + f else next }

  /** The last boundary the catch-up loop passes, 0 when it passes none. */
  function LastPassed(f: int, next: Time, now: Time): Time
    requires f > 0
  { if next <= now then next + (now - next) / f * f else 0 }

  function NextAfter(f: int, next: Time, now: Time): Time
    requires f > 0
  { if next <= now then LastPassed(f, next, now) + f else next }

  /** A bucket after one flush: the mean is put, then pairs past their retention go, unless
      the cutoff lies before the epoch. */
  ghost function FlushBucket(retention: int, b: Bucket, mean: real, ts: Time): Bucket {
    var written := Put(b, Encode(ts), mean);
    if ts - retention >= EPOCH then From(written, Encode(ts - retention)) else written
  }

  function Active(acc: map<string, Acc>): set<string> { set k | k in acc && acc[k].count > 0 }

  ghost function FlushDb(retention: int, db: map<string, Bucket>, acc: map<string, Acc>, ts: Time): map<string, Bucket>
  {
    map k | k in db.Keys + Active(acc) ::
      if k in Active(acc) then FlushBucket(retention, BucketIn(db, k), acc[k].sum / acc[k].count as real, ts)
      else db[k]
  }

  ghost function Step(c: Config, st: State, call: Call): State
    requires c.flushInterval > 0
  {
    var open := Opened(c.flushInterval, st.next, call.now);
    var acc := Fold(c.metrics, st.acc, call.samples);
    var next := NextAfter(c.flushInterval, open, call.now);
    var ts := LastPassed(c.flushInterval, open, call.now);
    if ts != 0 && call.ok then State(map[], next, FlushDb(c.retention, st.db, acc, ts))
    else State(acc, next, st.db)
  }

  ghost predicate AllInOrder(db: map<string, Bucket>) {
    forall k :: k in db ==> InOrder(db[k])
  }

  lemma FromInOrder(b: Bucket, key: string)
    requires InOrder(b)
    ensures InOrder(From(b, key))
  {
    SeekMeaning(b, key);
  }

  // ----- the store -----

  class Store {
    const config: Config
    var acc: map<string, Acc>
    var next: Time
    var db: map<string, Bucket>

    ghost predicate Valid()
      reads this
    { config.flushInterval > 0 && AllInOrder(db) }

    ghost function View(): State
      reads this
    { State(acc, next, db) }

    /** Opens a store over whatever the file already holds. */
    constructor (config: Config, db: map<string, Bucket>)
      requires config.flushInterval > 0 && AllInOrder(db)
      ensures Valid() && this.config == config && View() == State(map[], 0, db)
    {
      this.config, this.db := config, db;
      acc, next := map[], 0;
    }

    /** `fault` is where bbolt fails in the flush transaction, if one is started: before that
        many series have been written, at commit, or nowhere when negative. */
    method Ingest(samples: seq<Sample>, now: Time, fault: int) returns (ok: bool)
      requires Valid()
      modifies this
      ensures Valid()
      ensures View() == Step(config, old(View()), Call(samples, now, ok))
      ensures var f := config.flushInterval;
              ok <==> LastPassed(f, Opened(f, old(next), now), now) == 0 ||
                      !Fails(fault, Fold(config.metrics, old(acc), samples))
    {
      if next == 0 {
        next := Truncate(now, config.flushInterval) + config.flushInterval;
      }
      Accumulate(samples);
      ghost var open, folded := next, acc;
      ghost var passed: nat := 0;
      var last: Time := 0;
      while next <= now
        invariant acc == folded && db == old(db)
        invariant next == open + passed * config.flushInterval
        invariant passed == 0 ==> last == 0
        invariant passed > 0 ==> last == next - config.flushInterval && last <= now
        decreases now - next
      {
        NextMultiple(passed, config.flushInterval);
        last := next;
        next := next + config.flushInterval;
        passed := passed + 1;
      }
      LastBelow(config.flushInterval, open, now, passed);
      ok := true;
      if last != 0 {
        ok := Flush(last, fault);
      }
    }

    method Accumulate(samples: seq<Sample>)
      modifies this`acc
      ensures acc == Fold(config.metrics, old(acc), samples)
    {
      for i := 0 to |samples|
        invariant acc == Fold(config.metrics, old(acc), samples[..i])
      {
        assert samples[..i + 1][..i] == samples[..i];
        var s := samples[i];
        if s.metric in config.metrics {
          var key := SeriesKeyFor(s);
          var a := if key in acc then acc[key] else Acc(0.0, 0);
          acc := acc[key := Acc(a.sum + s.value, a.count + 1)];
        }
      }
      assert samples[..|samples|] == samples;
    }

    /** One transaction: all series or none. */
    method Flush(ts: Time, fault: int) returns (ok: bool)
      requires Valid()
      modifies this`acc, this`db
      ensures Valid()
      ensures ok ==> acc == map[] && db == FlushDb(config.retention, old(db), old(acc), ts)
      ensures !ok ==> acc == old(acc) && db == old(db)
      ensures ok <==> !Fails(fault, old(acc))
    {
      hide FlushDb, FlushBucket, Active, Without, InOrder;
      NothingFlushed(config.retention, db, acc, ts);
      var tx := db;
      var rest := acc.Keys;
      var written := 0;
      while rest != {}
        invariant rest <= acc.Keys && acc == old(acc) && db == old(db)
        invariant AllInOrder(tx)
        invariant tx == FlushDb(config.retention, db, Without(acc, rest), ts)
        invariant written == |Active(Without(acc, rest))| && (0 <= fault ==> written <= fault)
        decreases rest
      {
        var key :| key in rest;
        var a := acc[key];
        ActiveGrows(acc, rest, key);
        if a.count > 0 {
          if written == fault { return false; }
          tx := FlushSeries(tx, key, a, ts);
          written := written + 1;
        }
        FlushOneMore(config.retention, db, acc, rest, key, ts);
        rest := rest - {key};
      }
      AllFlushed(acc);
      if written == fault { return false; }
      db := tx;
      acc := map[];
      ok := true;
    }

    method FlushSeries(tx: map<string, Bucket>, key: string, a: Acc, ts: Time) returns (tx': map<string, Bucket>)
      requires AllInOrder(tx) && a.count > 0
      ensures AllInOrder(tx')
      ensures tx' == tx[key := FlushBucket(config.retention, BucketIn(tx, key), a.sum / a.count as real, ts)]
    {
      var cutoffTime := ts - config.retention;
      var b := if key in tx then tx[key] else [];
      PutMeaning(b, Encode(ts), a.sum / a.count as real);
      b := Put(b, Encode(ts), a.sum / a.count as real);
      if !(cutoffTime < EPOCH) {
        FromInOrder(b, Encode(cutoffTime));
        b := DeleteBelow(b, Encode(cutoffTime));
      }
      tx' := tx[key := b];
    }
  }

  ghost function Without(acc: map<string, Acc>, rest: set<string>): map<string, Acc> {
    map k | k in acc && k !in rest :: acc[k]
  }

  /** The transaction fails in one of its writes, one per series with samples, or at commit. */
  ghost predicate Fails(fault: int, acc: map<string, Acc>) { 0 <= fault <= |Active(acc)| }

  lemma ActiveGrows(acc: map<string, Acc>, rest: set<string>, key: string)
    requires key in rest && rest <= acc.Keys
    ensures var w, w' := Without(acc, rest), Without(acc, rest - {key});
            && |Active(w')| == |Active(w)| + (if acc[key].count > 0 then 1 else 0)
            && |Active(w')| <= |Active(acc)|
  {
    var w, w' := Without(acc, rest), Without(acc, rest - {key});
    assert Active(w') == Active(w) + if acc[key].count > 0 then {key} else {};
    assert key !in Active(w);
    Fewer(Active(w'), Active(acc));
  }

  lemma NothingFlushed(retention: int, db: map<string, Bucket>, acc: map<string, Acc>, ts: Time)
    ensures FlushDb(retention, db, Without(acc, acc.Keys), ts) == db && |Active(Without(acc, acc.Keys))| == 0
  {
    hide FlushBucket;
    assert Active(Without(acc, acc.Keys)) == {};
  }

  lemma AllFlushed(acc: map<string, Acc>)
    ensures Without(acc, {}) == acc
  {}

  lemma Fewer(a: set<string>, b: set<string>)
    requires a <= b
    ensures |a| <= |b|
  {
    assert b == a + (b - a);
  }

  lemma FlushOneMore(retention: int, db: map<string, Bucket>, acc: map<string, Acc>, rest: set<string>,
                     key: string, ts: Time)
    requires key in rest && rest <= acc.Keys
    ensures var tx := FlushDb(retention, db, Without(acc, rest), ts);
            FlushDb(retention, db, Without(acc, rest - {key}), ts) ==
            if acc[key].count > 0
            then tx[key := FlushBucket(retention, BucketIn(tx, key), acc[key].sum / acc[key].count as real, ts)]
            else tx
  {
    hide FlushBucket;
    var w, w' := Without(acc, rest), Without(acc, rest - {key});
    assert Active(w') == Active(w) + if acc[key].count > 0 then {key} else {};
    assert key !in Active(w);
  }

  lemma NextMultiple(k: int, f: int)
    ensures (k + 1) * f == k * f + f
  {}

  /** The loop stops at the greatest boundary not after now. */
  lemma LastBelow(f: int, open: Time, now: Time, passed: nat)
    requires f > 0 && now < open + passed * f
    requires passed > 0 ==> open + passed * f - f <= now
    ensures LastPassed(f, open, now) == if passed == 0 then 0 else open + passed * f - f
    ensures NextAfter(f, open, now) == open + passed * f
  {
    if passed > 0 {
      NextMultiple(passed - 1, f);
      DivBetween(now - open, f, passed - 1);
      assert (passed - 1) * f >= 0;
    }
  }

  lemma DivBetween(x: int, f: int, q: int)
    requires f > 0 && q * f <= x < q * f + f
    ensures x / f == q
  {
    var d := x / f;
    assert x == d * f + x % f;
    if d < q { MultiplesApart(d, q, f); }
    if q < d { MultiplesApart(q, d, f); }
  }

  lemma MultiplesApart(a: int, b: int, f: int)
    requires f > 0 && a < b
    ensures a * f + f <= b * f
  {
    var d := b - a - 1;
    Expand(a, d, f);
    NotNegative(d, f);
  }

  lemma Expand(a: int, d: int, f: int)
    ensures (a + 1 + d) * f == a * f + f + d * f
  {}

  lemma NotNegative(d: int, f: int)
    requires d >= 0 && f > 0
    ensures d * f >= 0
  {}
}
