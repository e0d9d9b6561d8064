/** Range queries over the stored series (internal/history/history.go, Query). */
module HistoryQuery {
  import opened Text
  import opened Hardware
  import opened SeriesKeys
  import opened Timestamps
  import opened Bolt

  type Db = map<string, Bucket>

  /** A decoded pair: whole seconds since the epoch, and the mean. */
  datatype Stored = Stored(seconds: int, value: real)

  datatype SeriesHistory = SeriesHistory(id: SeriesId, points: seq<Stored>)

  function Decoded(b: Bucket): (ps: seq<Stored>)
    ensures |ps| == |b|
    ensures forall i :: 0 <= i < |b| ==> ps[i] == Stored(DecodeSeconds(b[i].key), b[i].value)
  {
    seq(|b|, i requires 0 <= i < |b| => Stored(DecodeSeconds(b[i].key), b[i].value))
  }

  // ----- what the code does -----

  /** Where the cursor starts: at the first pair for the zero time, else at the encoded instant. */
  function Start(b: Bucket, since: Time): (i: nat)
    ensures i <= |b|
  { if since == 0 then 0 else Seek(b, Encode(since)) }

  ghost predicate Hit(name: string, metric: string, filter: map<string, string>)
    requires IsKey(name)
  { HasPrefix(name, metric + [NUL]) && Selected(Parse(name), filter) }

  /** A bucket's entry in the answer: its parsed identity and its pairs from the start position on. */
  ghost function EntryOf(name: string, b: Bucket, since: Time): SeriesHistory
    requires IsKey(name)
  {
    SeriesHistory(Parse(name), Decoded(b[Start(b, since)..]))
  }

  /** What one bucket contributes. */
  ghost function Found(name: string, b: Bucket, metric: string, since: Time, filter: map<string, string>)
    : seq<SeriesHistory>
    requires IsKey(name)
  {
    if Hit(name, metric, filter) then [EntryOf(name, b, since)] else []
  }

  ghost function Answer(db: Db, names: seq<string>, metric: string, since: Time, filter: map<string, string>)
    : seq<SeriesHistory>
    requires forall n :: n in names ==> n in db && IsKey(n)
  {
    if names == [] then []
    else
      var n := names[|names| - 1];
      Answer(db, names[..|names| - 1], metric, since, filter) + Found(n, db[n], metric, since, filter)
  }

  /** The names that have the metric's prefix and pass the filter, in the order given. */
  ghost function Hits(names: seq<string>, metric: string, filter: map<string, string>): (hits: seq<string>)
    requires forall n :: n in names ==> IsKey(n)
    ensures forall n :: n in hits <==> n in names && Hit(n, metric, filter)
  {
    if names == [] then []
    else
      var p, n := names[..|names| - 1], names[|names| - 1];
      assert forall m :: m in names <==> m in p || m == n;
      Hits(p, metric, filter) + if Hit(n, metric, filter) then [n] else []
  }

  /** A read transaction: buckets in name order, each walked from its start to its end. */
  method Query(db: Db, metric: string, since: Time, filter: map<string, string>) returns (out: seq<SeriesHistory>)
    requires forall n :: n in db ==> IsKey(n)
    ensures out == Answer(db, Sorted(db.Keys), metric, since, filter)
  {
    hide Answer, Parse, IsKey, Selected, Decoded, Start, Less, StrictlySorted, HasPrefix;
    var unordered := CollectNames(db);
    var names := SortStrings(unordered);
    SortedUnique(names, Sorted(db.Keys));
    out := [];
    NoAnswer(db, metric, since, filter);
    for i := 0 to |names|
      invariant out == Answer(db, names[..i], metric, since, filter)
    {
      var name := names[i];
      assert name in names;
      AnswerStep(db, names[..i], name, metric, since, filter);
      assert names[..i + 1] == names[..i] + [name];
      var found := QueryBucket(name, db[name], metric, since, filter);
      out := out + found;
    }
    assert names[..|names|] == names;
  }

  /** The callback of the walk over the buckets: nothing, or one series with its points. */
  method QueryBucket(name: string, b: Bucket, metric: string, since: Time, filter: map<string, string>)
    returns (found: seq<SeriesHistory>)
    requires IsKey(name)
    ensures found == Found(name, b, metric, since, filter)
  {
    hide Parse, IsKey, Selected, Decoded, Start;
    var prefix := metric + [NUL];
    found := [];
    if HasPrefix(name, prefix) {
      var id := ParseSeriesKey(name);
      var wanted := MatchesFilter(id, filter);
      if wanted {
        var points := Walk(b, since);
        found := [SeriesHistory(id, points)];
      }
    }
  }

  lemma NoAnswer(db: Db, metric: string, since: Time, filter: map<string, string>)
    ensures Answer(db, [], metric, since, filter) == []
  {}

  lemma AnswerStep(db: Db, names: seq<string>, n: string, metric: string, since: Time, filter: map<string, string>)
    requires n in db && IsKey(n) && forall m :: m in names ==> m in db && IsKey(m)
    ensures Answer(db, names + [n], metric, since, filter) ==
            Answer(db, names, metric, since, filter) + Found(n, db[n], metric, since, filter)
  {
    hide Found, IsKey;
    assert (names + [n])[..|names|] == names;
  }

  method Walk(b: Bucket, since: Time) returns (points: seq<Stored>)
    ensures points == Decoded(b[Start(b, since)..])
  {
    var at := if since != 0 then Seek(b, Encode(since)) else 0;
    ghost var start := at;
    points := [];
    while at < |b|
      invariant start <= at <= |b|
      invariant points == Decoded(b[start..at])
    {
      points := points + [Stored(DecodeSeconds(b[at].key), b[at].value)];
      assert b[start..at + 1] == b[start..at] + [b[at]];
      at := at + 1;
    }
    assert b[start..|b|] == b[start..];
  }

  // ----- what it means -----

  /** The points at or after an instant, to the second. */
  ghost function PointsFrom(ps: seq<Stored>, seconds: int): seq<Stored> {
    if ps == [] then []
    else (if ps[0].seconds < seconds then [] else [ps[0]]) + PointsFrom(ps[1..], seconds)
  }

  ghost predicate Ascending(ps: seq<Stored>) {
    forall i, j :: 0 <= i < j < |ps| ==> ps[i].seconds < ps[j].seconds
  }

  /** A key written for an instant at or after the epoch. */
  ghost predicate GoodKey(key: string) {
    0 <= DecodeSeconds(key) < TWO63 && key == Bytes(DecodeSeconds(key), 8)
  }

  ghost predicate GoodBucket(b: Bucket) {
    InOrder(b) && forall e :: e in b ==> GoodKey(e.key)
  }

  /** The name some well-formed series prints to. */
  ghost predicate GoodName(name: string) {
    IsKey(name) && WellFormed(Parse(name)) && KeyOf(Parse(name)) == name
  }

  /** Every name can be parsed, and every bucket holds ordered instants from the epoch on. */
  ghost predicate Readable(db: Db) {
    forall n :: n in db ==> IsKey(n) && GoodBucket(db[n])
  }

  /** What a query asks for: the names in the file that are hits. */
  ghost function Wanted(db: Db, metric: string, filter: map<string, string>): seq<string>
    requires forall n :: n in db ==> IsKey(n)
  {
    Hits(Sorted(db.Keys), metric, filter)
  }

  lemma GoodKeyOrder(a: string, b: string)
    requires GoodKey(a) && GoodKey(b)
    ensures Less(a, b) <==> DecodeSeconds(a) < DecodeSeconds(b)
  {
    Pow256Of8();
    hide Bytes, Pow256, Less, DecodeSeconds;
    BytesOrder(DecodeSeconds(a), DecodeSeconds(b), 8);
  }

  lemma EncodedIsGood(t: Time)
    requires 0 <= Unix(t) < TWO63
    ensures GoodKey(Encode(t)) && DecodeSeconds(Encode(t)) == Unix(t)
  {
    hide Bytes, Unix, DecodeSeconds;
    DecodeEncode(t);
  }

  lemma GoodKeyBelowPreEpoch(key: string, since: Time)
    requires GoodKey(key) && -TWO63 <= Unix(since) < 0
    ensures Less(key, Encode(since))
  {
    Pow256Of8();
    hide Bytes, Pow256, Less, DecodeSeconds, Unix;
    BytesOrder(DecodeSeconds(key), Unix(since) % TWO64, 8);
  }

  lemma {:induction false} FromIsPointsFrom(b: Bucket, since: Time)
    requires (forall e :: e in b ==> GoodKey(e.key)) && 0 <= Unix(since) < TWO63
    ensures Decoded(From(b, Encode(since))) == PointsFrom(Decoded(b), Unix(since))
  {
    hide GoodKey, Unix, Encode, DecodeSeconds, Less;
    if b != [] {
      FromIsPointsFrom(b[1..], since);
      EncodedIsGood(since);
      assert b[0] in b;
      GoodKeyOrder(b[0].key, Encode(since));
      assert Decoded(b)[1..] == Decoded(b[1..]);
    }
  }

  lemma {:induction false} NothingBelow(ps: seq<Stored>, seconds: int)
    requires forall i :: 0 <= i < |ps| ==> seconds <= ps[i].seconds
    ensures PointsFrom(ps, seconds) == ps
  {
    if ps != [] {
      NothingBelow(ps[1..], seconds);
    }
  }

  lemma {:induction false} AllBelow(b: Bucket, key: string)
    requires forall e :: e in b ==> Less(e.key, key)
    ensures Seek(b, key) == |b|
  {
    if b != [] {
      assert b[0] in b;
      AllBelow(b[1..], key);
    }
  }

  /** One bucket is answered faithfully, for every instant Go can express, exactly when that
      instant is the zero time or not before the epoch, or there is nothing to return: a
      non-zero instant before the epoch wraps and hides every stored point. */
  lemma WalkIsFaithfulIff(b: Bucket, since: Time)
    requires GoodBucket(b) && IsInt64(Unix(since))
    ensures Decoded(b[Start(b, since)..]) == PointsFrom(Decoded(b), Unix(since)) <==>
            since == 0 || since >= EPOCH || b == []
    ensures since != 0 && since < EPOCH ==> Decoded(b[Start(b, since)..]) == []
  {
    hide GoodKey, Encode, DecodeSeconds, Less, Seek;
    if since >= EPOCH {
      SeekMeaning(b, Encode(since));
      FromIsPointsFrom(b, since);
      assert since != 0;
    } else {
      var ps := Decoded(b);
      forall i | 0 <= i < |ps| ensures Unix(since) <= ps[i].seconds {
        assert b[i] in b;
        GoodKeyIsNotNegative(b[i].key);
      }
      NothingBelow(ps, Unix(since));
      if since == 0 {
        assert b[0..] == b;
      } else {
        forall e | e in b ensures Less(e.key, Encode(since)) {
          GoodKeyBelowPreEpoch(e.key, since);
        }
        AllBelow(b, Encode(since));
      }
    }
  }

  lemma GoodKeyIsNotNegative(key: string)
    requires GoodKey(key)
    ensures DecodeSeconds(key) >= 0
  {}

  lemma BucketIsAscending(b: Bucket)
    requires GoodBucket(b)
    ensures Ascending(Decoded(b))
  {
    hide GoodKey, DecodeSeconds, Less;
    forall i, j | 0 <= i < j < |b| ensures DecodeSeconds(b[i].key) < DecodeSeconds(b[j].key) {
      assert b[i] in b && b[j] in b;
      GoodKeyOrder(b[i].key, b[j].key);
    }
  }

  /** The answer has one entry per hit, in name order. */
  lemma {:induction false} AnswerMembers(db: Db, names: seq<string>, metric: string, since: Time,
                                         filter: map<string, string>)
    requires StrictlySorted(names) && forall n :: n in names ==> n in db && IsKey(n)
    ensures var out, hits := Answer(db, names, metric, since, filter), Hits(names, metric, filter);
            && |out| == |hits| && StrictlySorted(hits)
            && forall i :: 0 <= i < |hits| ==> hits[i] in names && out[i] == EntryOf(hits[i], db[hits[i]], since)
  {
    if names == [] {
      NoAnswer(db, metric, since, filter);
      assert Hits(names, metric, filter) == [];
    } else {
      hide Answer, Hits, Hit, EntryOf, IsKey, StrictlySorted, Less;
      var p, n := names[..|names| - 1], names[|names| - 1];
      assert names == p + [n];
      LastIsGreatest(p, n);
      AnswerMembers(db, p, metric, since, filter);
      AnswerStep(db, p, n, metric, since, filter);
      HitsStep(p, n, metric, filter);
      ExtendSorted(Hits(p, metric, filter), n);
    }
  }

  lemma HitsStep(names: seq<string>, n: string, metric: string, filter: map<string, string>)
    requires IsKey(n) && forall m :: m in names ==> IsKey(m)
    ensures Hits(names + [n], metric, filter) ==
            Hits(names, metric, filter) + if Hit(n, metric, filter) then [n] else []
  {
    hide Hit, IsKey;
    assert (names + [n])[..|names|] == names;
  }

  lemma LastIsGreatest(p: seq<string>, n: string)
    requires StrictlySorted(p + [n])
    ensures StrictlySorted(p) && forall m :: m in p ==> Less(m, n)
  {
    hide Less;
    var names := p + [n];
    assert forall i :: 0 <= i < |p| ==> names[i] == p[i];
    assert names[|p|] == n;
  }

  lemma ExtendSorted(a: seq<string>, n: string)
    requires StrictlySorted(a) && forall m :: m in a ==> Less(m, n)
    ensures StrictlySorted(a + [n]) && a + [] == a
  {
    hide Less;
  }

  /** The cursor can express this lower bound: none, or an instant not before the epoch. */
  predicate Expressible(since: Time) { since == 0 || since >= EPOCH }

  /** Everything on record under a name, oldest first. */
  ghost function StoredIn(db: Db, name: string): seq<Stored> {
    if name in db then Decoded(db[name]) else []
  }

  /** For every instant, the answer has exactly the buckets whose parsed metric is the one asked
      for and whose parsed identity matches the filter, each once and in name order; and each
      with exactly its points at or after `since`, ascending, or with none when `since` is a
      non-zero instant before the epoch. */
  lemma QueryMeaning(db: Db, metric: string, since: Time, filter: map<string, string>)
    requires Readable(db) && NulFree(metric) && IsInt64(Unix(since))
    ensures var out, hits := Answer(db, Sorted(db.Keys), metric, since, filter), Wanted(db, metric, filter);
            && StrictlySorted(hits)
            && (forall n :: n in hits <==> n in db && Parse(n).metric == metric && Passes(Parse(n), filter))
            && |out| == |hits|
            && forall i :: 0 <= i < |hits| ==>
                 && out[i].id == Parse(hits[i]) && Ascending(out[i].points)
                 && out[i].points == if Expressible(since) then PointsFrom(StoredIn(db, hits[i]), Unix(since)) else []
  {
    hide Start, Parse, IsKey, Decoded, GoodBucket, Answer, Hits, PointsFrom, Ascending, Unix, Sorted, Less,
         Selected, Passes;
    var names, hits := Sorted(db.Keys), Wanted(db, metric, filter);
    AnswerMembers(db, names, metric, since, filter);
    forall n | n in db ensures Hit(n, metric, filter) <==> Parse(n).metric == metric && Passes(Parse(n), filter) {
      PrefixSelectsMetric(n, metric);
      SelectedIsPasses(Parse(n), filter);
    }
    forall i | 0 <= i < |hits|
      ensures var ps := Decoded(db[hits[i]][Start(db[hits[i]], since)..]);
              && Ascending(ps)
              && ps == if Expressible(since) then PointsFrom(StoredIn(db, hits[i]), Unix(since)) else []
    {
      assert hits[i] in hits;
      var b := db[hits[i]];
      WalkIsFaithfulIff(b, since);
      SuffixIsAscending(b, Start(b, since));
    }
  }

  /** Every entry of the answer has exactly its bucket's points from this second on. */
  ghost predicate Faithful(db: Db, hits: seq<string>, out: seq<SeriesHistory>, seconds: int) {
    |out| == |hits| && forall i :: 0 <= i < |hits| ==> out[i].points == PointsFrom(StoredIn(db, hits[i]), seconds)
  }

  ghost predicate NothingStored(db: Db, hits: seq<string>) {
    forall n :: n in hits ==> StoredIn(db, n) == []
  }

  /** A query is answered faithfully exactly when its lower bound is zero or not before the
      epoch, or there is nothing to return. */
  lemma QueryIsFaithfulIff(db: Db, metric: string, since: Time, filter: map<string, string>)
    requires Readable(db) && NulFree(metric) && IsInt64(Unix(since))
    ensures var out, hits := Answer(db, Sorted(db.Keys), metric, since, filter), Wanted(db, metric, filter);
            Faithful(db, hits, out, Unix(since)) <==> Expressible(since) || NothingStored(db, hits)
  {
    hide Parse, IsKey, Decoded, GoodBucket, Answer, Wanted, PointsFrom, Ascending, Unix, Sorted, Passes,
         StrictlySorted;
    QueryMeaning(db, metric, since, filter);
    var out, hits := Answer(db, Sorted(db.Keys), metric, since, filter), Wanted(db, metric, filter);
    if !Expressible(since) {
      forall i | 0 <= i < |hits| ensures PointsFrom(StoredIn(db, hits[i]), Unix(since)) == StoredIn(db, hits[i]) {
        assert hits[i] in hits;
        AllAfterEpoch(db[hits[i]], since);
      }
      if Faithful(db, hits, out, Unix(since)) {
        forall n | n in hits ensures StoredIn(db, n) == [] {
          var i :| 0 <= i < |hits| && hits[i] == n;
        }
      } else {
        var i :| 0 <= i < |hits| && out[i].points != PointsFrom(StoredIn(db, hits[i]), Unix(since));
        assert hits[i] in hits;
      }
    }
  }

  /** Where every bucket is the printed identity of a well-formed series, that is: exactly the
      stored series with this metric that match the filter. */
  lemma SeriesMeaning(db: Db, metric: string, since: Time, filter: map<string, string>, id: SeriesId)
    requires Readable(db) && (forall n :: n in db ==> GoodName(n)) && NulFree(metric) && IsInt64(Unix(since))
    requires WellFormed(id)
    ensures var out := Answer(db, Sorted(db.Keys), metric, since, filter);
            && ((exists h :: h in out && h.id == id) <==>
                  KeyOf(id) in db && id.metric == metric && Passes(id, filter))
            && (forall h :: h in out && h.id == id ==>
                  h.points ==
                  if Expressible(since) then PointsFrom(StoredIn(db, KeyOf(id)), Unix(since)) else [])
  {
    hide Parse, IsKey, Decoded, GoodBucket, Answer, Wanted, PointsFrom, Ascending, Unix, Sorted, Passes, KeyOf,
         WellFormed, StrictlySorted;
    QueryMeaning(db, metric, since, filter);
    RoundTripIff(id);
    var out, hits := Answer(db, Sorted(db.Keys), metric, since, filter), Wanted(db, metric, filter);
    forall h | h in out && h.id == id
      ensures KeyOf(id) in hits
      ensures h.points == if Expressible(since) then PointsFrom(StoredIn(db, KeyOf(id)), Unix(since)) else []
    {
      var i :| 0 <= i < |out| && out[i] == h;
      assert hits[i] in hits && KeyOf(Parse(hits[i])) == hits[i];
    }
    if KeyOf(id) in hits {
      var i :| 0 <= i < |hits| && hits[i] == KeyOf(id);
      assert out[i] in out && out[i].id == id;
    }
  }

  lemma AllAfterEpoch(b: Bucket, since: Time)
    requires GoodBucket(b) && since < EPOCH
    ensures PointsFrom(Decoded(b), Unix(since)) == Decoded(b)
  {
    hide DecodeSeconds, GoodKey;
    assert Unix(since) < 0;
    forall i | 0 <= i < |b| ensures 0 <= Decoded(b)[i].seconds {
      GoodKeyIsNotNegative(b[i].key);
    }
    NothingBelow(Decoded(b), Unix(since));
  }

  lemma SuffixIsAscending(b: Bucket, k: nat)
    requires GoodBucket(b) && k <= |b|
    ensures Ascending(Decoded(b[k..]))
  {
    forall e | e in b[k..] ensures e in b {}
    BucketIsAscending(b[k..]);
  }

  /** With a NUL in the requested metric, no returned series has that metric. */
  lemma NulMetricQuery(db: Db, metric: string, since: Time, filter: map<string, string>)
    requires !NulFree(metric) && forall n :: n in db ==> IsKey(n)
    ensures forall h :: h in Answer(db, Sorted(db.Keys), metric, since, filter) ==> h.id.metric != metric
  {
    hide Parse, IsKey, Decoded, Start, Answer, Hits, Less;
    var names, hits := Sorted(db.Keys), Wanted(db, metric, filter);
    var out := Answer(db, names, metric, since, filter);
    AnswerMembers(db, names, metric, since, filter);
    forall h | h in out ensures h.id.metric != metric {
      var i :| 0 <= i < |out| && out[i] == h;
      assert hits[i] in hits;
      NulMetricNeverMatches(hits[i], metric);
    }
  }
}
