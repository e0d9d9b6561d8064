/** The ?range= parameter (internal/httpapi/server.go, parseRange) and what a query over it
    returns. */
module Range {
  import opened Text
  import opened Hardware
  import opened SeriesKeys
  import opened Timestamps
  import opened HistoryStored
  import opened HistoryQuery

  const HOUR := 3600 * SECOND
  const MAX_RANGE_DAYS := 36_500

  /** strconv.Atoi: an optional sign and decimal digits, within int64. */
  function Atoi(s: string): Option<int> {
    var signed := s != "" && (s[0] == '-' || s[0] == '+');
    var digits := if signed then s[1..] else s;
    if digits == "" || !AllDigits(digits) then None
    else
      var n: int := if signed && s[0] == '-' then 0 - DigitsValue(digits) else DigitsValue(digits);
      if IsInt64(n) then Some(n) else None
  }

  /** -time.Duration(n) * 24 * time.Hour, wrapping at each product. */
  function DayOffset(n: int): int { Wrap64(Wrap64(Wrap64(-n) * 24) * HOUR) }

  /** The instant a range reaches back to; None is an error, Some(0) means no lower bound.
      time.ParseDuration is the parameter `duration`. */
  function ParseRange(s: string, now: Time, duration: string -> Option<int>): Option<Time> {
    if s == "" then Some(0)
    else if s[|s| - 1] == 'd' then
      match Atoi(s[..|s| - 1])
      case None => None
      case Some(n) => if n <= 0 || n > MAX_RANGE_DAYS then None else Some(now + DayOffset(n))
    else
      match duration(s)
      case None => None
      case Some(d) => if d <= 0 || d > MAX_RANGE_DAYS * 24 * HOUR then None else Some(now - d)
  }

  /** The wrapping day product is exact up to 106751 days and wrong for every larger count. */
  lemma DayOffsetExactIff(n: nat)
    requires IsInt64(n)
    ensures DayOffset(n) == -(n * DAY) <==> n <= 106_751
  {
    var k: int := n;
    WrapIsInt64(Wrap64(Wrap64(-k) * 24) * HOUR);
    if n <= 106_751 {
      WrapIsIdentity(-k);
      WrapIsIdentity(-k * 24);
      WrapIsIdentity(-k * 24 * HOUR);
    }
  }

  lemma WrapIsInt64(n: int)
    ensures IsInt64(Wrap64(n))
  {}

  lemma WrapIsIdentity(n: int)
    requires IsInt64(n)
    ensures Wrap64(n) == n
  {}

  lemma AtoiOfDecimal(n: nat)
    ensures Atoi(Decimal(n)) == if IsInt64(n) then Some(n) else None
  {
    var s := Decimal(n);
    assert IsDigit(s[0]);
    DecimalValue(n);
  }

  /** "Nd" is accepted exactly for 1 to 36500 days and reaches back N times 24 hours: within
      that bound the int64 product cannot overflow. */
  lemma DaysRange(n: nat, now: Time, duration: string -> Option<int>)
    ensures ParseRange(Decimal(n) + "d", now, duration) ==
            if 1 <= n <= MAX_RANGE_DAYS then Some(now - n * DAY) else None
  {
    var s := Decimal(n) + "d";
    assert s[..|s| - 1] == Decimal(n) && s[|s| - 1] == 'd';
    AtoiOfDecimal(n);
    if 1 <= n <= MAX_RANGE_DAYS {
      DayOffsetExactIff(n);
    }
  }

  /** The text of a day count: decimal digits, with or without a plus sign, and a "d". */
  ghost predicate DayText(s: string, digits: string) {
    digits != "" && AllDigits(digits) && (s == digits + "d" || s == "+" + digits + "d")
  }

  lemma AtoiOfDigits(digits: string)
    requires digits != "" && AllDigits(digits)
    ensures Atoi(digits) == Atoi("+" + digits) ==
            if IsInt64(DigitsValue(digits)) then Some(DigitsValue(digits)) else None
  {
    assert IsDigit(digits[0]);
    assert ("+" + digits)[1..] == digits;
  }

  lemma AtoiIsPositive(days: string) returns (digits: string)
    requires Atoi(days).Some? && Atoi(days).value >= 1
    ensures digits != "" && AllDigits(digits) && DigitsValue(digits) == Atoi(days).value
    ensures days == digits || days == "+" + digits
  {
    digits := if days[0] == '-' || days[0] == '+' then days[1..] else days;
    assert days[0] == '+' ==> days == "+" + digits;
  }

  lemma DaysOf(s: string, digits: string)
    requires DayText(s, digits)
    ensures s[..|s| - 1] == digits || s[..|s| - 1] == "+" + digits
  {
    assert (digits + "d")[..|digits|] == digits;
    assert ("+" + digits + "d")[..|digits| + 1] == "+" + digits;
  }

  /** A text that ends in "d" is accepted, and reaches back to t, exactly when it is a count of 1 to
      36500 days and t lies that many days back. */
  lemma DaysTextIff(s: string, now: Time, duration: string -> Option<int>, t: Time)
    requires s != "" && s[|s| - 1] == 'd'
    ensures ParseRange(s, now, duration) == Some(t) <==>
            exists digits :: DayText(s, digits) && 1 <= DigitsValue(digits) <= 36_500 &&
                             t == now - DigitsValue(digits) * (24 * 3600 * 1_000_000_000)
  {
    hide DayOffset, AllDigits, DigitsValue, Atoi;
    var days := s[..|s| - 1];
    assert s == days + "d";
    if ParseRange(s, now, duration) == Some(t) {
      var digits := AtoiIsPositive(days);
      DayOffsetExactIff(DigitsValue(digits));
      assert DayText(s, digits);
    }
    forall digits | DayText(s, digits) && 1 <= DigitsValue(digits) <= 36_500
      ensures ParseRange(s, now, duration) == Some(now - DigitsValue(digits) * DAY)
    {
      DaysOf(s, digits);
      AtoiOfDigits(digits);
      DayOffsetExactIff(DigitsValue(digits));
    }
  }

  /** Any other text is accepted, and reaches back to t, exactly when time.ParseDuration reads it as
      the time from t to now, and that is more than nothing and at most 36500 days. */
  lemma DurationTextIff(s: string, now: Time, duration: string -> Option<int>, t: Time)
    requires s != "" && s[|s| - 1] != 'd'
    ensures ParseRange(s, now, duration) == Some(t) <==>
            duration(s) == Some(now - t) && 0 < now - t <= 36_500 * 24 * 3600 * 1_000_000_000
  {
    hide Atoi, DayOffset;
  }

  /** Whatever the string, an accepted range reaches back more than nothing and at most 36500 days. */
  lemma AcceptedRanges(s: string, now: Time, duration: string -> Option<int>)
    ensures s == "" ==> ParseRange(s, now, duration) == Some(0)
    ensures s != "" && ParseRange(s, now, duration).Some? ==>
              0 < now - ParseRange(s, now, duration).value <= MAX_RANGE_DAYS * DAY
  {
    hide Atoi, DayOffset;
    if s != "" && s[|s| - 1] == 'd' {
      var a := Atoi(s[..|s| - 1]);
      if a.Some? && 1 <= a.value <= MAX_RANGE_DAYS {
        DayOffsetExactIff(a.value);
      }
    }
  }

  /** Asking for the last N days yields, of every series asked for, exactly its points of the
      last N days, exactly when they do not reach back before 1970 or nothing is stored; when
      they do, every series asked for is returned without a point. */
  lemma LastDaysQueryIff(db: Db, metric: string, filter: map<string, string>, n: nat, now: Time,
                         duration: string -> Option<int>)
    requires Readable(db) && NulFree(metric) && 1 <= n <= MAX_RANGE_DAYS
    requires now >= EPOCH && Unix(now) < TWO63
    ensures var range, hits := ParseRange(Decimal(n) + "d", now, duration), Wanted(db, metric, filter);
            && range == Some(now - n * DAY)
            && var out := Answer(db, Sorted(db.Keys), metric, range.value, filter);
               && (Faithful(db, hits, out, Unix(now - n * DAY)) <==>
                   now - n * DAY >= EPOCH || NothingStored(db, hits))
               && |out| == |hits|
               && (now - n * DAY < EPOCH ==> forall i :: 0 <= i < |out| ==> out[i].points == [])
  {
    hide Decimal, ParseRange, Readable, Answer, Wanted, Faithful, NothingStored, NulFree, Sorted, Unix, StoredIn,
         Passes, Parse, IsKey, StrictlySorted;
    var since := now - n * DAY;
    DaysRange(n, now, duration);
    DaysAgo(n, now);
    QueryIsFaithfulIff(db, metric, since, filter);
    QueryMeaning(db, metric, since, filter);
  }

  lemma DaysAgo(n: nat, now: Time)
    requires n <= MAX_RANGE_DAYS && now >= EPOCH && Unix(now) < TWO63
    ensures now - n * DAY > 0 && IsInt64(Unix(now - n * DAY))
  {
    UnixOrder(now - n * DAY, now);
  }

  /** On 2026-01-01, asking for the last 36500 days, the longest accepted range, returns each
      series asked for without a point, although each of its points lies within that range. */
  lemma LongestRangeHidesAll(db: Db, metric: string, filter: map<string, string>, duration: string -> Option<int>)
    returns (since: Time)
    requires Readable(db) && NulFree(metric)
    ensures ParseRange("36500d", EPOCH + 20_454 * DAY, duration) == Some(since)
    ensures var out := Answer(db, Sorted(db.Keys), metric, since, filter);
            |out| == |Wanted(db, metric, filter)| && forall i :: 0 <= i < |out| ==> out[i].points == []
    ensures forall n :: n in db ==> PointsFrom(StoredIn(db, n), Unix(since)) == StoredIn(db, n)
  {
    hide Decimal, ParseRange, Decoded, GoodBucket, PointsFrom, Answer, Wanted, Sorted, NulFree, Faithful, NothingStored,
         IsKey;
    var now := EPOCH + 20_454 * DAY;
    since := now - 36_500 * DAY;
    LongestRangeText();
    LastDaysQueryIff(db, metric, filter, 36_500, now, duration);
    forall n | n in db ensures PointsFrom(StoredIn(db, n), Unix(since)) == StoredIn(db, n) {
      AllAfterEpoch(db[n], since);
    }
  }

  lemma LongestRangeText()
    ensures Decimal(36_500) + "d" == "36500d"
  {
    assert Decimal(36) == Decimal(3) + "6";
    assert Decimal(365) == Decimal(36) + "5";
    assert Decimal(3_650) == Decimal(365) + "0";
    assert Decimal(36_500) == Decimal(3_650) + "0";
    assert Decimal(3) == "3";
  }
}
