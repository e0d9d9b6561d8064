/** The retry window (internal/queue/queue.go, Backoff.For): a 64-bit shift with a cap. */
module Backoffs {
  import opened Timestamps

  /** x·2^k, without any wrap. */
  function Shl(x: int, k: nat): int {
    if k == 0 then x else 2 * Shl(x, k - 1)
  }

  function Min(a: int, b: int): int { if a < b then a else b }

  datatype Backoff = Backoff(base: int, max: int) {
    ghost predicate Valid() { 1 <= base < TWO63 && 0 <= max < TWO63 }

    /** The window of an attempt: `b.Base << attempt` on int64, capped. */
    function Window(attempt: int): int {
      if attempt > 62 then max
      else
        var shifted := Wrap64(Shl(base, if attempt < 0 then 0 else attempt));
        if shifted > max || shifted <= 0 then max else shifted
    }

    /** time.Duration(rnd * float64(window)): the fraction is cut off. */
    function For(attempt: int, rnd: real): int {
      var x := rnd * Window(attempt) as real;
      if x < 0.0 then -((-x).Floor) else x.Floor
    }

    /** Full jitter's window: the doubled base, capped. */
    function Ideal(attempt: nat): int { Min(max, Shl(base, attempt)) }

    /** Doublings up to the cap stay below the int64 limit. */
    ghost predicate CapBeforeOverflow() {
      forall k: nat :: Shl(1, k) <= max ==> Shl(base, k) < TWO63
    }
  }

  // ----- shifts -----

  lemma {:induction false} ShlOrder(x: int, y: int, k: nat)
    ensures Shl(x, k) - Shl(y, k) == Shl(x - y, k)
    ensures x <= y ==> Shl(x, k) <= Shl(y, k)
    ensures x <= 0 ==> Shl(x, k) <= 0
    ensures x >= 0 ==> Shl(x, k) >= x
  {
    if k > 0 { ShlOrder(x, y, k - 1); }
  }

  lemma {:induction false} ShlGrows(x: int, i: nat, j: nat)
    requires 0 <= x && i <= j
    ensures 0 <= Shl(x, i) <= Shl(x, j)
  {
    if j > 0 {
      if i < j {
        ShlGrows(x, i, j - 1);
      } else {
        ShlGrows(x, i - 1, j - 1);
      }
    }
  }

  lemma {:induction false} ShlSum(x: int, a: nat, b: nat)
    ensures Shl(x, a + b) == Shl(Shl(x, a), b)
  {
    if b > 0 { ShlSum(x, a, b - 1); }
  }

  lemma ShlByte(x: int)
    ensures Shl(x, 8) == 256 * x && Shl(x, 7) == 128 * x
  {
    assert Shl(x, 1) == 2 * x;
    assert Shl(x, 2) == 4 * x;
    assert Shl(x, 3) == 8 * x;
    assert Shl(x, 4) == 16 * x;
    assert Shl(x, 5) == 32 * x;
    assert Shl(x, 6) == 64 * x;
    assert Shl(x, 7) == 128 * x;
  }

  lemma ShlWide(x: int)
    ensures Shl(x, 32) == 0x1_0000_0000 * x && Shl(x, 63) == TWO63 * x && Shl(x, 64) == TWO64 * x
  {
    hide Shl;
    ShlByte(x);
    ShlSum(x, 8, 8);
    ShlByte(Shl(x, 8));
    ShlSum(x, 16, 8);
    ShlByte(Shl(x, 16));
    ShlSum(x, 24, 8);
    ShlByte(Shl(x, 24));
    ShlSum(x, 32, 8);
    ShlByte(Shl(x, 32));
    ShlSum(x, 40, 8);
    ShlByte(Shl(x, 40));
    ShlSum(x, 48, 8);
    ShlByte(Shl(x, 48));
    ShlSum(x, 56, 7);
    ShlSum(x, 56, 8);
    ShlByte(Shl(x, 56));
  }

  /** Wrapping a multiple of 2^k leaves a multiple of 2^k: a positive one is at least 2^k. */
  lemma WrappedShift(x: int, k: nat)
    requires k <= 64
    ensures Wrap64(Shl(x, k)) > 0 ==> Wrap64(Shl(x, k)) >= Shl(1, k)
  {
    hide Shl;
    var n := Shl(x, k);
    var w := Wrap64(n);
    var d := if n % TWO64 < TWO63 then n / TWO64 else n / TWO64 + 1;
    assert w == n - TWO64 * d;
    ShlWide(d);
    ShlSum(d, 64 - k, k);
    assert 64 - k + k == 64;
    var m := x - Shl(d, 64 - k);
    ShlOrder(x, Shl(d, 64 - k), k);
    assert w == Shl(m, k);
    ShlOrder(m, m, k);
    ShlOrder(1, m, k);
  }

  // ----- windows -----

  /** One attempt's window is the ideal one exactly unless the true product has left int64 and
      wrapped back to something strictly between zero and the cap. */
  lemma WindowExactIff(b: Backoff, attempt: nat)
    requires b.Valid()
    ensures b.Window(attempt) == b.Ideal(attempt) <==>
            !(attempt <= 62 && Shl(b.base, attempt) >= TWO63 && 0 < Wrap64(Shl(b.base, attempt)) < b.max)
  {
    hide Shl;
    ShlOrder(b.base, b.base, attempt);
    if attempt > 62 {
      ShlWide(b.base);
      ShlGrows(b.base, 63, attempt);
    }
  }

  /** With the cap reached before the overflow, every attempt gets exactly the ideal window. */
  lemma WindowIsIdeal(b: Backoff, attempt: nat)
    requires b.Valid() && b.CapBeforeOverflow()
    ensures b.Window(attempt) == b.Ideal(attempt)
  {
    hide Shl;
    if attempt <= 62 {
      WrappedShift(b.base, attempt);
    }
    WindowExactIff(b, attempt);
  }

  /** The condition matters: with a base of 2^40 + 1 and a cap of 2^41, attempt 24 gets 2^24
      nanoseconds, 17ms in place of 37 minutes, though attempts 1 to 23 got the cap. */
  lemma OverflowShrinksWindow()
    ensures var b := Backoff(0x100_0000_0001, 0x200_0000_0000);
            b.Valid() && b.Window(24) == 0x100_0000 && b.Ideal(24) == b.max == b.Window(23)
  {
    ShlSum(0x100_0000_0001, 8, 8);
    ShlSum(0x100_0000_0001, 16, 7);
    ShlSum(0x100_0000_0001, 16, 8);
    hide Shl;
    ShlByte(0x100_0000_0001);
    ShlByte(Shl(0x100_0000_0001, 8));
    ShlByte(Shl(0x100_0000_0001, 16));
  }

  /** The agent's own setting, 500ms doubling up to 30s, is safe: 2^34 is the last power of
      two below the cap, and 500ms·2^34 is still below 2^63. */
  lemma AgentBackoffIsSafe()
    ensures var b := Backoff(SECOND / 2, 30 * SECOND); b.Valid() && b.CapBeforeOverflow()
  {
    var b := Backoff(SECOND / 2, 30 * SECOND);
    forall k: nat | Shl(1, k) <= b.max ensures Shl(b.base, k) < TWO63 {
      Shl34(1);
      Shl34(b.base);
      hide Shl;
      if 35 <= k { ShlGrows(1, 35, k); }
      ShlGrows(b.base, k, 34);
    }
  }

  lemma Shl34(x: int)
    ensures Shl(x, 34) == 0x4_0000_0000 * x && Shl(x, 35) == 0x8_0000_0000 * x
  {
    ShlWide(x);
    assert Shl(x, 33) == 2 * Shl(x, 32);
    assert Shl(x, 34) == 2 * Shl(x, 33);
  }

  /** Windows never shrink from one attempt to the next. */
  lemma WindowGrows(b: Backoff, i: nat, j: nat)
    requires b.Valid() && b.CapBeforeOverflow() && i <= j
    ensures b.Window(i) <= b.Window(j) <= b.max
  {
    WindowIsIdeal(b, i);
    WindowIsIdeal(b, j);
    ShlGrows(b.base, i, j);
    hide Shl, Backoff.Window;
  }

  /** A negative attempt counts as the first one. */
  lemma NegativeIsFirst(b: Backoff, attempt: int, rnd: real)
    requires attempt < 0
    ensures b.Window(attempt) == b.Window(0) && b.For(attempt, rnd) == b.For(0, rnd)
  {
    NegativeWindow(b, attempt);
    hide Backoff.Window;
  }

  lemma NegativeWindow(b: Backoff, attempt: int)
    requires attempt < 0
    ensures b.Window(attempt) == b.Window(0)
  {
    hide Shl, Wrap64;
  }

  lemma ForWithinWindow(b: Backoff, attempt: nat, rnd: real)
    requires b.Valid() && b.CapBeforeOverflow() && 0.0 <= rnd <= 1.0
    ensures 0 <= b.For(attempt, rnd) <= b.Ideal(attempt)
  {
    hide *;
    IdealIsWindow(b, attempt);
    ForIsFraction(b, attempt, rnd);
  }

  lemma IdealIsWindow(b: Backoff, attempt: nat)
    requires b.Valid() && b.CapBeforeOverflow()
    ensures 0 <= b.Window(attempt) == b.Ideal(attempt)
  {
    WindowIsIdeal(b, attempt);
    ShlGrows(b.base, attempt, attempt);
    hide Shl, Backoff.Window, Backoff.CapBeforeOverflow;
  }

  lemma ForIsFraction(b: Backoff, attempt: nat, rnd: real)
    requires 0.0 <= rnd <= 1.0 && 0 <= b.Window(attempt)
    ensures 0 <= b.For(attempt, rnd) <= b.Window(attempt)
  {
    hide Shl, Backoff.Window;
    var w := b.Window(attempt);
    Scaled(rnd, w as real);
    FloorWithin(rnd * w as real, w);
  }

  /** The delay is the drawn fraction of the ideal window, cut to whole nanoseconds. */
  lemma ForIsExact(b: Backoff, attempt: nat, rnd: real)
    requires b.Valid() && b.CapBeforeOverflow() && 0.0 <= rnd <= 1.0
    ensures b.For(attempt, rnd) as real <= rnd * b.Ideal(attempt) as real < b.For(attempt, rnd) as real + 1.0
  {
    IdealIsWindow(b, attempt);
    hide Shl, Backoff.Window, Backoff.Ideal, Backoff.CapBeforeOverflow;
    Scaled(rnd, b.Window(attempt) as real);
    FloorBelow(rnd * b.Window(attempt) as real);
  }

  lemma FloorBelow(x: real)
    ensures x.Floor as real <= x < x.Floor as real + 1.0
  {}

  lemma FloorWithin(x: real, w: int)
    requires 0.0 <= x <= w as real
    ensures 0 <= x.Floor <= w
  {
    assert (x.Floor as real) <= x;
  }

  lemma Scaled(rnd: real, w: real)
    requires 0.0 <= rnd <= 1.0 && w >= 0.0
    ensures 0.0 <= rnd * w <= w
  {
    assert (1.0 - rnd) * w >= 0.0;
    assert (1.0 - rnd) * w == w - rnd * w;
  }

  /** The sleeps before the retries 1..n, with one random number each. */
  function TotalSleep(b: Backoff, rnd: nat -> real, n: nat): int {
    if n == 0 then 0 else TotalSleep(b, rnd, n - 1) + b.For(n - 1, rnd(n - 1))
  }

  /** n sleeps take at most base·(2^n - 1), and at most n times the cap. */
  lemma {:induction false} SleepBound(b: Backoff, rnd: nat -> real, n: nat)
    requires b.Valid() && b.CapBeforeOverflow() && forall i :: 0.0 <= rnd(i) <= 1.0
    ensures 0 <= TotalSleep(b, rnd, n) <= Shl(b.base, n) - b.base
    ensures TotalSleep(b, rnd, n) <= n * b.max
  {
    hide Backoff.For, Backoff.CapBeforeOverflow;
    if n > 0 {
      SleepBound(b, rnd, n - 1);
      ForWithinWindow(b, n - 1, rnd(n - 1));
      OneMore(n - 1, b.max);
    }
  }

  /** The bound is met: with the whole window drawn each time, and the cap not reached yet, n sleeps
      take exactly base·(2^n - 1). */
  lemma {:induction false} SleepBoundIsTight(b: Backoff, rnd: nat -> real, n: nat)
    requires b.Valid() && b.CapBeforeOverflow() && forall i :: rnd(i) == 1.0
    requires n > 0 ==> Shl(b.base, n - 1) <= b.max
    ensures TotalSleep(b, rnd, n) == Shl(b.base, n) - b.base
  {
    hide Backoff.For, Backoff.CapBeforeOverflow;
    if n > 0 {
      ShlGrows(b.base, if n > 1 then n - 2 else 0, n - 1);
      SleepBoundIsTight(b, rnd, n - 1);
      ForIsExact(b, n - 1, 1.0);
      assert b.For(n - 1, 1.0) == b.Ideal(n - 1);
    }
  }

  lemma OneMore(n: nat, max: int)
    ensures (n + 1) * max == n * max + max
  {}
}
