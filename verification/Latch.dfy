/** The hysteresis latch kept for one (rule, device) pair: what it is, and what it
    means over a whole history of readings (internal/event/event.go). */
module Latch {
  import opened Text
  import opened Hardware

  /** One matching sample, reduced to what the latch looks at. */
  datatype Reading = Reading(breach: bool, at: int)

  /** A phase change, before it is dressed up as an event. */
  datatype Transition = Transition(phase: Phase, number: nat, startedAt: int, endedAt: Option<int>)

  datatype State = State(active: bool, breachRun: nat, clearRun: nat, number: nat, startedAt: int)

  const INITIAL := State(false, 0, 0, 0, 0)

  /** The clamped window lengths of a rule. */
  datatype Windows = Windows(enterFor: nat, exitFor: nat) {
    ghost predicate Valid() { enterFor >= 1 && exitFor >= 1 }
  }

  /** One reading, one step. */
  function Step(w: Windows, l: State, r: Reading): (State, Option<Transition>) {
    var breachRun := if r.breach then l.breachRun + 1 else 0;
    var clearRun := if r.breach then 0 else l.clearRun + 1;
    if !l.active && breachRun >= w.enterFor then
      (State(true, breachRun, clearRun, l.number + 1, r.at),
       Some(Transition(Enter, l.number + 1, r.at, None)))
    else if l.active && clearRun >= w.exitFor then
      (State(false, breachRun, clearRun, l.number + 1, l.startedAt),
       Some(Transition(Exit, l.number + 1, l.startedAt, Some(r.at))))
    else
      (l.(breachRun := breachRun, clearRun := clearRun), None)
  }

  /** The state after a history, oldest reading first. */
  function Run(w: Windows, h: seq<Reading>): State {
    if h == [] then INITIAL else Step(w, Run(w, h[..|h| - 1]), h[|h| - 1]).0
  }

  lemma RunStep(w: Windows, h: seq<Reading>, r: Reading)
    ensures Run(w, h + [r]) == Step(w, Run(w, h), r).0
  {
    assert (h + [r])[..|h|] == h;
  }

  /** The transitions a history causes, in order. */
  function Transitions(w: Windows, h: seq<Reading>): seq<Transition> {
    if h == [] then []
    else
      var before := h[..|h| - 1];
      match Step(w, Run(w, before), h[|h| - 1]).1
      case None => Transitions(w, before)
      case Some(t) => Transitions(w, before) + [t]
  }

  // ----- the meaning of the two counters and of `active` -----

  /** k is the length of the longest suffix of h whose readings are all `breach`. */
  ghost predicate LongestSuffix(h: seq<Reading>, breach: bool, k: nat) {
    && k <= |h|
    && (forall i :: |h| - k <= i < |h| ==> h[i].breach == breach)
    && (k < |h| ==> h[|h| - k - 1].breach != breach)
  }

  /** A full window of n consecutive readings that are all `breach` ends at index i. */
  ghost predicate WindowEnds(h: seq<Reading>, breach: bool, n: nat, i: nat) {
    && i < |h|
    && n <= i + 1
    && forall j :: i + 1 - n <= j <= i ==> h[j].breach == breach
  }

  /** The last full breach window ends later than the last full clear window. */
  ghost predicate ShouldBeActive(w: Windows, h: seq<Reading>) {
    exists i: nat :: WindowEnds(h, true, w.enterFor, i) && NoWindowFrom(w, h, i)
  }

  ghost predicate NoWindowFrom(w: Windows, h: seq<Reading>, i: nat) {
    forall j: nat :: i <= j ==> !WindowEnds(h, false, w.exitFor, j)
  }

  lemma WindowEndsPrefix(h: seq<Reading>, breach: bool, n: nat, i: nat)
    requires 0 < |h| && i < |h| - 1
    ensures WindowEnds(h, breach, n, i) <==> WindowEnds(h[..|h| - 1], breach, n, i)
  {
    var p := h[..|h| - 1];
    if WindowEnds(h, breach, n, i) {
      assert forall j :: i + 1 - n <= j <= i ==> p[j] == h[j];
    }
    if WindowEnds(p, breach, n, i) {
      assert forall j :: i + 1 - n <= j <= i ==> p[j] == h[j];
    }
  }

  lemma {:induction false} CountersAreSuffixes(w: Windows, h: seq<Reading>)
    ensures LongestSuffix(h, true, Run(w, h).breachRun)
    ensures LongestSuffix(h, false, Run(w, h).clearRun)
  {
    if h != [] {
      CountersAreSuffixes(w, h[..|h| - 1]);
    }
  }

  /** A window ends at the last index exactly when the matching counter has reached its length. */
  lemma WindowEndsAtLast(w: Windows, h: seq<Reading>)
    requires w.Valid() && h != []
    ensures WindowEnds(h, true, w.enterFor, |h| - 1) <==> Run(w, h).breachRun >= w.enterFor
    ensures WindowEnds(h, false, w.exitFor, |h| - 1) <==> Run(w, h).clearRun >= w.exitFor
  {
    CountersAreSuffixes(w, h);
  }

  /** The latch theorem: `active` says that the last full breach window is later than
      the last full clear window. */
  lemma {:induction false} ActiveMeaning(w: Windows, h: seq<Reading>)
    requires w.Valid()
    ensures Run(w, h).active <==> ShouldBeActive(w, h)
  {
    if h != [] {
      var p := h[..|h| - 1];
      var last := |h| - 1;
      ActiveMeaning(w, p);
      WindowEndsAtLast(w, h);
      forall i: nat, breach, n: nat | i < last
        ensures WindowEnds(h, breach, n, i) <==> WindowEnds(p, breach, n, i)
      {
        WindowEndsPrefix(h, breach, n, i);
      }
      if WindowEnds(h, true, w.enterFor, last) {
        assert NoWindowFrom(w, h, last);
      } else if !WindowEnds(h, false, w.exitFor, last) {
        if ShouldBeActive(w, p) {
          var i: nat :| WindowEnds(p, true, w.enterFor, i) && NoWindowFrom(w, p, i);
          assert WindowEnds(h, true, w.enterFor, i) && NoWindowFrom(w, h, i);
        }
        if ShouldBeActive(w, h) {
          var i: nat :| WindowEnds(h, true, w.enterFor, i) && NoWindowFrom(w, h, i);
          assert WindowEnds(p, true, w.enterFor, i) && NoWindowFrom(w, p, i);
        }
      }
    }
  }

  // ----- the shape of the emitted transitions -----

  /** Transition i is number i+1, phases alternate from ENTER, and every EXIT carries the
      start time of the ENTER before it. */
  ghost predicate Alternating(ts: seq<Transition>) {
    forall i :: 0 <= i < |ts| ==>
      && ts[i].number == i + 1
      && (ts[i].phase == Enter <==> ts[i].number % 2 == 1)
      && (ts[i].phase == Enter <==> ts[i].endedAt == None)
      && (ts[i].phase == Exit ==> i >= 1 && ts[i].startedAt == ts[i - 1].startedAt)
  }

  /** What the state tells of the transitions behind it. */
  ghost predicate Accounts(l: State, ts: seq<Transition>) {
    && Alternating(ts)
    && l.number == |ts|
    && (l.active <==> |ts| % 2 == 1)
    && (ts != [] ==> ts[|ts| - 1].startedAt == l.startedAt)
  }

  lemma AccountsStep(w: Windows, l: State, r: Reading, ts: seq<Transition>)
    requires Accounts(l, ts)
    ensures match Step(w, l, r).1
            case None => Accounts(Step(w, l, r).0, ts)
            case Some(t) => Accounts(Step(w, l, r).0, ts + [t])
  {
    match Step(w, l, r).1 {
      case None =>
      case Some(t) =>
        assert forall i :: 0 <= i < |ts| ==> (ts + [t])[i] == ts[i];
    }
  }

  lemma TransitionsAlternate(w: Windows, h: seq<Reading>)
    ensures Alternating(Transitions(w, h))
    ensures Run(w, h).number == |Transitions(w, h)|
    ensures Run(w, h).active <==> |Transitions(w, h)| % 2 == 1
    ensures Transitions(w, h) != [] ==> Transitions(w, h)[|Transitions(w, h)| - 1].startedAt == Run(w, h).startedAt
  {
    hide Alternating;
    RunAccounts(w, h);
  }

  lemma {:induction false} RunAccounts(w: Windows, h: seq<Reading>)
    ensures Accounts(Run(w, h), Transitions(w, h))
  {
    if h != [] {
      hide Step, Accounts;
      var before := h[..|h| - 1];
      RunAccounts(w, before);
      AccountsStep(w, Run(w, before), h[|h| - 1], Transitions(w, before));
    }
  }

  /** A reading causes a transition exactly when it changes which window came last;
      an ENTER is stamped with that reading's time, and so is an EXIT's end. */
  lemma TransitionIffChange(w: Windows, h: seq<Reading>, r: Reading)
    requires w.Valid()
    ensures var t := Step(w, Run(w, h), r).1;
            && (t.Some? <==> (ShouldBeActive(w, h) <==> !ShouldBeActive(w, h + [r])))
            && (t.Some? ==> (t.value.phase == Enter <==> ShouldBeActive(w, h + [r])))
            && (t.Some? && t.value.phase == Enter ==> t.value.startedAt == r.at)
            && (t.Some? && t.value.phase == Exit ==> t.value.endedAt == Some(r.at))
  {
    assert (h + [r])[..|h|] == h;
    ActiveMeaning(w, h);
    ActiveMeaning(w, h + [r]);
  }

  function Count(ts: seq<Transition>, p: Phase): nat {
    if ts == [] then 0 else Count(ts[..|ts| - 1], p) + if ts[|ts| - 1].phase == p then 1 else 0
  }

  lemma {:induction false} CountAlternating(ts: seq<Transition>)
    requires Alternating(ts)
    ensures Count(ts, Enter) == (|ts| + 1) / 2 && Count(ts, Exit) == |ts| / 2
  {
    if ts != [] {
      var p := ts[..|ts| - 1];
      assert forall i :: 0 <= i < |p| ==> p[i] == ts[i];
      CountAlternating(p);
    }
  }

  /** The readings n transitions cost: enterFor for each odd one, exitFor for each even one. */
  ghost function Cost(w: Windows, n: nat): nat {
    if n == 0 then 0 else Cost(w, n - 1) + if n % 2 == 1 then w.enterFor else w.exitFor
  }

  lemma {:induction false} CostMeaning(w: Windows, n: nat)
    ensures Cost(w, n) == (n + 1) / 2 * w.enterFor + n / 2 * w.exitFor
  {
    if n >= 2 {
      CostMeaning(w, n - 2);
      var odd, even := (n - 1) / 2, (n - 2) / 2;
      assert odd + 1 == (n + 1) / 2 && even + 1 == n / 2;
      Distribute(odd, w.enterFor);
      Distribute(even, w.exitFor);
    }
  }

  lemma Distribute(k: nat, x: nat)
    ensures (k + 1) * x == k * x + x
  {}

  /** The readings consumed so far pay for every transition and for the run in progress. */
  lemma {:induction false} ReadingsPayForTransitions(w: Windows, h: seq<Reading>)
    requires w.Valid()
    ensures var l := Run(w, h);
            |h| >= Cost(w, l.number) + if l.active then l.clearRun else l.breachRun
    ensures Run(w, h).active <==> Run(w, h).number % 2 == 1
  {
    if h != [] {
      ReadingsPayForTransitions(w, h[..|h| - 1]);
    }
  }

  /** The flap bound: k ENTERs need k·enterFor + (k-1)·exitFor readings, and k EXITs need
      k·(enterFor + exitFor). */
  lemma FlapBound(w: Windows, h: seq<Reading>)
    requires w.Valid()
    ensures var k := Count(Transitions(w, h), Enter);
            |h| >= k * w.enterFor + (k - 1) * w.exitFor
    ensures var k := Count(Transitions(w, h), Exit);
            |h| >= k * (w.enterFor + w.exitFor)
  {
    hide Run, Transitions, Count, Alternating;
    TransitionsAlternate(w, h);
    CountAlternating(Transitions(w, h));
    ReadingsPayForTransitions(w, h);
    var n := Run(w, h).number;
    CostMeaning(w, n);
    Payment((n + 1) / 2, n / 2, w.enterFor, w.exitFor);
  }

  lemma Payment(enters: nat, exits: nat, enterFor: nat, exitFor: nat)
    requires enters == exits || enters == exits + 1
    ensures (enters - 1) * exitFor <= exits * exitFor
    ensures exits * (enterFor + exitFor) <= enters * enterFor + exits * exitFor
  {
    assert exits * (enterFor + exitFor) == exits * enterFor + exits * exitFor;
    if enters == exits + 1 {
      Distribute(exits, enterFor);
    } else if exits > 0 {
      Distribute(exits - 1, exitFor);
    }
  }

  // ----- the bound is reached: a device that flaps as fast as it can -----

  const BREACH := Reading(true, 0)
  const CLEAR := Reading(false, 0)

  ghost function Repeat(r: Reading, n: nat): (h: seq<Reading>)
    ensures |h| == n && forall i :: 0 <= i < n ==> h[i] == r
  {
    if n == 0 then [] else Repeat(r, n - 1) + [r]
  }

  /** n breaches into an idle latch: it counts them, and enters once the window is full. */
  lemma {:induction false} BreachRun(w: Windows, h: seq<Reading>, n: nat)
    requires w.Valid() && !Run(w, h).active && Run(w, h).breachRun == 0
    ensures var l := Run(w, h + Repeat(BREACH, n));
            && l.breachRun == n && (n >= 1 ==> l.clearRun == 0)
            && l.active == (n >= w.enterFor)
            && l.number == Run(w, h).number + if n >= w.enterFor then 1 else 0
  {
    hide Run;
    if n == 0 {
      assert h + Repeat(BREACH, n) == h;
    } else {
      BreachRun(w, h, n - 1);
      assert h + Repeat(BREACH, n) == h + Repeat(BREACH, n - 1) + [BREACH];
      RunStep(w, h + Repeat(BREACH, n - 1), BREACH);
    }
  }

  /** n clears into an active latch: it counts them, and exits once the window is full. */
  lemma {:induction false} ClearRun(w: Windows, h: seq<Reading>, n: nat)
    requires w.Valid() && Run(w, h).active && Run(w, h).clearRun == 0
    ensures var l := Run(w, h + Repeat(CLEAR, n));
            && l.clearRun == n && (n >= 1 ==> l.breachRun == 0)
            && l.active == (n < w.exitFor)
            && l.number == Run(w, h).number + if n >= w.exitFor then 1 else 0
  {
    hide Run;
    if n == 0 {
      assert h + Repeat(CLEAR, n) == h;
    } else {
      ClearRun(w, h, n - 1);
      assert h + Repeat(CLEAR, n) == h + Repeat(CLEAR, n - 1) + [CLEAR];
      RunStep(w, h + Repeat(CLEAR, n - 1), CLEAR);
    }
  }

  ghost function Flaps(w: Windows, k: nat): seq<Reading> {
    if k == 0 then []
    else Flaps(w, k - 1) + Repeat(BREACH, w.enterFor) + Repeat(CLEAR, w.exitFor)
  }

  /** For every k some history of exactly k·(enterFor + exitFor) readings causes k EXITs. */
  lemma {:induction false} FlapBoundIsTight(w: Windows, k: nat)
    requires w.Valid()
    ensures |Flaps(w, k)| == k * (w.enterFor + w.exitFor)
    ensures Count(Transitions(w, Flaps(w, k)), Exit) == k
  {
    FlapsRun(w, k);
    TransitionsAlternate(w, Flaps(w, k));
    CountAlternating(Transitions(w, Flaps(w, k)));
  }

  lemma {:induction false} FlapsRun(w: Windows, k: nat)
    requires w.Valid()
    ensures |Flaps(w, k)| == k * (w.enterFor + w.exitFor)
    ensures var l := Run(w, Flaps(w, k)); l.number == 2 * k && !l.active && l.breachRun == 0
  {
    if k > 0 {
      FlapsRun(w, k - 1);
      var h := Flaps(w, k - 1);
      BreachRun(w, h, w.enterFor);
      ClearRun(w, h + Repeat(BREACH, w.enterFor), w.exitFor);
      Distribute(k - 1, w.enterFor + w.exitFor);
    }
  }
}
