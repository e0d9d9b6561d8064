/** A receiver that keeps the first event of each Webhook-Id and ignores the rest. */
module Deduplication {
  import opened Hardware

  ghost predicate HasId(log: seq<Event>, id: string) {
    exists i :: 0 <= i < |log| && log[i].id == id
  }

  ghost function Dedup(log: seq<Event>): seq<Event> {
    if log == [] then []
    else
      var before, e := log[..|log| - 1], log[|log| - 1];
      if HasId(before, e.id) then Dedup(before) else Dedup(before) + [e]
  }

  ghost predicate UniqueIds(es: seq<Event>) {
    forall i, j :: 0 <= i < j < |es| ==> es[i].id != es[j].id
  }

  /** No event of es carries an ID the log already has. */
  ghost predicate FreshIds(log: seq<Event>, es: seq<Event>) {
    forall i :: 0 <= i < |es| ==> !HasId(log, es[i].id)
  }

  ghost predicate KnownIds(log: seq<Event>, es: seq<Event>) {
    forall i :: 0 <= i < |es| ==> HasId(log, es[i].id)
  }

  lemma DedupStep(log: seq<Event>, e: Event)
    ensures Dedup(log + [e]) == if HasId(log, e.id) then Dedup(log) else Dedup(log) + [e]
  {
    assert (log + [e])[..|log|] == log;
  }

  lemma HasIdSum(a: seq<Event>, b: seq<Event>, id: string)
    ensures HasId(a + b, id) <==> HasId(a, id) || HasId(b, id)
  {
    if HasId(b, id) {
      var i :| 0 <= i < |b| && b[i].id == id;
      assert (a + b)[|a| + i].id == id;
    }
    if HasId(a, id) {
      var i :| 0 <= i < |a| && a[i].id == id;
      assert (a + b)[i].id == id;
    }
  }

  lemma HasIdOne(e: Event, id: string)
    ensures HasId([e], id) <==> e.id == id
  {
    assert [e][0] == e;
  }

  lemma {:induction false} DedupIds(log: seq<Event>, id: string)
    ensures HasId(Dedup(log), id) <==> HasId(log, id)
  {
    if log != [] {
      var p, e := log[..|log| - 1], log[|log| - 1];
      DedupIds(p, id);
      assert log == p + [e];
      HasIdSum(p, [e], id);
      HasIdSum(Dedup(p), [e], id);
      HasIdOne(e, id);
      hide HasId;
    }
  }

  /** What deduplication does: no ID twice, no ID lost, and what is kept of an ID is the first
      event that came with it. */
  lemma DedupMeaning(log: seq<Event>)
    ensures UniqueIds(Dedup(log))
    ensures forall id :: HasId(Dedup(log), id) <==> HasId(log, id)
    ensures forall e :: e in Dedup(log) ==> FirstOfItsId(log, e)
  {
    hide *;
    DedupUnique(log);
    DedupKeepsFirsts(log);
    forall id ensures HasId(Dedup(log), id) <==> HasId(log, id) { DedupIds(log, id); }
  }

  /** e is the first event of the log that carries its ID. */
  ghost predicate FirstOfItsId(log: seq<Event>, e: Event) {
    exists i :: 0 <= i < |log| && log[i] == e && !HasId(log[..i], e.id)
  }

  lemma {:induction false} DedupUnique(log: seq<Event>)
    ensures UniqueIds(Dedup(log))
  {
    if log != [] {
      hide HasId, UniqueIds;
      var p, last := log[..|log| - 1], log[|log| - 1];
      DedupUnique(p);
      DedupIds(p, last.id);
      UniqueSnoc(Dedup(p), last);
    }
  }

  lemma {:induction false} DedupKeepsFirsts(log: seq<Event>)
    ensures forall e :: e in Dedup(log) ==> FirstOfItsId(log, e)
  {
    hide HasId;
    if log != [] {
      var p, last := log[..|log| - 1], log[|log| - 1];
      DedupKeepsFirsts(p);
      forall e | e in Dedup(log) ensures FirstOfItsId(log, e) {
        if e in Dedup(p) {
          FirstStaysFirst(p, last, e);
          assert log == p + [last];
        } else {
          assert log[|p|] == e;
        }
      }
    }
  }

  lemma FirstStaysFirst(log: seq<Event>, last: Event, e: Event)
    requires FirstOfItsId(log, e)
    ensures FirstOfItsId(log + [last], e)
  {
    hide HasId;
    var i :| 0 <= i < |log| && log[i] == e && !HasId(log[..i], e.id);
    assert (log + [last])[i] == e && (log + [last])[..i] == log[..i];
  }

  /** Only what a log deduplicates to matters for what comes next. */
  lemma {:induction false} DedupAppend(x: seq<Event>, y: seq<Event>, more: seq<Event>)
    requires Dedup(x) == Dedup(y)
    ensures Dedup(x + more) == Dedup(y + more)
  {
    hide HasId, Dedup;
    if more == [] {
      assert x + more == x && y + more == y;
    } else {
      var p, e := more[..|more| - 1], more[|more| - 1];
      DedupAppend(x, y, p);
      assert x + more == x + p + [e] && y + more == y + p + [e];
      DedupStep(x + p, e);
      DedupStep(y + p, e);
      DedupIds(x + p, e.id);
      DedupIds(y + p, e.id);
    }
  }

  lemma {:induction false} DedupKnown(log: seq<Event>, es: seq<Event>)
    requires KnownIds(log, es)
    ensures Dedup(log + es) == Dedup(log)
  {
    if es == [] {
      assert log + es == log;
    } else {
      var p, e := es[..|es| - 1], es[|es| - 1];
      assert forall i :: 0 <= i < |p| ==> p[i] == es[i];
      hide HasId;
      DedupKnown(log, p);
      assert log + es == log + p + [e];
      DedupStep(log + p, e);
      HasIdSum(log, p, e.id);
    }
  }

  /** New events are appended untouched exactly when their IDs are distinct and unseen. */
  lemma {:induction false} DedupFreshIff(log: seq<Event>, es: seq<Event>)
    ensures |Dedup(log + es)| <= |Dedup(log)| + |es|
    ensures Dedup(log + es) == Dedup(log) + es <==> UniqueIds(es) && FreshIds(log, es)
  {
    hide *;
    if es == [] {
      NothingAdded(log);
      assert log + es == log && Dedup(log) + es == Dedup(log);
    } else {
      var p, e := es[..|es| - 1], es[|es| - 1];
      DedupFreshIff(log, p);
      assert es == p + [e];
      assert log + es == log + p + [e];
      DedupStep(log + p, e);
      HasIdSum(log, p, e.id);
      UniqueSnoc(p, e);
      FreshSnoc(log, p, e);
      SnocCases(Dedup(log), p, e, Dedup(log + p), HasId(log + p, e.id));
    }
  }

  lemma NothingAdded(log: seq<Event>)
    ensures UniqueIds([]) && FreshIds(log, [])
  {}

  lemma SnocCases(log: seq<Event>, p: seq<Event>, e: Event, before: seq<Event>, known: bool)
    requires |before| <= |log| + |p|
    ensures (if known then before else before + [e]) == log + (p + [e]) <==> !known && before == log + p
  {
    if !known && before + [e] == log + (p + [e]) {
      assert before == (before + [e])[..|before|] == (log + (p + [e]))[..|log| + |p|] == log + p;
    }
  }

  lemma UniqueSnoc(p: seq<Event>, e: Event)
    ensures UniqueIds(p + [e]) <==> UniqueIds(p) && !HasId(p, e.id)
  {
    var es := p + [e];
    if UniqueIds(es) {
      assert forall i :: 0 <= i < |p| ==> es[i] == p[i];
      assert es[|p|] == e;
    }
  }

  lemma FreshSnoc(log: seq<Event>, p: seq<Event>, e: Event)
    ensures FreshIds(log, p + [e]) <==> FreshIds(log, p) && !HasId(log, e.id)
  {
    var es := p + [e];
    if FreshIds(log, es) {
      assert forall i :: 0 <= i < |p| ==> es[i] == p[i];
      assert es[|p|] == e;
    }
  }
}
