/** What happened to a page, as its clients and the pool see it, and which histories lose a write. */
module PageHistory {

  /** A client writes the page, reports it dirty when unpinning, flushes it; the pool evicts it. */
  datatype Event = Wrote(page: nat) | Reported(page: nat) | Flushed(page: nat) | Evicted(page: nat)

  /** `dirty` is the frame's mark, `unsaved` a write that neither the mark nor the disk knows about, `lost`
      that the latest write is gone. */
  datatype Status = Status(dirty: bool, unsaved: bool, lost: bool)

  const FRESH: Status := Status(false, false, false)

  function After(s: Status, e: Event): Status {
    match e
    case Wrote(_) => Status(s.dirty, !s.dirty, false)
    case Reported(_) => Status(true, false, s.lost)
    case Flushed(_) => Status(false, false, s.lost)
    case Evicted(_) => Status(false, false, s.lost || s.unsaved)
  }

  function StatusOf(events: seq<Event>, p: nat): Status {
    if events == [] then FRESH
    else
      var before, e := StatusOf(events[..|events| - 1], p), events[|events| - 1];
      if e.page == p then After(before, e) else before
  }

  lemma {:induction false} StatusAppend(events: seq<Event>, e: Event, p: nat)
    ensures StatusOf(events + [e], p) == if e.page == p then After(StatusOf(events, p), e) else StatusOf(events, p)
  {
    assert (events + [e])[..|events|] == events;
  }

  // ---- The same, read off the history ----

  /** None of the events from `from` on is e. */
  ghost predicate NoneSince(events: seq<Event>, e: Event, from: nat) {
    forall i :: from <= i < |events| ==> events[i] != e
  }

  /** Reported, and neither flushed nor evicted since. */
  ghost predicate MarkedAt(events: seq<Event>, p: nat, i: nat) {
    && i < |events| && events[i] == Reported(p)
    && NoneSince(events, Flushed(p), i + 1) && NoneSince(events, Evicted(p), i + 1)
  }

  ghost predicate Marked(events: seq<Event>, p: nat) { exists i: nat :: MarkedAt(events, p, i) }

  /** Event i is the last write, the page was not marked then, and it was neither reported, flushed nor evicted
      since. */
  ghost predicate UnsavedAt(events: seq<Event>, p: nat, i: nat) {
    && i < |events| && events[i] == Wrote(p) && !Marked(events[..i], p)
    && NoneSince(events, Wrote(p), i + 1) && NoneSince(events, Reported(p), i + 1)
    && NoneSince(events, Flushed(p), i + 1) && NoneSince(events, Evicted(p), i + 1)
  }

  ghost predicate Unsaved(events: seq<Event>, p: nat) { exists i: nat :: UnsavedAt(events, p, i) }

  /** Event i evicted the page with an unsaved write, and it was not written since. */
  ghost predicate LostAt(events: seq<Event>, p: nat, i: nat) {
    && i < |events| && events[i] == Evicted(p) && Unsaved(events[..i], p)
    && NoneSince(events, Wrote(p), i + 1)
  }

  ghost predicate Lost(events: seq<Event>, p: nat) { exists i: nat :: LostAt(events, p, i) }

  lemma {:induction false} NoneAppend(events: seq<Event>, e: Event, x: Event, from: nat)
    requires from <= |events|
    ensures NoneSince(events + [e], x, from) <==> NoneSince(events, x, from) && e != x
  {
    assert forall i :: 0 <= i < |events| ==> (events + [e])[i] == events[i];
    assert (events + [e])[|events|] == e;
  }

  /** How an event changes `MarkedAt`, `UnsavedAt` and `LostAt` of an earlier one. */
  lemma {:induction false} EarlierAfter(events: seq<Event>, e: Event, p: nat, i: nat)
    requires i < |events|
    ensures MarkedAt(events + [e], p, i) <==> MarkedAt(events, p, i) && e != Flushed(p) && e != Evicted(p)
    ensures UnsavedAt(events + [e], p, i) <==> UnsavedAt(events, p, i) && e.page != p
    ensures LostAt(events + [e], p, i) <==> LostAt(events, p, i) && e != Wrote(p)
  {
    assert (events + [e])[i] == events[i] && (events + [e])[..i] == events[..i];
    NoneAppend(events, e, Wrote(p), i + 1);
    NoneAppend(events, e, Reported(p), i + 1);
    NoneAppend(events, e, Flushed(p), i + 1);
    NoneAppend(events, e, Evicted(p), i + 1);
  }

  /** Whether the new event itself marks, leaves unsaved or loses. */
  lemma {:induction false} LatestAfter(events: seq<Event>, e: Event, p: nat)
    ensures MarkedAt(events + [e], p, |events|) <==> e == Reported(p)
    ensures UnsavedAt(events + [e], p, |events|) <==> e == Wrote(p) && !Marked(events, p)
    ensures LostAt(events + [e], p, |events|) <==> e == Evicted(p) && Unsaved(events, p)
  {
    assert (events + [e])[..|events|] == events && (events + [e])[|events|] == e;
  }

  lemma {:induction false} HistoryAppend(events: seq<Event>, e: Event, p: nat)
    ensures Marked(events + [e], p) <==> e == Reported(p) || (Marked(events, p) && e != Flushed(p) && e != Evicted(p))
    ensures Unsaved(events + [e], p) <==> (e == Wrote(p) && !Marked(events, p)) || (Unsaved(events, p) && e.page != p)
    ensures Lost(events + [e], p) <==> (e == Evicted(p) && Unsaved(events, p)) || (Lost(events, p) && e != Wrote(p))
  {
    hide MarkedAt, UnsavedAt, LostAt;
    var events' := events + [e];
    LatestAfter(events, e, p);
    forall i: nat | i < |events|
      ensures MarkedAt(events', p, i) <==> MarkedAt(events, p, i) && e != Flushed(p) && e != Evicted(p)
      ensures UnsavedAt(events', p, i) <==> UnsavedAt(events, p, i) && e.page != p
      ensures LostAt(events', p, i) <==> LostAt(events, p, i) && e != Wrote(p)
    {
      EarlierAfter(events, e, p, i);
    }
    Bounded(events, p);
    Bounded(events', p);
  }

  lemma {:induction false} Bounded(events: seq<Event>, p: nat)
    ensures forall i: nat :: MarkedAt(events, p, i) || UnsavedAt(events, p, i) || LostAt(events, p, i) ==> i < |events|
  {
  }

  /** Exactly which histories lose a page's latest write: it was evicted after that write, which had not been
      flushed in between, and no report was in force: none since the last flush or eviction before. */
  lemma {:induction false} StatusIsHistory(events: seq<Event>, p: nat)
    ensures StatusOf(events, p).dirty <==> Marked(events, p)
    ensures StatusOf(events, p).unsaved <==> Unsaved(events, p)
    ensures StatusOf(events, p).lost <==> Lost(events, p)
  {
    if events == [] {
      Bounded(events, p);
    } else {
      var n := |events| - 1;
      var init, e := events[..n], events[n];
      assert events == init + [e];
      StatusIsHistory(init, p);
      HistoryAppend(init, e, p);
    }
  }
}
