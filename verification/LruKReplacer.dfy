/** The LRU-K replacer: which frame to evict, from the last k access times of every frame. */
module LruKReplacer {
  import opened Common

  datatype Node = Node(history: seq<nat>, evictable: bool)

  /** The last k elements of an access log. */
  function LastK(s: seq<nat>, k: nat): seq<nat> { if |s| <= k then s else s[|s| - k..] }

  /** Every entry holds the last k of its frame's accesses; no two accesses share a time. */
  ghost predicate Tracks(entries: map<nat, Node>, accesses: map<nat, seq<nat>>, now: nat, k: nat) {
    && k > 0 && entries.Keys == accesses.Keys
    && (forall f :: f in entries ==> accesses[f] != [] && Ascending(accesses[f])
                                     && entries[f].history == LastK(accesses[f], k))
    && (forall f, i :: f in accesses && 0 <= i < |accesses[f]| ==> accesses[f][i] <= now)
    && (forall f, g, i, j :: f in accesses && g in accesses && f != g
                                && 0 <= i < |accesses[f]| && 0 <= j < |accesses[g]|
                             ==> accesses[f][i] != accesses[g][j])
  }

  ghost function Evictable(entries: map<nat, Node>): set<nat> {
    set f | f in entries && entries[f].evictable
  }

  /** The backward k-distance of a frame: nothing stands for infinity. */
  datatype Distance = Infinite | Finite(d: nat)

  ghost function KDistance(a: seq<nat>, now: nat, k: nat): Distance
    requires a != [] && k > 0 && forall i :: 0 <= i < |a| ==> a[i] <= now
  {
    if |a| < k then Infinite else Finite(now - a[|a| - k])
  }

  /** The policy: an infinite distance beats a finite one, among infinite ones the earliest first access
      wins, among finite ones the largest distance. */
  ghost predicate Beats(a: seq<nat>, b: seq<nat>, now: nat, k: nat)
    requires a != [] && b != [] && k > 0
    requires (forall i :: 0 <= i < |a| ==> a[i] <= now) && (forall i :: 0 <= i < |b| ==> b[i] <= now)
  {
    var x, y := KDistance(a, now, k), KDistance(b, now, k);
    if x.Infinite? then y.Finite? || a[0] < b[0] else y.Finite? && x.d > y.d
  }

  /** f is the frame the policy chooses among the evictable ones. */
  ghost predicate IsVictim(entries: map<nat, Node>, accesses: map<nat, seq<nat>>, now: nat, k: nat, f: nat)
    requires Tracks(entries, accesses, now, k)
  {
    && f in Evictable(entries)
    && forall g :: g in Evictable(entries) && g != f ==> Beats(accesses[f], accesses[g], now, k)
  }

  /** The policy never leaves a choice, so the order in which the map is scanned cannot matter. */
  lemma {:induction false} VictimIsUnique(entries: map<nat, Node>, accesses: map<nat, seq<nat>>, now: nat, k: nat,
                                          f: nat, g: nat)
    requires Tracks(entries, accesses, now, k)
    requires IsVictim(entries, accesses, now, k, f) && IsVictim(entries, accesses, now, k, g)
    ensures f == g
  {
    BeatsIsOneWay(accesses[f], accesses[g], now, k);
  }

  lemma {:induction false} BeatsIsOneWay(a: seq<nat>, b: seq<nat>, now: nat, k: nat)
    requires a != [] && b != [] && k > 0
    requires (forall i :: 0 <= i < |a| ==> a[i] <= now) && (forall i :: 0 <= i < |b| ==> b[i] <= now)
    ensures !(Beats(a, b, now, k) && Beats(b, a, now, k))
  {
  }

  /** The front of the kept history is all the scan needs. */
  ghost predicate NodeBeats(x: Node, y: Node, k: nat)
    requires x.history != [] && y.history != []
  {
    if |x.history| < k then |y.history| >= k || x.history[0] < y.history[0]
    else |y.history| >= k && x.history[0] < y.history[0]
  }

  lemma {:induction false} NodeBeatsIsBeats(entries: map<nat, Node>, accesses: map<nat, seq<nat>>, now: nat, k: nat,
                                            f: nat, g: nat)
    requires Tracks(entries, accesses, now, k) && f in entries && g in entries
    ensures entries[f].history != [] && entries[g].history != []
    ensures NodeBeats(entries[f], entries[g], k) <==> Beats(accesses[f], accesses[g], now, k)
    ensures entries[f].history[0] <= now
    ensures f != g ==> entries[f].history[0] != entries[g].history[0]
  {
    var a, b := accesses[f], accesses[g];
    assert entries[f].history[0] == a[if |a| <= k then 0 else |a| - k];
    assert entries[g].history[0] == b[if |b| <= k then 0 else |b| - k];
  }

  /** What is known of the frames scanned so far: the best one, when any was evictable. */
  ghost predicate BestOf(entries: map<nat, Node>, scanned: set<nat>, k: nat, any: bool, best: nat)
    requires forall f :: f in entries ==> entries[f].history != []
  {
    if !any then forall g :: g in scanned && g in entries ==> !entries[g].evictable
    else && best in scanned && best in entries && entries[best].evictable
         && forall g :: g in scanned && g in entries && entries[g].evictable && g != best ==>
              NodeBeats(entries[best], entries[g], k)
  }

  ghost predicate AllSeen(entries: map<nat, Node>, now: nat) {
    forall f :: f in entries ==> entries[f].history != [] && entries[f].history[0] <= now
  }

  lemma {:induction false} TrackedAreSeen(entries: map<nat, Node>, accesses: map<nat, seq<nat>>, now: nat, k: nat)
    requires Tracks(entries, accesses, now, k)
    ensures AllSeen(entries, now) && BestOf(entries, {}, k, false, 0)
    ensures forall f, g :: f in entries && g in entries && f != g ==> entries[f].history[0] != entries[g].history[0]
  {
    forall f, g | f in entries && g in entries
      ensures entries[f].history != [] && entries[f].history[0] <= now
      ensures f != g ==> entries[f].history[0] != entries[g].history[0]
    {
      NodeBeatsIsBeats(entries, accesses, now, k, f, g);
    }
  }

  lemma {:induction false} PassOver(entries: map<nat, Node>, now: nat, scanned: set<nat>, k: nat, any: bool,
                                    best: nat, f: nat)
    requires AllSeen(entries, now) && BestOf(entries, scanned, k, any, best) && f in entries
    requires entries[f].evictable ==> any && NodeBeats(entries[best], entries[f], k)
    ensures BestOf(entries, scanned + {f}, k, any, best)
  {
  }

  lemma {:induction false} Prefer(entries: map<nat, Node>, now: nat, scanned: set<nat>, k: nat, any: bool, best: nat,
                                  f: nat)
    requires AllSeen(entries, now) && BestOf(entries, scanned, k, any, best) && f in entries && entries[f].evictable
    requires any ==> best in entries && NodeBeats(entries[f], entries[best], k)
    ensures BestOf(entries, scanned + {f}, k, true, f)
  {
  }

  lemma {:induction false} BestIsVictim(entries: map<nat, Node>, accesses: map<nat, seq<nat>>, now: nat, k: nat,
                                        any: bool, best: nat)
    requires Tracks(entries, accesses, now, k) && AllSeen(entries, now) && BestOf(entries, entries.Keys, k, any, best)
    ensures any <==> Evictable(entries) != {}
    ensures any ==> IsVictim(entries, accesses, now, k, best)
  {
    if any {
      assert best in Evictable(entries);
      forall g | g in Evictable(entries) && g != best ensures Beats(accesses[best], accesses[g], now, k) {
        NodeBeatsIsBeats(entries, accesses, now, k, best, g);
      }
    }
  }

  // ---- Keeping the histories ----

  /** An access enters the history, and the oldest one leaves it when there are more than k. */
  function Remember(history: seq<nat>, time: nat, k: nat): seq<nat> {
    var longer := history + [time];
    if |longer| > k then longer[1..] else longer
  }

  lemma {:induction false} RememberIsLastK(s: seq<nat>, time: nat, k: nat)
    requires k > 0
    ensures Remember(LastK(s, k), time, k) == LastK(s + [time], k)
  {
  }

  ghost function Logged(accesses: map<nat, seq<nat>>, f: nat, time: nat): map<nat, seq<nat>> {
    accesses[f := (if f in accesses then accesses[f] else []) + [time]]
  }

  lemma {:induction false} AccessTracks(entries: map<nat, Node>, accesses: map<nat, seq<nat>>, now: nat, k: nat,
                                        f: nat, node: Node)
    requires Tracks(entries, accesses, now, k)
    requires node.history == Remember(if f in entries then entries[f].history else [], now + 1, k)
    ensures Tracks(entries[f := node], Logged(accesses, f, now + 1), now + 1, k)
  {
    var s := if f in accesses then accesses[f] else [];
    RememberIsLastK(s, now + 1, k);
    LoggedTimes(accesses, now, f);
  }

  lemma {:induction false} LoggedTimes(accesses: map<nat, seq<nat>>, now: nat, f: nat)
    requires forall g, i :: g in accesses && 0 <= i < |accesses[g]| ==> accesses[g][i] <= now
    ensures var accesses' := Logged(accesses, f, now + 1);
            forall g, i :: g in accesses' && 0 <= i < |accesses'[g]| ==>
              if g in accesses && i < |accesses[g]| then accesses'[g][i] == accesses[g][i]
              else g == f && accesses'[g][i] == now + 1
  {
  }

  lemma {:induction false} SetTracks(entries: map<nat, Node>, accesses: map<nat, seq<nat>>, now: nat, k: nat, f: nat,
                                     e: bool)
    requires Tracks(entries, accesses, now, k) && f in entries
    ensures Tracks(entries[f := entries[f].(evictable := e)], accesses, now, k)
  {
  }

  function Count(b: bool): nat { if b then 1 else 0 }

  /** How updating or dropping one entry changes the number of evictable ones. */
  lemma {:induction false} EvictableSize(entries: map<nat, Node>, f: nat, node: Node)
    ensures |Evictable(entries[f := node])| ==
            |Evictable(entries)| - Count(f in entries && entries[f].evictable) + Count(node.evictable)
    ensures |Evictable(entries - {f})| == |Evictable(entries)| - Count(f in entries && entries[f].evictable)
    ensures f in Evictable(entries) ==> |Evictable(entries)| > 0
  {
    var rest := Evictable(entries) - {f};
    assert Evictable(entries - {f}) == rest;
    assert Evictable(entries[f := node]) == if node.evictable then rest + {f} else rest;
  }

  class Replacer {
    const k: nat
    var size: nat
    var now: nat
    var entries: map<nat, Node>
    ghost var accesses: map<nat, seq<nat>>  // all accesses of a frame since it entered

    ghost predicate Valid()
      reads this
    {
      Tracks(entries, accesses, now, k) && size == |Evictable(entries)|
    }

    constructor (k: nat)
      requires k > 0
      ensures Valid() && this.k == k && entries == map[] && accesses == map[] && size == 0 && now == 0
    {
      this.k, size, now, entries, accesses := k, 0, 0, map[], map[];
    }

    method RecordAccess(f: nat)
      requires Valid()
      modifies this
      ensures Valid() && size == old(size) && now == old(now) + 1
      ensures accesses == Logged(old(accesses), f, now)
      ensures f in entries && entries == old(entries)[f := entries[f]]
      ensures entries[f].evictable <==> f in old(entries) && old(entries)[f].evictable
    {
      hide Tracks;
      var node := if f in entries then entries[f] else Node([], false);
      var history := node.history + [now + 1];
      if |history| > k {
        history := history[1..];
      }
      AccessTracks(entries, accesses, now, k, f, Node(history, node.evictable));
      EvictableSize(entries, f, Node(history, node.evictable));
      accesses := Logged(accesses, f, now + 1);
      now, entries := now + 1, entries[f := Node(history, node.evictable)];
    }

    method SetEvictable(f: nat, evictable: bool)
      requires Valid()
      modifies this
      ensures Valid() && now == old(now) && accesses == old(accesses)
      ensures f !in old(entries) ==> entries == old(entries)
      ensures f in old(entries) ==> entries == old(entries)[f := old(entries)[f].(evictable := evictable)]
    {
      hide Tracks;
      if f in entries && entries[f].evictable != evictable {
        SetTracks(entries, accesses, now, k, f, evictable);
        EvictableSize(entries, f, entries[f].(evictable := evictable));
        entries := entries[f := entries[f].(evictable := evictable)];
        if evictable {
          size := size + 1;
        } else {
          size := size - 1;
        }
      }
    }

    /** Chooses the policy's victim and forgets it; fails exactly when nothing is evictable. */
    method Victim() returns (ok: bool, f: nat)
      requires Valid()
      modifies this
      ensures Valid() && now == old(now)
      ensures ok <==> Evictable(old(entries)) != {}
      ensures ok ==> old(IsVictim(entries, accesses, now, k, f))
      ensures ok ==> entries == old(entries) - {f} && accesses == old(accesses) - {f}
      ensures !ok ==> entries == old(entries) && accesses == old(accesses)
    {
      if size == 0 {
        return false, 0;
      }
      ok, f := Scan();
      if ok {
        EvictableSize(entries, f, entries[f]);
        entries := entries - {f};
        accesses := accesses - {f};
        size := size - 1;
      }
    }

    /** The scanning loop, over the entries in any order. */
    method Scan() returns (any: bool, best: nat)
      requires Valid()
      ensures any <==> Evictable(entries) != {}
      ensures any ==> IsVictim(entries, accesses, now, k, best)
    {
      hide Tracks, BestOf, IsVictim;
      TrackedAreSeen(entries, accesses, now, k);
      var maxDistance, earliest, foundInf := 0, 0, false;
      best, any := 0, false;
      ghost var scanned: set<nat> := {};
      var todo := entries.Keys;
      while todo != {}
        invariant todo <= entries.Keys && scanned == entries.Keys - todo
        invariant BestOf(entries, scanned, k, any, best) && (any ==> best in scanned)
        invariant foundInf <==> any && |entries[best].history| < k
        invariant foundInf ==> earliest == entries[best].history[0]
        invariant any && !foundInf ==> maxDistance == now - entries[best].history[0]
        decreases todo
      {
        var f :| f in todo;
        var entry := entries[f];
        ghost var any0, best0 := any, best;
        if entry.evictable {
          if |entry.history| < k {
            var first := if |entry.history| == 0 then 0 else entry.history[0];
            if !foundInf || first < earliest {
              foundInf, earliest, best, any := true, first, f, true;
            }
          } else if !foundInf {
            var distance := now - entry.history[0];
            if !any || distance > maxDistance {
              maxDistance, best, any := distance, f, true;
            }
          }
        }
        if any && best == f {
          Prefer(entries, now, scanned, k, any0, best0, f);
        } else {
          PassOver(entries, now, scanned, k, any, best, f);
        }
        todo, scanned := todo - {f}, scanned + {f};
      }
      assert scanned == entries.Keys;
      BestIsVictim(entries, accesses, now, k, any, best);
    }

    method Remove(f: nat)
      requires Valid()
      modifies this
      ensures Valid() && now == old(now)
      ensures entries == old(entries) - {f} && accesses == old(accesses) - {f}
    {
      if f in entries {
        EvictableSize(entries, f, entries[f]);
        if entries[f].evictable {
          size := size - 1;
        }
        entries, accesses := entries - {f}, accesses - {f};
      }
    }
  }
}
