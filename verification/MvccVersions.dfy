/** Read views and version chains of the MVCC engine, and what each engine operation does to what the
    transactions can see of one key. */
module MvccVersions {
  import opened Common
  import opened Bytes

  type Value = seq<byte>

  /** A tuple slot, followed by its undo records from newest to oldest. */
  datatype Chain = Nil | Version(xmin: nat, val: Value, prev: Chain)

  /** The version a key has before its first write. */
  const INITIAL: Chain := Version(0, [], Nil)

  datatype ReadView = ReadView(creator: nat, upLimit: nat, lowLimit: nat, activeIds: seq<nat>)

  datatype Txn = Txn(view: ReadView, undo: seq<(nat, Value)>)

  /** std::binary_search on a[lo..hi]. */
  predicate BinarySearch(a: seq<nat>, x: nat, lo: nat, hi: nat)
    requires lo <= hi <= |a|
    decreases hi - lo
  {
    if lo == hi then false
    else
      var mid := lo + (hi - lo) / 2;
      if a[mid] < x then BinarySearch(a, x, mid + 1, hi)
      else if x < a[mid] then BinarySearch(a, x, lo, mid)
      else true
  }

  lemma {:induction false} BinarySearchFinds(a: seq<nat>, x: nat, lo: nat, hi: nat)
    requires lo <= hi <= |a| && Ascending(a)
    ensures BinarySearch(a, x, lo, hi) <==> x in a[lo..hi]
    decreases hi - lo
  {
    if lo < hi {
      var mid := lo + (hi - lo) / 2;
      assert a[lo..hi] == a[lo..mid] + [a[mid]] + a[mid + 1..hi];
      BinarySearchFinds(a, x, mid + 1, hi);
      BinarySearchFinds(a, x, lo, mid);
    }
  }

  predicate IsVisible(v: ReadView, xmin: nat) {
    if xmin == v.creator then true
    else if xmin < v.upLimit then true
    else if xmin >= v.lowLimit then false
    else !BinarySearch(v.activeIds, xmin, 0, |v.activeIds|)
  }

  /** The view `begin` builds for transaction t out of the ids active at that moment. */
  ghost predicate GoodView(v: ReadView, t: nat) {
    && v.creator == t && v.lowLimit == t && 0 < v.upLimit <= t
    && Ascending(v.activeIds)
    && forall x :: x in v.activeIds ==> v.upLimit <= x < t
  }

  /** A transaction sees itself and exactly the older transactions that were not active when it began. */
  lemma {:induction false} VisibleIff(v: ReadView, t: nat, x: nat)
    requires GoodView(v, t)
    ensures IsVisible(v, x) <==> x == t || (x < t && x !in v.activeIds)
  {
    BinarySearchFinds(v.activeIds, x, 0, |v.activeIds|);
    assert v.activeIds[0..|v.activeIds|] == v.activeIds;
  }

  /** The newest version the view can see. */
  function Snapshot(c: Chain, v: ReadView): Option<Value> {
    if c.Nil? then None
    else if IsVisible(v, c.xmin) then Some(c.val)
    else Snapshot(c.prev, v)
  }

  /** Walks the undo chain from the slot to the newest visible version. */
  method ReadTupleSnapshot(slot: Chain, v: ReadView) returns (r: Option<Value>)
    requires slot.Version?
    ensures r == Snapshot(slot, v)
  {
    if IsVisible(v, slot.xmin) { return Some(slot.val); }
    var curr := slot.prev;
    while curr != Nil
      invariant Snapshot(slot, v) == Snapshot(curr, v)
      decreases curr
    {
      if IsVisible(v, curr.xmin) { return Some(curr.val); }
      curr := curr.prev;
    }
    return None;
  }

  /** What a transaction beginning now would read: the newest version not written by an active one. */
  ghost function FreshRead(c: Chain, active: set<nat>): Option<Value> {
    if c.Nil? then None
    else if c.xmin !in active then Some(c.val)
    else FreshRead(c.prev, active)
  }

  ghost predicate AllBelow(c: Chain, next: nat) { c.Version? ==> c.xmin < next && AllBelow(c.prev, next) }

  ghost predicate NoneBy(c: Chain, u: nat) { c.Version? ==> c.xmin != u && NoneBy(c.prev, u) }

  /** The chain starts with exactly n versions of u and has no others. */
  ghost predicate WrittenBy(c: Chain, u: nat, n: nat) {
    if n == 0 then NoneBy(c, u) else c.Version? && c.xmin == u && WrittenBy(c.prev, u, n - 1)
  }

  /** Removes the n newest versions, never the oldest one. */
  function PopN(c: Chain, n: nat): Chain {
    if n == 0 || c.Nil? || c.prev.Nil? then c else PopN(c.prev, n - 1)
  }

  lemma {:induction false} PopOneMore(c: Chain, n: nat)
    ensures PopN(PopN(c, n), 1) == PopN(c, n + 1)
  {
    if n > 0 && c.Version? && c.prev.Version? {
      PopOneMore(c.prev, n - 1);
    }
  }

  /** How often a transaction's undo entries name key k. */
  ghost function CountKey(undo: seq<(nat, Value)>, k: nat): nat {
    if undo == [] then 0
    else CountKey(undo[..|undo| - 1], k) + (if undo[|undo| - 1].0 == k then 1 else 0)
  }

  lemma {:induction false} CountKeyAppend(undo: seq<(nat, Value)>, e: (nat, Value), k: nat)
    ensures CountKey(undo + [e], k) == CountKey(undo, k) + (if e.0 == k then 1 else 0)
  {
    assert (undo + [e])[..|undo|] == undo;
  }

  // ---- Chains without versions of u ----

  lemma {:induction false} FreshIgnores(c: Chain, active: set<nat>, u: nat)
    requires NoneBy(c, u)
    ensures FreshRead(c, active - {u}) == FreshRead(c, active)
    ensures FreshRead(c, active + {u}) == FreshRead(c, active)
  {
    if c.Version? {
      FreshIgnores(c.prev, active, u);
    }
  }

  /** A beginner's view reads what a fresh reader would. */
  lemma {:induction false} SnapshotIsFresh(c: Chain, v: ReadView, t: nat, active: set<nat>)
    requires GoodView(v, t) && AllBelow(c, t)
    requires forall x :: x < t ==> (x in v.activeIds <==> x in active)
    ensures Snapshot(c, v) == FreshRead(c, active)
  {
    if c.Version? {
      VisibleIff(v, t, c.xmin);
      SnapshotIsFresh(c.prev, v, t, active);
    }
  }

  lemma {:induction false} BelowIsNotBy(c: Chain, t: nat)
    requires AllBelow(c, t)
    ensures NoneBy(c, t)
  {
    if c.Version? {
      BelowIsNotBy(c.prev, t);
    }
  }

  lemma {:induction false} BelowLater(c: Chain, n: nat, m: nat)
    requires AllBelow(c, n) && n <= m
    ensures AllBelow(c, m)
  {
    if c.Version? {
      BelowLater(c.prev, n, m);
    }
  }

  // ---- Rolling back u's versions ----

  /** A version at the bottom that u did not write, so that all of u's versions can be popped. */
  ghost predicate Based(c: Chain, u: nat) {
    c.Version? && (if c.prev.Nil? then c.xmin != u else Based(c.prev, u))
  }

  /** Popping u's versions leaves a chain without any and changes nothing for those who do not see u. */
  lemma {:induction false} PopSkips(c: Chain, u: nat, n: nat, next: nat)
    requires WrittenBy(c, u, n) && Based(c, u) && AllBelow(c, next)
    ensures var d := PopN(c, n); d.Version? && NoneBy(d, u) && AllBelow(d, next)
    ensures forall v :: !IsVisible(v, u) ==> Snapshot(PopN(c, n), v) == Snapshot(c, v)
    ensures forall active: set<nat> :: u in active ==> FreshRead(PopN(c, n), active) == FreshRead(c, active)
    ensures forall w :: NoneBy(c, w) ==> NoneBy(PopN(c, n), w)
    ensures forall w :: Based(c, w) ==> Based(PopN(c, n), w)
  {
    if n > 0 {
      PopSkips(c.prev, u, n - 1, next);
    }
  }
}

/** Snapshot isolation, as a specification, and the invariant that ties one key's version chain to it.

    The specification keeps the committed database `db` and, for every active transaction, the database
    as committed when it began (`snap`) and its own writes (`own`). */
module SnapshotIsolation {
  import opened Common
  import opened MvccVersions

  type Db = map<nat, Value>

  /** A transaction of the specification. */
  datatype Spec = Spec(snap: Db, own: Db)

  /** A key that was never written reads as the empty initial version. */
  function GetOrInitial(db: Db, k: nat): Value { if k in db then db[k] else [] }

  /** What transaction t must read for key k: its own last write, else its snapshot. */
  function Expected(t: Spec, k: nat): Value {
    if k in t.own then t.own[k] else GetOrInitial(t.snap, k)
  }

  /** Ids are positive and already given out, views are as built by `begin`, and each view knows the older
      transactions that are still active. */
  ghost predicate ViewsOk(active: map<nat, Txn>, next: nat) {
    && (forall t :: t in active ==> 0 < t < next && GoodView(active[t].view, t))
    && (forall t, u :: t in active && u in active && u < t ==> u in active[t].view.activeIds)
  }

  /** Active transactions do not see each other. */
  lemma {:induction false} NotVisible(active: map<nat, Txn>, next: nat, t: nat, u: nat)
    requires ViewsOk(active, next) && t in active && u in active && t != u
    ensures !IsVisible(active[t].view, u)
  {
    VisibleIff(active[t].view, t, u);
  }

  /** One active transaction t and the chain of key k agree with the specification. */
  ghost predicate TxnKeyOk(c: Chain, k: nat, t: nat, txn: Txn, spec: Spec) {
    && Snapshot(c, txn.view) == Some(Expected(spec, k))
    && WrittenBy(c, t, CountKey(txn.undo, k))
    && Based(c, t)
    && (k in spec.own <==> CountKey(txn.undo, k) > 0)
    && (k in spec.own ==> c.Version? && c.val == spec.own[k])
  }

  /** The chain of key k agrees with the specification. */
  ghost predicate KeyOk(c: Chain, k: nat, next: nat, active: map<nat, Txn>, specs: map<nat, Spec>, db: Db)
    requires active.Keys == specs.Keys
  {
    && c.Version? && AllBelow(c, next)
    && (forall t :: t in active ==> TxnKeyOk(c, k, t, active[t], specs[t]))
    && FreshRead(c, active.Keys) == Some(GetOrInitial(db, k))
  }

  /** A key without a slot is unknown to everybody. */
  ghost predicate AbsentOk(k: nat, active: map<nat, Txn>, specs: map<nat, Spec>, db: Db)
    requires active.Keys == specs.Keys
  {
    && k !in db
    && forall t :: t in active ==> k !in specs[t].snap && k !in specs[t].own && CountKey(active[t].undo, k) == 0
  }

  /** No other active transaction has written k. */
  ghost predicate NoConflict(active: map<nat, Txn>, u: nat, k: nat) {
    forall w :: w in active && w != u ==> CountKey(active[w].undo, k) == 0
  }

  ghost predicate OneWriter(active: map<nat, Txn>, k: nat) {
    forall u, w :: u in active && w in active && u != w ==>
      CountKey(active[u].undo, k) == 0 || CountKey(active[w].undo, k) == 0
  }

  // ---- begin ----

  lemma {:induction false} BeginKey(c: Chain, k: nat, t: nat, active: map<nat, Txn>, specs: map<nat, Spec>, db: Db,
                                    view: ReadView)
    requires active.Keys == specs.Keys && KeyOk(c, k, t, active, specs, db) && t !in active && t > 0
    requires GoodView(view, t) && forall x :: x < t ==> (x in view.activeIds <==> x in active)
    requires Based(c, t)
    ensures KeyOk(c, k, t + 1, active[t := Txn(view, [])], specs[t := Spec(db, map[])], db)
  {
    SnapshotIsFresh(c, view, t, active.Keys);
    BelowIsNotBy(c, t);
    BelowLater(c, t, t + 1);
    FreshIgnores(c, active.Keys, t);
    assert active[t := Txn(view, [])].Keys == active.Keys + {t};
  }

  lemma {:induction false} BelowIsBased(c: Chain, t: nat)
    requires c.Version? && AllBelow(c, t)
    ensures Based(c, t)
  {
    if c.prev.Version? {
      BelowIsBased(c.prev, t);
    }
  }

  // ---- put ----

  lemma {:induction false} InitialKey(k: nat, next: nat, active: map<nat, Txn>, specs: map<nat, Spec>, db: Db)
    requires active.Keys == specs.Keys && ViewsOk(active, next) && next > 0 && AbsentOk(k, active, specs, db)
    ensures KeyOk(INITIAL, k, next, active, specs, db)
  {
    forall t | t in active ensures TxnKeyOk(INITIAL, k, t, active[t], specs[t]) {
      VisibleIff(active[t].view, t, 0);
      assert NoneBy(Nil, t) && NoneBy(INITIAL, t);
    }
    assert AllBelow(Nil, next);
  }

  ghost function Wrote(active: map<nat, Txn>, u: nat, k: nat, prior: Value): map<nat, Txn>
    requires u in active
  {
    active[u := active[u].(undo := active[u].undo + [(k, prior)])]
  }

  ghost function SpecPut(specs: map<nat, Spec>, u: nat, k: nat, v: Value): map<nat, Spec>
    requires u in specs
  {
    specs[u := specs[u].(own := specs[u].own[k := v])]
  }

  /** The key put: the new version is u's own, invisible to everyone else. */
  lemma {:induction false} PutKey(c: Chain, k: nat, next: nat, active: map<nat, Txn>, specs: map<nat, Spec>, db: Db,
                                  u: nat, v: Value)
    requires active.Keys == specs.Keys && ViewsOk(active, next) && KeyOk(c, k, next, active, specs, db)
    requires u in active && NoConflict(active, u, k)
    ensures KeyOk(Version(u, v, c), k, next, Wrote(active, u, k, c.val), SpecPut(specs, u, k, v), db)
  {
    hide TxnKeyOk, ViewsOk, GoodView, IsVisible, CountKey, Snapshot;
    OwnView(active, next, u);
    var c' := Version(u, v, c);
    var active', specs' := Wrote(active, u, k, c.val), SpecPut(specs, u, k, v);
    forall t | t in active' ensures TxnKeyOk(c', k, t, active'[t], specs'[t]) {
      assert TxnKeyOk(c, k, t, active[t], specs[t]);
      if t == u {
        PutOwnKey(c, k, u, active[u], specs[u], v);
      } else {
        NotVisible(active, next, t, u);
        PutUnseen(c, k, t, active[t], specs[t], u, v);
      }
    }
    assert active'.Keys == active.Keys;
  }

  lemma {:induction false} OwnView(active: map<nat, Txn>, next: nat, u: nat)
    requires ViewsOk(active, next) && u in active
    ensures IsVisible(active[u].view, u) && u < next
  {
    VisibleIff(active[u].view, u, u);
  }

  /** The writer reads its new version back. */
  lemma {:induction false} PutOwnKey(c: Chain, k: nat, u: nat, txn: Txn, spec: Spec, v: Value)
    requires c.Version? && TxnKeyOk(c, k, u, txn, spec) && IsVisible(txn.view, u)
    ensures TxnKeyOk(Version(u, v, c), k, u, txn.(undo := txn.undo + [(k, c.val)]), spec.(own := spec.own[k := v]))
  {
    CountKeyAppend(txn.undo, (k, c.val), k);
  }

  /** Nobody else sees it. */
  lemma {:induction false} PutUnseen(c: Chain, k: nat, t: nat, txn: Txn, spec: Spec, u: nat, v: Value)
    requires TxnKeyOk(c, k, t, txn, spec) && !IsVisible(txn.view, u) && t != u && CountKey(txn.undo, k) == 0
    ensures TxnKeyOk(Version(u, v, c), k, t, txn, spec)
  {
  }

  /** Every other key is untouched by a put. */
  lemma {:induction false} PutOtherKey(c: Chain, j: nat, next: nat, active: map<nat, Txn>, specs: map<nat, Spec>,
                                       db: Db, u: nat, k: nat, prior: Value, v: Value)
    requires active.Keys == specs.Keys && KeyOk(c, j, next, active, specs, db) && u in active && j != k
    ensures KeyOk(c, j, next, Wrote(active, u, k, prior), SpecPut(specs, u, k, v), db)
  {
    var active', specs' := Wrote(active, u, k, prior), SpecPut(specs, u, k, v);
    CountKeyAppend(active[u].undo, (k, prior), j);
    assert active'.Keys == active.Keys;
    forall t | t in active' ensures TxnKeyOk(c, j, t, active'[t], specs'[t]) {
      assert TxnKeyOk(c, j, t, active[t], specs[t]);
    }
  }

  // ---- commit ----

  /** Committing u moves its writes into the committed database. */
  lemma {:induction false} CommitKey(c: Chain, k: nat, next: nat, active: map<nat, Txn>, specs: map<nat, Spec>,
                                     db: Db, u: nat)
    requires active.Keys == specs.Keys && KeyOk(c, k, next, active, specs, db) && u in active
    ensures KeyOk(c, k, next, active - {u}, specs - {u}, db + specs[u].own)
  {
    assert TxnKeyOk(c, k, u, active[u], specs[u]);
    assert (active - {u}).Keys == active.Keys - {u};
    if k !in specs[u].own {
      FreshIgnores(c, active.Keys, u);
    }
    forall t | t in active - {u} ensures TxnKeyOk(c, k, t, (active - {u})[t], (specs - {u})[t]) {
      assert TxnKeyOk(c, k, t, active[t], specs[t]);
    }
  }

  // ---- abort ----

  /** Rolling back u's versions of k changes nothing for anybody else. */
  lemma {:induction false} AbortKey(c: Chain, k: nat, next: nat, active: map<nat, Txn>, specs: map<nat, Spec>, db: Db,
                                    u: nat)
    requires active.Keys == specs.Keys && ViewsOk(active, next) && KeyOk(c, k, next, active, specs, db)
    requires u in active && OneWriter(active, k)
    ensures KeyOk(PopN(c, CountKey(active[u].undo, k)), k, next, active - {u}, specs - {u}, db)
  {
    var n := CountKey(active[u].undo, k);
    var c' := PopN(c, n);
    assert TxnKeyOk(c, k, u, active[u], specs[u]);
    PopSkips(c, u, n, next);
    assert (active - {u}).Keys == active.Keys - {u};
    FreshIgnores(c', active.Keys, u);
    forall t | t in active - {u} ensures TxnKeyOk(c', k, t, (active - {u})[t], (specs - {u})[t]) {
      assert TxnKeyOk(c, k, t, active[t], specs[t]);
      NotVisible(active, next, t, u);
      if n == 0 {
        assert c' == c;
      } else {
        assert NoneBy(c, t);
      }
    }
  }
}
