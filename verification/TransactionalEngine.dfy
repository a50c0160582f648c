/** What the write-ahead log says about the committed database and the open transactions. */
module EngineLog {
  import opened Common
  import opened Bytes
  import opened MvccVersions
  import opened SnapshotIsolation
  import opened WalLog

  ghost function DbGet(db: Db, k: nat): Option<Value> { if k in db then Some(db[k]) else None }

  /** Redoing the log gives exactly db. */
  ghost predicate Redoes(log: seq<Record>, db: Db) {
    forall k :: LastPut(log, k, Committed(log)) == DbGet(db, k)
  }

  /** Were u to commit now, its writes would be the last ones; and it wrote nothing else. */
  ghost predicate OpenOk(log: seq<Record>, u: nat, own: Db) {
    forall k :: if k in own then LastPut(log, k, Committed(log) + {u}) == Some(own[k]) else NoPut(log, u, k)
  }

  ghost predicate LogOk(log: seq<Record>, next: nat, specs: map<nat, Spec>, db: Db) {
    && AllSized(log) && CommitIsLast(log)
    && (forall i :: 0 <= i < |log| ==> log[i].txn < next)
    && Redoes(log, db)
    && (forall u :: u in specs ==> OpenOk(log, u, specs[u].own) && u !in Committed(log))
  }

  /** No two open transactions wrote the same key. */
  ghost predicate OwnDisjoint(specs: map<nat, Spec>) {
    forall u, w, k :: u in specs && w in specs && u != w && k in specs[u].own ==> k !in specs[w].own
  }

  lemma {:induction false} CommittedAppend(log: seq<Record>, r: Record)
    ensures Committed(log + [r]) == if r.Commit? then Committed(log) + {r.txn} else Committed(log)
  {
    forall t ensures t in Committed(log + [r]) <==>
                     t in (if r.Commit? then Committed(log) + {r.txn} else Committed(log)) {
      CommittedIff(log + [r], t);
      CommittedIff(log, t);
    }
  }

  lemma {:induction false} NewIdIsOpen(log: seq<Record>, t: nat)
    requires forall i :: 0 <= i < |log| ==> log[i].txn < t
    ensures OpenOk(log, t, map[]) && t !in Committed(log)
  {
    CommittedIff(log, t);
  }

  lemma {:induction false} BeginLog(log: seq<Record>, t: nat, specs: map<nat, Spec>, db: Db, spec: Spec)
    requires LogOk(log, t, specs, db) && spec.own == map[]
    ensures LogOk(log, t + 1, specs[t := spec], db)
  {
    NewIdIsOpen(log, t);
  }

  /** A put logged by u belongs to u alone until u commits. */
  lemma {:induction false} PutLog(log: seq<Record>, next: nat, specs: map<nat, Spec>, db: Db, u: nat, k: nat,
                                  v: Value)
    requires LogOk(log, next, specs, db) && u in specs && u < next && Sized(Put(u, k, v))
    requires forall w :: w in specs && w != u ==> k !in specs[w].own
    ensures LogOk(log + [Put(u, k, v)], next, SpecPut(specs, u, k, v), db)
  {
    var r := Put(u, k, v);
    var log' := log + [r];
    CommittedAppend(log, r);
    forall j ensures LastPut(log', j, Committed(log')) == DbGet(db, j) {
      LastPutAppend(log, r, j, Committed(log));
    }
    forall w | w in specs ensures OpenOk(log', w, SpecPut(specs, u, k, v)[w].own) {
      forall j {
        LastPutAppend(log, r, j, Committed(log) + {w});
      }
    }
    CommitIsLastPut(log, r);
  }

  lemma {:induction false} CommitIsLastPut(log: seq<Record>, r: Record)
    requires CommitIsLast(log) && (r.Put? ==> r.txn !in Committed(log))
    ensures CommitIsLast(log + [r])
  {
    CommittedIff(log, r.txn);
  }

  /** Committing u makes its writes the last committed ones and nobody else's. */
  lemma {:induction false} CommitLog(log: seq<Record>, next: nat, specs: map<nat, Spec>, db: Db, u: nat)
    requires LogOk(log, next, specs, db) && OwnDisjoint(specs) && u in specs && u < next && Sized(Commit(u))
    ensures LogOk(log + [Commit(u)], next, specs - {u}, db + specs[u].own)
  {
    var log' := log + [Commit(u)];
    CommittedAppend(log, Commit(u));
    CommitIsLastPut(log, Commit(u));
    forall k ensures LastPut(log', k, Committed(log')) == DbGet(db + specs[u].own, k) {
      LastPutAppend(log, Commit(u), k, Committed(log'));
      if k !in specs[u].own {
        LastPutIgnores(log, k, Committed(log), u);
      }
    }
    forall w | w in specs - {u} ensures OpenOk(log', w, specs[w].own) {
      forall k | k in specs[w].own
        ensures LastPut(log', k, Committed(log') + {w}) == Some(specs[w].own[k])
      {
        LastPutAppend(log, Commit(u), k, Committed(log') + {w});
        assert k !in specs[u].own;
        LastPutIgnores(log, k, Committed(log) + {w}, u);
        assert Committed(log') + {w} == Committed(log) + {w} + {u};
      }
    }
  }

  /** An abort record changes nothing about what is committed. */
  lemma {:induction false} AbortLog(log: seq<Record>, next: nat, specs: map<nat, Spec>, db: Db, u: nat)
    requires LogOk(log, next, specs, db) && u in specs && u < next && Sized(Abort(u))
    ensures LogOk(log + [Abort(u)], next, specs - {u}, db)
  {
    var log' := log + [Abort(u)];
    CommittedAppend(log, Abort(u));
    CommitIsLastPut(log, Abort(u));
    forall k, who: set<nat> ensures LastPut(log', k, who) == LastPut(log, k, who) {
      LastPutAppend(log, Abort(u), k, who);
    }
  }

  /** The database that redoing a log gives. */
  ghost function DbOf(log: seq<Record>): Db {
    var table := Redo(EntriesOf(log), Committed(log), map[]);
    map k | k in table :: if table[k].Version? then table[k].val else []
  }

  lemma {:induction false} RedoesDbOf(log: seq<Record>)
    ensures Redoes(log, DbOf(log))
  {
    forall k ensures LastPut(log, k, Committed(log)) == DbGet(DbOf(log), k) {
      RedoMeaning(log, Committed(log), k);
    }
  }
}

/** The engine: begin, get, put, commit and abort over version chains, with every change logged first. */
module TransactionalEngine {
  import opened Common
  import opened Bytes
  import opened MvccVersions
  import opened SnapshotIsolation
  import opened WalLog
  import opened EngineLog
  import WalTail

  /** Every key agrees with the specification, and no key has two active writers. */
  ghost predicate TableOk(table: map<nat, Chain>, next: nat, active: map<nat, Txn>, specs: map<nat, Spec>, db: Db) {
    && active.Keys == specs.Keys && next > 0 && ViewsOk(active, next)
    && (forall k :: k in table ==> KeyOk(table[k], k, next, active, specs, db))
    && (forall k :: k !in table ==> AbsentOk(k, active, specs, db))
    && SingleWriters(active)
  }

  ghost predicate SingleWriters(active: map<nat, Txn>) { forall k: nat :: OneWriter(active, k) }

  lemma {:induction false} BeginViews(t: nat, active: map<nat, Txn>, view: ReadView)
    requires ViewsOk(active, t) && GoodView(view, t) && t > 0
    requires forall x: nat :: x < t ==> (x in view.activeIds <==> x in active)
    ensures ViewsOk(active[t := Txn(view, [])], t + 1)
  {
  }

  lemma {:induction false} BeginWriters(active: map<nat, Txn>, t: nat, view: ReadView)
    requires SingleWriters(active)
    ensures SingleWriters(active[t := Txn(view, [])])
  {
    var active' := active[t := Txn(view, [])];
    forall k: nat ensures OneWriter(active', k) {
      assert OneWriter(active, k);
    }
  }

  lemma {:induction false} BeginTable(table: map<nat, Chain>, t: nat, active: map<nat, Txn>, specs: map<nat, Spec>,
                                      db: Db, view: ReadView)
    requires TableOk(table, t, active, specs, db) && GoodView(view, t)
    requires forall x: nat :: x < t ==> (x in view.activeIds <==> x in active)
    ensures TableOk(table, t + 1, active[t := Txn(view, [])], specs[t := Spec(db, map[])], db)
  {
    var active', specs' := active[t := Txn(view, [])], specs[t := Spec(db, map[])];
    BeginViews(t, active, view);
    BeginWriters(active, t, view);
    forall k | k in table ensures KeyOk(table[k], k, t + 1, active', specs', db) {
      BelowIsBased(table[k], t);
      BeginKey(table[k], k, t, active, specs, db, view);
    }
    forall k | k !in table ensures AbsentOk(k, active', specs', db) {
      assert AbsentOk(k, active, specs, db);
    }
  }

  ghost function SlotOf(table: map<nat, Chain>, k: nat): Chain {
    if k in table then table[k] else INITIAL
  }

  lemma {:induction false} PutWriters(active: map<nat, Txn>, u: nat, k: nat, prior: Value)
    requires SingleWriters(active) && u in active && NoConflict(active, u, k)
    ensures SingleWriters(Wrote(active, u, k, prior))
  {
    forall j: nat ensures OneWriter(Wrote(active, u, k, prior), j) {
      assert OneWriter(active, j);
      CountKeyAppend(active[u].undo, (k, prior), j);
    }
  }

  lemma {:induction false} PutAbsent(j: nat, active: map<nat, Txn>, specs: map<nat, Spec>, db: Db, u: nat, k: nat,
                                     prior: Value, v: Value)
    requires active.Keys == specs.Keys && AbsentOk(j, active, specs, db) && u in active && j != k
    ensures Wrote(active, u, k, prior).Keys == SpecPut(specs, u, k, v).Keys
    ensures AbsentOk(j, Wrote(active, u, k, prior), SpecPut(specs, u, k, v), db)
  {
    CountKeyAppend(active[u].undo, (k, prior), j);
  }

  lemma {:induction false} PutSlot(table: map<nat, Chain>, next: nat, active: map<nat, Txn>, specs: map<nat, Spec>,
                                   db: Db, k: nat)
    requires TableOk(table, next, active, specs, db)
    ensures KeyOk(SlotOf(table, k), k, next, active, specs, db)
  {
    if k !in table {
      InitialKey(k, next, active, specs, db);
    }
  }

  lemma {:induction false} PutViews(next: nat, active: map<nat, Txn>, u: nat, k: nat, prior: Value)
    requires ViewsOk(active, next) && u in active
    ensures ViewsOk(Wrote(active, u, k, prior), next)
  {
    hide GoodView;
  }

  lemma {:induction false} PutTable(table: map<nat, Chain>, next: nat, active: map<nat, Txn>, specs: map<nat, Spec>,
                                    db: Db, u: nat, k: nat, v: Value, slot: Chain, table': map<nat, Chain>,
                                    active': map<nat, Txn>, specs': map<nat, Spec>)
    requires TableOk(table, next, active, specs, db) && u in active && NoConflict(active, u, k)
    requires slot == SlotOf(table, k) && slot.Version? && KeyOk(slot, k, next, active, specs, db)
    requires table' == table[k := Version(u, v, slot)]
    requires active' == Wrote(active, u, k, slot.val) && specs' == SpecPut(specs, u, k, v)
    ensures TableOk(table', next, active', specs', db)
  {
    hide KeyOk, AbsentOk, ViewsOk, NoConflict, SingleWriters;
    PutWriters(active, u, k, slot.val);
    PutViews(next, active, u, k, slot.val);
    forall j: nat
      ensures j in table' ==> KeyOk(table'[j], j, next, active', specs', db)
      ensures j !in table' ==> AbsentOk(j, active', specs', db)
    {
      PutEach(table, next, active, specs, db, u, k, v, slot, j);
    }
  }

  lemma {:induction false} PutEach(table: map<nat, Chain>, next: nat, active: map<nat, Txn>, specs: map<nat, Spec>,
                                   db: Db, u: nat, k: nat, v: Value, slot: Chain, j: nat)
    requires TableOk(table, next, active, specs, db) && u in active && NoConflict(active, u, k)
    requires slot == SlotOf(table, k) && KeyOk(slot, k, next, active, specs, db)
    ensures var active', specs' := Wrote(active, u, k, slot.val), SpecPut(specs, u, k, v);
            && active'.Keys == specs'.Keys
            && (j == k ==> KeyOk(Version(u, v, slot), j, next, active', specs', db))
            && (j != k && j in table ==> KeyOk(table[j], j, next, active', specs', db))
            && (j != k && j !in table ==> AbsentOk(j, active', specs', db))
  {
    if j == k {
      PutKey(slot, k, next, active, specs, db, u, v);
    } else if j in table {
      PutOtherKey(table[j], j, next, active, specs, db, u, k, slot.val, v);
    } else {
      PutAbsent(j, active, specs, db, u, k, slot.val, v);
    }
  }

  lemma {:induction false} EndWriters(active: map<nat, Txn>, u: nat)
    requires SingleWriters(active)
    ensures SingleWriters(active - {u})
  {
    forall k: nat ensures OneWriter(active - {u}, k) {
      assert OneWriter(active, k);
    }
  }

  lemma {:induction false} CommitTable(table: map<nat, Chain>, next: nat, active: map<nat, Txn>,
                                       specs: map<nat, Spec>, db: Db, u: nat)
    requires TableOk(table, next, active, specs, db) && u in active
    ensures TableOk(table, next, active - {u}, specs - {u}, db + specs[u].own)
  {
    forall k | k in table ensures KeyOk(table[k], k, next, active - {u}, specs - {u}, db + specs[u].own) {
      CommitKey(table[k], k, next, active, specs, db, u);
    }
    forall k | k !in table ensures AbsentOk(k, active - {u}, specs - {u}, db + specs[u].own) {
      assert AbsentOk(k, active, specs, db);
    }
    EndWriters(active, u);
  }

  /** The table after popping, for every key, one version per undo entry. */
  ghost predicate RolledBack(table': map<nat, Chain>, table: map<nat, Chain>, undo: seq<(nat, Value)>) {
    table'.Keys == table.Keys && forall k :: k in table ==> table'[k] == PopN(table[k], CountKey(undo, k))
  }

  lemma {:induction false} AbortTable(table': map<nat, Chain>, table: map<nat, Chain>, next: nat,
                                      active: map<nat, Txn>, specs: map<nat, Spec>, db: Db, u: nat)
    requires TableOk(table, next, active, specs, db) && u in active && RolledBack(table', table, active[u].undo)
    ensures TableOk(table', next, active - {u}, specs - {u}, db)
  {
    forall k | k in table' ensures KeyOk(table'[k], k, next, active - {u}, specs - {u}, db) {
      assert OneWriter(active, k);
      AbortKey(table[k], k, next, active, specs, db, u);
    }
    forall k | k !in table' ensures AbsentOk(k, active - {u}, specs - {u}, db) {
      assert AbsentOk(k, active, specs, db);
    }
    EndWriters(active, u);
  }

  /** An own write is an undo entry of a key in the table. */
  lemma {:induction false} OwnIsUndo(table: map<nat, Chain>, next: nat, active: map<nat, Txn>, specs: map<nat, Spec>,
                                     db: Db, u: nat, k: nat)
    requires TableOk(table, next, active, specs, db) && u in active
    ensures k in specs[u].own <==> CountKey(active[u].undo, k) > 0
  {
    if k in table {
      assert TxnKeyOk(table[k], k, u, active[u], specs[u]);
    } else {
      assert AbsentOk(k, active, specs, db);
    }
  }

  lemma {:induction false} OwnAreDisjoint(table: map<nat, Chain>, next: nat, active: map<nat, Txn>,
                                          specs: map<nat, Spec>, db: Db)
    requires TableOk(table, next, active, specs, db)
    ensures OwnDisjoint(specs)
  {
    forall u, w, k | u in specs && w in specs && u != w && k in specs[u].own ensures k !in specs[w].own {
      OwnIsUndo(table, next, active, specs, db, u, k);
      OwnIsUndo(table, next, active, specs, db, w, k);
      assert OneWriter(active, k);
    }
  }

  // ---- What holds with conflicting writers too ----

  /** The version a chain started with. */
  ghost function Oldest(c: Chain): nat
    requires c.Version?
  {
    if c.prev.Version? then Oldest(c.prev) else c.xmin
  }

  /** The oldest version is visible to every transaction, so that every read of the chain finds something. */
  ghost predicate Grounded(c: Chain, next: nat, active: map<nat, Txn>) {
    && c.Version? && AllBelow(c, next) && Oldest(c) !in active
    && forall t :: t in active ==> IsVisible(active[t].view, Oldest(c))
  }

  /** What the engine keeps whatever its transactions write. */
  ghost predicate Sound(table: map<nat, Chain>, next: nat, active: map<nat, Txn>, specs: map<nat, Spec>) {
    && active.Keys == specs.Keys && next > 0 && ViewsOk(active, next)
    && forall k :: k in table ==> Grounded(table[k], next, active)
  }

  lemma {:induction false} GroundedRead(c: Chain, next: nat, view: ReadView)
    requires c.Version? && AllBelow(c, next) && IsVisible(view, Oldest(c))
    ensures Snapshot(c, view).Some?
  {
    if c.prev.Version? {
      GroundedRead(c.prev, next, view);
    }
  }

  lemma {:induction false} OldestBelow(c: Chain, next: nat)
    requires c.Version? && AllBelow(c, next)
    ensures Oldest(c) < next
  {
    if c.prev.Version? {
      OldestBelow(c.prev, next);
    }
  }

  lemma {:induction false} BeginSound(table: map<nat, Chain>, t: nat, active: map<nat, Txn>, specs: map<nat, Spec>,
                                      view: ReadView, spec: Spec)
    requires Sound(table, t, active, specs) && GoodView(view, t)
    requires forall x: nat :: x < t ==> (x in view.activeIds <==> x in active)
    ensures Sound(table, t + 1, active[t := Txn(view, [])], specs[t := spec])
  {
    hide IsVisible;
    BeginViews(t, active, view);
    forall k | k in table ensures Grounded(table[k], t + 1, active[t := Txn(view, [])]) {
      assert Grounded(table[k], t, active);
      OldestBelow(table[k], t);
      BelowLater(table[k], t, t + 1);
      VisibleIff(view, t, Oldest(table[k]));
    }
  }

  lemma {:induction false} InitialGrounded(next: nat, active: map<nat, Txn>)
    requires next > 0 && ViewsOk(active, next)
    ensures Grounded(INITIAL, next, active)
  {
    forall t | t in active ensures IsVisible(active[t].view, 0) {
      VisibleIff(active[t].view, t, 0);
    }
    assert AllBelow(Nil, next);
  }

  lemma {:induction false} PutGrounded(c: Chain, next: nat, active: map<nat, Txn>, u: nat, k: nat, prior: Value,
                                       v: Value)
    requires Grounded(c, next, active) && u in active && u < next
    ensures Grounded(c, next, Wrote(active, u, k, prior))
    ensures Grounded(Version(u, v, c), next, Wrote(active, u, k, prior))
  {
    hide IsVisible;
  }

  lemma {:induction false} PutSound(table: map<nat, Chain>, next: nat, active: map<nat, Txn>, specs: map<nat, Spec>,
                                    u: nat, k: nat, v: Value)
    requires Sound(table, next, active, specs) && u in active
    ensures SlotOf(table, k).Version?
    ensures Sound(table[k := Version(u, v, SlotOf(table, k))], next, Wrote(active, u, k, SlotOf(table, k).val),
                  SpecPut(specs, u, k, v))
  {
    var slot := SlotOf(table, k);
    InitialGrounded(next, active);
    assert Grounded(slot, next, active);
    PutViews(next, active, u, k, slot.val);
    hide Grounded, ViewsOk;
    PutGrounded(slot, next, active, u, k, slot.val, v);
    forall j | j in table ensures Grounded(table[j], next, Wrote(active, u, k, slot.val)) {
      PutGrounded(table[j], next, active, u, k, slot.val, v);
    }
  }

  lemma {:induction false} EndSound(table: map<nat, Chain>, next: nat, active: map<nat, Txn>, specs: map<nat, Spec>,
                                    u: nat)
    requires Sound(table, next, active, specs)
    ensures Sound(table, next, active - {u}, specs - {u})
  {
    hide GoodView, IsVisible;
  }

  lemma {:induction false} PopGrounded(c: Chain, n: nat, next: nat)
    requires c.Version? && AllBelow(c, next)
    ensures var d := PopN(c, n); d.Version? && AllBelow(d, next) && Oldest(d) == Oldest(c)
  {
    if n > 0 && c.prev.Version? {
      PopGrounded(c.prev, n - 1, next);
    }
  }

  lemma {:induction false} RollBackSound(table': map<nat, Chain>, table: map<nat, Chain>, next: nat,
                                         active: map<nat, Txn>, specs: map<nat, Spec>, undo: seq<(nat, Value)>)
    requires Sound(table, next, active, specs) && RolledBack(table', table, undo)
    ensures Sound(table', next, active, specs)
  {
    hide GoodView, IsVisible;
    forall k | k in table' ensures Grounded(table'[k], next, active) {
      PopGrounded(table[k], CountKey(undo, k), next);
    }
  }

  // ---- What an abort takes back ----

  ghost function Length(c: Chain): nat { if c.Nil? then 0 else 1 + Length(c.prev) }

  /** The versions of k that the active transactions with ids below n may still take back. */
  ghost function Debt(active: map<nat, Txn>, k: nat, n: nat): nat {
    if n == 0 then 0
    else Debt(active, k, n - 1) + (if n - 1 in active then CountKey(active[n - 1].undo, k) else 0)
  }

  /** The chain is long enough for all of them and its oldest version. */
  ghost predicate CoversKey(table: map<nat, Chain>, active: map<nat, Txn>, next: nat, k: nat) {
    if k in table then Debt(active, k, next) < Length(table[k]) else Debt(active, k, next) == 0
  }

  ghost predicate CoversDebt(table: map<nat, Chain>, active: map<nat, Txn>, next: nat) {
    forall k: nat :: CoversKey(table, active, next, k)
  }

  lemma {:induction false} DebtFrame(active: map<nat, Txn>, active': map<nat, Txn>, k: nat, n: nat)
    requires forall x :: x < n ==> (x in active <==> x in active')
    requires forall x :: x < n && x in active ==> CountKey(active[x].undo, k) == CountKey(active'[x].undo, k)
    ensures Debt(active, k, n) == Debt(active', k, n)
  {
    if n > 0 {
      DebtFrame(active, active', k, n - 1);
    }
  }

  lemma {:induction false} DebtOf(active: map<nat, Txn>, u: nat, k: nat, n: nat)
    requires u in active && u < n
    ensures CountKey(active[u].undo, k) <= Debt(active, k, n)
    ensures Debt(active - {u}, k, n) == Debt(active, k, n) - CountKey(active[u].undo, k)
  {
    if u < n - 1 {
      DebtOf(active, u, k, n - 1);
    } else {
      DebtFrame(active, active - {u}, k, n - 1);
    }
  }

  lemma {:induction false} DebtWrote(active: map<nat, Txn>, u: nat, j: nat, prior: Value, k: nat, n: nat)
    requires u in active && u < n
    ensures Debt(Wrote(active, u, j, prior), k, n) == Debt(active, k, n) + if k == j then 1 else 0
  {
    CountKeyAppend(active[u].undo, (j, prior), k);
    if u < n - 1 {
      DebtWrote(active, u, j, prior, k, n - 1);
    } else {
      DebtFrame(active, Wrote(active, u, j, prior), k, n - 1);
    }
  }

  lemma {:induction false} NoDebt(table: map<nat, Chain>, next: nat)
    requires forall k :: k in table ==> table[k].Version?
    ensures CoversDebt(table, map[], next)
  {
    forall k: nat ensures CoversKey(table, map[], next, k) {
      EmptyDebt(k, next);
    }
  }

  lemma {:induction false} EmptyDebt(k: nat, n: nat)
    ensures Debt(map[], k, n) == 0
  {
    if n > 0 {
      EmptyDebt(k, n - 1);
    }
  }

  lemma {:induction false} BeginDebt(table: map<nat, Chain>, t: nat, active: map<nat, Txn>, view: ReadView)
    requires CoversDebt(table, active, t)
    ensures CoversDebt(table, active[t := Txn(view, [])], t + 1)
  {
    var active', next := active[t := Txn(view, [])], t + 1;
    forall k: nat ensures CoversKey(table, active', next, k) {
      assert CoversKey(table, active, t, k);
      DebtFrame(active, active', k, t);
    }
  }

  lemma {:induction false} PutDebt(table: map<nat, Chain>, next: nat, active: map<nat, Txn>, u: nat, k: nat, v: Value)
    requires CoversDebt(table, active, next) && u in active && u < next && SlotOf(table, k).Version?
    ensures CoversDebt(table[k := Version(u, v, SlotOf(table, k))], Wrote(active, u, k, SlotOf(table, k).val), next)
  {
    var slot := SlotOf(table, k);
    var table', active' := table[k := Version(u, v, slot)], Wrote(active, u, k, slot.val);
    forall j: nat ensures CoversKey(table', active', next, j) {
      assert CoversKey(table, active, next, j);
      DebtWrote(active, u, k, slot.val, j, next);
    }
  }

  lemma {:induction false} EndDebt(table: map<nat, Chain>, next: nat, active: map<nat, Txn>, u: nat)
    requires CoversDebt(table, active, next) && u in active && u < next
    ensures CoversDebt(table, active - {u}, next)
  {
    var active' := active - {u};
    forall k: nat ensures CoversKey(table, active', next, k) {
      assert CoversKey(table, active, next, k);
      DebtOf(active, u, k, next);
    }
  }

  lemma {:induction false} PopLength(c: Chain, n: nat)
    requires n < Length(c)
    ensures Length(PopN(c, n)) == Length(c) - n
  {
    if n > 0 {
      PopLength(c.prev, n - 1);
    }
  }

  lemma {:induction false} RollBackDebt(table': map<nat, Chain>, table: map<nat, Chain>, next: nat,
                                        active: map<nat, Txn>, u: nat)
    requires CoversDebt(table, active, next) && u in active && u < next
    requires RolledBack(table', table, active[u].undo)
    ensures CoversDebt(table', active - {u}, next)
  {
    var active' := active - {u};
    forall k: nat ensures CoversKey(table', active', next, k) {
      assert CoversKey(table, active, next, k);
      DebtOf(active, u, k, next);
      if k in table {
        PopLength(table[k], CountKey(active[u].undo, k));
      }
    }
  }

  /** The chain without the versions of t. */
  ghost function Without(c: Chain, t: nat): Chain {
    if c.Nil? then Nil
    else if c.xmin == t then Without(c.prev, t)
    else Version(c.xmin, c.val, Without(c.prev, t))
  }

  ghost function CountBy(c: Chain, t: nat): nat {
    if c.Nil? then 0 else CountBy(c.prev, t) + if c.xmin == t then 1 else 0
  }

  lemma {:induction false} WithoutFacts(c: Chain, t: nat)
    ensures Length(Without(c, t)) == Length(c) - CountBy(c, t) && CountBy(Without(c, t), t) == 0
    ensures CountBy(c, t) == 0 <==> NoneBy(c, t)
    ensures NoneBy(c, t) ==> Without(c, t) == c
  {
    if c.Version? {
      WithoutFacts(c.prev, t);
    }
  }

  lemma {:induction false} PopCount(c: Chain, t: nat, n: nat)
    requires n < Length(c)
    ensures CountBy(c, t) <= n + CountBy(PopN(c, n), t)
  {
    if n > 0 {
      PopCount(c.prev, t, n - 1);
    }
  }

  /** Popping n versions removes exactly those of t if and only if these are the n newest ones. */
  lemma {:induction false} PopsOwnIff(c: Chain, t: nat, n: nat)
    requires n < Length(c)
    ensures PopN(c, n) == Without(c, t) <==> WrittenBy(c, t, n)
  {
    WithoutFacts(c, t);
    PopLength(c, n);
    if n > 0 {
      PopsOwnIff(c.prev, t, n - 1);
      if c.xmin != t {
        PopCount(c.prev, t, n - 1);
      }
    }
  }

  /** The newest versions of every key t has written are its own, and it has no others. */
  ghost predicate OnTop(table: map<nat, Chain>, t: nat, undo: seq<(nat, Value)>) {
    forall k :: k in table ==> WrittenBy(table[k], t, CountKey(undo, k))
  }

  /** Whatever was written: for each key an abort removes exactly the versions of t if and only if they are the newest
      ones. If they are for every key, nobody else can tell. */
  lemma {:induction false} AbortExact(table': map<nat, Chain>, table: map<nat, Chain>, next: nat,
                                      active: map<nat, Txn>, specs: map<nat, Spec>, t: nat)
    requires Sound(table, next, active, specs) && CoversDebt(table, active, next) && t in active
    requires RolledBack(table', table, active[t].undo)
    ensures forall k :: k in table ==>
              (table'[k] == Without(table[k], t) <==> WrittenBy(table[k], t, CountKey(active[t].undo, k)))
    ensures OnTop(table, t, active[t].undo) ==> forall w, j :: w in active && w != t ==>
              ReadIn(table', active - {t}, w, j) == ReadIn(table, active, w, j)
  {
    hide GoodView, IsVisible;
    forall k | k in table
      ensures table'[k] == Without(table[k], t) <==> WrittenBy(table[k], t, CountKey(active[t].undo, k))
    {
      assert CoversKey(table, active, next, k);
      DebtOf(active, t, k, next);
      PopsOwnIff(table[k], t, CountKey(active[t].undo, k));
    }
    if OnTop(table, t, active[t].undo) {
      OwnAbortReads(table', table, next, active, specs, t);
    }
  }

  lemma {:induction false} GroundedIsBased(c: Chain, next: nat, active: map<nat, Txn>, t: nat)
    requires c.Version? && Oldest(c) !in active && t in active
    ensures Based(c, t)
  {
    if c.prev.Version? {
      GroundedIsBased(c.prev, next, active, t);
    }
  }

  /** The writes taken back were invisible to the others. */
  lemma {:induction false} OwnAbortReads(table': map<nat, Chain>, table: map<nat, Chain>, next: nat,
                                         active: map<nat, Txn>, specs: map<nat, Spec>, t: nat)
    requires Sound(table, next, active, specs) && t in active && RolledBack(table', table, active[t].undo)
    requires OnTop(table, t, active[t].undo)
    ensures forall w, j :: w in active && w != t ==>
              ReadIn(table', active - {t}, w, j) == ReadIn(table, active, w, j)
  {
    hide GoodView, IsVisible, FreshRead;
    forall w, j | w in active && w != t && j in table
      ensures Snapshot(table'[j], active[w].view) == Snapshot(table[j], active[w].view)
    {
      assert Grounded(table[j], next, active);
      GroundedIsBased(table[j], next, active, t);
      PopSkips(table[j], t, CountKey(active[t].undo, j), next);
      NotVisible(active, next, w, t);
    }
  }

  // ---- Sorting the active ids ----

  function InsertId(s: seq<nat>, x: nat): seq<nat> {
    if s == [] || x <= s[0] then [x] + s else [s[0]] + InsertId(s[1..], x)
  }

  function SortIds(s: seq<nat>): seq<nat> {
    if s == [] then [] else InsertId(SortIds(s[1..]), s[0])
  }

  lemma {:induction false} InsertIdSorted(s: seq<nat>, x: nat)
    requires Ascending(s) && x !in s
    ensures Ascending(InsertId(s, x))
    ensures forall y: nat :: y in InsertId(s, x) <==> y in s || y == x
  {
    if s == [] || x <= s[0] {
      HeadBelow(x, s);
    } else {
      assert s == [s[0]] + s[1..];
      InsertIdSorted(s[1..], x);
      HeadBelow(s[0], InsertId(s[1..], x));
    }
  }

  lemma {:induction false} SortIdsSorted(s: seq<nat>)
    requires Distinct(s)
    ensures Ascending(SortIds(s))
    ensures forall y: nat :: y in SortIds(s) <==> y in s
  {
    if s != [] {
      assert s == [s[0]] + s[1..];
      SortIdsSorted(s[1..]);
      InsertIdSorted(SortIds(s[1..]), s[0]);
    }
  }

  // ---- The engine ----

  /** The file holds exactly the logged records, and history the committed database after each of them. */
  ghost predicate WalOk(wal: seq<byte>, log: seq<Record>, history: seq<Db>, db: Db) {
    && wal == EncodeLog(log)
    && |history| == |log| + 1 && history[|log|] == db
    && (forall m :: 0 <= m <= |log| ==> Redoes(log[..m], history[m]))
  }

  ghost function ReadIn(table: map<nat, Chain>, active: map<nat, Txn>, t: nat, k: nat): Option<Value>
    requires t in active
  {
    if k in table then Snapshot(table[k], active[t].view) else None
  }

  /** After u's put the writer reads v for k, and every other read is as before; only that a key which had
      no slot now has the empty initial version. */
  ghost predicate SeenByWriterOnly(table: map<nat, Chain>, active: map<nat, Txn>, u: nat, k: nat, v: Value,
                                   table': map<nat, Chain>, active': map<nat, Txn>) {
    && active'.Keys == active.Keys && u in active && ReadIn(table', active', u, k) == Some(v)
    && forall w, j :: w in active && (w != u || j != k) ==>
         ReadIn(table', active', w, j) ==
           if j == k && k !in table then Some([]) else ReadIn(table, active, w, j)
  }

  class Engine {
    var table: map<nat, Chain>
    var next: nat
    var active: map<nat, Txn>
    var wal: seq<byte>
    ghost var specs: map<nat, Spec>  // snapshot and own writes of each active transaction
    ghost var db: Db                 // the committed database
    ghost var log: seq<Record>       // the records behind wal
    ghost var history: seq<Db>       // the committed database after each record

    /** What every operation keeps. */
    ghost predicate Sane()
      reads this
    {
      && Sound(table, next, active, specs) && CoversDebt(table, active, next)
      && wal == EncodeLog(log) && AllSized(log)
    }

    /** The engine agrees with the specification. */
    ghost predicate Valid()
      reads this
    {
      && Sane()
      && TableOk(table, next, active, specs, db) && LogOk(log, next, specs, db) && WalOk(wal, log, history, db)
    }

    /** Opens a log written by earlier runs and recovers from it; an empty log gives an empty engine. */
    constructor (file: seq<byte>, ghost rs: seq<Record>)
      requires file == EncodeLog(rs) && AllSized(rs) && CommitIsLast(rs)
      ensures Valid() && wal == file && log == rs && active == map[] && db == DbOf(rs)
      ensures table == Recovery(file).table && next == Recovery(file).next
    {
      var t, n := RecoverFromWal(file);
      table, next, active, wal := t, n, map[], file;
      specs, db, log, history := map[], DbOf(rs), rs, PastOf(rs);
      new;
      hide TableOk, LogOk, WalOk, EncodeLog, Recovery, DbOf, Sound, PastOf, CommitIsLast, CoversDebt;
      RecoveredOk(rs, Recovery(file));
    }

    ghost function Read(t: nat, k: nat): Option<Value>
      requires t in active
      reads this
    {
      ReadIn(table, active, t, k)
    }

    /** A transaction sees itself and exactly the transactions that finished before it began. */
    method BeginTransaction() returns (t: nat)
      requires Sane()
      modifies this
      ensures Sane() && (old(Valid()) ==> Valid())
      ensures t == old(next) && t !in old(active) && next == t + 1
      ensures t in active && active == old(active)[t := active[t]] && active[t].undo == []
      ensures forall x: nat :: IsVisible(active[t].view, x) <==> x == t || (x < t && x !in old(active))
      ensures specs == old(specs)[t := Spec(db, map[])]
      ensures table == old(table) && db == old(db) && wal == old(wal) && log == old(log)
    {
      hide KeyOk, AbsentOk, LogOk, WalOk, SingleWriters, GoodView, Grounded, EncodeLog, AllSized, CoversDebt;
      t := next;
      var view := BuildView(t);
      BeginSound(table, t, active, specs, view, Spec(db, map[]));
      BeginDebt(table, t, active, view);
      if Valid() {
        BeginTable(table, t, active, specs, db, view);
        BeginLog(log, t, specs, db, Spec(db, map[]));
      }
      next := t + 1;
      active, specs := active[t := Txn(view, [])], specs[t := Spec(db, map[])];
    }

    /** Collects and sorts the ids of the active transactions. */
    method BuildView(t: nat) returns (view: ReadView)
      requires t > 0 && forall x :: x in active ==> 0 < x < t
      ensures GoodView(view, t)
      ensures forall x: nat :: x in view.activeIds <==> x in active
      ensures forall x: nat :: IsVisible(view, x) <==> x == t || (x < t && x !in active)
    {
      var todo: set<nat>, list: seq<nat>, minActive := active.Keys, [], t;
      while todo != {}
        invariant todo <= active.Keys && Distinct(list)
        invariant forall x: nat :: x in list <==> x in active.Keys && x !in todo
        invariant 0 < minActive <= t && forall x :: x in list ==> minActive <= x
        decreases todo
      {
        var id :| id in todo;
        list := list + [id];
        if id < minActive { minActive := id; }
        todo := todo - {id};
      }
      SortIdsSorted(list);
      view := ReadView(t, minActive, t, SortIds(list));
      forall x: nat ensures IsVisible(view, x) <==> x == t || (x < t && x !in active) {
        VisibleIff(view, t, x);
      }
    }

    /** Snapshot isolation: a read returns the transaction's own last write, else what was committed when
        it began. A key nobody has written since the log began reads as nothing. */
    method Get(t: nat, k: nat) returns (r: Option<Value>)
      requires Sane() && t in active
      ensures r == Read(t, k) && t in specs
      ensures r.None? <==> k !in table
      ensures Valid() && r.Some? ==> r.value == Expected(specs[t], k)
      ensures Valid() && r.None? ==> k !in specs[t].own && k !in specs[t].snap && k !in db
    {
      hide LogOk, WalOk, GoodView, IsVisible, CoversDebt;
      if k !in table {
        if Valid() {
          assert AbsentOk(k, active, specs, db);
        }
        return None;
      }
      GroundedRead(table[k], next, active[t].view);
      if Valid() {
        assert TxnKeyOk(table[k], k, t, active[t], specs[t]);
      }
      r := ReadTupleSnapshot(table[k], active[t].view);
    }

    /** A put is logged, then pushed on the key's chain. Nobody else can see it; the writer reads it back.
        The engine stays consistent exactly when no other active transaction has written the key. */
    method Put(t: nat, k: nat, v: Value)
      requires Sane() && t in active && Sized(Record.Put(t, k, v))
      modifies this
      ensures Sane() && (old(Valid()) ==> (Valid() <==> old(NoConflict(active, t, k))))
      ensures SeenByWriterOnly(old(table), old(active), t, k, v, table, active)
      ensures SlotOf(old(table), k).Version?
      ensures table == old(table)[k := Version(t, v, SlotOf(old(table), k))]
      ensures active == Wrote(old(active), t, k, SlotOf(old(table), k).val)
      ensures t in old(specs) && specs == SpecPut(old(specs), t, k, v) && db == old(db) && next == old(next)
      ensures wal == old(wal) + EncodeRecord(Record.Put(t, k, v)) && log == old(log) + [Record.Put(t, k, v)]
    {
      hide TableOk, LogOk, WalOk, Redoes, ReadIn;
      hide SeenByWriterOnly, NoConflict, KeyOk, Wrote, SpecPut, EncodeRecord, Header, Sized, SlotOf, Sound, CoversDebt;
      ghost var rec, slot := Record.Put(t, k, v), SlotOf(table, k);
      SoundIds(table, next, active, specs);
      PutSound(table, next, active, specs, t, k, v);
      PutDebt(table, next, active, t, k, v);
      PutReads(table, next, active, specs, t, k, v);
      EncodeAppend(log, rec);
      RecordBytes(rec);
      if Valid() {
        PutChain(table, slot, k, next, active, specs, db, t, v);
        PutStep(table, next, active, specs, db, wal, log, history, t, k, v, slot);
      }
      wal := wal + (Header(1, t, k, |v|) + v);
      PushVersion(t, k, v);
      log, history, specs := log + [rec], history + [db], SpecPut(specs, t, k, v);
    }

    method PushVersion(t: nat, k: nat, v: Value)
      requires t in active && SlotOf(table, k).Version?
      modifies this`table, this`active
      ensures table == old(table)[k := Version(t, v, SlotOf(old(table), k))]
      ensures active == Wrote(old(active), t, k, SlotOf(old(table), k).val)
    {
      var slot := if k in table then table[k] else INITIAL;
      table := table[k := Version(t, v, slot)];
      active := active[t := active[t].(undo := active[t].undo + [(k, slot.val)])];
    }

    /** Committing makes the transaction's writes part of the committed database, and nothing else. */
    method CommitTransaction(t: nat)
      requires Sane() && t in active && Sized(Commit(t))
      modifies this
      ensures Sane() && (old(Valid()) ==> Valid())
      ensures active == old(active) - {t} && next == old(next) && table == old(table)
      ensures t in old(specs) && db == old(db) + old(specs)[t].own && specs == old(specs) - {t}
      ensures wal == old(wal) + EncodeRecord(Commit(t)) && log == old(log) + [Commit(t)]
    {
      hide TableOk, LogOk, WalOk, Redoes, ReadIn, Sound, EncodeRecord, Header, CoversDebt;
      SoundIds(table, next, active, specs);
      ghost var db' := db + specs[t].own;
      EndSound(table, next, active, specs, t);
      EndDebt(table, next, active, t);
      EncodeAppend(log, Commit(t));
      RecordBytes(Commit(t));
      if Valid() {
        CommitStep(table, next, active, specs, db, wal, log, history, t);
      }
      wal := wal + Header(2, t, 0, 0);
      log, history, db, specs := log + [Commit(t)], history + [db'], db', specs - {t};
      active := active - {t};
    }

    /** Aborting takes back one version per undo entry. For each key these are exactly the transaction's own if and
        only if its versions are the newest ones; then nobody else can tell it ran. Without conflicts they always
        are. */
    method AbortTransaction(t: nat)
      requires Sane() && t in active && Sized(Abort(t))
      modifies this
      ensures Sane() && (old(Valid()) ==> Valid())
      ensures active == old(active) - {t} && next == old(next)
      ensures db == old(db) && specs == old(specs) - {t} && RolledBack(table, old(table), old(active)[t].undo)
      ensures forall k :: k in table ==>
                (table[k] == Without(old(table)[k], t) <==>
                 WrittenBy(old(table)[k], t, CountKey(old(active)[t].undo, k)))
      ensures old(Valid() || OnTop(table, t, active[t].undo)) ==>
                forall w, j :: w in active ==> Read(w, j) == old(Read(w, j))
      ensures wal == old(wal) + EncodeRecord(Abort(t)) && log == old(log) + [Abort(t)]
    {
      hide TableOk, LogOk, WalOk, Redoes, ReadIn, Sound, EncodeRecord, Header, CoversDebt, Without, WrittenBy;
      hide OnTop;
      SoundIds(table, next, active, specs);
      RollBack(active[t].undo);
      AbortExact(table, old(table), next, active, specs, t);
      RollBackSound(table, old(table), next, active, specs, active[t].undo);
      RollBackDebt(table, old(table), next, active, t);
      EndSound(table, next, active, specs, t);
      EncodeAppend(log, Abort(t));
      RecordBytes(Abort(t));
      if old(Valid()) {
        AbortStep(table, old(table), next, active, specs, db, wal, log, history, t);
      }
      wal := wal + Header(3, t, 0, 0);
      log, history, specs := log + [Abort(t)], history + [db], specs - {t};
      active := active - {t};
    }

    /** Pops one version per undo entry, oldest entry first. */
    method RollBack(undo: seq<(nat, Value)>)
      modifies this`table
      ensures RolledBack(table, old(table), undo)
    {
      for i := 0 to |undo|
        invariant RolledBack(table, old(table), undo[..i])
      {
        assert undo[..i + 1] == undo[..i] + [undo[i]];
        forall k { CountKeyAppend(undo[..i], undo[i], k); }
        var k := undo[i].0;
        if k in table {
          PopOneMore(old(table)[k], CountKey(undo[..i], k));
          if table[k].Version? && table[k].prev.Version? {
            table := table[k := table[k].prev];
          }
        }
      }
      assert undo[..|undo|] == undo;
    }
  }

  // ---- Proof steps of put, commit and abort ----

  lemma {:induction false} OpenIds(table: map<nat, Chain>, next: nat, active: map<nat, Txn>, specs: map<nat, Spec>,
                                   db: Db, t: nat)
    requires TableOk(table, next, active, specs, db) && t in active
    ensures active.Keys == specs.Keys && t < next
  {
  }

  lemma {:induction false} SoundIds(table: map<nat, Chain>, next: nat, active: map<nat, Txn>, specs: map<nat, Spec>)
    requires Sound(table, next, active, specs)
    ensures active.Keys == specs.Keys && forall t :: t in active ==> t < next
  {
  }

  lemma {:induction false} CommitStep(table: map<nat, Chain>, next: nat, active: map<nat, Txn>,
                                      specs: map<nat, Spec>, db: Db, wal: seq<byte>, log: seq<Record>,
                                      history: seq<Db>, t: nat)
    requires TableOk(table, next, active, specs, db) && t in active && t in specs && Sized(Commit(t))
    requires LogOk(log, next, specs, db) && WalOk(wal, log, history, db)
    ensures var db' := db + specs[t].own;
            && TableOk(table, next, active - {t}, specs - {t}, db')
            && LogOk(log + [Commit(t)], next, specs - {t}, db')
            && WalOk(wal + EncodeRecord(Commit(t)), log + [Commit(t)], history + [db'], db')
  {
    hide TableOk, LogOk, WalOk, Redoes, EncodeRecord;
    OpenIds(table, next, active, specs, db, t);
    OwnAreDisjoint(table, next, active, specs, db);
    CommitTable(table, next, active, specs, db, t);
    CommitLog(log, next, specs, db, t);
    var db' := db + specs[t].own;
    LogRedoes(log + [Commit(t)], next, specs - {t}, db');
    GrowWal(wal, log, history, db, Commit(t), db');
  }

  lemma {:induction false} AbortStep(table': map<nat, Chain>, table: map<nat, Chain>, next: nat,
                                     active: map<nat, Txn>, specs: map<nat, Spec>, db: Db, wal: seq<byte>,
                                     log: seq<Record>, history: seq<Db>, t: nat)
    requires TableOk(table, next, active, specs, db) && t in active && t in specs && Sized(Abort(t))
    requires RolledBack(table', table, active[t].undo)
    requires LogOk(log, next, specs, db) && WalOk(wal, log, history, db)
    ensures TableOk(table', next, active - {t}, specs - {t}, db)
    ensures LogOk(log + [Abort(t)], next, specs - {t}, db)
    ensures WalOk(wal + EncodeRecord(Abort(t)), log + [Abort(t)], history + [db], db)
    ensures OnTop(table, t, active[t].undo)
  {
    hide TableOk, LogOk, WalOk, Redoes, EncodeRecord, RolledBack, OnTop;
    OpenIds(table, next, active, specs, db, t);
    AbortTable(table', table, next, active, specs, db, t);
    OwnOnTop(table, next, active, specs, db, t);
    AbortLog(log, next, specs, db, t);
    LogRedoes(log + [Abort(t)], next, specs - {t}, db);
    GrowWal(wal, log, history, db, Abort(t), db);
  }

  lemma {:induction false} GrowWal(wal: seq<byte>, log: seq<Record>, history: seq<Db>, db: Db, r: Record, db': Db)
    requires WalOk(wal, log, history, db) && Redoes(log + [r], db')
    ensures WalOk(wal + EncodeRecord(r), log + [r], history + [db'], db')
  {
    hide Redoes;
    EncodeAppend(log, r);
    forall m | 0 <= m <= |log| + 1 ensures Redoes((log + [r])[..m], (history + [db'])[m]) {
      if m <= |log| {
        assert (log + [r])[..m] == log[..m];
      } else {
        assert (log + [r])[..m] == log + [r];
      }
    }
  }

  lemma {:induction false} RecordBytes(r: Record)
    ensures r.Put? ==> EncodeRecord(r) == Header(1, r.txn, r.key, |r.value|) + r.value
    ensures !r.Put? ==> EncodeRecord(r) == Header(Kind(r), r.txn, 0, 0)
  {
  }

  lemma {:induction false} LogRedoes(log: seq<Record>, next: nat, specs: map<nat, Spec>, db: Db)
    requires LogOk(log, next, specs, db)
    ensures Redoes(log, db)
  {
  }

  lemma {:induction false} PutChain(table: map<nat, Chain>, slot: Chain, k: nat, next: nat, active: map<nat, Txn>,
                                    specs: map<nat, Spec>, db: Db, u: nat, v: Value)
    requires TableOk(table, next, active, specs, db) && slot == SlotOf(table, k) && u in active
    ensures slot.Version? && active.Keys == specs.Keys && KeyOk(slot, k, next, active, specs, db)
  {
    PutSlot(table, next, active, specs, db, k);
  }

  /** Whatever else is active, a new version is seen by its writer only. */
  lemma {:induction false} PutReads(table: map<nat, Chain>, next: nat, active: map<nat, Txn>, specs: map<nat, Spec>,
                                    u: nat, k: nat, v: Value)
    requires Sound(table, next, active, specs) && u in active && SlotOf(table, k).Version?
    ensures SeenByWriterOnly(table, active, u, k, v, table[k := Version(u, v, SlotOf(table, k))],
                             Wrote(active, u, k, SlotOf(table, k).val))
  {
    hide Grounded, GoodView, IsVisible;
    var table' := table[k := Version(u, v, SlotOf(table, k))];
    VisibleIff(active[u].view, u, u);
    forall w | w in active && w != u
      ensures Snapshot(table'[k], active[w].view) == Snapshot(SlotOf(table, k), active[w].view)
    {
      NotVisible(active, next, w, u);
    }
    forall w | w in active ensures Snapshot(INITIAL, active[w].view) == Some([]) {
      InitialRead(active[w].view, w);
    }
  }

  lemma {:induction false} InitialRead(view: ReadView, t: nat)
    requires GoodView(view, t) && t > 0
    ensures Snapshot(INITIAL, view) == Some([])
  {
    VisibleIff(view, t, 0);
  }

  lemma {:induction false} PutStep(table: map<nat, Chain>, next: nat, active: map<nat, Txn>, specs: map<nat, Spec>,
                                   db: Db, wal: seq<byte>, log: seq<Record>, history: seq<Db>, u: nat, k: nat,
                                   v: Value, slot: Chain)
    requires TableOk(table, next, active, specs, db) && u in active && u in specs
    requires slot == SlotOf(table, k) && slot.Version? && KeyOk(slot, k, next, active, specs, db)
    requires LogOk(log, next, specs, db) && WalOk(wal, log, history, db) && Sized(Record.Put(u, k, v))
    ensures var table', active', specs' :=
              table[k := Version(u, v, slot)], Wrote(active, u, k, slot.val), SpecPut(specs, u, k, v);
            && (TableOk(table', next, active', specs', db) ==> NoConflict(active, u, k))
            && (NoConflict(active, u, k) ==>
                && TableOk(table', next, active', specs', db)
                && LogOk(log + [Record.Put(u, k, v)], next, specs', db)
                && WalOk(wal + EncodeRecord(Record.Put(u, k, v)), log + [Record.Put(u, k, v)], history + [db], db))
  {
    hide TableOk, LogOk, WalOk, NoConflict, KeyOk, Wrote, EncodeRecord;
    var table', active', specs' :=
      table[k := Version(u, v, slot)], Wrote(active, u, k, slot.val), SpecPut(specs, u, k, v);
    if NoConflict(active, u, k) {
      OpenIds(table, next, active, specs, db, u);
      PutOwn(table, next, active, specs, db, u, k);
      PutTable(table, next, active, specs, db, u, k, v, slot, table', active', specs');
      PutLog(log, next, specs, db, u, k, v);
      LogRedoes(log + [Record.Put(u, k, v)], next, specs', db);
      GrowWal(wal, log, history, db, Record.Put(u, k, v), db);
    } else if TableOk(table', next, active', specs', db) {
      TwoWritersBreak(table', next, active, specs', db, u, k, slot.val);
    }
  }

  /** No key has two active writers, so the second one breaks the invariant. */
  lemma {:induction false} TwoWritersBreak(table': map<nat, Chain>, next: nat, active: map<nat, Txn>,
                                           specs': map<nat, Spec>, db: Db, u: nat, k: nat, prior: Value)
    requires u in active && TableOk(table', next, Wrote(active, u, k, prior), specs', db)
    ensures NoConflict(active, u, k)
  {
    CountKeyAppend(active[u].undo, (k, prior), k);
    var active' := Wrote(active, u, k, prior);
    assert OneWriter(active', k);
    forall w | w in active && w != u ensures CountKey(active[w].undo, k) == 0 {
      assert w in active' && u in active' && active'[w] == active[w];
    }
  }

  /** Without a conflicting writer, nobody else owns the key. */
  lemma {:induction false} PutOwn(table: map<nat, Chain>, next: nat, active: map<nat, Txn>, specs: map<nat, Spec>,
                                  db: Db, u: nat, k: nat)
    requires TableOk(table, next, active, specs, db) && u in active && NoConflict(active, u, k)
    ensures forall w :: w in specs && w != u ==> k !in specs[w].own
  {
    forall w | w in specs && w != u ensures k !in specs[w].own {
      OwnIsUndo(table, next, active, specs, db, w, k);
    }
  }

  /** Without conflicts, an active transaction's versions are the newest ones. */
  lemma {:induction false} OwnOnTop(table: map<nat, Chain>, next: nat, active: map<nat, Txn>, specs: map<nat, Spec>,
                                    db: Db, t: nat)
    requires TableOk(table, next, active, specs, db) && t in active
    ensures OnTop(table, t, active[t].undo)
  {
    forall k | k in table ensures WrittenBy(table[k], t, CountKey(active[t].undo, k)) {
      assert TxnKeyOk(table[k], k, t, active[t], specs[t]);
    }
  }

  ghost function PastOf(rs: seq<Record>): seq<Db> { seq(|rs| + 1, m requires 0 <= m <= |rs| => DbOf(rs[..m])) }

  /** Recovery of a whole log gives a consistent engine holding exactly the committed database. */
  lemma {:induction false} RecoveredOk(rs: seq<Record>, rec: Recovered)
    requires AllSized(rs) && CommitIsLast(rs) && rec == Recovery(EncodeLog(rs))
    ensures TableOk(rec.table, rec.next, map[], map[], DbOf(rs)) && Sound(rec.table, rec.next, map[], map[])
    ensures CoversDebt(rec.table, map[], rec.next)
    ensures LogOk(rs, rec.next, map[], DbOf(rs)) && WalOk(EncodeLog(rs), rs, PastOf(rs), DbOf(rs))
  {
    hide Recovery, DbOf, EncodeLog, KeyHolds, LastPut, Committed, LogOk, Redoes, KeyOk, AbsentOk, CommitIsLast;
    hide CoversDebt;
    RecoverWhole(rs, rec);
    forall m | 0 <= m <= |rs| ensures Redoes(rs[..m], DbOf(rs[..m])) {
      RedoesDbOf(rs[..m]);
    }
    assert rs[..|rs|] == rs;
    forall k: nat
      ensures k in rec.table ==> KeyOk(rec.table[k], k, rec.next, map[], map[], DbOf(rs))
      ensures k in rec.table ==> Grounded(rec.table[k], rec.next, map[])
      ensures k !in rec.table ==> AbsentOk(k, map[], map[], DbOf(rs))
    {
      RecoveredKey(rs, rec, k);
    }
    NoOpen(rs, rec.next);
    NoDebt(rec.table, rec.next);
  }

  lemma {:induction false} RecoverWhole(rs: seq<Record>, rec: Recovered)
    requires AllSized(rs) && CommitIsLast(rs) && rec == Recovery(EncodeLog(rs))
    ensures forall k: nat :: KeyHolds(rec.table, k, LastPut(rs, k, Committed(rs)), Committed(rs))
    ensures forall i :: 0 <= i < |rs| ==> rs[i].txn < rec.next
    ensures rec.next > 0
  {
    AllComplete(rs);
    assert EncodeLog(rs)[..|EncodeLog(rs)|] == EncodeLog(rs) && rs[..|rs|] == rs;
    RecoverCutLog(rs, |EncodeLog(rs)|, rs, rec);
  }

  lemma {:induction false} NoOpen(rs: seq<Record>, next: nat)
    requires AllSized(rs) && CommitIsLast(rs) && forall i :: 0 <= i < |rs| ==> rs[i].txn < next
    ensures LogOk(rs, next, map[], DbOf(rs))
  {
    RedoesDbOf(rs);
  }

  lemma {:induction false} RecoveredKey(rs: seq<Record>, rec: Recovered, k: nat)
    requires KeyHolds(rec.table, k, LastPut(rs, k, Committed(rs)), Committed(rs))
    requires forall i :: 0 <= i < |rs| ==> rs[i].txn < rec.next
    ensures k in rec.table ==> KeyOk(rec.table[k], k, rec.next, map[], map[], DbOf(rs))
    ensures k in rec.table ==> Grounded(rec.table[k], rec.next, map[])
    ensures k !in rec.table ==> AbsentOk(k, map[], map[], DbOf(rs))
  {
    RedoesDbOf(rs);
    assert LastPut(rs, k, Committed(rs)) == DbGet(DbOf(rs), k);
    if k in rec.table {
      CommittedIff(rs, rec.table[k].xmin);
      assert AllBelow(Nil, rec.next);
    }
  }

  lemma {:induction false} AllComplete(rs: seq<Record>)
    ensures CompleteIn(rs, |EncodeLog(rs)|) == |rs|
  {
    if rs != [] {
      AllComplete(rs[1..]);
    }
  }

  // ---- What a crash, or a conflicting write, leaves behind ----

  /** The table holds exactly the committed database, without versions of anything older. */
  ghost predicate Holds(table: map<nat, Chain>, db: Db) {
    && table.Keys == db.Keys
    && forall k :: k in db ==> table[k].Version? && table[k].val == db[k] && table[k].prev.Nil?
  }

  /** Atomic and durable: a crash that keeps only the first n bytes of the log recovers exactly the database
      that was committed when the last complete record was written. The ids given out next are exactly those above
      every id whose header is complete in the kept bytes. */
  lemma {:induction false} CrashRecovery(wal: seq<byte>, log: seq<Record>, next: nat, specs: map<nat, Spec>,
                                         history: seq<Db>, db: Db, n: nat)
    requires LogOk(log, next, specs, db) && WalOk(wal, log, history, db) && n <= |wal|
    ensures var rec, m := Recovery(wal[..n]), CompleteIn(log, n);
            && m < |history| && Holds(rec.table, history[m])
            && (forall i :: 0 <= i < m ==> log[i].txn < rec.next)
            && forall t: nat :: t < rec.next <==> t == 0 || WalTail.Reaches(log[..WalTail.HeadersIn(log, n)], t)
  {
    hide LastPut, Committed, Recovery, EncodeLog, KeyHolds, Redoes, WalTail.Reaches, WalTail.HeadersIn;
    var m := CompleteIn(log, n);
    assert Redoes(log[..m], history[m]);
    var kept, rec := log[..m], Recovery(wal[..n]);
    RecoverCutLog(log, n, kept, rec);
    HoldsCommitted(rec.table, kept, history[m]);
    assert forall i :: 0 <= i < m ==> log[..m][i] == log[i];
    WalTail.NextIdAfterCut(log, n, rec);
  }

  /** Recovering the whole log gives, for every key, what a transaction beginning now would read in memory;
      a key without a recovered slot is absent there or still has its empty initial version. */
  lemma {:induction false} RecoveryMatchesMemory(table: map<nat, Chain>, next: nat, active: map<nat, Txn>,
                                                 specs: map<nat, Spec>, db: Db, wal: seq<byte>, log: seq<Record>,
                                                 history: seq<Db>, k: nat)
    requires TableOk(table, next, active, specs, db) && LogOk(log, next, specs, db) && WalOk(wal, log, history, db)
    ensures var rec := Recovery(wal);
            if k in rec.table then
              k in table && rec.table[k].Version? && FreshRead(table[k], active.Keys) == Some(rec.table[k].val)
            else k !in table || FreshRead(table[k], active.Keys) == Some([])
  {
    CrashRecovery(wal, log, next, specs, history, db, |wal|);
    AllComplete(log);
    assert wal[..|wal|] == wal;
    if k in table {
      assert KeyOk(table[k], k, next, active, specs, db);
    } else {
      assert AbsentOk(k, active, specs, db);
    }
  }

  lemma {:induction false} HoldsCommitted(table: map<nat, Chain>, kept: seq<Record>, db: Db)
    requires forall k: nat :: KeyHolds(table, k, LastPut(kept, k, Committed(kept)), Committed(kept))
    requires Redoes(kept, db)
    ensures Holds(table, db)
  {
    forall k: nat
      ensures k in table <==> k in db
      ensures k in db ==> table[k].Version? && table[k].val == db[k] && table[k].prev.Nil?
    {
      assert KeyHolds(table, k, LastPut(kept, k, Committed(kept)), Committed(kept));
      assert LastPut(kept, k, Committed(kept)) == DbGet(db, k);
    }
  }

  /** Records already on disk stay complete, however much of what follows them is lost. */
  lemma {:induction false} WrittenIsComplete(log: seq<Record>, more: seq<Record>, n: nat)
    requires |EncodeLog(log)| <= n
    ensures CompleteIn(log + more, n) >= |log|
  {
    if log != [] {
      assert (log + more)[1..] == log[1..] + more;
      WrittenIsComplete(log[1..], more, n - |EncodeRecord(log[0])|);
    }
  }

  /** Two writers of one key that both commit: whatever the order of the commits, readers and recovery keep the
      later put. The specification keeps the later commit. They agree exactly when the commits follow the puts, or the
      values are the same. */
  lemma {:induction false} ConflictingCommits(table: map<nat, Chain>, next: nat, active: map<nat, Txn>,
                                              specs: map<nat, Spec>, db: Db, log: seq<Record>, w: nat, u: nat,
                                              k: nat, v: Value, inOrder: bool)
    requires TableOk(table, next, active, specs, db) && LogOk(log, next, specs, db)
    requires w in active && u in active && w != u && k in specs[w].own
    ensures k in table && FreshRead(Version(u, v, table[k]), active.Keys - {w, u}) == Some(v)
    ensures var log' := log + [Record.Put(u, k, v)] + [Commit(if inOrder then w else u)] +
                        [Commit(if inOrder then u else w)];
            LastPut(log', k, Committed(log')) == Some(v)
    ensures var late, early := specs[u].own[k := v], specs[w].own;
            var db' := if inOrder then db + early + late else db + late + early;
            DbGet(db', k) == Some(v) <==> inOrder || early[k] == v
  {
    hide TableOk, LogOk, LastPut, Committed;
    OpenIds(table, next, active, specs, db, w);
    OwnInTable(table, next, active, specs, db, w, k);
    ConflictingRedo(log, u, k, v, if inOrder then w else u, if inOrder then u else w);
  }

  /** The second writer commits before the first one aborts: memory loses the committed write and shows the aborted
      one, while recovery and the specification keep the committed write. */
  lemma {:induction false} CommitThenAbort(table: map<nat, Chain>, next: nat, active: map<nat, Txn>,
                                           specs: map<nat, Spec>, db: Db, log: seq<Record>, w: nat, u: nat, k: nat,
                                           v: Value, d: Chain)
    requires TableOk(table, next, active, specs, db) && LogOk(log, next, specs, db)
    requires w in active && u in active && w != u && k in specs[w].own && k in table
    requires d == PopN(Version(u, v, table[k]), CountKey(active[w].undo, k))
    ensures d.Version? && d.xmin == w && NoneBy(d, u) && FreshRead(d, active.Keys - {u} - {w}) == Some(d.val)
    ensures var log' := log + [Record.Put(u, k, v)] + [Commit(u)] + [Abort(w)];
            LastPut(log', k, Committed(log')) == Some(v)
    ensures DbGet(db + specs[u].own[k := v], k) == Some(v)
  {
    hide LastPut, Committed, LogOk;
    ConflictingPut(table, next, active, specs, db, w, u, k, v, d);
    var put := log + [Record.Put(u, k, v)];
    var one := put + [Commit(u)];
    CommittedAppend(put, Commit(u));
    CommittedAppend(one, Abort(w));
    var c := Committed(one + [Abort(w)]);
    LastPutAppend(one, Abort(w), k, c);
    LastPutAppend(put, Commit(u), k, c);
    LastPutAppend(log, Record.Put(u, k, v), k, c);
  }

  lemma {:induction false} OwnInTable(table: map<nat, Chain>, next: nat, active: map<nat, Txn>,
                                      specs: map<nat, Spec>, db: Db, w: nat, k: nat)
    requires TableOk(table, next, active, specs, db) && w in specs && k in specs[w].own
    ensures k in table
  {
    assert k !in table ==> AbsentOk(k, active, specs, db);
  }

  lemma {:induction false} ConflictingRedo(log: seq<Record>, u: nat, k: nat, v: Value, first: nat,
                                           second: nat)
    requires first == u || second == u
    ensures var log' := log + [Record.Put(u, k, v)] + [Commit(first)] + [Commit(second)];
            LastPut(log', k, Committed(log')) == Some(v)
  {
    hide LastPut, Committed;
    var put := log + [Record.Put(u, k, v)];
    var one := put + [Commit(first)];
    var two := one + [Commit(second)];
    CommittedAppend(put, Commit(first));
    CommittedAppend(one, Commit(second));
    LastPutAppend(one, Commit(second), k, Committed(two));
    LastPutAppend(put, Commit(first), k, Committed(two));
    LastPutAppend(log, Record.Put(u, k, v), k, Committed(two));
  }

  /** The engine does not detect write-write conflicts. If u writes a key that an active w has written too,
      aborting w takes back u's write instead: a version of the aborted w becomes the one new transactions
      read. Aborting w leaves no version of w behind exactly when w had not written the key. */
  lemma {:induction false} ConflictingPut(table: map<nat, Chain>, next: nat, active: map<nat, Txn>,
                                          specs: map<nat, Spec>, db: Db, w: nat, u: nat, k: nat, v: Value, d: Chain)
    requires TableOk(table, next, active, specs, db) && w in active && u in active && w != u && k in table
    requires d == PopN(Version(u, v, table[k]), CountKey(active[w].undo, k))
    ensures NoneBy(d, w) <==> k !in specs[w].own
    ensures k !in specs[w].own ==> d == Version(u, v, table[k])
    ensures k in specs[w].own ==> d.Version? && d.xmin == w && NoneBy(d, u) &&
                                  FreshRead(d, active.Keys - {w}) == Some(d.val)
  {
    assert OneWriter(active, k);
    assert TxnKeyOk(table[k], k, w, active[w], specs[w]) && TxnKeyOk(table[k], k, u, active[u], specs[u]);
    ConflictingPop(table[k], w, u, v, CountKey(active[w].undo, k));
  }

  lemma {:induction false} ConflictingPop(c: Chain, w: nat, u: nat, v: Value, n: nat)
    requires WrittenBy(c, w, n) && Based(c, w) && u != w && (n > 0 ==> NoneBy(c, u))
    ensures var d := PopN(Version(u, v, c), n);
            && (n == 0 ==> d == Version(u, v, c) && NoneBy(d, w))
            && (n > 0 ==> d.Version? && d.xmin == w && NoneBy(d, u))
  {
    if n > 0 {
      PopLeavesOne(c, w, n - 1);
      PopNone(c, u, n - 1);
    }
  }

  lemma {:induction false} PopLeavesOne(c: Chain, w: nat, m: nat)
    requires WrittenBy(c, w, m + 1) && Based(c, w)
    ensures PopN(c, m).Version? && PopN(c, m).xmin == w
  {
    if m > 0 {
      PopLeavesOne(c.prev, w, m - 1);
    }
  }

  lemma {:induction false} PopNone(c: Chain, u: nat, m: nat)
    requires NoneBy(c, u)
    ensures NoneBy(PopN(c, m), u)
  {
    if m > 0 && c.Version? && c.prev.Version? {
      PopNone(c.prev, u, m - 1);
    }
  }

  // ---- Two runs with conflicting writers ----

  /** The first writer aborts: a transaction that begins afterwards reads the aborted value, and the second writer no
      longer reads its own. */
  method AbortedWriteSurvives() returns (seen: Option<Value>, own: Option<Value>, ghost db: Db)
    ensures seen == Some([1]) && own == Some([]) && db == map[]
  {
    hide Sound, TableOk, LogOk, WalOk, EncodeLog, EncodeRecord, Header, KeyOk, IsVisible, AllSized, Expected;
    hide CoversDebt, Without, WrittenBy, OnTop;
    var e, w, u := TwoWriters();
    ghost var view := e.active[u].view;
    assert IsVisible(view, 0) && !IsVisible(view, 1);
    e.AbortTransaction(w);
    assert e.table[7] == Version(1, [1], INITIAL);
    var t := e.BeginTransaction();
    seen := e.Get(t, 7);
    assert e.active[u].view == view && Snapshot(INITIAL, view) == Some([]);
    own := e.Get(u, 7);
    db := e.db;
  }

  /** Both writers commit, the later one first: its value stays, though the other commit is the last one. */
  method EarlierWriteLost() returns (seen: Option<Value>, ghost db: Db)
    ensures seen == Some([2]) && db == map[7 := [1]]
  {
    hide Sound, TableOk, LogOk, WalOk, EncodeLog, EncodeRecord, Header, KeyOk, IsVisible, AllSized, Expected;
    hide CoversDebt, Without, WrittenBy, OnTop;
    var e, w, u := TwoWriters();
    e.CommitTransaction(u);
    e.CommitTransaction(w);
    var t := e.BeginTransaction();
    seen := e.Get(t, 7);
    db := e.db;
  }

  /** The second writer commits, then the first one aborts: a transaction that begins afterwards reads the aborted
      value, and recovery from the log finds the committed one. */
  method CommittedWriteLost() returns (seen: Option<Value>, recovered: map<nat, Chain>)
    ensures seen == Some([1]) && recovered.Keys == {7} && recovered[7].Version? && recovered[7].val == [2]
  {
    hide Sound, TableOk, LogOk, WalOk, EncodeLog, EncodeRecord, Header, KeyOk, IsVisible, Expected, CoversDebt;
    hide Without, WrittenBy, OnTop, Recovery;
    var e, w, u := TwoWriters();
    e.CommitTransaction(u);
    e.AbortTransaction(w);
    assert e.table[7] == Version(1, [1], INITIAL);
    LostRecovered(e.log, e.wal);
    var t := e.BeginTransaction();
    seen := e.Get(t, 7);
    var next;
    recovered, next := RecoverFromWal(e.wal);
  }

  lemma {:induction false} LostRecovered(log: seq<Record>, wal: seq<byte>)
    requires log == [Record.Put(1, 7, [1]), Record.Put(2, 7, [2]), Commit(2), Abort(1)]
    requires AllSized(log) && wal == EncodeLog(log)
    ensures var table := Recovery(wal).table; table.Keys == {7} && table[7].Version? && table[7].val == [2]
  {
    hide Recovery, EncodeLog, Committed, AllSized;
    var puts := [Record.Put(1, 7, [1])];
    var both, done := puts + [Record.Put(2, 7, [2])], puts + [Record.Put(2, 7, [2])] + [Commit(2)];
    assert log == done + [Abort(1)];
    var c := Committed(log);
    CommittedIff(log, 2);
    CommittedIff(log, 1);
    assert log[2] == Commit(2);
    forall k: nat ensures LastPut(log, k, c) == if k == 7 then Some([2]) else None {
      LastPutAppend(done, Abort(1), k, c);
      LastPutAppend(both, Commit(2), k, c);
      LastPutAppend(puts, Record.Put(2, 7, [2]), k, c);
      LastPutAppend([], puts[0], k, c);
      assert [] + puts == puts;
    }
    EmptyLog();
    assert EncodeLog([]) + EncodeLog(log) == wal && [] + log == log;
    WalTail.CleanTailKeeps([], log, log, Recovery(wal));
    forall k: nat ensures k in Recovery(wal).table <==> k == 7 {
      assert KeyHolds(Recovery(wal).table, k, LastPut(log, k, c), c);
    }
    assert KeyHolds(Recovery(wal).table, 7, LastPut(log, 7, c), c);
  }

  /** Two transactions on a new engine put different values to key 7. */
  method TwoWriters() returns (e: Engine, w: nat, u: nat)
    ensures fresh(e) && e.Sane() && w == 1 && u == 2 && e.next == 3
    ensures e.active.Keys == {1, 2} && 2 in e.specs && 1 in e.specs
    ensures e.table == map[7 := Version(2, [2], Version(1, [1], INITIAL))] && e.db == map[]
    ensures e.log == [Record.Put(1, 7, [1]), Record.Put(2, 7, [2])]
    ensures e.specs[1].own == map[7 := [1]] && e.specs[2].own == map[7 := [2]]
    ensures CountKey(e.active[1].undo, 7) == 1
    ensures forall x: nat :: IsVisible(e.active[2].view, x) <==> x == 2 || x == 0
  {
    hide Sound, TableOk, LogOk, WalOk, EncodeLog, EncodeRecord, Header, KeyOk, IsVisible, AllSized, CommitIsLast;
    hide Recovery, SeenByWriterOnly, NoConflict, DbOf, CountKey, CoversDebt;
    EmptyLog();
    e := new Engine([], []);
    w := e.BeginTransaction();
    u := e.BeginTransaction();
    e.Put(w, 7, [1]);
    e.Put(u, 7, [2]);
    assert e.active[1].undo == [(7, [])];
  }

  lemma {:induction false} EmptyLog()
    ensures EncodeLog([]) == [] && AllSized([]) && CommitIsLast([])
    ensures Recovery([]) == Recovered(map[], 1) && DbOf([]) == map[]
    ensures CountKey([(7, [])], 7) == 1
  {
    CountKeyAppend([], (7, []), 7);
    assert Parse([], 0) == [];
  }
}
