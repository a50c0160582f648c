/** A key-value store with nested transactions: undo frames instead of copies of the store. */
module NestedTransactions {
  import opened Common

  /** A value and the time from which it no longer counts. */
  datatype Entry = Entry(value: string, expiry: Option<int>)

  type Contents = map<string, Entry>

  /** The entries keys had before a transaction first touched them; nothing for keys that did not exist. */
  type Frame = map<string, Option<Entry>>

  /** The store with a frame's keys put back. */
  ghost function Restored(store: Contents, frame: Frame): Contents {
    map k | k in store.Keys + frame.Keys && (if k in frame then frame[k].Some? else k in store) ::
      if k in frame then frame[k].value else store[k]
  }

  /** The store as it was when the transaction at depth i began: all frames from the innermost to i undone. */
  ghost function Undone(store: Contents, frames: seq<Frame>, i: nat): Contents
    requires i <= |frames|
    decreases |frames| - i
  {
    if i == |frames| then store else Restored(Undone(store, frames, i + 1), frames[i])
  }

  /** What a key's undo entry must be when it is first touched. */
  function Saved(store: Contents, frame: Frame, key: string): Frame {
    if key in frame then frame else frame[key := if key in store then Some(store[key]) else None]
  }

  lemma {:induction false} SavedRestores(store: Contents, frame: Frame, key: string, store': Contents)
    requires forall k :: k != key ==> (k in store' <==> k in store) && (k in store ==> store'[k] == store[k])
    ensures Restored(store', Saved(store, frame, key)) == Restored(store, frame)
  {
  }

  /** Changing one key after saving it leaves every begin's store recoverable. */
  lemma {:induction false} TouchKeeps(store: Contents, frames: seq<Frame>, key: string, store': Contents, i: nat)
    requires frames != [] && i < |frames|
    requires forall k :: k != key ==> (k in store' <==> k in store) && (k in store ==> store'[k] == store[k])
    ensures var n := |frames| - 1;
            Undone(store', frames[n := Saved(store, frames[n], key)], i) == Undone(store, frames, i)
    decreases |frames| - i
  {
    var n := |frames| - 1;
    if i == n {
      SavedRestores(store, frames[n], key, store');
    } else {
      TouchKeeps(store, frames, key, store', i + 1);
    }
  }

  /** The undo entries of an inner transaction that its parent does not have yet. */
  ghost function Merged(parent: Frame, inner: Frame): Frame {
    map k | k in parent.Keys + inner.Keys :: if k in parent then parent[k] else inner[k]
  }

  lemma {:induction false} MergedRestores(store: Contents, parent: Frame, inner: Frame)
    ensures Restored(store, Merged(parent, inner)) == Restored(Restored(store, inner), parent)
  {
  }

  /** An inner commit leaves every outer begin's store recoverable. */
  lemma {:induction false} CommitKeeps(store: Contents, frames: seq<Frame>, frames': seq<Frame>, i: nat)
    requires |frames| > 1 && i < |frames| - 1
    requires var n := |frames| - 1; frames' == frames[..n - 1] + [Merged(frames[n - 1], frames[n])]
    ensures Undone(store, frames', i) == Undone(store, frames, i)
    decreases |frames| - i
  {
    var n := |frames| - 1;
    if i == n - 1 {
      MergedRestores(store, frames[n - 1], frames[n]);
      assert Undone(store, frames, n) == Restored(store, frames[n]);
      assert Undone(store, frames', n) == store;
    } else {
      CommitKeeps(store, frames, frames', i + 1);
    }
  }

  /** Putting the innermost frame back is undoing it, for every outer begin too. */
  lemma {:induction false} RollbackKeeps(store: Contents, frames: seq<Frame>, i: nat)
    requires frames != [] && i < |frames|
    ensures var n := |frames| - 1; Undone(Restored(store, frames[n]), frames[..n], i) == Undone(store, frames, i)
    decreases |frames| - i
  {
    var n := |frames| - 1;
    if i == n {
      assert Undone(store, frames, n + 1) == store;
    } else {
      RollbackKeeps(store, frames, i + 1);
    }
  }

  /** A begun transaction's frame is empty and undoes nothing. */
  lemma {:induction false} BeginKeeps(store: Contents, frames: seq<Frame>, i: nat)
    requires i <= |frames|
    ensures Undone(store, frames + [map[]], i) == Undone(store, frames, i)
    decreases |frames| - i
  {
    if i == |frames| {
      assert Undone(store, frames + [map[]], i + 1) == store;
      assert Restored(store, map[]) == store;
    } else {
      BeginKeeps(store, frames, i + 1);
    }
  }

  ghost function Except(frame: Frame, keys: set<string>): Frame { map k | k in frame && k !in keys :: frame[k] }

  lemma {:induction false} PutBackNone(store: Contents, frame: Frame)
    ensures Restored(store, Except(frame, frame.Keys)) == store
  {
  }

  lemma {:induction false} ExceptNone(frame: Frame)
    ensures Except(frame, {}) == frame
  {
  }

  /** One more key put back. */
  lemma {:induction false} PutBackOne(store: Contents, frame: Frame, todo: set<string>, key: string)
    requires key in todo && todo <= frame.Keys
    ensures var before := Restored(store, Except(frame, todo));
            Restored(store, Except(frame, todo - {key})) ==
              if frame[key].Some? then before[key := frame[key].value] else before - {key}
  {
  }

  class KVStore {
    var store: Contents
    var frames: seq<Frame>
    ghost var begins: seq<Contents>  // the whole store as it was at each open begin

    /** The undo frames stand for a stack of full snapshots. */
    ghost predicate Valid()
      reads this
    {
      |begins| == |frames| && forall i :: 0 <= i < |frames| ==> Undone(store, frames, i) == begins[i]
    }

    constructor ()
      ensures Valid() && store == map[] && begins == []
    {
      store, frames, begins := map[], [], [];
    }

    method Set(key: string, value: string, expiry: Option<int>)
      requires Valid()
      modifies this
      ensures Valid() && store == old(store)[key := Entry(value, expiry)] && begins == old(begins)
    {
      SaveUndoEntry(key, store[key := Entry(value, expiry)]);
      store := store[key := Entry(value, expiry)];
    }

    method Del(key: string) returns (found: bool)
      requires Valid()
      modifies this
      ensures Valid() && store == old(store) - {key} && begins == old(begins)
      ensures found <==> key in old(store)
    {
      SaveUndoEntry(key, store - {key});
      found := key in store;
      store := store - {key};
    }

    method SaveUndoEntry(key: string, ghost store': Contents)
      requires Valid()
      requires forall k :: k != key ==> (k in store' <==> k in store) && (k in store ==> store'[k] == store[k])
      modifies this`frames
      ensures |frames| == |begins| && forall i :: 0 <= i < |frames| ==> Undone(store', frames, i) == begins[i]
    {
      if frames == [] {
        return;
      }
      ghost var before := frames;
      var n := |frames| - 1;
      if key !in frames[n] {
        var entry := if key in store then Some(store[key]) else None;
        frames := frames[n := frames[n][key := entry]];
      }
      assert frames == before[n := Saved(store, before[n], key)];
      forall i | 0 <= i < |frames| ensures Undone(store', frames, i) == begins[i] {
        TouchKeeps(store, before, key, store', i);
      }
    }

    method Get(key: string, now: int) returns (r: Option<string>)
      ensures r.Some? <==> key in store && (store[key].expiry.Some? ==> now < store[key].expiry.value)
      ensures r.Some? ==> r.value == store[key].value
    {
      if key !in store {
        return None;
      }
      if store[key].expiry.Some? && now >= store[key].expiry.value {
        return None;
      }
      return Some(store[key].value);
    }

    method Begin()
      requires Valid()
      modifies this
      ensures Valid() && store == old(store) && begins == old(begins) + [store]
    {
      forall i | 0 <= i <= |frames| ensures Undone(store, frames + [map[]], i) == (begins + [store])[i] {
        BeginKeeps(store, frames, i);
      }
      frames, begins := frames + [map[]], begins + [store];
    }

    /** Rolling back restores exactly the store at the matching begin; it fails without a transaction. */
    method Rollback() returns (ok: bool)
      requires Valid()
      modifies this
      ensures Valid() && (ok <==> old(begins) != [])
      ensures !ok ==> unchanged(this)
      ensures ok ==> store == old(begins)[|old(begins)| - 1] && begins == old(begins)[..|old(begins)| - 1]
    {
      if frames == [] {
        return false;
      }
      ok := true;
      var n := |frames| - 1;
      ghost var store0, frames0 := store, frames;
      var frame := frames[n];
      frames, begins := frames[..n], begins[..n];
      PutBack(frame);
      forall i | 0 <= i < n ensures Undone(store, frames, i) == begins[i] {
        RollbackKeeps(store0, frames0, i);
      }
      RollbackKeeps(store0, frames0, n);
    }

    /** Restores the keys of a frame, in any order. */
    method PutBack(frame: Frame)
      modifies this`store
      ensures store == Restored(old(store), frame)
    {
      hide Restored, Except;
      var todo := frame.Keys;
      PutBackNone(store, frame);
      while todo != {}
        invariant todo <= frame.Keys
        invariant store == Restored(old(store), Except(frame, todo))
        decreases todo
      {
        var key :| key in todo;
        PutBackOne(old(store), frame, todo, key);
        if frame[key].Some? {
          store := store[key := frame[key].value];
        } else {
          store := store - {key};
        }
        todo := todo - {key};
      }
      ExceptNone(frame);
    }

    /** Committing keeps the store; the outer transactions still roll back to where they began. */
    method Commit() returns (ok: bool)
      requires Valid()
      modifies this
      ensures Valid() && (ok <==> old(begins) != [])
      ensures !ok ==> unchanged(this)
      ensures ok ==> store == old(store) && begins == old(begins)[..|old(begins)| - 1]
    {
      if frames == [] {
        return false;
      }
      ok := true;
      var n := |frames| - 1;
      if n == 0 {
        frames, begins := [], [];
        return;
      }
      var parent := MergeInto(frames[n - 1], frames[n]);
      ghost var frames0 := frames;
      frames, begins := frames[..n - 1] + [parent], begins[..n];
      forall i | 0 <= i < n ensures Undone(store, frames, i) == begins[i] {
        CommitKeeps(store, frames0, frames, i);
      }
    }

    method MergeInto(parent: Frame, frame: Frame) returns (r: Frame)
      ensures r == Merged(parent, frame)
    {
      r := parent;
      var todo := frame.Keys;
      while todo != {}
        invariant todo <= frame.Keys
        invariant r == Merged(parent, map k | k in frame && k !in todo :: frame[k])
        decreases todo
      {
        var key :| key in todo;
        if key !in r {
          r := r[key := frame[key]];
        }
        todo := todo - {key};
      }
      assert frame == map k | k in frame && k !in todo :: frame[k];
    }
  }
}
