/** The LSM engine: a memtable in front of sorted tables, searched newest first. */
module LsmEngine {
  import opened Common
  import opened BloomFilter
  import opened SkipList
  import opened SsTable

  /** What tables written in this order hold together: the newest entry of every key. */
  ghost function Merge(maps: seq<map<nat, nat>>): map<nat, nat> {
    if maps == [] then map[] else Merge(maps[..|maps| - 1]) + maps[|maps| - 1]
  }

  /** The newest table that has the key decides; without one the key is absent. */
  lemma {:induction false} NewestDecides(maps: seq<map<nat, nat>>, key: nat, i: nat)
    requires i <= |maps| && forall j :: i <= j < |maps| ==> key !in maps[j]
    ensures i > 0 && key in maps[i - 1] ==> key in Merge(maps) && Merge(maps)[key] == maps[i - 1][key]
    ensures i == 0 ==> key !in Merge(maps)
    decreases |maps|
  {
    if i < |maps| {
      var init := maps[..|maps| - 1];
      forall j | i <= j < |init| ensures key !in init[j] {
        assert init[j] == maps[j];
      }
      NewestDecides(init, key, i);
    }
  }

  lemma {:induction false} MergeAppend(maps: seq<map<nat, nat>>, m: map<nat, nat>)
    ensures Merge(maps + [m]) + map[] == Merge(maps) + m
  {
    assert (maps + [m])[..|maps|] == maps;
  }

  /** Opening what was built from a memtable's listing gives a table of its contents. */
  lemma {:induction false} BuiltTable(pairs: seq<Pair>, index: seq<Entry>, filter: Filter, m: map<nat, nat>)
    requires Lists(pairs, m) && Indexes(index, pairs) && WellFormed(filter) && AllMayContain(filter, pairs)
    ensures var t := Open(FileOf(pairs, index, filter)); t.Some? && TableOk(t.value, pairs, m)
  {
    hide Lists, Indexes, AllMayContain, Open;
    var file := FileOf(pairs, index, filter);
    OpenBuilt(pairs, index, filter);
    forall i | 0 <= i < |pairs| ensures WordAt(file, 2 * i) == pairs[i].0 && WordAt(file, 2 * i + 1) == pairs[i].1 {
      assert file[2 * i] == Flat(pairs)[2 * i] && file[2 * i + 1] == Flat(pairs)[2 * i + 1];
    }
  }

  ghost predicate TablesOk(tables: seq<Table>, listings: seq<seq<Pair>>, maps: seq<map<nat, nat>>) {
    && |tables| == |listings| == |maps|
    && forall i :: 0 <= i < |tables| ==> TableOk(tables[i], listings[i], maps[i])
  }

  ghost predicate KeysFit(m: map<nat, nat>) { forall k :: k in m ==> k < TWO64 }

  class LsmEngine {
    const threshold: nat
    var memtable: SkipList
    var tables: seq<Table>
    ghost var listings: seq<seq<Pair>>
    ghost var maps: seq<map<nat, nat>>
    ghost var contents: map<nat, nat>  // the map of all puts so far

    ghost predicate Valid()
      reads this, memtable, memtable.order
    {
      && memtable.Valid() && KeysFit(memtable.contents)
      && TablesOk(tables, listings, maps)
      && contents == Merge(maps) + memtable.contents
    }

    constructor (threshold: nat)
      ensures Valid() && contents == map[] && this.threshold == threshold && maps == []
      ensures memtable.contents == map[] && memtable.byteSize == 0
    {
      this.threshold := threshold;
      memtable := new SkipList();
      tables, listings, maps, contents := [], [], [], map[];
    }

    /** A put changes one entry of the map of puts. The memtable is flushed exactly when its size has then reached the
        threshold. */
    method Put(key: nat, value: nat) returns (ghost bytes: nat)
      requires Valid() && key < TWO64
      modifies this, memtable, memtable.order
      ensures Valid() && contents == old(contents)[key := value]
      ensures key in old(memtable.contents) ==> bytes == old(memtable.byteSize)
      ensures key !in old(memtable.contents) ==>
                NODE_BYTES < bytes - old(memtable.byteSize) <= NODE_BYTES + MAX_LEVEL * LINK_BYTES
      ensures bytes < threshold ==>
                && maps == old(maps) && memtable.byteSize == bytes
                && memtable.contents == old(memtable.contents)[key := value]
      ensures bytes >= threshold ==>
                && maps == old(maps) + [old(memtable.contents)[key := value]]
                && memtable.contents == map[] && memtable.byteSize == 0
      ensures threshold > 0 ==> memtable.byteSize < threshold
    {
      hide TablesOk, Merge, Ordered, Linked, Holds;
      memtable.Put(key, value);
      bytes := memtable.byteSize;
      contents := contents[key := value];
      if memtable.byteSize >= threshold {
        Flush();
      }
    }

    /** Flushing moves the memtable into a new table and changes nothing a reader can see. */
    method Flush()
      requires Valid()
      modifies this
      ensures Valid() && contents == old(contents)
      ensures old(memtable.size) == 0 ==> unchanged(this)
      ensures old(memtable.size) > 0 ==> memtable.byteSize == 0 && memtable.contents == map[]
                                         && maps == old(maps) + [old(memtable.contents)]
    {
      hide Ordered, Linked, Holds, TablesOk, TableOk, Lists, KeysFit, Merge;
      if memtable.size == 0 {
        return;
      }
      var pairs := memtable.ToVector();
      ListedKeysFit(pairs, memtable.contents);
      var table := BuildAndOpen(pairs, memtable.contents);
      NoEntries();
      if table.Some? {
        MergeAppend(maps, memtable.contents);
        MoreTables(tables, listings, maps, table.value, pairs, memtable.contents);
        tables := tables + [table.value];
        listings, maps := listings + [pairs], maps + [memtable.contents];
      }
      memtable := new SkipList();
    }

    /** Writes a table file and opens it. */
    method BuildAndOpen(pairs: seq<Pair>, ghost m: map<nat, nat>) returns (table: Option<Table>)
      requires Lists(pairs, m) && pairs != [] && forall i :: 0 <= i < |pairs| ==> pairs[i].0 < TWO64
      ensures table.Some? && TableOk(table.value, pairs, m)
    {
      hide TableOk, Lists, Indexes, AllMayContain, FileOf, Open;
      table := None;
      var numBits, numHashes := SizeFilter();
      var built, index, filter := Build(pairs, numBits, numHashes);
      if built.Some? {
        BuiltTable(pairs, index, filter, m);
        table := Open(built.value);
      }
    }

    /** The sizes come from logarithms of the number of keys; any sizes will do. */
    method SizeFilter() returns (numBits: nat, numHashes: nat)
      ensures numBits >= 64 && numHashes >= 1
    {
      numBits, numHashes := *, *;
      if numBits < 64 {
        numBits := 64;
      }
      if numHashes < 1 {
        numHashes := 1;
      }
    }

    /** Get is lookup in the map of all puts so far. */
    method Get(key: nat) returns (r: Option<nat>)
      requires Valid() && key < TWO64
      ensures r == if key in contents then Some(contents[key]) else None
    {
      hide Ordered, Linked, Holds, TableOk;
      var found, value := memtable.Get(key);
      if found {
        return Some(value);
      }
      var i := |tables|;
      while i > 0
        invariant 0 <= i <= |tables| && forall j :: i <= j < |tables| ==> key !in maps[j]
      {
        found, value := SsTable.Get(tables[i - 1], key, listings[i - 1], maps[i - 1]);
        if found {
          NewestDecides(maps, key, i);
          return Some(value);
        }
        i := i - 1;
      }
      NewestDecides(maps, key, 0);
      return None;
    }
  }

  lemma {:induction false} NoEntries()
    ensures KeysFit(map[])
  {
  }

  lemma {:induction false} MoreTables(tables: seq<Table>, listings: seq<seq<Pair>>, maps: seq<map<nat, nat>>,
                                      t: Table, pairs: seq<Pair>, m: map<nat, nat>)
    requires TablesOk(tables, listings, maps) && TableOk(t, pairs, m)
    ensures TablesOk(tables + [t], listings + [pairs], maps + [m])
  {
    hide TableOk;
  }

  lemma {:induction false} ListedKeysFit(pairs: seq<Pair>, m: map<nat, nat>)
    requires Lists(pairs, m) && KeysFit(m)
    ensures forall i :: 0 <= i < |pairs| ==> pairs[i].0 < TWO64
  {
  }
}
