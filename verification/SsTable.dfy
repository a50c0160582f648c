/** Sorted string tables: blocks of sorted records, a block index, a Bloom filter and a footer. A file is a
    sequence of 8-byte words, and a file offset counts bytes. */
module SsTable {
  import opened Common
  import opened BloomFilter
  import opened SkipList

  const RECORDS_PER_BLOCK: nat := 128
  const MAGIC: nat := 0x53535431
  const FOOTER_WORDS: nat := 6

  datatype Entry = Entry(lastKey: nat, offset: nat, count: nat)

  datatype Table = Table(file: seq<nat>, index: seq<Entry>, filter: Filter)

  type Pair = (nat, nat)

  // ---- The file ----

  function Flat(pairs: seq<Pair>): (r: seq<nat>)
    ensures |r| == 2 * |pairs|
    ensures forall i :: 0 <= i < |pairs| ==> r[2 * i] == pairs[i].0 && r[2 * i + 1] == pairs[i].1
  {
    if pairs == [] then []
    else Flat(pairs[..|pairs| - 1]) + [pairs[|pairs| - 1].0, pairs[|pairs| - 1].1]
  }

  function FlatIndex(index: seq<Entry>): (r: seq<nat>)
    ensures |r| == 3 * |index|
    ensures forall i :: 0 <= i < |index| ==> Entry(r[3 * i], r[3 * i + 1], r[3 * i + 2]) == index[i]
  {
    if index == [] then []
    else
      var e := index[|index| - 1];
      FlatIndex(index[..|index| - 1]) + [e.lastKey, e.offset, e.count]
  }

  function AsWord(x: bv64): nat { x as nat }

  function AsBits(w: nat): bv64 { if w < TWO64 then w as bv64 else 0 }

  lemma {:induction false} WordBack(x: bv64)
    ensures AsBits(AsWord(x)) == x
  {
    assert x as nat < TWO64;
  }

  function Words(bits: seq<bv64>): (r: seq<nat>)
    ensures |r| == |bits| && forall i :: 0 <= i < |bits| ==> r[i] == AsWord(bits[i])
  {
    seq(|bits|, i requires 0 <= i < |bits| => AsWord(bits[i]))
  }

  function Footer(indexWord: nat, indexCount: nat, bloomWord: nat, filter: Filter): (r: seq<nat>)
    ensures |r| == FOOTER_WORDS
  {
    [MAGIC, 8 * indexWord, indexCount, 8 * bloomWord, filter.numBits, filter.numHashes]
  }

  function FileOf(pairs: seq<Pair>, index: seq<Entry>, filter: Filter): seq<nat> {
    Flat(pairs) + FlatIndex(index) + Words(filter.bits)
    + Footer(2 * |pairs|, |index|, 2 * |pairs| + 3 * |index|, filter)
  }

  /** Reading past the end leaves the zeros the buffer was filled with. */
  function WordAt(file: seq<nat>, w: nat): nat { if w < |file| then file[w] else 0 }

  function EntryAt(file: seq<nat>, w: nat): Entry { Entry(WordAt(file, w), WordAt(file, w + 1), WordAt(file, w + 2)) }

  function ReadIndex(file: seq<nat>, offset: nat, count: nat): (r: seq<Entry>)
    ensures |r| == count && forall i :: 0 <= i < count ==> r[i] == EntryAt(file, offset / 8 + 3 * i)
  {
    seq(count, i requires 0 <= i < count => EntryAt(file, offset / 8 + 3 * i))
  }

  function ReadBits(file: seq<nat>, offset: nat, count: nat): (r: seq<bv64>)
    ensures |r| == count && forall i :: 0 <= i < count ==> r[i] == AsBits(WordAt(file, offset / 8 + i))
  {
    seq(count, i requires 0 <= i < count => AsBits(WordAt(file, offset / 8 + i)))
  }

  function Open(file: seq<nat>): Option<Table> {
    if |file| < FOOTER_WORDS then None
    else
      var footer := file[|file| - FOOTER_WORDS..];
      if footer[0] % 0x1_0000_0000 != MAGIC then None
      else
        var bits := ReadBits(file, footer[3], (footer[4] + 63) / 64);
        Some(Table(file, ReadIndex(file, footer[1], footer[2]), Filter(bits, footer[4], footer[5])))
  }

  /** Opening any file: it is refused exactly when it is too short for a footer or the footer does not start with the
      magic number; otherwise index and filter are the words that the footer points at. */
  lemma {:induction false} OpenExact(file: seq<nat>)
    ensures Open(file).None? <==> |file| < 6 || file[|file| - 6] % 0x1_0000_0000 != 0x5353_5431
    ensures Open(file).Some? ==>
              var t, n := Open(file).value, |file|;
              && t.file == file && |t.index| == file[n - 4]
              && t.filter.numBits == file[n - 2] && t.filter.numHashes == file[n - 1]
              && |t.filter.bits| == (file[n - 2] + 63) / 64
              && (forall i :: 0 <= i < |t.index| ==> t.index[i] == EntryAt(file, file[n - 5] / 8 + 3 * i))
              && (forall i :: 0 <= i < |t.filter.bits| ==>
                    t.filter.bits[i] == AsBits(WordAt(file, file[n - 3] / 8 + i)))
  {
    hide AsBits, WordAt, EntryAt;
    if |file| >= 6 {
      var footer := file[|file| - FOOTER_WORDS..];
      assert footer[0] == file[|file| - 6] && footer[1] == file[|file| - 5] && footer[2] == file[|file| - 4];
      assert footer[3] == file[|file| - 3] && footer[4] == file[|file| - 2] && footer[5] == file[|file| - 1];
    }
  }

  /** Opening a file that was built gives back its index and its filter. */
  lemma {:induction false} OpenBuilt(pairs: seq<Pair>, index: seq<Entry>, filter: Filter)
    requires WellFormed(filter)
    ensures var file := FileOf(pairs, index, filter); Open(file) == Some(Table(file, index, filter))
  {
    hide ReadIndex, ReadBits, FlatIndex, Words, Flat;
    var data, idx, bits := Flat(pairs), FlatIndex(index), Words(filter.bits);
    var footer := Footer(2 * |pairs|, |index|, 2 * |pairs| + 3 * |index|, filter);
    var file := FileOf(pairs, index, filter);
    assert file[|file| - FOOTER_WORDS..] == footer;
    IndexBack(data, idx, bits + footer, index, file);
    BitsBack(data + idx, bits, footer, filter.bits, file);
  }

  lemma {:induction false} IndexBack(data: seq<nat>, idx: seq<nat>, rest: seq<nat>, index: seq<Entry>, file: seq<nat>)
    requires idx == FlatIndex(index) && file == data + idx + rest
    ensures ReadIndex(file, 8 * |data|, |index|) == index
  {
    forall i | 0 <= i < |index| ensures EntryAt(file, |data| + 3 * i) == index[i] {
      assert file[|data| + 3 * i] == idx[3 * i] && file[|data| + 3 * i + 1] == idx[3 * i + 1];
      assert file[|data| + 3 * i + 2] == idx[3 * i + 2];
    }
  }

  lemma {:induction false} BitsBack(before: seq<nat>, words: seq<nat>, rest: seq<nat>, bits: seq<bv64>,
                                    file: seq<nat>)
    requires words == Words(bits) && file == before + words + rest
    ensures ReadBits(file, 8 * |before|, |bits|) == bits
  {
    hide AsBits, AsWord;
    forall i | 0 <= i < |bits| ensures AsBits(WordAt(file, |before| + i)) == bits[i] {
      assert file[|before| + i] == words[i];
      WordBack(bits[i]);
    }
  }

  // ---- Blocks ----

  function BlockEnd(n: nat, b: nat): nat { if RECORDS_PER_BLOCK * (b + 1) <= n then RECORDS_PER_BLOCK * (b + 1) else n }

  /** The index entry of block b. */
  function EntryFor(pairs: seq<Pair>, b: nat): Entry
    requires RECORDS_PER_BLOCK * b < |pairs|
  {
    var start, end := RECORDS_PER_BLOCK * b, BlockEnd(|pairs|, b);
    Entry(pairs[end - 1].0, 16 * start, end - start)
  }

  /** The index has one entry for every block, and the blocks cover all records. */
  ghost predicate Indexes(index: seq<Entry>, pairs: seq<Pair>) {
    && (forall b :: 0 <= b < |index| ==> RECORDS_PER_BLOCK * b < |pairs| && index[b] == EntryFor(pairs, b))
    && |pairs| <= RECORDS_PER_BLOCK * |index|
  }

  /** A table that holds exactly the map m, given as its sorted records. */
  ghost predicate TableOk(t: Table, pairs: seq<Pair>, m: map<nat, nat>) {
    && Lists(pairs, m) && Indexes(t.index, pairs)
    && (forall i :: 0 <= i < |pairs| ==> WordAt(t.file, 2 * i) == pairs[i].0 && WordAt(t.file, 2 * i + 1) == pairs[i].1)
    && WellFormed(t.filter) && AllMayContain(t.filter, pairs)
  }

  ghost predicate AllMayContain(filter: Filter, pairs: seq<Pair>)
    requires WellFormed(filter)
  {
    forall i :: 0 <= i < |pairs| ==> pairs[i].0 < TWO64 && MayContain(filter, pairs[i].0)
  }

  lemma {:induction false} FlatSnoc(a: seq<Pair>)
    requires a != []
    ensures Flat(a) == Flat(a[..|a| - 1]) + [a[|a| - 1].0, a[|a| - 1].1]
  {
  }

  lemma {:induction false} FlatAppend(a: seq<Pair>, b: seq<Pair>)
    ensures Flat(a + b) == Flat(a) + Flat(b)
  {
    if b == [] {
      assert a + b == a;
    } else {
      var n := |b| - 1;
      assert (a + b)[..|a| + n] == a + b[..n];
      FlatAppend(a, b[..n]);
      FlatSnoc(a + b);
      FlatSnoc(b);
    }
  }

  /** Building writes the records block by block, then the index, the filter and the footer; it refuses only
      an empty memtable. The filter's size is up to the caller. */
  method Build(pairs: seq<Pair>, numBits: nat, numHashes: nat)
    returns (r: Option<seq<nat>>, ghost index: seq<Entry>, ghost filter: Filter)
    requires numBits >= 64 && numHashes >= 1 && forall i :: 0 <= i < |pairs| ==> pairs[i].0 < TWO64
    ensures r.None? <==> pairs == []
    ensures r.Some? ==> r.value == FileOf(pairs, index, filter)
    ensures r.Some? ==> Indexes(index, pairs) && WellFormed(filter) && AllMayContain(filter, pairs)
    ensures r.Some? ==> Exact(filter, KeysOf(pairs)) && filter.numBits == numBits && filter.numHashes == numHashes
  {
    hide Exact, Flat, FlatIndex, Words, Indexes, WellFormed, AllMayContain;
    index, filter := [], Filter([], 0, 0);
    if pairs == [] {
      return None, [], Filter([], 0, 0);
    }
    var f := BuildFilter(pairs, numBits, numHashes);
    var file, entries := BuildBlocks(pairs);
    var indexOffset := 16 * |pairs|;
    file := file + FlatIndex(entries);
    var bloomOffset := indexOffset + 24 * |entries|;
    file := file + Words(f.bits);
    file := file + [MAGIC, indexOffset, |entries|, bloomOffset, f.numBits, f.numHashes];
    r, index, filter := Some(file), entries, f;
  }

  method BuildFilter(pairs: seq<Pair>, numBits: nat, numHashes: nat) returns (filter: Filter)
    requires numBits >= 64 && numHashes >= 1 && forall i :: 0 <= i < |pairs| ==> pairs[i].0 < TWO64
    ensures WellFormed(filter) && AllMayContain(filter, pairs)
    ensures Exact(filter, KeysOf(pairs)) && filter.numBits == numBits && filter.numHashes == numHashes
  {
    hide MayContain, Exact;
    var bloom := new Bloom(numBits, numHashes);
    for i := 0 to |pairs|
      invariant bloom.Valid() && fresh(bloom) && bloom.keys == KeysOf(pairs[..i])
      invariant bloom.filter.numBits == numBits && bloom.filter.numHashes == numHashes
    {
      assert pairs[..i + 1] == pairs[..i] + [pairs[i]];
      bloom.Add(pairs[i].0);
    }
    assert pairs[..|pairs|] == pairs;
    filter := bloom.filter;
    BuiltFilter(filter, pairs);
  }

  ghost function KeysOf(pairs: seq<Pair>): set<nat> { set p | p in pairs :: p.0 }

  lemma {:induction false} BuiltFilter(filter: Filter, pairs: seq<Pair>)
    requires Exact(filter, KeysOf(pairs)) && forall i :: 0 <= i < |pairs| ==> pairs[i].0 < TWO64
    ensures WellFormed(filter) && AllMayContain(filter, pairs)
  {
    hide Marked, MayContain;
    forall i | 0 <= i < |pairs| ensures MayContain(filter, pairs[i].0) {
      assert pairs[i] in pairs && pairs[i].0 in KeysOf(pairs);
      MayContainIff(filter, KeysOf(pairs), pairs[i].0);
    }
  }

  method BuildBlocks(pairs: seq<Pair>) returns (file: seq<nat>, index: seq<Entry>)
    ensures file == Flat(pairs) && Indexes(index, pairs)
  {
    hide Flat, EntryFor;
    file, index := [], [];
    var i, offset := 0, 0;
    while i < |pairs|
      invariant i <= |pairs| && file == Flat(pairs[..i]) && offset == 16 * i
      invariant i == if RECORDS_PER_BLOCK * |index| <= |pairs| then RECORDS_PER_BLOCK * |index| else |pairs|
      invariant i < |pairs| ==> i == RECORDS_PER_BLOCK * |index|
      invariant forall b :: 0 <= b < |index| ==> RECORDS_PER_BLOCK * b < |pairs| && index[b] == EntryFor(pairs, b)
    {
      var chunk := if |pairs| - i < RECORDS_PER_BLOCK then |pairs| - i else RECORDS_PER_BLOCK;
      FlatAppend(pairs[..i], pairs[i..i + chunk]);
      assert pairs[..i] + pairs[i..i + chunk] == pairs[..i + chunk];
      NextEntry(pairs, |index|, i, chunk);
      file := file + Flat(pairs[i..i + chunk]);
      index := index + [Entry(pairs[i + chunk - 1].0, offset, chunk)];
      offset := offset + 16 * chunk;
      i := i + chunk;
    }
    assert pairs[..i] == pairs;
  }

  lemma {:induction false} NextEntry(pairs: seq<Pair>, b: nat, i: nat, chunk: nat)
    requires i == RECORDS_PER_BLOCK * b < |pairs|
    requires chunk == if |pairs| - i < RECORDS_PER_BLOCK then |pairs| - i else RECORDS_PER_BLOCK
    ensures EntryFor(pairs, b) == Entry(pairs[i + chunk - 1].0, 16 * i, chunk)
  {
  }

  // ---- Lookup ----

  /** The first block whose last key is not below the key is the only one that can hold it. */
  lemma {:induction false} OnlyBlock(index: seq<Entry>, pairs: seq<Pair>, m: map<nat, nat>, key: nat, b: nat)
    requires Indexes(index, pairs) && Lists(pairs, m) && b <= |index|
    requires forall c :: 0 <= c < b ==> index[c].lastKey < key
    requires b < |index| ==> index[b].lastKey >= key
    ensures b == |index| ==> key !in m
    ensures b < |index| && key in m ==>
              exists i :: RECORDS_PER_BLOCK * b <= i < BlockEnd(|pairs|, b) && pairs[i].0 == key
  {
    if key in m {
      var i :| 0 <= i < |pairs| && pairs[i].0 == key;
      if b < |index| {
        NotAfterBlock(index, pairs, m, b, i);
      }
      if b > 0 {
        AfterBlock(index, pairs, m, b - 1, i);
      }
    }
  }

  lemma {:induction false} NotAfterBlock(index: seq<Entry>, pairs: seq<Pair>, m: map<nat, nat>, b: nat, i: nat)
    requires Indexes(index, pairs) && Lists(pairs, m) && b < |index| && i < |pairs| && pairs[i].0 <= index[b].lastKey
    ensures i < BlockEnd(|pairs|, b)
  {
    assert index[b] == EntryFor(pairs, b);
  }

  lemma {:induction false} AfterBlock(index: seq<Entry>, pairs: seq<Pair>, m: map<nat, nat>, b: nat, i: nat)
    requires Indexes(index, pairs) && Lists(pairs, m) && b < |index| && i < |pairs| && index[b].lastKey < pairs[i].0
    ensures BlockEnd(|pairs|, b) <= i
  {
    assert index[b] == EntryFor(pairs, b);
  }

  /** A table's get is lookup in the map it was built from. */
  method Get(t: Table, key: nat, ghost pairs: seq<Pair>, ghost m: map<nat, nat>) returns (found: bool, value: nat)
    requires TableOk(t, pairs, m) && key < TWO64
    ensures found <==> key in m
    ensures found ==> value == m[key]
  {
    value := 0;
    var may := Contains(t.filter, key);
    if !may {
      return false, 0;
    }
    var b := FindBlock(t.index, key, pairs, m);
    OnlyBlock(t.index, pairs, m, key, b);
    if b >= |t.index| {
      return false, 0;
    }
    found, value := SearchBlock(t, b, key, pairs, m);
  }

  method FindBlock(index: seq<Entry>, key: nat, ghost pairs: seq<Pair>, ghost m: map<nat, nat>) returns (b: nat)
    requires Indexes(index, pairs) && Lists(pairs, m)
    ensures b <= |index| && (b < |index| ==> index[b].lastKey >= key)
    ensures forall c :: 0 <= c < b ==> index[c].lastKey < key
  {
    hide Indexes, Lists;
    var low, high := 0, |index|;
    b := |index|;
    while low < high
      invariant low <= high <= |index| && b <= |index|
      invariant b == high && (b < |index| ==> index[b].lastKey >= key)
      invariant forall c :: 0 <= c < low ==> index[c].lastKey < key
    {
      var mid := low + (high - low) / 2;
      if index[mid].lastKey >= key {
        b, high := mid, mid;
      } else {
        LastKeysAscend(index, pairs, m, mid);
        low := mid + 1;
      }
    }
  }

  lemma {:induction false} LastKeysAscend(index: seq<Entry>, pairs: seq<Pair>, m: map<nat, nat>, b: nat)
    requires Indexes(index, pairs) && Lists(pairs, m) && b < |index|
    ensures forall c :: 0 <= c < b ==> index[c].lastKey < index[b].lastKey
  {
    forall c | 0 <= c < b ensures index[c].lastKey < index[b].lastKey {
      assert BlockEnd(|pairs|, c) - 1 < BlockEnd(|pairs|, b) - 1;
    }
  }

  /** Reads the block and finds the key's lower bound in it. */
  method SearchBlock(t: Table, b: nat, key: nat, ghost pairs: seq<Pair>, ghost m: map<nat, nat>)
    returns (found: bool, value: nat)
    requires TableOk(t, pairs, m) && b < |t.index|
    requires key in m ==> exists i :: RECORDS_PER_BLOCK * b <= i < BlockEnd(|pairs|, b) && pairs[i].0 == key
    ensures found <==> key in m
    ensures found ==> value == m[key]
  {
    hide TableOk;
    var e := t.index[b];
    var start := e.offset / 8;
    ghost var block := BlockOf(t, pairs, m, b);
    var lo, hi := 0, e.count;
    while lo < hi
      invariant 0 <= lo <= hi <= e.count
      invariant forall i :: 0 <= i < lo ==> block[i].0 < key
      invariant forall i :: hi <= i < e.count ==> key <= block[i].0
    {
      var mid := lo + (hi - lo) / 2;
      assert WordAt(t.file, start + 2 * mid) == block[mid].0;
      if WordAt(t.file, start + 2 * mid) < key {
        lo := mid + 1;
      } else {
        hi := mid;
      }
    }
    if key in m {
      var i: nat :| RECORDS_PER_BLOCK * b <= i < BlockEnd(|pairs|, b) && pairs[i].0 == key;
      assert block[i - RECORDS_PER_BLOCK * b].0 == key;
    }
    assert lo < e.count ==> WordAt(t.file, start + 2 * lo) == block[lo].0;
    assert lo < e.count ==> WordAt(t.file, start + 2 * lo + 1) == block[lo].1;
    if lo < e.count && WordAt(t.file, start + 2 * lo) == key {
      return true, WordAt(t.file, start + 2 * lo + 1);
    }
    return false, 0;
  }

  /** The records that the index entry of block b leads to. */
  lemma {:induction false} BlockOf(t: Table, pairs: seq<Pair>, m: map<nat, nat>, b: nat) returns (block: seq<Pair>)
    requires TableOk(t, pairs, m) && b < |t.index|
    ensures RECORDS_PER_BLOCK * b <= BlockEnd(|pairs|, b) <= |pairs|
    ensures block == pairs[RECORDS_PER_BLOCK * b..BlockEnd(|pairs|, b)]
    ensures |block| == t.index[b].count
    ensures forall i :: 0 <= i < |block| ==> WordAt(t.file, t.index[b].offset / 8 + 2 * i) == block[i].0
    ensures forall i :: 0 <= i < |block| ==> WordAt(t.file, t.index[b].offset / 8 + 2 * i + 1) == block[i].1
    ensures forall i, j :: 0 <= i < j < |block| ==> block[i].0 < block[j].0
    ensures forall i :: 0 <= i < |block| ==> block[i].0 in m && m[block[i].0] == block[i].1
  {
    var first := RECORDS_PER_BLOCK * b;
    assert t.index[b] == EntryFor(pairs, b);
    block := pairs[first..BlockEnd(|pairs|, b)];
    forall i | 0 <= i < |block|
      ensures WordAt(t.file, t.index[b].offset / 8 + 2 * i) == block[i].0
      ensures WordAt(t.file, t.index[b].offset / 8 + 2 * i + 1) == block[i].1
    {
      assert 2 * (first + i) == t.index[b].offset / 8 + 2 * i;
      assert WordAt(t.file, 2 * (first + i)) == pairs[first + i].0;
    }
  }
}
