/** The bytes of a slotted page: a 24-byte header, an array of 6-byte slots growing up, tuples growing down. */
module PageLayout {
  import opened Bytes

  const PAGE_SIZE: nat := 4096
  const HEADER_SIZE: nat := 24
  const SLOT_SIZE: nat := 6

  datatype Slot = Slot(offset: nat, size: nat, deleted: bool)

  function U16(b: seq<byte>, p: nat): (r: nat)
    requires p + 2 <= |b|
    ensures r < 0x1_0000
  {
    var low: int, high: int := b[p], b[p + 1];
    low + 256 * high
  }

  function LE16(v: nat): (r: seq<byte>)
    ensures |r| == 2
  {
    [v % 256, v / 256 % 256]
  }

  /** Overwriting part of a buffer. */
  function Splice(b: seq<byte>, p: nat, s: seq<byte>): (r: seq<byte>)
    requires p + |s| <= |b|
    ensures |r| == |b|
    ensures forall k :: 0 <= k < |b| ==> r[k] == if p <= k < p + |s| then s[k - p] else b[k]
  {
    b[..p] + s + b[p + |s|..]
  }

  function Count(b: seq<byte>): nat requires |b| == PAGE_SIZE { U16(b, 16) }

  function FreePtr(b: seq<byte>): nat requires |b| == PAGE_SIZE { U16(b, 18) }

  /** Where the slot array ends when it has n slots. */
  function SlotsEnd(n: nat): nat { HEADER_SIZE + SLOT_SIZE * n }

  function SlotAt(b: seq<byte>, i: nat): Slot
    requires SlotsEnd(i + 1) <= |b|
  {
    Slot(U16(b, SlotsEnd(i)), U16(b, SlotsEnd(i) + 2), b[SlotsEnd(i) + 4] != 0)
  }

  function SlotsOf(b: seq<byte>, n: nat): (r: seq<Slot>)
    requires SlotsEnd(n) <= |b|
    ensures |r| == n && forall i :: 0 <= i < n ==> r[i] == SlotAt(b, i)
  {
    seq(n, i requires 0 <= i < n => SlotAt(b, i))
  }

  lemma {:induction false} ReadBack(b: seq<byte>, p: nat, v: nat)
    requires p + 2 <= |b| && v < 0x1_0000
    ensures U16(Splice(b, p, LE16(v)), p) == v
  {
  }

  /** Both buffers hold the same slots when they agree on the slot array. */
  lemma {:induction false} SameSlots(b: seq<byte>, b': seq<byte>, n: nat)
    requires SlotsEnd(n) <= |b| == |b'|
    requires forall k :: HEADER_SIZE <= k < SlotsEnd(n) ==> b'[k] == b[k]
    ensures SlotsOf(b', n) == SlotsOf(b, n)
  {
    forall i | 0 <= i < n ensures SlotAt(b', i) == SlotAt(b, i) {
    }
  }

  /** Overwriting slot i's offset, size or mark changes just that. */
  lemma {:induction false} StoreOffset(b: seq<byte>, n: nat, i: nat, v: nat)
    requires i < n && SlotsEnd(n) <= |b| && v < 0x1_0000
    ensures SlotsOf(Splice(b, SlotsEnd(i), LE16(v)), n) == SlotsOf(b, n)[i := SlotAt(b, i).(offset := v)]
  {
    var b' := Splice(b, SlotsEnd(i), LE16(v));
    ReadBack(b, SlotsEnd(i), v);
    forall j | 0 <= j < n && j != i ensures SlotAt(b', j) == SlotAt(b, j) {
    }
  }

  lemma {:induction false} StoreSize(b: seq<byte>, n: nat, i: nat, v: nat)
    requires i < n && SlotsEnd(n) <= |b| && v < 0x1_0000
    ensures SlotsOf(Splice(b, SlotsEnd(i) + 2, LE16(v)), n) == SlotsOf(b, n)[i := SlotAt(b, i).(size := v)]
  {
    var b' := Splice(b, SlotsEnd(i) + 2, LE16(v));
    ReadBack(b, SlotsEnd(i) + 2, v);
    forall j | 0 <= j < n && j != i ensures SlotAt(b', j) == SlotAt(b, j) {
    }
  }

  lemma {:induction false} StoreDeleted(b: seq<byte>, n: nat, i: nat, v: byte)
    requires i < n && SlotsEnd(n) <= |b|
    ensures SlotsOf(Splice(b, SlotsEnd(i) + 4, [v]), n) == SlotsOf(b, n)[i := SlotAt(b, i).(deleted := v != 0)]
  {
    var b' := Splice(b, SlotsEnd(i) + 4, [v]);
    forall j | 0 <= j < n && j != i ensures SlotAt(b', j) == SlotAt(b, j) {
    }
  }
}

/** Slots and the space they take: in bounds, disjoint, and adding up. */
module SlotSpace {
  import opened PageLayout

  ghost predicate Live(s: Slot) { !s.deleted && s.size > 0 }

  function LiveSize(s: Slot): nat { if s.deleted then 0 else s.size }

  function LiveBytes(slots: seq<Slot>): nat {
    if slots == [] then 0 else LiveBytes(slots[..|slots| - 1]) + LiveSize(slots[|slots| - 1])
  }

  ghost predicate Apart(s: Slot, t: Slot) { s.offset + s.size <= t.offset || t.offset + t.size <= s.offset }

  ghost predicate AllApart(slots: seq<Slot>) {
    forall i, j {:trigger Apart(slots[i], slots[j])} ::
      0 <= i < j < |slots| && Live(slots[i]) && Live(slots[j]) ==> Apart(slots[i], slots[j])
  }

  ghost predicate InPage(s: Slot, ptr: nat) {
    && (s.deleted ==> s.size == 0)
    && (!s.deleted ==> s.offset + s.size <= PAGE_SIZE)
    && (Live(s) ==> ptr <= s.offset)
  }

  /** Live tuples lie between the free-space pointer and the end of the page and do not overlap. A page of
      zeros, whose pointer is 0, is an empty page too. */
  ghost predicate LayoutOk(slots: seq<Slot>, ptr: nat) {
    && (SlotsEnd(|slots|) <= ptr <= PAGE_SIZE || (slots == [] && ptr == 0))
    && (forall i :: 0 <= i < |slots| ==> InPage(slots[i], ptr))
    && AllApart(slots)
  }

  /** The free space between slots and tuples; what insertion and growth look at first. */
  function FreeSpace(n: nat, ptr: nat): nat { if ptr < SlotsEnd(n) then 0 else ptr - SlotsEnd(n) }

  // ---- Disjoint tuples cannot take more than there is ----

  ghost function Range(lo: nat, hi: nat): (r: set<nat>)
    ensures forall x: nat :: x in r <==> lo <= x < hi
    ensures |r| == if lo <= hi then hi - lo else 0
    decreases hi
  {
    if hi <= lo then {} else Range(lo, hi - 1) + {hi - 1}
  }

  /** The byte positions the live tuples occupy. */
  ghost function Occupied(slots: seq<Slot>): set<nat> {
    if slots == [] then {}
    else Occupied(slots[..|slots| - 1]) + Positions(slots[|slots| - 1])
  }

  ghost function Positions(s: Slot): set<nat> { if Live(s) then Range(s.offset, s.offset + s.size) else {} }

  lemma {:induction false} OccupiedApart(slots: seq<Slot>, s: Slot)
    requires forall i :: 0 <= i < |slots| && Live(slots[i]) && Live(s) ==> Apart(slots[i], s)
    ensures Occupied(slots) !! Positions(s)
  {
    if slots != [] {
      OccupiedApart(slots[..|slots| - 1], s);
    }
  }

  lemma {:induction false} OccupiedSize(slots: seq<Slot>, ptr: nat)
    requires forall i :: 0 <= i < |slots| ==> InPage(slots[i], ptr)
    requires AllApart(slots)
    ensures |Occupied(slots)| == LiveBytes(slots) && Occupied(slots) <= Range(ptr, PAGE_SIZE)
  {
    if slots != [] {
      var n := |slots| - 1;
      assert forall i, j :: 0 <= i < j < n ==> (Apart(slots[..n][i], slots[..n][j]) <==> Apart(slots[i], slots[j]));
      OccupiedSize(slots[..n], ptr);
      OccupiedApart(slots[..n], slots[n]);
    }
  }

  lemma {:induction false} LiveFits(slots: seq<Slot>, ptr: nat)
    requires LayoutOk(slots, ptr)
    ensures LiveBytes(slots) <= PAGE_SIZE - ptr
    ensures SlotsEnd(|slots|) + LiveBytes(slots) <= PAGE_SIZE
  {
    OccupiedSize(slots, ptr);
    SubsetSize(Occupied(slots), Range(ptr, PAGE_SIZE));
  }

  lemma {:induction false} SubsetSize(a: set<nat>, b: set<nat>)
    requires a <= b
    ensures |a| <= |b|
  {
    if a != {} {
      var x :| x in a;
      SubsetSize(a - {x}, b - {x});
    }
  }

  // ---- Placing a tuple ----

  /** Slot t replaced, or appended when t is just past the end. */
  function Placed(slots: seq<Slot>, t: nat, s: Slot): seq<Slot>
    requires t <= |slots|
  {
    if t == |slots| then slots + [s] else slots[t := s]
  }

  lemma {:induction false} PlacedOk(slots: seq<Slot>, ptr: nat, t: nat, size: nat)
    requires LayoutOk(slots, ptr) && t <= |slots|
    requires SlotsEnd(if t == |slots| then t + 1 else |slots|) + size <= ptr
    ensures LayoutOk(Placed(slots, t, Slot(ptr - size, size, false)), ptr - size)
  {
    var slots' := Placed(slots, t, Slot(ptr - size, size, false));
    forall i, j | 0 <= i < j < |slots'| && Live(slots'[i]) && Live(slots'[j]) ensures Apart(slots'[i], slots'[j]) {
      if i != t && j != t {
        assert Apart(slots[i], slots[j]);
      }
    }
  }

  lemma {:induction false} LiveBytesReplaced(slots: seq<Slot>, t: nat, s: Slot)
    requires t < |slots|
    ensures LiveBytes(slots[t := s]) == LiveBytes(slots) - LiveSize(slots[t]) + LiveSize(s)
  {
    var n := |slots| - 1;
    if t < n {
      assert slots[t := s][..n] == slots[..n][t := s];
      LiveBytesReplaced(slots[..n], t, s);
    } else {
      assert slots[t := s][..n] == slots[..n];
    }
  }

  lemma {:induction false} LiveBytesAppended(slots: seq<Slot>, s: Slot)
    ensures LiveBytes(slots + [s]) == LiveBytes(slots) + LiveSize(s)
  {
    assert (slots + [s])[..|slots|] == slots;
  }

  /** A slot made smaller, or deleted, stays in bounds and apart. */
  lemma {:induction false} ShrunkOk(slots: seq<Slot>, ptr: nat, t: nat, s: Slot)
    requires LayoutOk(slots, ptr) && t < |slots| && !slots[t].deleted
    requires s.offset == slots[t].offset && s.size <= slots[t].size && (s.deleted ==> s.size == 0)
    ensures LayoutOk(slots[t := s], ptr)
  {
    var slots' := slots[t := s];
    forall i, j | 0 <= i < j < |slots'| && Live(slots'[i]) && Live(slots'[j]) ensures Apart(slots'[i], slots'[j]) {
      assert Apart(slots[i], slots[j]);
    }
  }

  // ---- Compaction ----

  /** Where compaction moves tuple j: below the tuples before it. */
  function NewOffset(slots: seq<Slot>, j: nat): nat
    requires j < |slots|
  {
    if LiveBytes(slots[..j + 1]) <= PAGE_SIZE then PAGE_SIZE - LiveBytes(slots[..j + 1]) else 0
  }

  function MovedSlot(slots: seq<Slot>, j: nat): Slot
    requires j < |slots|
  {
    if !slots[j].deleted && slots[j].size > 0 then slots[j].(offset := NewOffset(slots, j)) else slots[j]
  }

  /** The slots after the first i have been moved. */
  function Moved(slots: seq<Slot>, i: nat): (r: seq<Slot>)
    requires i <= |slots|
    ensures |r| == |slots|
    ensures forall j :: 0 <= j < |slots| ==> r[j] == if j < i then MovedSlot(slots, j) else slots[j]
  {
    seq(|slots|, j requires 0 <= j < |slots| => if j < i then MovedSlot(slots, j) else slots[j])
  }

  lemma {:induction false} PrefixStep(slots: seq<Slot>, j: nat)
    requires j < |slots|
    ensures LiveBytes(slots[..j + 1]) == LiveBytes(slots[..j]) + LiveSize(slots[j])
  {
    assert slots[..j + 1][..j] == slots[..j];
  }

  lemma {:induction false} PrefixGrows(slots: seq<Slot>, i: nat, j: nat)
    requires i <= j <= |slots|
    ensures LiveBytes(slots[..i]) <= LiveBytes(slots[..j])
    decreases j - i
  {
    if i < j {
      PrefixStep(slots, j - 1);
      PrefixGrows(slots, i, j - 1);
    }
  }

  lemma {:induction false} WholePrefix(slots: seq<Slot>, j: nat)
    requires j <= |slots| && LiveBytes(slots) <= PAGE_SIZE
    ensures LiveBytes(slots[..j]) <= LiveBytes(slots) && slots[..|slots|] == slots
  {
    assert slots[..|slots|] == slots;
    PrefixGrows(slots, j, |slots|);
  }

  lemma {:induction false} MovedInPage(slots: seq<Slot>, ptr: nat, i: nat)
    requires i < |slots| && InPage(slots[i], ptr) && LiveBytes(slots) <= PAGE_SIZE
    ensures InPage(MovedSlot(slots, i), PAGE_SIZE - LiveBytes(slots))
  {
    WholePrefix(slots, i + 1);
    PrefixStep(slots, i);
  }

  lemma {:induction false} MovedApart(slots: seq<Slot>, i: nat, j: nat)
    requires i < j < |slots| && Live(slots[i]) && Live(slots[j]) && LiveBytes(slots) <= PAGE_SIZE
    ensures Apart(MovedSlot(slots, i), MovedSlot(slots, j))
  {
    WholePrefix(slots, i + 1);
    WholePrefix(slots, j + 1);
    PrefixGrows(slots, i + 1, j);
    PrefixStep(slots, j);
  }

  lemma {:induction false} MovedOk(slots: seq<Slot>, ptr: nat, moved: seq<Slot>)
    requires LayoutOk(slots, ptr) && moved == Moved(slots, |slots|)
    ensures LiveBytes(slots) <= PAGE_SIZE && LayoutOk(moved, PAGE_SIZE - LiveBytes(slots))
  {
    hide Moved, LiveBytes, InPage, Apart;
    LiveFits(slots, ptr);
    forall i | 0 <= i < |slots| ensures InPage(moved[i], PAGE_SIZE - LiveBytes(slots)) {
      MovedInPage(slots, ptr, i);
    }
    forall i, j | 0 <= i < j < |slots| && Live(moved[i]) && Live(moved[j]) ensures Apart(moved[i], moved[j]) {
      MovedApart(slots, i, j);
    }
  }

  lemma {:induction false} SameSizes(slots: seq<Slot>, other: seq<Slot>)
    requires |slots| == |other| && forall i :: 0 <= i < |slots| ==> LiveSize(slots[i]) == LiveSize(other[i])
    ensures LiveBytes(slots) == LiveBytes(other)
  {
    if slots != [] {
      SameSizes(slots[..|slots| - 1], other[..|slots| - 1]);
    }
  }
}

/** The slotted page: a map from slot ids to tuples, kept in one 4096-byte buffer. */
module SlottedPage {
  import opened Bytes
  import opened PageLayout
  import opened SlotSpace

  ghost predicate PageOk(b: seq<byte>) {
    |b| == PAGE_SIZE && SlotsEnd(Count(b)) <= PAGE_SIZE && LayoutOk(SlotsOf(b, Count(b)), FreePtr(b))
  }

  function TupleOf(b: seq<byte>, s: Slot): seq<byte> {
    if s.offset + s.size <= |b| then b[s.offset..s.offset + s.size] else []
  }

  ghost function TuplesOf(b: seq<byte>, slots: seq<Slot>): map<nat, seq<byte>>
  {
    map i: nat | i < |slots| && !slots[i].deleted :: TupleOf(b, slots[i])
  }

  /** What the page stores. */
  ghost function Tuples(b: seq<byte>): map<nat, seq<byte>>
    requires PageOk(b)
  {
    TuplesOf(b, SlotsOf(b, Count(b)))
  }

  /** There is room for the bytes between the slots and the tuples. */
  ghost predicate HasRoom(b: seq<byte>, needed: nat)
    requires |b| == PAGE_SIZE
  {
    FreeSpace(Count(b), FreePtr(b)) >= needed
  }

  /** How many of its bytes are live. */
  ghost function Used(b: seq<byte>): nat
    requires PageOk(b)
  {
    LiveBytes(SlotsOf(b, Count(b)))
  }

  // ---- New pages ----

  function InitBytes(id: nat): (r: seq<byte>)
    ensures |r| == PAGE_SIZE
  {
    ToLE(id, 8) + seq(8, _ => 0) + LE16(0) + LE16(PAGE_SIZE) + seq(PAGE_SIZE - 20, _ => 0)
  }

  /** A page fresh from initialisation, and a page of zeros, both store nothing and use no space. */
  lemma {:induction false} EmptyPages(id: nat)
    ensures PageOk(InitBytes(id)) && Tuples(InitBytes(id)) == map[] && Used(InitBytes(id)) == 0
    ensures FreeSpace(Count(InitBytes(id)), FreePtr(InitBytes(id))) == PAGE_SIZE - HEADER_SIZE
    ensures var z := seq(PAGE_SIZE, _ => 0); PageOk(z) && Tuples(z) == map[] && Used(z) == 0
  {
    var b := InitBytes(id);
    assert b[16] == 0 && b[17] == 0 && b[18] == 0 && b[19] == 16;
    assert SlotsOf(b, 0) == [];
    var z: seq<byte> := seq(PAGE_SIZE, _ => 0);
    assert SlotsOf(z, 0) == [];
  }

  // ---- What each write does to the page ----

  /** The bytes from `from` on are untouched. */
  ghost predicate SameFrom(b: seq<byte>, b': seq<byte>, from: nat) {
    |b| == |b'| && forall k :: from <= k < |b| ==> b'[k] == b[k]
  }

  lemma {:induction false} SameTuples(b: seq<byte>, b': seq<byte>, slots: seq<Slot>, ptr: nat)
    requires |b| == PAGE_SIZE && LayoutOk(slots, ptr) && SameFrom(b, b', ptr)
    ensures TuplesOf(b', slots) == TuplesOf(b, slots)
  {
    forall i: nat | i < |slots| && !slots[i].deleted ensures TupleOf(b', slots[i]) == TupleOf(b, slots[i]) {
      if slots[i].size > 0 {
        assert Live(slots[i]);
      }
    }
  }

  /** The payload goes right below the live tuples, and the pointer follows. */
  lemma {:induction false} PayloadWritten(b: seq<byte>, n: nat, at: nat, payload: seq<byte>, b': seq<byte>)
    requires |b| == PAGE_SIZE && Count(b) == n && SlotsEnd(n) <= at && at + |payload| <= PAGE_SIZE
    requires b' == Splice(Splice(b, 18, LE16(at)), at, payload)
    ensures Count(b') == n && FreePtr(b') == at && SlotsOf(b', n) == SlotsOf(b, n)
    ensures SameFrom(b, b', at + |payload|) && b'[at..at + |payload|] == payload && b'[..16] == b[..16]
  {
    ReadBack(b, 18, at);
    SameSlots(b, b', n);
  }

  /** Slot t gets a new offset and size. */
  lemma {:induction false} SlotWritten(b: seq<byte>, n: nat, t: nat, offset: nat, size: nat, b': seq<byte>)
    requires |b| == PAGE_SIZE && t < n && SlotsEnd(n) <= PAGE_SIZE && offset < 0x1_0000 && size < 0x1_0000
    requires b' == Splice(Splice(b, SlotsEnd(t), LE16(offset)), SlotsEnd(t) + 2, LE16(size))
    ensures SlotsOf(b', n) == SlotsOf(b, n)[t := SlotAt(b, t).(offset := offset, size := size)]
    ensures Count(b') == Count(b) && FreePtr(b') == FreePtr(b) && SameFrom(b, b', SlotsEnd(n)) && b'[..16] == b[..16]
  {
    var b1 := Splice(b, SlotsEnd(t), LE16(offset));
    StoreOffset(b, n, t, offset);
    StoreSize(b1, n, t, size);
    assert SlotAt(b1, t) == SlotsOf(b1, n)[t];
  }

  lemma {:induction false} MarkWritten(b: seq<byte>, n: nat, t: nat, v: byte, b': seq<byte>)
    requires |b| == PAGE_SIZE && t < n && SlotsEnd(n) <= PAGE_SIZE && b' == Splice(b, SlotsEnd(t) + 4, [v])
    ensures SlotsOf(b', n) == SlotsOf(b, n)[t := SlotAt(b, t).(deleted := v != 0)]
    ensures Count(b') == Count(b) && FreePtr(b') == FreePtr(b) && SameFrom(b, b', SlotsEnd(n)) && b'[..16] == b[..16]
  {
    StoreDeleted(b, n, t, v);
  }

  lemma {:induction false} SizeWritten(b: seq<byte>, n: nat, t: nat, size: nat, b': seq<byte>)
    requires |b| == PAGE_SIZE && t < n && SlotsEnd(n) <= PAGE_SIZE && size < 0x1_0000
    requires b' == Splice(b, SlotsEnd(t) + 2, LE16(size))
    ensures SlotsOf(b', n) == SlotsOf(b, n)[t := SlotAt(b, t).(size := size)]
    ensures Count(b') == Count(b) && FreePtr(b') == FreePtr(b) && SameFrom(b, b', SlotsEnd(n)) && b'[..16] == b[..16]
  {
    StoreSize(b, n, t, size);
  }

  lemma {:induction false} CountWritten(b: seq<byte>, n: nat, b': seq<byte>)
    requires |b| == PAGE_SIZE && n < 0x1_0000 && b' == Splice(b, 16, LE16(n)) && SlotsEnd(n) <= PAGE_SIZE
    ensures Count(b') == n && FreePtr(b') == FreePtr(b) && SlotsOf(b', n) == SlotsOf(b, n)
    ensures SameFrom(b, b', HEADER_SIZE) && b'[..16] == b[..16]
  {
    ReadBack(b, 16, n);
    SameSlots(b, b', n);
  }

  // ---- What each operation does to the page ----

  /** Rewriting slot t's tuple at `at`, right below the others. */
  function Rewritten(b: seq<byte>, t: nat, at: nat, payload: seq<byte>): (r: seq<byte>)
    requires |b| == PAGE_SIZE && SlotsEnd(t + 1) <= PAGE_SIZE && at + |payload| <= PAGE_SIZE
    ensures |r| == PAGE_SIZE
  {
    var b1 := Splice(Splice(b, 18, LE16(at)), at, payload);
    Splice(Splice(b1, SlotsEnd(t), LE16(at)), SlotsEnd(t) + 2, LE16(|payload|))
  }

  lemma {:induction false} RewrittenView(b: seq<byte>, n: nat, m: nat, t: nat, at: nat, payload: seq<byte>,
                                         b': seq<byte>)
    requires |b| == PAGE_SIZE && Count(b) == n && t < m && n <= m <= n + 1 && SlotsEnd(m) <= at
    requires at + |payload| <= PAGE_SIZE && b' == Rewritten(b, t, at, payload)
    ensures Count(b') == n && FreePtr(b') == at && b'[..16] == b[..16]
    ensures SameFrom(b, b', at + |payload|) && b'[at..at + |payload|] == payload
    ensures SlotAt(b', t).offset == at && SlotAt(b', t).size == |payload|
    ensures t < n ==> SlotsOf(b', n) == SlotsOf(b, n)[t := SlotAt(b, t).(offset := at, size := |payload|)]
    ensures t == n ==> SlotsOf(b', n) == SlotsOf(b, n)
  {
    hide SlotsOf, SlotAt, LE16, FreePtr, Count;
    var b1 := Splice(Splice(b, 18, LE16(at)), at, payload);
    PayloadWritten(b, n, at, payload, b1);
    SlotWritten(b1, m, t, at, |payload|, b');
    SlotsPrefix(b', n, m);
    SlotsPrefix(b1, n, m);
  }

  lemma {:induction false} SlotsPrefix(b: seq<byte>, n: nat, m: nat)
    requires n <= m && SlotsEnd(m) <= |b|
    ensures SlotsOf(b, m)[..n] == SlotsOf(b, n)
  {
  }

  /** The tuples of a page into which one tuple was placed. */
  lemma {:induction false} PlacedTuples(b: seq<byte>, slots: seq<Slot>, ptr: nat, t: nat, payload: seq<byte>,
                                        b': seq<byte>, slots': seq<Slot>)
    requires |b| == PAGE_SIZE && LayoutOk(slots, ptr) && t <= |slots| && |payload| <= ptr <= PAGE_SIZE
    requires SlotsEnd(if t == |slots| then t + 1 else |slots|) + |payload| <= ptr
    requires slots' == Placed(slots, t, Slot(ptr - |payload|, |payload|, false))
    requires |b'| == PAGE_SIZE && SameFrom(b, b', ptr) && b'[ptr - |payload|..ptr] == payload
    ensures LayoutOk(slots', ptr - |payload|) && TuplesOf(b', slots') == TuplesOf(b, slots)[t := payload]
  {
    hide LayoutOk, SameFrom, Placed, TupleOf;
    PlacedOk(slots, ptr, t, |payload|);
    SameTuples(b, b', slots, ptr);
    forall i: nat
      ensures i < |slots'| && !slots'[i].deleted <==> i == t || (i < |slots| && !slots[i].deleted)
      ensures i == t ==> i < |slots'| && TupleOf(b', slots'[i]) == payload
      ensures i != t && i < |slots'| ==> i < |slots| && slots'[i] == slots[i]
    {
      PlacedAt(b', slots, ptr, t, payload, i);
    }
  }

  lemma {:induction false} PlacedAt(b': seq<byte>, slots: seq<Slot>, ptr: nat, t: nat, payload: seq<byte>, i: nat)
    requires |b'| == PAGE_SIZE && t <= |slots| && |payload| <= ptr <= PAGE_SIZE
    requires b'[ptr - |payload|..ptr] == payload
    ensures var slots' := Placed(slots, t, Slot(ptr - |payload|, |payload|, false));
            && (i < |slots'| && !slots'[i].deleted <==> i == t || (i < |slots| && !slots[i].deleted))
            && (i == t ==> i < |slots'| && TupleOf(b', slots'[i]) == payload)
            && (i != t && i < |slots'| ==> i < |slots| && slots'[i] == slots[i])
  {
  }

  lemma {:induction false} PtrInPage(slots: seq<Slot>, ptr: nat)
    requires LayoutOk(slots, ptr)
    ensures ptr <= PAGE_SIZE
  {
  }

  lemma {:induction false} Updated(b: seq<byte>, t: nat, payload: seq<byte>, b': seq<byte>)
    requires PageOk(b) && t < Count(b) && !SlotAt(b, t).deleted && SlotsEnd(Count(b)) + |payload| <= FreePtr(b)
    requires b' == Rewritten(b, t, FreePtr(b) - |payload|, payload)
    ensures PageOk(b') && Tuples(b') == Tuples(b)[t := payload] && b'[..16] == b[..16] && Count(b') == Count(b)
    ensures Used(b') == Used(b) - SlotAt(b, t).size + |payload| && FreePtr(b') == FreePtr(b) - |payload|
  {
    hide Rewritten, Splice, SlotsOf, SlotAt, Count, FreePtr, LayoutOk, TuplesOf, SameFrom;
    var n, ptr := Count(b), FreePtr(b);
    var slots := SlotsOf(b, n);
    PtrInPage(slots, ptr);
    RewrittenView(b, n, n, t, ptr - |payload|, payload, b');
    PlacedTuples(b, slots, ptr, t, payload, b', SlotsOf(b', n));
    LiveBytesReplaced(slots, t, SlotsOf(b', n)[t]);
  }

  lemma {:induction false} InsertedView(b: seq<byte>, n: nat, m: nat, t: nat, at: nat, payload: seq<byte>,
                                        b1: seq<byte>, b2: seq<byte>, b': seq<byte>)
    requires |b| == PAGE_SIZE && Count(b) == n && t <= n && m == (if t == n then n + 1 else n) && SlotsEnd(m) <= at
    requires at + |payload| <= PAGE_SIZE && b1 == Rewritten(b, t, at, payload)
    requires b2 == Splice(b1, SlotsEnd(t) + 4, [0]) && b' == if t == n then Splice(b2, 16, LE16(m)) else b2
    ensures Count(b') == m && FreePtr(b') == at && b'[..16] == b[..16]
    ensures SameFrom(b, b', at + |payload|) && b'[at..at + |payload|] == payload
    ensures SlotsOf(b', m) == Placed(SlotsOf(b, n), t, Slot(at, |payload|, false))
  {
    hide Rewritten, SlotAt, SlotsOf, LE16, Count, FreePtr;
    RewrittenView(b, n, m, t, at, payload, b1);
    MarkWritten(b1, m, t, 0, b2);
    CountWritten(b2, m, Splice(b2, 16, LE16(m)));
    SlotsPrefix(b1, n, m);
    assert b2[at..at + |payload|] == payload;
  }

  lemma {:induction false} Inserted(b: seq<byte>, t: nat, payload: seq<byte>, b1: seq<byte>, b2: seq<byte>,
                                    b': seq<byte>)
    requires PageOk(b) && t <= Count(b) && (t < Count(b) ==> SlotAt(b, t).deleted)
    requires SlotsEnd(Count(b) + 1) + |payload| <= FreePtr(b)
    requires b1 == Rewritten(b, t, FreePtr(b) - |payload|, payload) && b2 == Splice(b1, SlotsEnd(t) + 4, [0])
    requires b' == if t == Count(b) then Splice(b2, 16, LE16(t + 1)) else b2
    ensures PageOk(b') && Tuples(b') == Tuples(b)[t := payload] && b'[..16] == b[..16]
    ensures Count(b') == (if t == Count(b) then t + 1 else Count(b)) && Used(b') == Used(b) + |payload|
    ensures FreePtr(b') == FreePtr(b) - |payload|
  {
    hide Rewritten, Splice, SlotsOf, SlotAt, Count, FreePtr, LayoutOk, TuplesOf, SameFrom;
    var n, ptr := Count(b), FreePtr(b);
    var m := if t == n then n + 1 else n;
    var slots, s := SlotsOf(b, n), Slot(ptr - |payload|, |payload|, false);
    PtrInPage(slots, ptr);
    InsertedView(b, n, m, t, ptr - |payload|, payload, b1, b2, b');
    PlacedTuples(b, slots, ptr, t, payload, b', SlotsOf(b', m));
    if t == n {
      LiveBytesAppended(slots, s);
    } else {
      LiveBytesReplaced(slots, t, s);
      assert slots[t] == SlotAt(b, t);
    }
  }

  /** Shrinking or deleting tuple t in place. */
  lemma {:induction false} Shrunk(b: seq<byte>, t: nat, s: Slot, b': seq<byte>)
    requires PageOk(b) && t < Count(b) && !SlotAt(b, t).deleted && |b'| == PAGE_SIZE
    requires s.offset == SlotAt(b, t).offset && s.size <= SlotAt(b, t).size && (s.deleted ==> s.size == 0)
    requires Count(b') == Count(b) && FreePtr(b') == FreePtr(b)
    requires SlotsOf(b', Count(b)) == SlotsOf(b, Count(b))[t := s]
    requires forall k :: SlotsEnd(Count(b)) <= k < PAGE_SIZE && !(s.offset <= k < s.offset + s.size) ==> b'[k] == b[k]
    ensures PageOk(b') && Used(b') == Used(b) - SlotAt(b, t).size + LiveSize(s)
    ensures Tuples(b') == if s.deleted then Tuples(b) - {t} else Tuples(b)[t := TupleOf(b', s)]
  {
    hide SlotAt, Count, FreePtr;
    var n, ptr := Count(b), FreePtr(b);
    var slots, slots' := SlotsOf(b, n), SlotsOf(b', n);
    hide SlotsOf;
    ShrunkOk(slots, ptr, t, s);
    LiveBytesReplaced(slots, t, s);
    forall i: nat | i < n && i != t && !slots[i].deleted ensures TupleOf(b', slots[i]) == TupleOf(b, slots[i]) {
      OtherTuple(b, b', slots, ptr, t, s, i);
    }
  }

  lemma {:induction false} OtherTuple(b: seq<byte>, b': seq<byte>, slots: seq<Slot>, ptr: nat, t: nat, s: Slot,
                                      i: nat)
    requires |b| == |b'| == PAGE_SIZE && LayoutOk(slots, ptr) && t < |slots| && i < |slots| && i != t
    requires !slots[t].deleted && !slots[i].deleted && s.offset == slots[t].offset && s.size <= slots[t].size
    requires forall k :: SlotsEnd(|slots|) <= k < PAGE_SIZE && !(s.offset <= k < s.offset + s.size) ==> b'[k] == b[k]
    ensures TupleOf(b', slots[i]) == TupleOf(b, slots[i])
  {
    if Live(slots[i]) && Live(slots[t]) {
      assert if i < t then Apart(slots[i], slots[t]) else Apart(slots[t], slots[i]);
    }
  }

  // ---- Compaction ----

  /** The temporary buffer holds the first i live tuples at their new places. */
  ghost predicate Copied(temp: seq<byte>, b: seq<byte>, slots: seq<Slot>, i: nat)
    requires i <= |slots|
  {
    forall j :: 0 <= j < i && Live(slots[j]) ==> TupleOf(temp, MovedSlot(slots, j)) == TupleOf(b, slots[j])
  }

  lemma {:induction false} CopyOne(temp: seq<byte>, b: seq<byte>, slots: seq<Slot>, ptr: nat, i: nat,
                                   temp': seq<byte>)
    requires |temp| == |b| == PAGE_SIZE && LayoutOk(slots, ptr) && LiveBytes(slots) <= PAGE_SIZE
    requires i < |slots| && Live(slots[i]) && Copied(temp, b, slots, i)
    requires NewOffset(slots, i) + slots[i].size <= PAGE_SIZE
    requires temp' == Splice(temp, NewOffset(slots, i), TupleOf(b, slots[i]))
    ensures Copied(temp', b, slots, i + 1)
  {
    hide LiveBytes, NewOffset, LayoutOk;
    LiveInPage(slots, ptr, i);
    forall j | 0 <= j < i && Live(slots[j]) ensures TupleOf(temp', MovedSlot(slots, j)) == TupleOf(b, slots[j]) {
      MovedInPage(slots, ptr, j);
      MovedAbove(slots, j, i);
    }
  }

  lemma {:induction false} LiveInPage(slots: seq<Slot>, ptr: nat, i: nat)
    requires LayoutOk(slots, ptr) && i < |slots|
    ensures forall j :: 0 <= j < |slots| ==> InPage(slots[j], ptr)
    ensures Live(slots[i]) ==> slots[i].offset + slots[i].size <= PAGE_SIZE
  {
  }

  lemma {:induction false} MovedAbove(slots: seq<Slot>, j: nat, i: nat)
    requires j < i < |slots| && LiveBytes(slots) <= PAGE_SIZE
    ensures NewOffset(slots, i) + LiveSize(slots[i]) <= NewOffset(slots, j)
  {
    WholePrefix(slots, j + 1);
    WholePrefix(slots, i + 1);
    PrefixGrows(slots, j + 1, i);
    PrefixStep(slots, i);
  }

  /** Copying the compacted tuples back keeps every tuple. */
  lemma {:induction false} Compacted(b: seq<byte>, b1: seq<byte>, temp: seq<byte>, slots: seq<Slot>, ptr: nat,
                                     b': seq<byte>)
    requires PageOk(b) && slots == SlotsOf(b, Count(b)) && LiveBytes(slots) <= PAGE_SIZE
    requires ptr == PAGE_SIZE - LiveBytes(slots)
    requires |b1| == |temp| == PAGE_SIZE && Count(b1) == |slots| && SlotsOf(b1, |slots|) == Moved(slots, |slots|)
    requires b1[..16] == b[..16] && Copied(temp, b, slots, |slots|)
    requires b' == Splice(Splice(b1, ptr, temp[ptr..]), 18, LE16(ptr))
    ensures PageOk(b') && Tuples(b') == Tuples(b) && Used(b') == Used(b) && Count(b') == Count(b)
    ensures FreePtr(b') == PAGE_SIZE - Used(b) && b'[..16] == b[..16]
  {
    hide SlotsOf, SlotAt, Count, FreePtr, LE16, Splice, Moved, MovedSlot, LiveBytes, TupleOf, SameFrom, Copied;
    hide LayoutOk;
    hide InPage;
    var n, moved := |slots|, Moved(slots, |slots|);
    LiveFits(slots, FreePtr(b));
    CompactedView(b1, temp, n, ptr, b');
    MovedOk(slots, FreePtr(b), moved);
    MovedSizes(slots, moved);
    forall i: nat | i < n && !slots[i].deleted ensures TupleOf(b', moved[i]) == TupleOf(b, slots[i]) {
      LiveInPage(slots, FreePtr(b), i);
      MovedTuple(b, temp, b', slots, FreePtr(b), ptr, i);
    }
  }

  lemma {:induction false} MovedSizes(slots: seq<Slot>, moved: seq<Slot>)
    requires moved == Moved(slots, |slots|)
    ensures LiveBytes(moved) == LiveBytes(slots)
    ensures forall i :: 0 <= i < |slots| ==> moved[i].deleted == slots[i].deleted
  {
    SameSizes(slots, moved);
  }

  lemma {:induction false} CompactedView(b1: seq<byte>, temp: seq<byte>, n: nat, ptr: nat, b': seq<byte>)
    requires |b1| == |temp| == PAGE_SIZE && Count(b1) == n && SlotsEnd(n) <= ptr <= PAGE_SIZE
    requires b' == Splice(Splice(b1, ptr, temp[ptr..]), 18, LE16(ptr))
    ensures Count(b') == n && FreePtr(b') == ptr && SlotsOf(b', n) == SlotsOf(b1, n) && b'[..16] == b1[..16]
    ensures SameFrom(temp, b', ptr)
  {
    ReadBack(Splice(b1, ptr, temp[ptr..]), 18, ptr);
    SameSlots(b1, b', n);
  }

  lemma {:induction false} MovedTuple(b: seq<byte>, temp: seq<byte>, b': seq<byte>, slots: seq<Slot>, was: nat,
                                      ptr: nat, i: nat)
    requires |temp| == PAGE_SIZE && i < |slots| && LiveBytes(slots) <= PAGE_SIZE && ptr == PAGE_SIZE - LiveBytes(slots)
    requires !slots[i].deleted && InPage(slots[i], was) && Copied(temp, b, slots, |slots|) && SameFrom(temp, b', ptr)
    requires |b| == |b'|
    ensures TupleOf(b', MovedSlot(slots, i)) == TupleOf(b, slots[i])
  {
    hide LiveBytes, NewOffset;
    if Live(slots[i]) {
      MovedInPage(slots, was, i);
      assert TupleOf(temp, MovedSlot(slots, i)) == TupleOf(b, slots[i]);
    }
  }

  // ---- The page ----

  method Store(a: array<byte>, p: nat, s: seq<byte>)
    requires p + |s| <= a.Length
    modifies a
    ensures a[..] == Splice(old(a[..]), p, s)
  {
    forall k | p <= k < p + |s| {
      a[k] := s[k - p];
    }
  }

  class Page {
    const data: array<byte>

    ghost predicate Valid()
      reads data
    {
      data.Length == PAGE_SIZE && PageOk(data[..])
    }

    constructor (id: nat)
      ensures Valid() && Tuples(data[..]) == map[] && Used(data[..]) == 0 && data[..] == InitBytes(id)
    {
      data := new byte[PAGE_SIZE](k => 0);
      new;
      Store(data, 0, InitBytes(id));
      assert data[..] == InitBytes(id);
    }

    /** Inserting succeeds exactly when the live bytes, the payload and one more slot fit the page. It then
        stores the payload under an unused slot id, and changes no other tuple. */
    method InsertTuple(payload: seq<byte>) returns (ok: bool, id: nat)
      requires Valid()
      modifies data
      ensures Valid() && data[..16] == old(data[..16])
      ensures ok <==> old(Used(data[..])) + |payload| + SLOT_SIZE * (old(Count(data[..])) + 1) <= PAGE_SIZE - HEADER_SIZE
      ensures ok ==> id !in old(Tuples(data[..])) && Tuples(data[..]) == old(Tuples(data[..]))[id := payload]
      ensures ok ==> Used(data[..]) == old(Used(data[..])) + |payload|
      ensures ok ==> id <= old(Count(data[..])) && forall i: nat :: i < id ==> i in old(Tuples(data[..]))
      ensures ok ==> Count(data[..]) == if id == old(Count(data[..])) then id + 1 else old(Count(data[..]))
      ensures !ok ==> Tuples(data[..]) == old(Tuples(data[..])) && Used(data[..]) == old(Used(data[..]))
      ensures !ok ==> Count(data[..]) == old(Count(data[..]))
      ensures FreePtr(data[..]) == (if old(HasRoom(data[..], |payload| + SLOT_SIZE)) then old(FreePtr(data[..]))
                                    else PAGE_SIZE - old(Used(data[..]))) - if ok then |payload| else 0
    {
      hide PageOk, Tuples, Used, Count, FreePtr, Splice, LE16, Rewritten, HasRoom;
      var needed := |payload| + SLOT_SIZE;
      ok := MakeRoom(needed);
      if !ok {
        return false, 0;
      }
      ghost var b := data[..];
      KnownTuple(b, 0);
      var n, at := Count(data[..]), FreePtr(data[..]) - |payload|;
      id := FindSlot();
      Rewrite(id, at, payload);
      ghost var b1 := data[..];
      Store(data, SlotsEnd(id) + 4, [0]);
      ghost var b2 := data[..];
      if id == n {
        Store(data, 16, LE16(n + 1));
      }
      Inserted(b, id, payload, b1, b2, data[..]);
    }

    /** Compacts exactly when the free space does not suffice; true exactly when it then does. */
    method MakeRoom(needed: nat) returns (ok: bool)
      requires Valid() && needed > 0
      modifies data
      ensures Valid() && data[..16] == old(data[..16])
      ensures Tuples(data[..]) == old(Tuples(data[..])) && Used(data[..]) == old(Used(data[..]))
      ensures Count(data[..]) == old(Count(data[..]))
      ensures ok <==> old(Used(data[..])) + needed + SlotsEnd(old(Count(data[..]))) <= PAGE_SIZE
      ensures ok ==> SlotsEnd(Count(data[..])) + needed <= FreePtr(data[..])
      ensures if old(HasRoom(data[..], needed)) then ok && data[..] == old(data[..])
              else FreePtr(data[..]) == PAGE_SIZE - old(Used(data[..]))
    {
      hide Tuples, Count, FreePtr;
      LiveFits(SlotsOf(data[..], Count(data[..])), FreePtr(data[..]));
      if FreeSpace(Count(data[..]), FreePtr(data[..])) < needed {
        Compact();
        if FreeSpace(Count(data[..]), FreePtr(data[..])) < needed {
          return false;
        }
      }
      ok := true;
    }

    /** The first deleted slot, else a new one. */
    method FindSlot() returns (t: nat)
      requires Valid()
      ensures t <= Count(data[..]) && (t < Count(data[..]) ==> SlotAt(data[..], t).deleted)
      ensures t !in Tuples(data[..]) && forall i: nat :: i < t ==> i in Tuples(data[..])
    {
      t := 0;
      while t < Count(data[..]) && !SlotAt(data[..], t).deleted
        invariant t <= Count(data[..])
        invariant forall i :: 0 <= i < t ==> !SlotAt(data[..], i).deleted
      {
        t := t + 1;
      }
    }

    /** Writes pointer, payload and the slot's offset and size. */
    method Rewrite(t: nat, at: nat, payload: seq<byte>)
      requires data.Length == PAGE_SIZE && SlotsEnd(t + 1) <= PAGE_SIZE && at + |payload| <= PAGE_SIZE
      modifies data
      ensures data[..] == Rewritten(old(data[..]), t, at, payload)
    {
      Store(data, 18, LE16(at));
      Store(data, at, payload);
      Store(data, SlotsEnd(t), LE16(at));
      Store(data, SlotsEnd(t) + 2, LE16(|payload|));
    }

    /** Compaction moves the live tuples to the end of the page and changes nothing a reader can see. */
    method Compact()
      requires Valid()
      modifies data
      ensures Valid() && data[..16] == old(data[..16])
      ensures Tuples(data[..]) == old(Tuples(data[..])) && Used(data[..]) == old(Used(data[..]))
      ensures Count(data[..]) == old(Count(data[..])) && FreePtr(data[..]) == PAGE_SIZE - old(Used(data[..]))
    {
      hide Tuples, LayoutOk, LiveBytes, Copied, NewOffset, Moved, MovedSlot, SlotsOf, SlotAt, Count, FreePtr;
      ghost var b := data[..];
      ghost var slots := SlotsOf(b, Count(b));
      LiveFits(slots, FreePtr(b));
      var n := Count(data[..]);
      var temp := new byte[PAGE_SIZE](k => 0);
      var ptr := PAGE_SIZE;
      NothingMoved(temp[..], b, slots);
      for i := 0 to n
        invariant ptr == PAGE_SIZE - LiveBytes(slots[..i]) && Copied(temp[..], b, slots, i)
        invariant Unmoved(b, data[..], n) && SlotsOf(data[..], n) == Moved(slots, i)
      {
        ghost var d, t := data[..], temp[..];
        MoveStep(b, slots, FreePtr(b), d, n, i);
        var s := SlotAt(data[..], i);
        if !s.deleted && s.size > 0 {
          ptr := ptr - s.size;
          Store(temp, ptr, data[s.offset..s.offset + s.size]);
          Store(data, SlotsEnd(i), LE16(ptr));
          CopyOne(t, b, slots, FreePtr(b), i, temp[..]);
          SlotMoved(b, slots, d, n, i, data[..]);
        } else {
          NotMoved(t, b, slots, i);
        }
      }
      ghost var b1 := data[..];
      assert slots[..n] == slots && ptr == PAGE_SIZE - LiveBytes(slots);
      HeaderUnmoved(b, b1, n);
      if PAGE_SIZE - ptr > 0 {
        Store(data, ptr, temp[ptr..]);
      } else {
        assert Splice(b1, ptr, temp[ptr..]) == b1;
      }
      Store(data, 18, LE16(ptr));
      Compacted(b, b1, temp[..], slots, ptr, data[..]);
    }

    method GetTuple(id: nat) returns (ok: bool, payload: seq<byte>)
      requires Valid()
      ensures ok <==> id in Tuples(data[..])
      ensures ok ==> payload == Tuples(data[..])[id]
    {
      payload := [];
      if id >= Count(data[..]) {
        return false, [];
      }
      var s := SlotAt(data[..], id);
      if s.deleted {
        return false, [];
      }
      assert InPage(SlotsOf(data[..], Count(data[..]))[id], FreePtr(data[..]));
      ok, payload := true, data[s.offset..s.offset + s.size];
    }

    /** Updating fails exactly when there is no such tuple, or the new payload is longer and does not fit
        beside everything that is live, the old payload included. */
    method UpdateTuple(id: nat, payload: seq<byte>) returns (ok: bool)
      requires Valid()
      modifies data
      ensures Valid() && data[..16] == old(data[..16]) && Count(data[..]) == old(Count(data[..]))
      ensures ok <==> id in old(Tuples(data[..])) &&
                      (|payload| <= |old(Tuples(data[..])[id])|
                       || old(Used(data[..])) + |payload| + SlotsEnd(old(Count(data[..]))) <= PAGE_SIZE)
      ensures Tuples(data[..]) == if ok then old(Tuples(data[..]))[id := payload] else old(Tuples(data[..]))
      ensures id !in old(Tuples(data[..])) || |payload| <= |old(Tuples(data[..])[id])| ==>
                FreePtr(data[..]) == old(FreePtr(data[..]))
      ensures id in old(Tuples(data[..])) && |payload| > |old(Tuples(data[..])[id])| ==>
                FreePtr(data[..]) == (if old(HasRoom(data[..], |payload|)) then old(FreePtr(data[..]))
                                      else PAGE_SIZE - old(Used(data[..]))) - if ok then |payload| else 0
    {
      hide Tuples, Used, PageOk, Count, FreePtr, Splice, LE16, Rewritten, SlotAt, HasRoom;
      var n := Count(data[..]);
      KnownTuple(data[..], id);
      if id >= n {
        return false;
      }
      var s := SlotAt(data[..], id);
      if s.deleted {
        return false;
      }
      if |payload| <= s.size {
        ghost var b := data[..];
        Store(data, s.offset, payload);
        ghost var b1 := data[..];
        Store(data, SlotsEnd(id) + 2, LE16(|payload|));
        UpdatedInPlace(b, id, payload, b1, data[..]);
        return true;
      }
      ok := MakeRoom(|payload|);
      KnownTuple(data[..], id);
      if !ok {
        return false;
      }
      ghost var b := data[..];
      Rewrite(id, FreePtr(data[..]) - |payload|, payload);
      Updated(b, id, payload, data[..]);
    }

    method DeleteTuple(id: nat) returns (ok: bool)
      requires Valid()
      modifies data
      ensures Valid() && data[..16] == old(data[..16]) && Count(data[..]) == old(Count(data[..]))
      ensures ok <==> id in old(Tuples(data[..]))
      ensures Tuples(data[..]) == old(Tuples(data[..])) - {id}
      ensures ok ==> Used(data[..]) == old(Used(data[..])) - |old(Tuples(data[..])[id])|
      ensures FreePtr(data[..]) == old(FreePtr(data[..])) && (!ok ==> data[..] == old(data[..]))
    {
      hide Tuples, Used, PageOk, Count, FreePtr, Splice, LE16, SlotAt;
      KnownTuple(data[..], id);
      if id >= Count(data[..]) {
        return false;
      }
      if SlotAt(data[..], id).deleted {
        return false;
      }
      ghost var b := data[..];
      Store(data, SlotsEnd(id) + 4, [1]);
      ghost var b1 := data[..];
      Store(data, SlotsEnd(id) + 2, LE16(0));
      Deleted(b, id, b1, data[..]);
      ok := true;
    }
  }

  lemma {:induction false} KnownTuple(b: seq<byte>, id: nat)
    requires PageOk(b)
    ensures SlotsEnd(Count(b)) <= PAGE_SIZE && FreePtr(b) <= PAGE_SIZE
    ensures id in Tuples(b) <==> id < Count(b) && !SlotAt(b, id).deleted
    ensures id in Tuples(b) ==> SlotAt(b, id).offset + SlotAt(b, id).size <= PAGE_SIZE
                                && |Tuples(b)[id]| == SlotAt(b, id).size && Tuples(b)[id] == TupleOf(b, SlotAt(b, id))
  {
    assert id < Count(b) ==> InPage(SlotsOf(b, Count(b))[id], FreePtr(b));
  }

  lemma {:induction false} UpdatedInPlace(b: seq<byte>, t: nat, payload: seq<byte>, b1: seq<byte>, b': seq<byte>)
    requires PageOk(b) && t in Tuples(b) && |payload| <= SlotAt(b, t).size
    requires SlotAt(b, t).offset + |payload| <= PAGE_SIZE
    requires b1 == Splice(b, SlotAt(b, t).offset, payload) && b' == Splice(b1, SlotsEnd(t) + 2, LE16(|payload|))
    ensures PageOk(b') && Tuples(b') == Tuples(b)[t := payload] && b'[..16] == b[..16] && Count(b') == Count(b)
    ensures FreePtr(b') == FreePtr(b)
  {
    var n, s := Count(b), SlotAt(b, t);
    KnownTuple(b, t);
    InPlaceView(b, n, t, payload, b1, b');
    Shrunk(b, t, s.(size := |payload|), b');
  }

  lemma {:induction false} InPlaceView(b: seq<byte>, n: nat, t: nat, payload: seq<byte>, b1: seq<byte>, b': seq<byte>)
    requires PageOk(b) && n == Count(b) && t < n && !SlotAt(b, t).deleted
    requires |payload| <= SlotAt(b, t).size && SlotAt(b, t).offset + |payload| <= PAGE_SIZE
    requires b1 == Splice(b, SlotAt(b, t).offset, payload) && b' == Splice(b1, SlotsEnd(t) + 2, LE16(|payload|))
    ensures Count(b') == n && FreePtr(b') == FreePtr(b) && b'[..16] == b[..16]
    ensures SlotsOf(b', n) == SlotsOf(b, n)[t := SlotAt(b, t).(size := |payload|)]
    ensures forall k :: SlotsEnd(n) <= k < PAGE_SIZE && !(SlotAt(b, t).offset <= k < SlotAt(b, t).offset + |payload|)
              ==> b'[k] == b[k]
    ensures TupleOf(b', SlotAt(b, t).(size := |payload|)) == payload
  {
    var s := SlotAt(b, t);
    assert InPage(SlotsOf(b, n)[t], FreePtr(b));
    if payload == [] {
      assert b1 == b;
    } else {
      assert Live(s);
    }
    SameSlots(b, b1, n);
    SizeWritten(b1, n, t, |payload|, b');
    assert SlotAt(b1, t) == SlotsOf(b1, n)[t];
  }

  lemma {:induction false} Deleted(b: seq<byte>, t: nat, b1: seq<byte>, b': seq<byte>)
    requires PageOk(b) && t in Tuples(b)
    requires SlotsEnd(t + 1) <= |b| && b1 == Splice(b, SlotsEnd(t) + 4, [1])
    requires b' == Splice(b1, SlotsEnd(t) + 2, LE16(0))
    ensures PageOk(b') && Tuples(b') == Tuples(b) - {t} && b'[..16] == b[..16] && Count(b') == Count(b)
    ensures Used(b') == Used(b) - SlotAt(b, t).size && FreePtr(b') == FreePtr(b)
  {
    hide Splice, LE16, SlotsOf, SlotAt, Count, FreePtr, LayoutOk, TuplesOf;
    var n := Count(b);
    KnownTuple(b, t);
    MarkWritten(b, n, t, 1, b1);
    SizeWritten(b1, n, t, 0, b');
    assert SlotAt(b1, t) == SlotsOf(b1, n)[t];
    Shrunk(b, t, Slot(SlotAt(b, t).offset, 0, true), b');
  }

  /** Only the slot array differs. */
  ghost predicate Unmoved(b: seq<byte>, b': seq<byte>, n: nat) {
    |b'| == |b| && forall k :: 0 <= k < |b| && !(HEADER_SIZE <= k < SlotsEnd(n)) ==> b'[k] == b[k]
  }

  lemma {:induction false} NothingMoved(temp: seq<byte>, b: seq<byte>, slots: seq<Slot>)
    ensures Copied(temp, b, slots, 0) && Moved(slots, 0) == slots && LiveBytes(slots[..0]) == 0
  {
  }

  lemma {:induction false} HeaderUnmoved(b: seq<byte>, b': seq<byte>, n: nat)
    requires |b| == PAGE_SIZE && Unmoved(b, b', n)
    ensures Count(b') == Count(b) && b'[..16] == b[..16]
  {
  }

  lemma {:induction false} NotMoved(temp: seq<byte>, b: seq<byte>, slots: seq<Slot>, i: nat)
    requires i < |slots| && !Live(slots[i]) && Copied(temp, b, slots, i)
    ensures Copied(temp, b, slots, i + 1) && Moved(slots, i + 1) == Moved(slots, i)
  {
  }

  /** What compaction finds at slot i, with the slots before it already moved. */
  lemma {:induction false} MoveStep(b: seq<byte>, slots: seq<Slot>, ptr: nat, d: seq<byte>, n: nat, i: nat)
    requires |b| == PAGE_SIZE && n == |slots| && i < n && LayoutOk(slots, ptr) && LiveBytes(slots) <= PAGE_SIZE
    requires SlotsEnd(n) <= PAGE_SIZE && Unmoved(b, d, n) && SlotsOf(d, n) == Moved(slots, i)
    ensures SlotAt(d, i) == slots[i]
    ensures LiveBytes(slots[..i + 1]) == LiveBytes(slots[..i]) + LiveSize(slots[i])
    ensures NewOffset(slots, i) == PAGE_SIZE - LiveBytes(slots[..i + 1])
    ensures LiveBytes(slots[..i + 1]) <= PAGE_SIZE
    ensures Live(slots[i]) ==>
              slots[i].offset + slots[i].size <= PAGE_SIZE && TupleOf(d, slots[i]) == TupleOf(b, slots[i])
  {
    assert SlotAt(d, i) == SlotsOf(d, n)[i];
    WholePrefix(slots, i + 1);
    PrefixStep(slots, i);
    assert InPage(slots[i], ptr);
  }

  lemma {:induction false} SlotMoved(b: seq<byte>, slots: seq<Slot>, d: seq<byte>, n: nat, i: nat, d': seq<byte>)
    requires |b| == PAGE_SIZE && n == |slots| && i < n && SlotsEnd(n) <= PAGE_SIZE && Live(slots[i])
    requires Unmoved(b, d, n) && SlotsOf(d, n) == Moved(slots, i) && SlotAt(d, i) == slots[i]
    requires d' == Splice(d, SlotsEnd(i), LE16(NewOffset(slots, i)))
    ensures Unmoved(b, d', n) && SlotsOf(d', n) == Moved(slots, i + 1)
  {
    StoreOffset(d, n, i, NewOffset(slots, i));
  }
}
