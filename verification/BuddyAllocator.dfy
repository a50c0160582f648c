/** Blocks of the buddy allocator's pool: power-of-two sizes, alignment, buddies and tilings. */
module BuddyBlocks {
  import opened Common
  import opened Bits

  const MIN_BLOCK_SIZE: nat := 4096
  const MAX_ORDER: nat := 8
  const POOL_SIZE: nat := 1048576

  /** MIN_BLOCK_SIZE << order */
  function OrderToSize(order: nat): nat { Pow2(12 + order) }

  lemma {:induction false} PoolIsTopBlock()
    ensures OrderToSize(0) == MIN_BLOCK_SIZE && OrderToSize(MAX_ORDER) == POOL_SIZE
  {
    assert Pow2(12) == 4096;
    assert Pow2(16) == 16 * Pow2(12);
    assert Pow2(20) == 16 * Pow2(16);
  }

  /** A block by its offset in the pool and its order. */
  datatype Block = Block(off: nat, order: nat)

  function End(b: Block): nat { b.off + OrderToSize(b.order) }

  predicate Covers(b: Block, x: nat) { b.off <= x < End(b) }

  predicate Contains(c: Block, b: Block) { c.off <= b.off && End(b) <= End(c) }

  predicate Aligned(b: Block) { IsMultiple(b.off, 12 + b.order) }

  predicate InPool(b: Block) { b.order <= MAX_ORDER && Aligned(b) && End(b) <= POOL_SIZE }

  predicate Disjoint(a: Block, b: Block) { End(a) <= b.off || End(b) <= a.off }

  /** The block at offset ^ size. */
  function Buddy(b: Block): Block { Block(Xor(b.off, OrderToSize(b.order)), b.order) }

  function Left(b: Block): Block
    requires b.order > 0
  {
    Block(b.off, b.order - 1)
  }

  function Right(b: Block): Block
    requires b.order > 0
  {
    Block(b.off + OrderToSize(b.order - 1), b.order - 1)
  }

  function Parent(b: Block): Block {
    Block(if b.off < Buddy(b).off then b.off else Buddy(b).off, b.order + 1)
  }

  /** Every byte of the pool lies in exactly one block, and all blocks are aligned to their size. */
  ghost predicate Tiles(bs: set<Block>) {
    AllInPool(bs) && PairwiseDisjoint(bs) && CoversPool(bs)
  }

  ghost predicate AllInPool(bs: set<Block>) { forall b :: b in bs ==> InPool(b) }

  ghost predicate PairwiseDisjoint(bs: set<Block>) {
    forall a, b :: a in bs && b in bs && a != b ==> Disjoint(a, b)
  }

  ghost predicate CoversPool(bs: set<Block>) { forall x: nat :: x < POOL_SIZE ==> Covered(bs, x) }

  ghost predicate Covered(bs: set<Block>, x: nat) { exists b :: b in bs && Covers(b, x) }

  /** No two buddies are free together. */
  ghost predicate Coalesced(free: set<Block>) {
    forall b {:trigger Buddy(b)} :: b in free && b.order < MAX_ORDER ==> Buddy(b) !in free
  }

  // ---- Alignment and buddies ----

  /** Alignment is divisibility by the block's size. */
  lemma {:induction false} AlignedIff(b: Block)
    ensures Aligned(b) <==> b.off % OrderToSize(b.order) == 0
  {
    IsMultipleIff(b.off, 12 + b.order);
  }

  lemma {:induction false} MultipleOf(x: nat, n: nat)
    requires n > 0 && x % n == 0
    ensures x == (x / n) * n
  {
  }

  lemma {:induction false} ProductMod(q: nat, n: nat)
    requires n > 0
    ensures (q * n) % n == 0
    ensures q * n / n == q
  {
    var e := q * n / n - q;
    assert e * n == -((q * n) % n);
    assert e < 0 ==> (-e - 1) * n >= 0;
  }

  lemma {:induction false} HalvesAligned(b: Block)
    requires Aligned(b) && b.order > 0
    ensures Aligned(Left(b)) && Aligned(Right(b))
  {
    var h := OrderToSize(b.order - 1);
    var q := b.off / (2 * h);
    AlignedIff(b);
    AlignedIff(Left(b));
    AlignedIff(Right(b));
    MultipleOf(b.off, 2 * h);
    TwiceTimes(q, h);
    ProductMod(2 * q, h);
    ProductMod(2 * q + 1, h);
  }

  /** The halves of an aligned block are each other's buddies. */
  lemma {:induction false} HalvesAreBuddies(b: Block)
    requires Aligned(b) && b.order > 0
    ensures Buddy(Left(b)) == Right(b) && Buddy(Right(b)) == Left(b)
    ensures Parent(Left(b)) == b && Parent(Right(b)) == b
    ensures End(Left(b)) == Right(b).off && End(Right(b)) == End(b)
  {
    var h := OrderToSize(b.order - 1);
    var q := b.off / (2 * h);
    AlignedIff(b);
    MultipleOf(b.off, 2 * h);
    XorInPair(q, 12 + b.order - 1);
  }

  lemma {:induction false} PairArithmetic(q: nat, h: nat)
    ensures q * h == (q / 2) * (2 * h) + (if q % 2 == 0 then 0 else h)
  {
    TwiceTimes(q / 2, h);
  }

  lemma {:induction false} ParentOffset(b: Block)
    requires Aligned(b)
    ensures Aligned(Parent(b))
    ensures b.off == Parent(b).off || b.off == Parent(b).off + OrderToSize(b.order)
  {
    var h := OrderToSize(b.order);
    AlignedIff(b);
    AlignedIff(Parent(b));
    MultipleOf(b.off, h);
    var q := b.off / h;
    XorInPair(q / 2, 12 + b.order);
    PairArithmetic(q, h);
    ProductMod(q / 2, 2 * h);
  }

  /** An aligned block and its buddy are the two halves of an aligned parent. */
  lemma {:induction false} ParentHalves(b: Block)
    requires Aligned(b)
    ensures Aligned(Parent(b))
    ensures (b == Left(Parent(b)) && Buddy(b) == Right(Parent(b)))
         || (b == Right(Parent(b)) && Buddy(b) == Left(Parent(b)))
    ensures Aligned(Buddy(b)) && Buddy(Buddy(b)) == b && Parent(Buddy(b)) == Parent(b)
  {
    ParentOffset(b);
    HalvesAligned(Parent(b));
    HalvesAreBuddies(Parent(b));
    assert b == Left(Parent(b)) || b == Right(Parent(b));
  }

  lemma {:induction false} Scale(a: nat, b: nat, n: nat)
    ensures a <= b ==> a * n <= b * n
    ensures a < b ==> a * n + n <= b * n
  {
    if a <= b {
      Distribute(a, b - a, n);
    }
    if a < b {
      Distribute(a + 1, b - a - 1, n);
      Distribute(a, 1, n);
    }
  }

  lemma {:induction false} Distribute(a: nat, b: nat, n: nat)
    ensures (a + b) * n == a * n + b * n
  {
  }

  lemma {:induction false} LaminarArithmetic(i: nat, j: nat, m: nat, n: nat, x: nat)
    requires i * n <= x < i * n + n
    requires j * n <= x < j * n + m * n
    ensures j * n <= i * n && i * n + n <= j * n + m * n
  {
    Distribute(j, m, n);
    Scale(i, j, n);
    Scale(j, i, n);
    Scale(i, j + m, n);
    Scale(j + m, i, n);
  }

  lemma {:induction false} SizeRatio(k: nat, d: nat)
    ensures OrderToSize(k + d) == Pow2(d) * OrderToSize(k)
  {
    if d > 0 {
      SizeRatio(k, d - 1);
    }
  }

  lemma {:induction false} Regroup(j: nat, m: nat, n: nat)
    ensures j * (m * n) == (j * m) * n
  {
  }

  /** Two aligned blocks that share a byte are nested. */
  lemma {:induction false} Nested(a: Block, b: Block, x: nat)
    requires Aligned(a) && Aligned(b) && a.order <= b.order && Covers(a, x) && Covers(b, x)
    ensures Contains(b, a)
    ensures a.order == b.order ==> a == b
  {
    var n, m := OrderToSize(a.order), Pow2(b.order - a.order);
    var j := b.off / OrderToSize(b.order);
    SizeRatio(a.order, b.order - a.order);
    AlignedIff(a);
    AlignedIff(b);
    MultipleOf(a.off, n);
    MultipleOf(b.off, OrderToSize(b.order));
    Regroup(j, m, n);
    LaminarArithmetic(a.off / n, j * m, m, n, x);
  }

  // ---- Splitting and merging keep the tiling ----

  lemma {:induction false} SplitTiles(bs: set<Block>, b: Block)
    requires Tiles(bs) && b in bs && b.order > 0
    ensures Left(b) !in bs && Right(b) !in bs && Left(b) != Right(b)
    ensures Tiles(bs - {b} + {Left(b), Right(b)})
  {
    HalvesAligned(b);
    HalvesAreBuddies(b);
    var l, r := Left(b), Right(b);
    var bs' := bs - {b} + {l, r};
    assert InPool(b) && InPool(l) && InPool(r) && Disjoint(l, r) && l != r;
    forall d | d in bs - {b} ensures Disjoint(l, d) && Disjoint(r, d) {
      assert Disjoint(b, d);
    }
    Replaced(bs, {b}, bs', {l, r});
    assert !Disjoint(l, b) && !Disjoint(r, b) && l != b && r != b;
    SplitCovers(bs, b, l, r);
  }

  lemma {:induction false} SplitCovers(bs: set<Block>, b: Block, l: Block, r: Block)
    requires CoversPool(bs) && b in bs && l.off == b.off && End(l) == r.off && End(r) == End(b)
    ensures CoversPool(bs - {b} + {l, r})
  {
    var bs' := bs - {b} + {l, r};
    forall x: nat | x < POOL_SIZE ensures Covered(bs', x) {
      assert Covered(bs, x);
      var c :| c in bs && Covers(c, x);
      var d := if c != b then c else if x < r.off then l else r;
      assert d in bs' && Covers(d, x);
    }
  }

  lemma {:induction false} MergeTiles(bs: set<Block>, b: Block)
    requires Tiles(bs) && b in bs && Buddy(b) in bs && b.order < MAX_ORDER
    ensures b != Buddy(b) && Parent(b) !in bs
    ensures Tiles(bs - {b, Buddy(b)} + {Parent(b)})
  {
    ParentHalves(b);
    HalvesAligned(Parent(b));
    HalvesAreBuddies(Parent(b));
    var a, p := Buddy(b), Parent(b);
    var bs' := bs - {b, a} + {p};
    assert InPool(a) && InPool(b) && InPool(p);
    forall d | d in bs - {b, a} ensures Disjoint(p, d) {
      assert Disjoint(a, d) && Disjoint(b, d);
    }
    Replaced(bs, {b, a}, bs', {p});
    MergeCovers(bs, a, b, p);
  }

  lemma {:induction false} MergeCovers(bs: set<Block>, a: Block, b: Block, p: Block)
    requires CoversPool(bs) && Contains(p, a) && Contains(p, b)
    ensures CoversPool(bs - {b, a} + {p})
  {
    var bs' := bs - {b, a} + {p};
    forall x: nat | x < POOL_SIZE ensures Covered(bs', x) {
      assert Covered(bs, x);
      var c :| c in bs && Covers(c, x);
      var d := if c == b || c == a then p else c;
      assert d in bs' && Covers(d, x);
    }
  }

  /** Replacing some blocks of a tiling by blocks over the same bytes keeps the others apart. */
  lemma {:induction false} Replaced(bs: set<Block>, gone: set<Block>, bs': set<Block>, come: set<Block>)
    requires AllInPool(bs) && PairwiseDisjoint(bs) && gone <= bs && bs' == bs - gone + come
    requires AllInPool(come) && PairwiseDisjoint(come)
    requires forall c, d :: c in come && d in bs - gone ==> Disjoint(c, d)
    ensures AllInPool(bs') && PairwiseDisjoint(bs')
    ensures come !! (bs - gone)
  {
    forall c | c in come ensures c !in bs - gone {
      assert !Disjoint(c, c);
    }
  }

  // ---- Coalescing is canonical ----

  /** A block whose bytes are all free lies inside one free block. */
  lemma {:induction false} FreeRegionIsOneBlock(free: set<Block>, b: Block) returns (c: Block)
    requires forall a :: a in free ==> InPool(a)
    requires Coalesced(free) && InPool(b)
    requires forall x: nat :: Covers(b, x) ==> Covered(free, x)
    ensures c in free && Contains(c, b)
    decreases b.order
  {
    assert Covers(b, b.off) && Covered(free, b.off);
    c :| c in free && Covers(c, b.off);
    if c.order >= b.order {
      Nested(b, c, b.off);
    } else {
      HalvesAligned(b);
      HalvesAreBuddies(b);
      var l := FreeRegionIsOneBlock(free, Left(b));
      var r := FreeRegionIsOneBlock(free, Right(b));
      if l.order >= b.order {
        Nested(b, l, b.off);
        c := l;
      } else if r.order >= b.order {
        Nested(b, r, Right(b).off);
        c := r;
      } else {
        NotSmaller(Left(b), l);
        NotSmaller(Right(b), r);
        assert false;
      }
    }
  }

  /** A block inside another of at most the same order is that block. */
  lemma {:induction false} NotSmaller(b: Block, c: Block)
    requires Aligned(b) && Aligned(c) && Contains(c, b) && c.order <= b.order
    ensures b == c
  {
    assert Covers(b, b.off) && Covers(c, b.off);
    Nested(c, b, b.off);
    SizeGrows(c.order, b.order);
  }

  lemma {:induction false} SizeGrows(j: nat, k: nat)
    requires j <= k
    ensures OrderToSize(j) <= OrderToSize(k)
    ensures j < k ==> OrderToSize(j) < OrderToSize(k)
    decreases k
  {
    if j < k {
      SizeGrows(j, k - 1);
    }
  }

  lemma {:induction false} FreeBytesStayFree(free: set<Block>, other: set<Block>, live: set<Block>, b: Block, x: nat)
    requires Tiles(free + live) && Tiles(other + live) && free !! live && b in free && Covers(b, x)
    ensures Covered(other, x)
  {
    assert b in free + live && End(b) <= POOL_SIZE;
    assert Covered(other + live, x);
    var c :| c in other + live && Covers(c, x);
    assert c in live ==> c in free + live && c != b;
    assert c in other;
  }

  lemma {:induction false} FreeBlockIn(free: set<Block>, other: set<Block>, live: set<Block>,
                                       b: Block) returns (c: Block)
    requires Tiles(free + live) && Tiles(other + live) && free !! live
    requires Coalesced(other) && b in free
    ensures c in other && Contains(c, b)
  {
    forall x: nat | Covers(b, x) ensures Covered(other, x) {
      FreeBytesStayFree(free, other, live, b, x);
    }
    c := FreeRegionIsOneBlock(other, b);
  }

  lemma {:induction false} FreeBlockAlsoIn(free: set<Block>, other: set<Block>, live: set<Block>, b: Block)
    requires Tiles(free + live) && free !! live && Coalesced(free)
    requires Tiles(other + live) && other !! live && Coalesced(other)
    requires b in free
    ensures b in other
  {
    var c := FreeBlockIn(free, other, live, b);
    var d := FreeBlockIn(other, free, live, c);
    assert b in free + live && d in free + live && c in other + live;
    assert !Disjoint(b, d);
    assert b == d;
    assert OrderToSize(b.order) == OrderToSize(c.order);
    if b.order < c.order {
      SizeGrows(b.order, c.order);
    } else {
      NotSmaller(b, c);
    }
  }

  /** The live blocks determine the free blocks: whatever the history, eager coalescing leaves exactly
      one possible set of free blocks. */
  lemma {:induction false} FreeBlocksAreCanonical(free: set<Block>, other: set<Block>, live: set<Block>)
    requires Tiles(free + live) && free !! live && Coalesced(free)
    requires Tiles(other + live) && other !! live && Coalesced(other)
    ensures free == other
  {
    forall b | b in free ensures b in other {
      FreeBlockAlsoIn(free, other, live, b);
    }
    forall b | b in other ensures b in free {
      FreeBlockAlsoIn(other, free, live, b);
    }
  }

  lemma {:induction false} WholePoolTiles()
    ensures Tiles({Block(0, MAX_ORDER)}) && Coalesced({Block(0, MAX_ORDER)})
  {
    PoolIsTopBlock();
    AlignedIff(Block(0, MAX_ORDER));
    forall x: nat | x < POOL_SIZE ensures Covered({Block(0, MAX_ORDER)}, x) {
      assert Covers(Block(0, MAX_ORDER), x);
    }
  }
}

/** The allocator's free lists as values, and what splitting and merging does to the pool. */
module BuddyPool {
  import opened Common
  import opened BuddyBlocks

  /** `order` is the least one whose blocks hold `bytes`, or the top order when none does. */
  predicate FitsOrder(bytes: nat, order: nat) {
    && order <= MAX_ORDER
    && (order < MAX_ORDER ==> bytes <= OrderToSize(order))
    && (order > 0 ==> OrderToSize(order - 1) < bytes)
  }

  function OrderFor(bytes: nat, from: nat := 0): (r: nat)
    requires from <= MAX_ORDER && (from > 0 ==> OrderToSize(from - 1) < bytes)
    ensures FitsOrder(bytes, r)
    decreases MAX_ORDER - from
  {
    if bytes <= OrderToSize(from) || from == MAX_ORDER then from else OrderFor(bytes, from + 1)
  }

  lemma {:induction false} FitsOrderUnique(bytes: nat, j: nat, k: nat)
    requires FitsOrder(bytes, j) && FitsOrder(bytes, k)
    ensures j == k
  {
    if j < k {
      SizeGrows(j, k - 1);
    } else if k < j {
      SizeGrows(k, j - 1);
    }
  }

  ghost predicate InLists(lists: seq<seq<nat>>, b: Block) {
    b.order < |lists| && b.off in lists[b.order]
  }

  ghost predicate ListsOk(lists: seq<seq<nat>>) {
    && |lists| == MAX_ORDER + 1
    && forall k :: 0 <= k < |lists| ==> Distinct(lists[k])
  }

  function Push(lists: seq<seq<nat>>, k: nat, o: nat): seq<seq<nat>>
    requires k < |lists|
  {
    lists[k := lists[k] + [o]]
  }

  function Erase(lists: seq<seq<nat>>, k: nat, i: nat): seq<seq<nat>>
    requires k < |lists| && i < |lists[k]|
  {
    lists[k := lists[k][..i] + lists[k][i + 1..]]
  }

  lemma {:induction false} PushFree(lists: seq<seq<nat>>, k: nat, o: nat)
    requires ListsOk(lists) && k <= MAX_ORDER && !InLists(lists, Block(o, k))
    ensures ListsOk(Push(lists, k, o))
    ensures forall b :: InLists(Push(lists, k, o), b) <==> InLists(lists, b) || b == Block(o, k)
  {
  }

  lemma {:induction false} EraseFree(lists: seq<seq<nat>>, k: nat, i: nat)
    requires ListsOk(lists) && k <= MAX_ORDER && i < |lists[k]|
    ensures ListsOk(Erase(lists, k, i))
    ensures forall b :: InLists(Erase(lists, k, i), b) <==>
                        InLists(lists, b) && b != Block(lists[k][i], k)
  {
    var o := lists[k][i];
    var l := lists[k][..i] + lists[k][i + 1..];
    forall x ensures x in l <==> x in lists[k] && x != o {
      if x in lists[k] && x != o {
        var j :| 0 <= j < |lists[k]| && lists[k][j] == x;
        assert x == if j < i then l[j] else l[j - 1];
      }
    }
  }

  /** Total size of a set of blocks. */
  ghost function Bytes(bs: set<Block>): nat {
    if bs == {} then 0 else var b :| b in bs; OrderToSize(b.order) + Bytes(bs - {b})
  }

  lemma {:induction false} BytesAdd(bs: set<Block>, b: Block)
    requires b !in bs
    ensures Bytes(bs + {b}) == Bytes(bs) + OrderToSize(b.order)
    decreases |bs|
  {
    var all := bs + {b};
    var c :| c in all && Bytes(all) == OrderToSize(c.order) + Bytes(all - {c});
    if c == b {
      assert all - {c} == bs;
    } else {
      assert all - {c} == (bs - {c}) + {b};
      BytesAdd(bs - {c}, b);
      BytesAdd(bs - {c}, c);
      assert (bs - {c}) + {c} == bs;
    }
  }

  /** No two buddies are on the free lists together. */
  ghost predicate CoalescedLists(lists: seq<seq<nat>>) {
    forall b {:trigger Buddy(b)} :: InLists(lists, b) && b.order < MAX_ORDER ==> !InLists(lists, Buddy(b))
  }

  /** Each block is exactly one of free, live and held. A block is held while an operation is at work on
      it. */
  ghost predicate Sorted(all: set<Block>, lists: seq<seq<nat>>, live: set<Block>, held: set<Block>) {
    && (forall b :: b in all <==> InLists(lists, b) || b in live || b in held)
    && (forall b :: b in live ==> !InLists(lists, b) && b !in held)
    && (forall b :: b in held ==> !InLists(lists, b))
  }

  /** All blocks together tile the pool, and no two buddies are free. */
  ghost predicate PoolOk(all: set<Block>, lists: seq<seq<nat>>, live: set<Block>, held: set<Block>) {
    ListsOk(lists) && Sorted(all, lists, live, held) && Tiles(all) && CoalescedLists(lists)
  }

  lemma {:induction false} PopOk(all: set<Block>, lists: seq<seq<nat>>, live: set<Block>, k: nat, i: nat)
    requires PoolOk(all, lists, live, {}) && k <= MAX_ORDER && i < |lists[k]|
    ensures PoolOk(all, Erase(lists, k, i), live, {Block(lists[k][i], k)})
  {
    EraseFree(lists, k, i);
    assert InLists(lists, Block(lists[k][i], k));
  }

  lemma {:induction false} CoalescedPush(lists: seq<seq<nat>>, b: Block)
    requires ListsOk(lists) && CoalescedLists(lists) && b.order <= MAX_ORDER && !InLists(lists, b)
    requires Aligned(b) && forall c :: InLists(lists, c) ==> Aligned(c)
    requires b.order < MAX_ORDER ==> !InLists(lists, Buddy(b))
    ensures CoalescedLists(Push(lists, b.order, b.off))
  {
    PushFree(lists, b.order, b.off);
    ParentHalves(b);
    forall c | InLists(Push(lists, b.order, b.off), c) && c.order < MAX_ORDER
      ensures !InLists(Push(lists, b.order, b.off), Buddy(c))
    {
      ParentHalves(c);
    }
  }

  ghost function Halved(all: set<Block>, b: Block, l: Block, r: Block): set<Block> {
    all - {b} + {l, r}
  }

  lemma {:induction false} HalvedCount(all: set<Block>, b: Block, l: Block, r: Block)
    requires b in all && l !in all && r !in all && l != r
    ensures |Halved(all, b, l, r)| == |all| + 1
  {
    assert Halved(all, b, l, r) == (all - {b}) + {l} + {r};
  }

  lemma {:induction false} SplitSorted(all: set<Block>, lists: seq<seq<nat>>, live: set<Block>, b: Block, l: Block,
                                       r: Block)
    requires r.order <= MAX_ORDER && ListsOk(lists) && Sorted(all, lists, live, {b})
    requires l !in all && r !in all && l != r
    ensures !InLists(lists, l) && !InLists(lists, r)
    ensures Sorted(Halved(all, b, l, r), Push(lists, r.order, r.off), live, {l})
  {
    PushFree(lists, r.order, r.off);
  }

  lemma {:induction false} SplitOk(all: set<Block>, lists: seq<seq<nat>>, live: set<Block>, b: Block, l: Block,
                                   r: Block)
    returns (all': set<Block>)
    requires 0 < b.order <= MAX_ORDER && PoolOk(all, lists, live, {b}) && l == Left(b) && r == Right(b)
    ensures PoolOk(all', Push(lists, r.order, r.off), live, {l})
    ensures |all'| == |all| + 1
  {
    all' := Halved(all, b, l, r);
    assert b in all && InPool(b);
    SplitTiles(all, b);
    HalvesAligned(b);
    HalvesAreBuddies(b);
    HalvedCount(all, b, l, r);
    SplitSorted(all, lists, live, b, l, r);
    PushFree(lists, r.order, r.off);
    CoalescedPush(lists, r);
  }

  lemma {:induction false} HandOut(all: set<Block>, lists: seq<seq<nat>>, live: set<Block>, b: Block)
    requires PoolOk(all, lists, live, {b})
    ensures b !in live && PoolOk(all, lists, live + {b}, {})
  {
    assert b in {b};
  }

  lemma {:induction false} TakeBack(all: set<Block>, lists: seq<seq<nat>>, live: set<Block>, b: Block)
    requires PoolOk(all, lists, live, {}) && b in live
    ensures PoolOk(all, lists, live - {b}, {b})
  {
  }

  lemma {:induction false} MergeOk(all: set<Block>, lists: seq<seq<nat>>, live: set<Block>, b: Block, i: nat)
    returns (all': set<Block>)
    requires b.order < MAX_ORDER && PoolOk(all, lists, live, {b})
    requires i < |lists[b.order]| && lists[b.order][i] == Buddy(b).off
    ensures PoolOk(all', Erase(lists, b.order, i), live, {Parent(b)})
    ensures |all'| == |all| - 1
  {
    var a, p := Buddy(b), Parent(b);
    all' := all - {b, a} + {p};
    assert InLists(lists, a) && a in all && b in all;
    MergeTiles(all, b);
    assert |all - {b, a} + {p}| == |all| - 1 by {
      assert all == all - {b, a} + {b} + {a};
    }
    EraseFree(lists, b.order, i);
    assert a == Block(lists[b.order][i], b.order);
  }

  lemma {:induction false} LinkOk(all: set<Block>, lists: seq<seq<nat>>, live: set<Block>, b: Block)
    requires b.order <= MAX_ORDER && PoolOk(all, lists, live, {b})
    requires b.order < MAX_ORDER ==> Buddy(b).off !in lists[b.order]
    ensures PoolOk(all, Push(lists, b.order, b.off), live, {})
  {
    assert b in all && InPool(b);
    PushFree(lists, b.order, b.off);
    CoalescedPush(lists, b);
  }

  /** The free blocks recorded in the lists. */
  ghost function FreeOf(lists: seq<seq<nat>>): (r: set<Block>)
    ensures forall b :: b in r <==> InLists(lists, b)
  {
    set k, o | 0 <= k < |lists| && o in lists[k] :: Block(o, k)
  }

  lemma {:induction false} PoolParts(all: set<Block>, lists: seq<seq<nat>>, live: set<Block>)
    requires PoolOk(all, lists, live, {})
    ensures Tiles(FreeOf(lists) + live) && FreeOf(lists) !! live && Coalesced(FreeOf(lists))
  {
    assert FreeOf(lists) + live == all;
    forall a | a in FreeOf(lists) && a.order < MAX_ORDER ensures Buddy(a) !in FreeOf(lists) {
      assert InLists(lists, a);
    }
  }

  /** An aligned block of the pool that no live block touches. */
  ghost predicate Vacant(live: set<Block>, b: Block) { InPool(b) && forall a :: a in live ==> Disjoint(a, b) }

  /** The first part of an aligned block is aligned. */
  lemma {:induction false} FirstPart(b: Block, k: nat)
    requires Aligned(b) && k <= b.order
    ensures Aligned(Block(b.off, k)) && End(Block(b.off, k)) <= End(b)
    decreases b.order
  {
    SizeGrows(k, b.order);
    if k < b.order {
      HalvesAligned(b);
      FirstPart(Left(b), k);
    }
  }

  lemma {:induction false} FreeIsVacant(all: set<Block>, lists: seq<seq<nat>>, live: set<Block>, b: Block, k: nat)
    requires PoolOk(all, lists, live, {}) && InLists(lists, b) && k <= b.order
    ensures Vacant(live, Block(b.off, k))
  {
    FirstPart(b, k);
    assert b in all;
    forall a | a in live ensures Disjoint(a, Block(b.off, k)) {
      assert a in all && a != b && Disjoint(a, b);
    }
  }

  lemma {:induction false} VacantIsFree(all: set<Block>, lists: seq<seq<nat>>, live: set<Block>, b: Block)
    requires PoolOk(all, lists, live, {}) && Vacant(live, b)
    ensures exists c :: InLists(lists, c) && c.order >= b.order
  {
    var free := FreeOf(lists);
    forall x: nat | Covers(b, x) ensures Covered(free, x) {
      assert Covered(all, x);
      var c :| c in all && Covers(c, x);
      assert c in live ==> Disjoint(c, b);
    }
    PoolParts(all, lists, live);
    var c := FreeRegionIsOneBlock(free, b);
    if c.order < b.order {
      SizeGrows(c.order, b.order);
    }
  }

  /** The free lists have a block large enough exactly when the live blocks leave room for one. */
  lemma {:induction false} RoomIff(all: set<Block>, lists: seq<seq<nat>>, live: set<Block>, k: nat)
    requires PoolOk(all, lists, live, {})
    ensures (exists b :: InLists(lists, b) && b.order >= k) <==> exists o: nat :: Vacant(live, Block(o, k))
  {
    hide PoolOk, Vacant;
    if b :| InLists(lists, b) && b.order >= k {
      FreeIsVacant(all, lists, live, b, k);
    }
    if o: nat :| Vacant(live, Block(o, k)) {
      VacantIsFree(all, lists, live, Block(o, k));
    }
  }

  /** Once everything is freed the only free block is the whole pool. */
  lemma {:induction false} AllFreedIsWholePool(all: set<Block>, lists: seq<seq<nat>>)
    requires PoolOk(all, lists, {}, {})
    ensures FreeOf(lists) == {Block(0, MAX_ORDER)}
  {
    WholePoolTiles();
    assert FreeOf(lists) == all;
    assert FreeOf(lists) + {} == all && {Block(0, MAX_ORDER)} + {} == {Block(0, MAX_ORDER)};
    FreeBlocksAreCanonical(FreeOf(lists), {Block(0, MAX_ORDER)}, {});
  }
}

/** Allocating and freeing as functions of the free lists, and what freeing a block that is not live does. */
module BuddyFree {
  import opened Common
  import opened Bits
  import opened BuddyBlocks
  import opened BuddyPool

  /** std::find: the first index of x. */
  function IndexOf(s: seq<nat>, x: nat): (i: nat)
    requires x in s
    ensures i < |s| && s[i] == x && x !in s[..i]
  {
    if s[0] == x then 0
    else
      var i := 1 + IndexOf(s[1..], x);
      assert s[..i] == [s[0]] + s[1..][..i - 1];
      i
  }

  // ---- Allocating ----

  /** The least order from `order` up that has a free block, or MAX_ORDER + 1. */
  function Smallest(lists: seq<seq<nat>>, order: nat): (k: nat)
    requires |lists| == MAX_ORDER + 1 && order <= MAX_ORDER + 1
    ensures order <= k <= MAX_ORDER + 1
    ensures k <= MAX_ORDER ==> lists[k] != []
    ensures forall b :: InLists(lists, b) && b.order >= order ==> b.order >= k
    decreases MAX_ORDER + 1 - order
  {
    if order > MAX_ORDER || lists[order] != [] then order else Smallest(lists, order + 1)
  }

  /** Splits a block down to `order`, putting the right halves on their lists. */
  function Carved(lists: seq<seq<nat>>, off: nat, from: nat, order: nat): seq<seq<nat>>
    requires |lists| == MAX_ORDER + 1 && order <= from <= MAX_ORDER + 1
    decreases from - order
  {
    if from == order then lists
    else Carved(Push(lists, from - 1, off + OrderToSize(from - 1)), off, from - 1, order)
  }

  ghost function RightHalves(off: nat, from: nat, order: nat): set<Block> {
    set j | order <= j < from :: Block(off + OrderToSize(j), j)
  }

  lemma {:induction false} CarvedFree(lists: seq<seq<nat>>, off: nat, from: nat, order: nat)
    requires |lists| == MAX_ORDER + 1 && order <= from <= MAX_ORDER + 1
    ensures FreeOf(Carved(lists, off, from, order)) == FreeOf(lists) + RightHalves(off, from, order)
    decreases from - order
  {
    hide OrderToSize;
    if from == order {
      assert RightHalves(off, from, order) == {};
    } else {
      var b := Block(off + OrderToSize(from - 1), from - 1);
      var lists' := Push(lists, from - 1, b.off);
      CarvedFree(lists', off, from - 1, order);
      assert FreeOf(lists') == FreeOf(lists) + {b} by {
        forall c ensures InLists(lists', c) <==> InLists(lists, c) || c == b {
        }
      }
      assert RightHalves(off, from, order) == RightHalves(off, from - 1, order) + {b};
    }
  }

  /** The lists after the last block of order k has been taken and split down. */
  function Taken(lists: seq<seq<nat>>, k: nat, order: nat): seq<seq<nat>>
    requires |lists| == MAX_ORDER + 1 && order <= k <= MAX_ORDER && lists[k] != []
  {
    var last := |lists[k]| - 1;
    Carved(Erase(lists, k, last), lists[k][last], k, order)
  }

  /** Allocation uses up one free block, the smallest that is large enough, and frees the right halves of its splits.
      With a block of exactly the order needed, every other free block stays as it is. */
  lemma {:induction false} TakenFree(lists: seq<seq<nat>>, order: nat, k: nat)
    requires ListsOk(lists) && order <= MAX_ORDER && k == Smallest(lists, order) <= MAX_ORDER
    ensures var b := Block(lists[k][|lists[k]| - 1], k);
            && b in FreeOf(lists)
            && FreeOf(Taken(lists, k, order)) == FreeOf(lists) - {b} + RightHalves(b.off, k, order)
            && (lists[order] != [] ==> k == order && FreeOf(Taken(lists, k, order)) == FreeOf(lists) - {b})
  {
    hide OrderToSize;
    var last := |lists[k]| - 1;
    var b := Block(lists[k][last], k);
    assert InLists(lists, b);
    EraseFree(lists, k, last);
    assert FreeOf(Erase(lists, k, last)) == FreeOf(lists) - {b};
    CarvedFree(Erase(lists, k, last), b.off, k, order);
    if lists[order] != [] {
      assert InLists(lists, Block(lists[order][0], order));
      assert RightHalves(b.off, k, order) == {};
    }
  }

  // ---- Freeing ----

  /** How often a freed block merges. */
  function Merges(lists: seq<seq<nat>>, b: Block): nat
    requires |lists| == MAX_ORDER + 1 && b.order <= MAX_ORDER
    decreases MAX_ORDER - b.order
  {
    if b.order < MAX_ORDER && Buddy(b).off in lists[b.order] then
      1 + Merges(Erase(lists, b.order, IndexOf(lists[b.order], Buddy(b).off)), Parent(b))
    else 0
  }

  /** Takes free buddies off the lists as long as there are any, then puts the merged block on its list. */
  function Merged(lists: seq<seq<nat>>, b: Block): seq<seq<nat>>
    requires |lists| == MAX_ORDER + 1 && b.order <= MAX_ORDER
    decreases MAX_ORDER - b.order
  {
    if b.order < MAX_ORDER && Buddy(b).off in lists[b.order] then
      Merged(Erase(lists, b.order, IndexOf(lists[b.order], Buddy(b).off)), Parent(b))
    else Push(lists, b.order, b.off)
  }

  /** The bytes of n blocks of order k. */
  ghost function Times(n: nat, k: nat): nat { if n == 0 then 0 else OrderToSize(k) + Times(n - 1, k) }

  /** The bytes on the first n lists. */
  ghost function Total(lists: seq<seq<nat>>, n: nat): nat
    requires n <= |lists|
  {
    if n == 0 then 0 else Total(lists, n - 1) + Times(|lists[n - 1]|, n - 1)
  }

  lemma {:induction false} TotalUpdate(lists: seq<seq<nat>>, k: nat, l: seq<nat>, n: nat)
    requires k < |lists| && n <= |lists|
    ensures Total(lists[k := l], n) + (if k < n then Times(|lists[k]|, k) else 0) ==
            Total(lists, n) + if k < n then Times(|l|, k) else 0
  {
    if n > 0 {
      TotalUpdate(lists, k, l, n - 1);
    }
  }

  /** Freeing adds the block's bytes to the lists, however far it merges. */
  lemma {:induction false} MergedTotal(lists: seq<seq<nat>>, b: Block)
    requires |lists| == MAX_ORDER + 1 && b.order <= MAX_ORDER
    ensures |Merged(lists, b)| == |lists|
    ensures Total(Merged(lists, b), MAX_ORDER + 1) == Total(lists, MAX_ORDER + 1) + OrderToSize(b.order)
    decreases MAX_ORDER - b.order
  {
    hide Xor, Pow2;
    var k := b.order;
    DoubleSize(k);
    if k < MAX_ORDER && Buddy(b).off in lists[k] {
      var i := IndexOf(lists[k], Buddy(b).off);
      var l := lists[k][..i] + lists[k][i + 1..];
      TotalUpdate(lists, k, l, MAX_ORDER + 1);
      MergedTotal(Erase(lists, k, i), Parent(b));
    } else {
      TotalUpdate(lists, k, lists[k] + [b.off], MAX_ORDER + 1);
    }
  }

  lemma {:induction false} DoubleSize(k: nat)
    ensures OrderToSize(k + 1) == 2 * OrderToSize(k)
  {
  }

  ghost function Members(s: seq<nat>): set<nat> { set x | x in s }

  lemma {:induction false} MembersCount(s: seq<nat>)
    requires Distinct(s)
    ensures |Members(s)| == |s|
  {
    if s != [] {
      var n := |s| - 1;
      MembersCount(s[..n]);
      assert s[n] !in Members(s[..n]);
      assert s == s[..n] + [s[n]];
      assert Members(s) == Members(s[..n]) + {s[n]};
    }
  }

  lemma {:induction false} SameLengths(a: seq<nat>, b: seq<nat>)
    requires Distinct(a) && Distinct(b) && forall x :: x in a <==> x in b
    ensures |a| == |b|
  {
    MembersCount(a);
    MembersCount(b);
    assert Members(a) == Members(b);
  }

  lemma {:induction false} SameTotal(lists: seq<seq<nat>>, other: seq<seq<nat>>, n: nat)
    requires ListsOk(lists) && ListsOk(other) && n <= |lists| && FreeOf(lists) == FreeOf(other)
    ensures Total(lists, n) == Total(other, n)
  {
    if n > 0 {
      SameTotal(lists, other, n - 1);
      var a, b := lists[n - 1], other[n - 1];
      forall x ensures x in a <==> x in b {
        assert InLists(lists, Block(x, n - 1)) <==> InLists(other, Block(x, n - 1));
      }
      SameLengths(a, b);
    }
  }

  /** Freeing a block that is not live never leaves a consistent pool: the live blocks determine the free ones, and
      the lists now hold more bytes. */
  lemma {:induction false} StrayFreeBreaks(all: set<Block>, lists: seq<seq<nat>>, live: set<Block>, b: Block,
                                           all': set<Block>)
    requires PoolOk(all, lists, live, {}) && b.order <= MAX_ORDER
    ensures !PoolOk(all', Merged(lists, b), live, {})
  {
    hide Tiles, Coalesced, CoalescedLists, Sorted, Merged, Total;
    var lists' := Merged(lists, b);
    if PoolOk(all', lists', live, {}) {
      PoolParts(all, lists, live);
      PoolParts(all', lists', live);
      FreeBlocksAreCanonical(FreeOf(lists), FreeOf(lists'), live);
      MergedTotal(lists, b);
      SameTotal(lists, lists', MAX_ORDER + 1);
      assert false;
    }
  }
}

/** The allocator itself: free lists of block offsets, one per order, split and merged in place. */
module BuddyAllocator {
  import opened Common
  import opened Bits
  import opened BuddyBlocks
  import opened BuddyPool
  import opened BuddyFree

  method SizeToOrder(bytes: nat) returns (order: nat)
    ensures FitsOrder(bytes, order)
  {
    if bytes <= MIN_BLOCK_SIZE { return 0; }
    var size := MIN_BLOCK_SIZE;
    order := 0;
    while size < bytes && order < MAX_ORDER
      invariant order <= MAX_ORDER && size == OrderToSize(order)
      invariant order > 0 ==> OrderToSize(order - 1) < bytes
    {
      size := 2 * size;
      order := order + 1;
    }
  }

  class BuddyAllocator {
    var freeLists: seq<seq<nat>>
    var allocatedBytes: nat
    var splitCount: nat
    var mergeCount: nat
    ghost var live: set<Block>
    ghost var blocks: set<Block>  // all blocks: free, live and held

    ghost predicate PoolValid(held: set<Block>)
      reads this
    {
      PoolOk(blocks, freeLists, live, held) && |blocks| + mergeCount == 1 + splitCount
    }

    /** Free and live blocks tile the pool, no two buddies are free together, the number of blocks is
        1 + splits - merges, and allocatedBytes is the size of the live blocks. */
    ghost predicate Valid()
      reads this
    {
      PoolValid({}) && allocatedBytes == Bytes(live)
    }

    constructor ()
      ensures Valid() && live == {} && splitCount == 0 && mergeCount == 0
    {
      freeLists := seq(MAX_ORDER + 1, i => if i == MAX_ORDER then [0] else []);
      allocatedBytes, splitCount, mergeCount := 0, 0, 0;
      live, blocks := {}, {Block(0, MAX_ORDER)};
      new;
      WholePoolTiles();
    }

    /** The smallest order from `order` up that has a free block, or MAX_ORDER + 1. */
    method FindOrder(order: nat) returns (current: nat)
      requires |freeLists| == MAX_ORDER + 1 && order <= MAX_ORDER
      ensures current == Smallest(freeLists, order)
    {
      current := order;
      while current <= MAX_ORDER && freeLists[current] == []
        invariant order <= current <= MAX_ORDER + 1 && Smallest(freeLists, current) == Smallest(freeLists, order)
      {
        current := current + 1;
      }
    }

    /** Splits the held block once: the right half goes to its free list, the left half stays held. */
    method SplitOnce(block: nat, order: nat)
      requires 0 < order <= MAX_ORDER && PoolValid({Block(block, order)})
      modifies this`freeLists, this`splitCount, this`blocks
      ensures PoolValid({Block(block, order - 1)})
      ensures freeLists == Push(old(freeLists), order - 1, block + OrderToSize(order - 1))
      ensures splitCount == old(splitCount) + 1
    {
      var buddy := block + OrderToSize(order - 1);
      ghost var b, l, r := Block(block, order), Block(block, order - 1), Block(buddy, order - 1);
      blocks := SplitOk(blocks, freeLists, live, b, l, r);
      freeLists := Push(freeLists, order - 1, buddy);
      splitCount := splitCount + 1;
    }

    /** Splits the held block down to the wanted order, putting the right halves on the free lists. */
    method SplitDown(block: nat, from: nat, order: nat)
      requires order <= from <= MAX_ORDER && PoolValid({Block(block, from)})
      modifies this`freeLists, this`splitCount, this`blocks
      ensures PoolValid({Block(block, order)})
      ensures |old(freeLists)| == MAX_ORDER + 1 && freeLists == Carved(old(freeLists), block, from, order)
      ensures splitCount == old(splitCount) + (from - order)
    {
      hide PoolOk;
      var current := from;
      HeldLength(blocks, freeLists, live, {Block(block, from)});
      while current > order
        invariant order <= current <= MAX_ORDER && PoolValid({Block(block, current)})
        invariant |freeLists| == MAX_ORDER + 1 && splitCount == old(splitCount) + (from - current)
        invariant Carved(freeLists, block, current, order) == Carved(old(freeLists), block, from, order)
      {
        SplitOnce(block, current);
        current := current - 1;
      }
    }

    /** Merges the block with free buddies as far as possible and puts the result on its list. */
    method MergeUp(block0: nat, order0: nat)
      requires order0 <= MAX_ORDER && |freeLists| == MAX_ORDER + 1
      modifies this`freeLists, this`mergeCount, this`blocks
      ensures freeLists == Merged(old(freeLists), Block(block0, order0))
      ensures mergeCount == old(mergeCount) + Merges(old(freeLists), Block(block0, order0))
      ensures old(PoolValid({Block(block0, order0)})) ==> PoolValid({})
    {
      hide PoolOk;
      var block, order := block0, order0;
      while order < MAX_ORDER
        invariant order <= MAX_ORDER && |freeLists| == MAX_ORDER + 1
        invariant Merged(freeLists, Block(block, order)) == Merged(old(freeLists), Block(block0, order0))
        invariant mergeCount + Merges(freeLists, Block(block, order)) ==
                  old(mergeCount) + Merges(old(freeLists), Block(block0, order0))
        invariant old(PoolValid({Block(block0, order0)})) ==> PoolValid({Block(block, order)})
        decreases MAX_ORDER - order
      {
        ghost var b := Block(block, order);
        var buddy := Buddy(Block(block, order)).off;
        var i := Find(freeLists[order], buddy);
        if i == |freeLists[order]| { break; }
        if PoolValid({b}) {
          blocks := MergeOk(blocks, freeLists, live, b, i);
        }
        freeLists := Erase(freeLists, order, i);
        block := if block < buddy then block else buddy;
        order := order + 1;
        mergeCount := mergeCount + 1;
      }
      if PoolValid({Block(block, order)}) {
        LinkOk(blocks, freeLists, live, Block(block, order));
      }
      freeLists := Push(freeLists, order, block);
    }

    /** Allocation hands out an aligned block of the right order, disjoint from every live block: the start of the
        last one on the list of the smallest free blocks that are large enough. It fails exactly for a size of 0, a
        size above the pool, or when the live blocks leave no room for such a block. */
    method Allocate(bytes: nat) returns (r: Option<nat>)
      requires Valid()
      modifies this
      ensures Valid()
      ensures r.None? <==> bytes == 0 || bytes > POOL_SIZE
                           || forall o: nat :: !Vacant(old(live), Block(o, OrderFor(bytes)))
      ensures r.None? ==> unchanged(this)
      ensures r.Some? ==> Vacant(old(live), Block(r.value, OrderFor(bytes)))
      ensures r.Some? ==> Block(r.value, OrderFor(bytes)) !in old(live)
                          && live == old(live) + {Block(r.value, OrderFor(bytes))}
                          && bytes <= OrderToSize(OrderFor(bytes))
                          && allocatedBytes == old(allocatedBytes) + OrderToSize(OrderFor(bytes))
      ensures |old(freeLists)| == MAX_ORDER + 1
      ensures r.Some? ==> var order := OrderFor(bytes);
                          var k := Smallest(old(freeLists), order);
                          && k <= MAX_ORDER && r.value == old(freeLists)[k][|old(freeLists)[k]| - 1]
                          && freeLists == Taken(old(freeLists), k, order)
                          && splitCount == old(splitCount) + (k - order) && mergeCount == old(mergeCount)
    {
      hide PoolOk, Carved, Smallest, Vacant, Bytes, FitsOrder;
      HeldLength(blocks, freeLists, live, {});
      PoolIsTopBlock();
      if bytes == 0 || bytes > POOL_SIZE { return None; }
      var order := SizeToOrder(bytes);
      FitsOrderUnique(bytes, order, OrderFor(bytes));
      RoomIff(blocks, freeLists, live, order);
      var current := FindOrder(order);
      if current > MAX_ORDER { return None; }
      assert InLists(freeLists, Block(freeLists[current][0], current));
      var last := |freeLists[current]| - 1;
      var block := freeLists[current][last];
      assert InLists(freeLists, Block(block, current));
      FreeIsVacant(blocks, freeLists, live, Block(block, current), order);
      assert Vacant(live, Block(block, OrderFor(bytes)));
      PopOk(blocks, freeLists, live, current, last);
      freeLists := Erase(freeLists, current, last);
      SplitDown(block, current, order);
      HandOut(blocks, freeLists, live, Block(block, order));
      BytesAdd(live, Block(block, order));
      allocatedBytes := allocatedBytes + OrderToSize(order);
      live := live + {Block(block, order)};
      return Some(block);
    }

    /** Freeing a live block removes exactly it from the live blocks and coalesces as far as possible; freeing
        anything else is accepted too, and always breaks the pool. A null pointer or a size of 0 does nothing. */
    method Deallocate(ptr: Option<nat>, bytes: nat)
      requires Valid()
      modifies this
      ensures ptr.None? || bytes == 0 ==> Valid() && unchanged(this)
      ensures ptr.Some? && bytes > 0 ==>
                var b := Block(ptr.value, OrderFor(bytes));
                && (Valid() <==> b in old(live)) && (PoolValid({}) <==> b in old(live)) && live == old(live) - {b}
                && freeLists == Merged(old(freeLists), b) && splitCount == old(splitCount)
                && mergeCount == old(mergeCount) + Merges(old(freeLists), b)
                && allocatedBytes == if old(allocatedBytes) >= OrderToSize(b.order)
                                     then old(allocatedBytes) - OrderToSize(b.order)
                                     else old(allocatedBytes) + TWO64 - OrderToSize(b.order)
    {
      hide PoolOk;
      if ptr.None? || bytes == 0 { return; }
      var order := SizeToOrder(bytes);
      FitsOrderUnique(bytes, order, OrderFor(bytes));
      ghost var b := Block(ptr.value, order);
      ghost var rest := live - {b};
      HeldLength(blocks, freeLists, live, {});
      SizeBound(order);
      if b in live {
        TakeBack(blocks, freeLists, live, b);
        BytesAdd(rest, b);
        assert live == rest + {b};
      } else {
        assert rest == live;
      }
      allocatedBytes :=
        if allocatedBytes >= OrderToSize(order) then allocatedBytes - OrderToSize(order)
        else allocatedBytes + TWO64 - OrderToSize(order);
      live := rest;
      MergeUp(ptr.value, order);
      if b !in old(live) {
        StrayFreeBreaks(old(blocks), old(freeLists), live, b, blocks);
      }
    }
  }

  lemma {:induction false} HeldLength(all: set<Block>, lists: seq<seq<nat>>, live: set<Block>, held: set<Block>)
    requires PoolOk(all, lists, live, held)
    ensures |lists| == MAX_ORDER + 1
  {
  }

  lemma {:induction false} SizeBound(order: nat)
    requires order <= MAX_ORDER
    ensures OrderToSize(order) < TWO64
  {
    PoolIsTopBlock();
    SizeGrows(order, MAX_ORDER);
  }

  /** std::find: the first index of x, or the length when absent. */
  method Find(s: seq<nat>, x: nat) returns (i: nat)
    ensures i <= |s| && x !in s[..i]
    ensures i < |s| ==> s[i] == x
  {
    i := 0;
    while i < |s| && s[i] != x
      invariant i <= |s| && x !in s[..i]
    {
      i := i + 1;
    }
  }
}
