/** How the buffer pool's frames, page table, free list and replacer fit together, and what the frames and
    the disk say about the logical content of every page. */
module PoolState {
  import opened Common
  import opened Bytes
  import opened LruKReplacer
  import opened PageHistory
  import PageLayout

  type Page = seq<byte>

  const INVALID: nat := 0xFFFF_FFFF_FFFF_FFFF

  function ZeroPage(): Page { seq(PageLayout.PAGE_SIZE, _ => 0) }

  datatype Frame = Frame(page: nat, pins: nat, dirty: bool)

  const EMPTY: Frame := Frame(INVALID, 0, false)

  /** An unwritten page reads as zeros. */
  function Content(m: map<nat, Page>, p: nat): Page { if p in m then m[p] else ZeroPage() }

  /** The page table and the frames are inverse to each other. */
  ghost predicate Inverse(frames: seq<Frame>, table: map<nat, nat>) {
    && (forall p :: p in table ==> p != INVALID && table[p] < |frames| && frames[table[p]].page == p)
    && (forall f: nat :: f < |frames| && frames[f].page != INVALID ==>
          frames[f].page in table && table[frames[f].page] == f)
  }

  /** Exactly the empty frames are free, exactly the others are tracked by the replacer, and a tracked frame
      is evictable exactly when it is unpinned. The frames in `hole` are neither: they have just been taken
      for a new page. */
  ghost predicate Linked(frames: seq<Frame>, free: seq<nat>, entries: map<nat, Node>, hole: set<nat>) {
    && Distinct(free)
    && (forall f: nat :: f in free <==> f < |frames| && frames[f].page == INVALID && f !in hole)
    && (forall f: nat :: f in entries <==> f < |frames| && frames[f].page != INVALID && f !in hole)
    && (forall f: nat :: f in entries ==> (entries[f].evictable <==> frames[f].pins == 0))
    && (forall f: nat :: f in hole ==> f < |frames| && frames[f].pins == 0)
    && (forall f: nat :: f < |frames| && frames[f].page == INVALID ==> frames[f] == EMPTY)
  }

  /** What clients did: the contents they gave each page, in order, and every event. `held` and `stored` say
      which of its contents a page has in its frame and on disk; no operation reads any of it. */
  datatype Past = Past(writes: map<nat, seq<Page>>, events: seq<Event>, held: map<nat, nat>, stored: map<nat, nat>)

  function VersionIn(m: map<nat, nat>, p: nat): nat { if p in m then m[p] else 0 }

  /** All contents page p has had, the one in the file it came with first. */
  function Versions(initial: map<nat, Page>, past: Past, p: nat): (r: seq<Page>)
    ensures r != []
  {
    [Content(initial, p)] + if p in past.writes then past.writes[p] else []
  }

  /** The latest content clients gave page p. */
  function Latest(initial: map<nat, Page>, past: Past, p: nat): Page {
    var vs := Versions(initial, past, p);
    vs[|vs| - 1]
  }

  function Write(past: Past, p: nat, bytes: Page): Past {
    var ws := (if p in past.writes then past.writes[p] else []) + [bytes];
    past.(writes := past.writes[p := ws], held := past.held[p := |ws|], events := past.events + [Wrote(p)])
  }

  function Report(past: Past, p: nat): Past { past.(events := past.events + [Reported(p)]) }

  function Save(past: Past, p: nat): Past {
    past.(events := past.events + [Flushed(p)], stored := past.stored[p := VersionIn(past.held, p)])
  }

  /** Losing a frame: a marked page's version goes to disk. */
  function Forget(past: Past, frame: Frame): Past {
    if frame.page == INVALID then past
    else past.(events := past.events + [Evicted(frame.page)],
               stored := if frame.dirty then past.stored[frame.page := VersionIn(past.held, frame.page)]
                          else past.stored)
  }

  function Load(past: Past, p: nat): Past { past.(held := past.held[p := VersionIn(past.stored, p)]) }

  /** The versions of one page are where its history says. `n` is the latest, `v` the one in the frame, `d`
      the one on disk. */
  ghost predicate VersionsOk(s: Status, resident: bool, n: nat, v: nat, d: nat) {
    && d <= n && (s.lost ==> d < n)
    && (s.unsaved ==> resident && !s.dirty && !s.lost && d < n)
    && (s.dirty ==> resident)
    && (!s.dirty && !s.unsaved && !s.lost ==> d == n)
    && (resident ==> v <= n && (s.lost <==> v < n))
  }

  ghost predicate PageOk(p: nat, frames: seq<Frame>, table: map<nat, nat>, pages: seq<Page>, disk: map<nat, Page>,
                         initial: map<nat, Page>, past: Past)
    requires Inverse(frames, table) && |pages| == |frames|
  {
    var s, vs := StatusOf(past.events, p), Versions(initial, past, p);
    var v, d := VersionIn(past.held, p), VersionIn(past.stored, p);
    && VersionsOk(s, p in table, |vs| - 1, v, d) && Content(disk, p) == vs[d]
    && (p in table ==> pages[table[p]] == vs[v] && frames[table[p]].dirty == s.dirty)
  }

  /** Frames and disk hold, for every page, the versions its history says. */
  ghost predicate Coherent(frames: seq<Frame>, table: map<nat, nat>, pages: seq<Page>, disk: map<nat, Page>,
                           initial: map<nat, Page>, past: Past)
    requires Inverse(frames, table) && |pages| == |frames|
  {
    forall p: nat :: PageOk(p, frames, table, pages, disk, initial, past)
  }

  // ---- Taking a frame for a page ----

  /** Writing a dirty page back and forgetting it. */
  function WrittenBack(frames: seq<Frame>, pages: seq<Page>, disk: map<nat, Page>, f: nat): map<nat, Page>
    requires f < |frames| == |pages|
  {
    if frames[f].page != INVALID && frames[f].dirty then disk[frames[f].page := pages[f]] else disk
  }

  lemma {:induction false} EvictInverse(frames: seq<Frame>, table: map<nat, nat>, f: nat)
    requires Inverse(frames, table) && f < |frames|
    ensures Inverse(frames[f := EMPTY], table - {frames[f].page})
    ensures frames[f].page == INVALID ==> table - {frames[f].page} == table
  {
  }

  lemma {:induction false} EvictCoherent(frames: seq<Frame>, table: map<nat, nat>, pages: seq<Page>,
                                         disk: map<nat, Page>, initial: map<nat, Page>, past: Past, f: nat)
    requires Inverse(frames, table) && |pages| == |frames| && f < |frames|
    requires Coherent(frames, table, pages, disk, initial, past)
    requires Inverse(frames[f := EMPTY], table - {frames[f].page})
    ensures Coherent(frames[f := EMPTY], table - {frames[f].page}, pages, WrittenBack(frames, pages, disk, f),
                     initial, Forget(past, frames[f]))
  {
    hide StatusOf;
    var frames', table', disk' := frames[f := EMPTY], table - {frames[f].page}, WrittenBack(frames, pages, disk, f);
    forall p: nat ensures PageOk(p, frames', table', pages, disk', initial, Forget(past, frames[f])) {
      assert PageOk(p, frames, table, pages, disk, initial, past);
      StatusAppend(past.events, Evicted(frames[f].page), p);
    }
  }

  /** Page p is put into the empty frame f with the given bytes. */
  lemma {:induction false} InstallInverse(frames: seq<Frame>, table: map<nat, nat>, f: nat, p: nat)
    requires Inverse(frames, table) && f < |frames| && frames[f].page == INVALID && p !in table && p != INVALID
    ensures Inverse(frames[f := Frame(p, 1, false)], table[p := f])
  {
  }

  lemma {:induction false} InstallCoherent(frames: seq<Frame>, table: map<nat, nat>, pages: seq<Page>,
                                           disk: map<nat, Page>, initial: map<nat, Page>, past: Past, f: nat, p: nat,
                                           bytes: Page, past': Past)
    requires Inverse(frames, table) && |pages| == |frames| && f < |frames| && frames[f].page == INVALID && p !in table
    requires Coherent(frames, table, pages, disk, initial, past)
    requires Inverse(frames[f := Frame(p, 1, false)], table[p := f])
    requires (bytes == Content(disk, p) && past' == Load(past, p)) || past' == Write(past, p, bytes)
    ensures Coherent(frames[f := Frame(p, 1, false)], table[p := f], pages[f := bytes], disk, initial, past')
  {
    hide StatusOf;
    var frames', table', pages' := frames[f := Frame(p, 1, false)], table[p := f], pages[f := bytes];
    forall q: nat ensures PageOk(q, frames', table', pages', disk, initial, past') {
      assert PageOk(q, frames, table, pages, disk, initial, past);
      if q == p {
        InstalledPage(frames, table, pages, disk, initial, past, f, p, bytes, past');
      } else {
        StatusAppend(past.events, Wrote(p), q);
        assert q in table ==> table[q] != f;
      }
    }
  }

  lemma {:induction false} InstalledPage(frames: seq<Frame>, table: map<nat, nat>, pages: seq<Page>,
                                         disk: map<nat, Page>, initial: map<nat, Page>, past: Past, f: nat, p: nat,
                                         bytes: Page, past': Past)
    requires Inverse(frames, table) && |pages| == |frames| && f < |frames| && p !in table
    requires PageOk(p, frames, table, pages, disk, initial, past)
    requires Inverse(frames[f := Frame(p, 1, false)], table[p := f])
    requires (bytes == Content(disk, p) && past' == Load(past, p)) || past' == Write(past, p, bytes)
    ensures PageOk(p, frames[f := Frame(p, 1, false)], table[p := f], pages[f := bytes], disk, initial, past')
  {
    hide StatusOf, Inverse;
    StatusAppend(past.events, Wrote(p), p);
  }

  /** Page p is not resident, except in frame f itself. */
  ghost predicate FreeFor(table: map<nat, nat>, p: nat, f: nat) { p in table ==> table[p] == f }

  /** Handing out the id of a page that sits in another frame breaks the page table. */
  lemma {:induction false} TwiceResident(frames: seq<Frame>, table: map<nat, nat>, f: nat, p: nat)
    requires Inverse(frames, table) && f < |frames| && p in table && table[p] != f
    ensures !Inverse(frames[f := Frame(p, 1, false)], (table - {frames[f].page})[p := f])
    ensures frames[f].page == INVALID ==> table - {frames[f].page} == table
  {
    assert frames[f := Frame(p, 1, false)][table[p]].page == p;
  }

  /** Evicting what frame f holds and installing p: exact about when the page table survives. */
  lemma {:induction false} Replace(frames: seq<Frame>, table: map<nat, nat>, pages: seq<Page>, disk: map<nat, Page>,
                                   initial: map<nat, Page>, past: Past, f: nat, p: nat, bytes: Page, past': Past)
    requires Inverse(frames, table) && |pages| == |frames| && f < |frames| && p != INVALID
    requires Coherent(frames, table, pages, disk, initial, past)
    requires (bytes == Content(WrittenBack(frames, pages, disk, f), p) && past' == Load(Forget(past, frames[f]), p))
          || past' == Write(Forget(past, frames[f]), p, bytes)
    ensures var frames', table' := frames[f := Frame(p, 1, false)], (table - {frames[f].page})[p := f];
            && (Inverse(frames', table') <==> FreeFor(table, p, f))
            && (FreeFor(table, p, f) ==>
                Coherent(frames', table', pages[f := bytes], WrittenBack(frames, pages, disk, f), initial, past'))
    ensures frames[f].page == INVALID ==> table - {frames[f].page} == table
  {
    if !FreeFor(table, p, f) {
      TwiceResident(frames, table, f, p);
      return;
    }
    var emptied, table1, disk' := frames[f := EMPTY], table - {frames[f].page}, WrittenBack(frames, pages, disk, f);
    assert p !in table1;
    hide PageOk, Content, WrittenBack, Forget, Load, Write;
    EvictInverse(frames, table, f);
    EvictCoherent(frames, table, pages, disk, initial, past, f);
    InstallInverse(emptied, table1, f, p);
    InstallCoherent(emptied, table1, pages, disk', initial, Forget(past, frames[f]), f, p, bytes, past');
    assert emptied[f := Frame(p, 1, false)] == frames[f := Frame(p, 1, false)];
  }

  lemma {:induction false} TakeFree(frames: seq<Frame>, free: seq<nat>, entries: map<nat, Node>)
    requires Linked(frames, free, entries, {}) && free != []
    ensures free[0] < |frames| && frames[free[0]] == EMPTY && free[0] !in entries
    ensures Linked(frames, free[1..], entries, {free[0]})
  {
    assert free[0] in free;
    forall f: nat ensures f in free[1..] <==> f in free && f != free[0] {
      if f in free && f != free[0] {
        var i :| 0 <= i < |free| && free[i] == f;
        assert free[1..][i - 1] == f;
      }
    }
  }

  lemma {:induction false} TakeVictim(frames: seq<Frame>, free: seq<nat>, entries: map<nat, Node>, f: nat)
    requires Linked(frames, free, entries, {}) && f in Evictable(entries)
    ensures f < |frames| && frames[f].page != INVALID && frames[f].pins == 0
    ensures Linked(frames, free, entries - {f}, {f})
  {
  }

  lemma {:induction false} InstallLinked(frames: seq<Frame>, free: seq<nat>, entries: map<nat, Node>, f: nat, p: nat,
                                         node: Node)
    requires Linked(frames, free, entries, {f}) && p != INVALID && !node.evictable
    ensures Linked(frames[f := Frame(p, 1, false)], free, entries[f := node], {})
  {
  }

  /** Pinning, unpinning or cleaning a resident frame. */
  lemma {:induction false} UpdateLinked(frames: seq<Frame>, free: seq<nat>, entries: map<nat, Node>, f: nat,
                                        frame: Frame, node: Node)
    requires Linked(frames, free, entries, {}) && f in entries && frame.page == frames[f].page
    requires node.evictable <==> frame.pins == 0
    ensures Linked(frames[f := frame], free, entries[f := node], {})
  {
  }

  /** A resident page is pinned or unpinned, reported, or flushed. */
  lemma {:induction false} UpdateCoherent(frames: seq<Frame>, table: map<nat, nat>, pages: seq<Page>,
                                          disk: map<nat, Page>, initial: map<nat, Page>, past: Past, p: nat,
                                          frame: Frame, disk': map<nat, Page>, past': Past)
    requires Inverse(frames, table) && |pages| == |frames| && p in table && frame.page == p
    requires Coherent(frames, table, pages, disk, initial, past)
    requires Inverse(frames[table[p] := frame], table)
    requires (frame.dirty == frames[table[p]].dirty && disk' == disk && past' == past)
          || (frame.dirty && disk' == disk && past' == Report(past, p))
          || (!frame.dirty && disk' == disk[p := pages[table[p]]] && past' == Save(past, p))
    ensures Coherent(frames[table[p] := frame], table, pages, disk', initial, past')
  {
    hide StatusOf;
    var frames' := frames[table[p] := frame];
    forall q: nat ensures PageOk(q, frames', table, pages, disk', initial, past') {
      assert PageOk(q, frames, table, pages, disk, initial, past);
      StatusAppend(past.events, Reported(p), q);
      StatusAppend(past.events, Flushed(p), q);
    }
  }

  lemma {:induction false} WriteCoherent(frames: seq<Frame>, table: map<nat, nat>, pages: seq<Page>,
                                         disk: map<nat, Page>, initial: map<nat, Page>, past: Past, p: nat, bytes: Page)
    requires Inverse(frames, table) && |pages| == |frames| && p in table
    requires Coherent(frames, table, pages, disk, initial, past)
    ensures Coherent(frames, table, pages[table[p] := bytes], disk, initial, Write(past, p, bytes))
  {
    var pages', past' := pages[table[p] := bytes], Write(past, p, bytes);
    forall q: nat ensures PageOk(q, frames, table, pages', disk, initial, past') {
      assert PageOk(q, frames, table, pages, disk, initial, past);
      StatusAppend(past.events, Wrote(p), q);
    }
  }
}

/** The buffer pool manager. Each public method is one atomic step; the disk is a map from page ids to bytes. */
module BufferPool {
  import opened Common
  import opened Bytes
  import opened LruKReplacer
  import opened PageHistory
  import opened PoolState

  /** The access is the last one of frame f, which keeps its earlier ones when it still held the page; no
      other resident frame's accesses change. */
  ghost predicate Accessed(before: map<nat, seq<nat>>, after: map<nat, seq<nat>>, f: nat, now: nat, hit: bool) {
    && f in after && after[f] == (if hit && f in before then before[f] else []) + [now]
    && forall g :: g != f ==> (g in after <==> g in before) && (g in before ==> after[g] == before[g])
  }

  function Shorter(free: seq<nat>): seq<nat> { if free == [] then [] else free[1..] }

  class BufferPool {
    const initPage: nat -> Page  // the bytes of a new page, as its initialisation writes them
    const replacer: Replacer
    var pages: seq<Page>
    var frames: seq<Frame>
    var free: seq<nat>
    var table: map<nat, nat>
    var disk: map<nat, Page>
    var next: nat
    ghost const initial: map<nat, Page>  // the file the pool was opened on
    ghost var past: Past                 // what clients did since

    ghost predicate Valid()
      reads this, replacer
    {
      && replacer.Valid() && |pages| == |frames|
      && Inverse(frames, table) && Linked(frames, free, replacer.entries, {})
      && Coherent(frames, table, pages, disk, initial, past)
    }

    constructor (poolSize: nat, k: nat, file: map<nat, Page>, initPage: nat -> Page)
      requires k > 0
      ensures Valid() && fresh(replacer) && |frames| == poolSize && this.initPage == initPage
      ensures (forall f :: 0 <= f < poolSize ==> frames[f] == EMPTY) && table == map[] && next == 0
      ensures disk == initial == file && past == Past(map[], [], map[], map[])
      ensures free == seq(poolSize, i => i) && replacer.k == k && replacer.accesses == map[] && replacer.now == 0
    {
      this.initPage := initPage;
      replacer := new Replacer(k);
      pages, frames := seq(poolSize, _ => []), seq(poolSize, _ => EMPTY);
      free, table, disk, next := seq(poolSize, i => i), map[], file, 0;
      initial, past := file, Past(map[], [], map[], map[]);
      new;
      forall f: nat ensures f in free <==> f < poolSize {
        assert f < poolSize ==> free[f] == f;
      }
    }

    /** A free frame, else the policy's victim; nothing exactly when every frame is pinned. */
    method FindFrame() returns (r: Option<nat>)
      requires Valid()
      modifies this`free, replacer
      ensures replacer.Valid()
      ensures r.None? <==> forall f :: 0 <= f < |frames| ==> frames[f].pins > 0
      ensures r.None? ==> Valid() && free == old(free)
      ensures r.Some? ==> r.value < |frames| && frames[r.value].pins == 0
      ensures r.Some? ==> Linked(frames, free, replacer.entries, {r.value})
      ensures replacer.now == old(replacer.now)
      ensures replacer.accesses == if r.Some? then old(replacer.accesses) - {r.value} else old(replacer.accesses)
      ensures r.Some? ==> free == Shorter(old(free))
      ensures r.Some? && old(free) != [] ==> r.value == old(free)[0]
      ensures r.Some? && old(free) == [] ==>
                old(IsVictim(replacer.entries, replacer.accesses, replacer.now, replacer.k, r.value))
    {
      hide Inverse, Linked, Coherent, Tracks, Evictable, IsVictim;
      AllTracked(replacer.entries, replacer.accesses, replacer.now, replacer.k);
      if free != [] {
        TakeFree(frames, free, replacer.entries);
        r := Some(free[0]);
        free := free[1..];
      } else {
        var ok, f := replacer.Victim();
        if ok {
          TakeVictim(frames, free, old(replacer.entries), f);
          r := Some(f);
        } else {
          NoVictim(frames, free, replacer.entries);
          r := None;
        }
      }
      assert r.Some? ==> frames[r.value].pins == 0;
    }

    /** Evicts what frame f holds and puts page p there, pinned once and clean. */
    method Install(f: nat, p: nat, bytes: Page, ghost past': Past)
      requires replacer.Valid() && |pages| == |frames| && f < |frames| && p != INVALID
      requires Inverse(frames, table) && Linked(frames, free, replacer.entries, {f})
      requires Coherent(frames, table, pages, disk, initial, past)
      requires (bytes == Content(WrittenBack(frames, pages, disk, f), p) && past' == Load(Forget(past, frames[f]), p))
            || past' == Write(Forget(past, frames[f]), p, bytes)
      modifies this, replacer
      ensures replacer.accesses == Logged(old(replacer.accesses), f, replacer.now)
      ensures replacer.now == old(replacer.now) + 1
      ensures Valid() <==> FreeFor(old(table), p, f)
      ensures Inverse(frames, table) <==> FreeFor(old(table), p, f)
      ensures frames == old(frames)[f := Frame(p, 1, false)] && pages == old(pages)[f := bytes]
      ensures table == (old(table) - {old(frames)[f].page})[p := f]
      ensures disk == WrittenBack(old(frames), old(pages), old(disk), f)
      ensures past == past' && next == old(next) && free == old(free)
    {
      hide Inverse, Linked, Coherent, Content, Tracks, Evictable, Logged, WrittenBack, Load, Forget, Write;
      Replace(frames, table, pages, disk, initial, past, f, p, bytes, past');
      var disk', table' := Evict(f);
      TrackInstalled(f, p);
      pages, table, frames, disk := pages[f := bytes], table'[p := f], frames[f := Frame(p, 1, false)], disk';
      past := past';
    }

    /** Writes the frame's old page back if it is dirty, and forgets it. */
    method Evict(f: nat) returns (disk': map<nat, Page>, table': map<nat, nat>)
      requires f < |frames| == |pages| && Inverse(frames, table)
      ensures disk' == WrittenBack(frames, pages, disk, f) && table' == table - {frames[f].page}
    {
      disk', table' := disk, table;
      if frames[f].page != INVALID {
        if frames[f].dirty {
          disk' := disk[frames[f].page := pages[f]];
        }
        table' := table - {frames[f].page};
      }
    }

    /** Page p is not resident, or it sits in the very frame that would be taken now. */
    ghost predicate Vacant(p: nat)
      requires Valid()
      reads this, replacer
    {
      p in table ==>
        free == [] && IsVictim(replacer.entries, replacer.accesses, replacer.now, replacer.k, table[p])
    }

    /** Frame f is the one that would be taken now: the first free one, else the policy's victim. */
    ghost predicate Taken(f: nat)
      requires Valid()
      reads this, replacer
    {
      if free != [] then f == free[0]
      else IsVictim(replacer.entries, replacer.accesses, replacer.now, replacer.k, f)
    }

    /** A new page is pinned and holds the initial bytes. It fails exactly when every frame is pinned. The
        pool stays consistent exactly when the id about to be handed out is vacant. */
    method NewPage() returns (r: Option<nat>, f: nat)
      requires Valid() && next != INVALID
      modifies this, replacer
      ensures r.None? <==> forall i :: 0 <= i < |old(frames)| ==> old(frames)[i].pins > 0
      ensures r.None? ==> Valid() && unchanged(this) && replacer.accesses == old(replacer.accesses)
      ensures r.Some? ==> r.value == old(next) && next == old(next) + 1 && free == Shorter(old(free))
      ensures r.Some? ==> (Valid() <==> old(Vacant(next))) && (Inverse(frames, table) <==> old(Vacant(next)))
      ensures r.Some? ==> old(Taken(f)) && f < |old(frames)| && old(frames)[f].pins == 0
      ensures r.Some? ==> frames == old(frames)[f := Frame(r.value, 1, false)]
      ensures r.Some? ==> table == (old(table) - {old(frames)[f].page})[r.value := f]
      ensures r.Some? ==> |old(pages)| == |old(frames)| && disk == WrittenBack(old(frames), old(pages), old(disk), f)
      ensures r.Some? ==> pages == old(pages)[f := initPage(r.value)]
      ensures r.Some? ==> Accessed(old(replacer.accesses), replacer.accesses, f, replacer.now, false)
      ensures r.Some? ==> past == Write(Forget(old(past), old(frames)[f]), r.value, initPage(r.value))
    {
      hide Inverse, Linked, Coherent, Tracks, Evictable, WrittenBack, IsVictim, Forget, Write;
      TakenIsFree();
      var found := FindFrame();
      if found.None? {
        return None, 0;
      }
      r, f := Some(next), found.value;
      Install(f, next, initPage(next), Write(Forget(past, frames[f]), next, initPage(next)));
      next := next + 1;
    }

    lemma {:induction false} TakenIsFree()
      requires Valid()
      ensures forall p, f :: p != INVALID && Taken(f) ==> (FreeFor(table, p, f) <==> Vacant(p))
    {
      forall p, f | p != INVALID && Taken(f) ensures FreeFor(table, p, f) <==> Vacant(p) {
        if free != [] {
          TakeFree(frames, free, replacer.entries);
        } else if p in table && Vacant(p) {
          VictimIsUnique(replacer.entries, replacer.accesses, replacer.now, replacer.k, f, table[p]);
        }
      }
    }

    /** Fetching pins the page. What the frame then holds is one of the contents the page has had; it is the
        latest one exactly when the page's history did not lose it. It fails exactly when the page is not
        resident and every frame is pinned; a page that is not resident goes to the first free frame, else to
        that of the policy's victim. */
    method FetchPage(p: nat) returns (r: Option<nat>)
      requires Valid() && p != INVALID
      modifies this, replacer
      ensures Valid()
      ensures r.None? <==> p !in old(table) && forall i :: 0 <= i < |old(frames)| ==> old(frames)[i].pins > 0
      ensures r.Some? ==> p in table && table[p] == r.value && r.value < |frames| && frames[r.value].pins > 0
      ensures r.Some? ==> FrameHolds(p, VersionIn(past.held, p))
      ensures r.Some? ==> (VersionIn(past.held, p) == |Versions(initial, past, p)| - 1 <==> !Lost(past.events, p))
      ensures r.Some? && !Lost(past.events, p) ==> pages[r.value] == Latest(initial, past, p)
      ensures Lost(past.events, p) <==> Lost(old(past).events, p)
      ensures r.Some? && p in old(table) ==> past == old(past)
      ensures r.Some? && p !in old(table) ==>
                old(Taken(r.value)) && past == Load(Forget(old(past), old(frames)[r.value]), p)
      ensures r.Some? ==> replacer.now == old(replacer.now) + 1
      ensures r.Some? ==> Accessed(old(replacer.accesses), replacer.accesses, r.value, replacer.now, p in old(table))
      ensures r.None? ==> unchanged(this) && replacer.accesses == old(replacer.accesses)
      ensures next == old(next) && |frames| == |old(frames)| && |pages| == |old(pages)|
      ensures r.Some? && p in old(table) ==> disk == old(disk) && free == old(free)
      ensures r.Some? && p !in old(table) ==>
                && r.value < |old(frames)| == |old(pages)| && free == Shorter(old(free))
                && disk == WrittenBack(old(frames), old(pages), old(disk), r.value)
      ensures r.Some? ==> frames == old(frames)[r.value := frames[r.value]]
      ensures r.Some? ==> pages == old(pages)[r.value := pages[r.value]]
      ensures r.Some? && p in old(table) ==>
                var was := old(frames)[r.value];
                frames[r.value] == was.(pins := was.pins + 1) && pages == old(pages)
      ensures r.Some? && p !in old(table) ==> frames[r.value] == Frame(p, 1, false) && old(frames)[r.value].pins == 0
      ensures r.Some? && p !in old(table) ==> table == (old(table) - {old(frames)[r.value].page})[p := r.value]
    {
      hide Inverse, Linked, Tracks, Evictable, WrittenBack, IsVictim, Coherent, Load, Forget, Versions, Content, Lost;
      if p in table {
        Pin(p);
        r := Some(table[p]);
        InTable(frames, table, p);
      } else {
        var found := FindFrame();
        if found.None? {
          return None;
        }
        var f := found.value;
        ghost var past' := Load(Forget(past, frames[f]), p);
        Install(f, p, Content(WrittenBack(frames, pages, disk, f), p), past');
        r := Some(f);
        LostElsewhere(old(frames), old(table), old(past), f, p);
      }
      Resident(frames, table, pages, disk, initial, past, p);
    }

    /** The frame of page p holds its v-th content. */
    ghost predicate FrameHolds(p: nat, v: nat)
      requires p in table && table[p] < |pages|
      reads this
    {
      v < |Versions(initial, past, p)| && pages[table[p]] == Versions(initial, past, p)[v]
    }

    method Pin(p: nat)
      requires Valid() && p in table
      modifies this`frames, replacer
      ensures Valid()
      ensures frames == old(frames)[table[p] := old(frames)[table[p]].(pins := old(frames)[table[p]].pins + 1)]
      ensures replacer.accesses == Logged(old(replacer.accesses), table[p], replacer.now)
      ensures replacer.now == old(replacer.now) + 1
    {
      hide Linked, Coherent, Tracks, Evictable;
      PinnedEntry(frames, table, free, replacer.entries, p);
      var f := table[p];
      ghost var entries0 := replacer.entries;
      var frame := frames[f].(pins := frames[f].pins + 1);
      UpdateCoherent(frames, table, pages, disk, initial, past, p, frame, disk, past);
      replacer.RecordAccess(f);
      replacer.SetEvictable(f, false);
      assert replacer.entries == entries0[f := replacer.entries[f]];
      UpdateLinked(frames, free, entries0, f, frame, replacer.entries[f]);
      frames := frames[f := frame];
    }

    /** A client writes to a page it has pinned. From here on the frame holds the latest content again. */
    method WritePage(p: nat, bytes: Page)
      requires Valid() && p in table && frames[table[p]].pins > 0
      modifies this`pages, this`past
      ensures Valid() && pages == old(pages)[table[p] := bytes] && past == Write(old(past), p, bytes)
      ensures Latest(initial, past, p) == bytes && !Lost(past.events, p)
    {
      hide Linked, Tracks, Evictable, Coherent, Lost;
      WriteCoherent(frames, table, pages, disk, initial, past, p, bytes);
      StatusIsHistory(past.events + [Wrote(p)], p);
      pages := pages[table[p] := bytes];
      past := Write(past, p, bytes);
    }

    /** Unpinning, with or without a report that the page was changed. */
    method UnpinPage(p: nat, dirty: bool) returns (ok: bool)
      requires Valid()
      modifies this`frames, this`past, replacer
      ensures Valid()
      ensures ok <==> p in table && old(frames)[table[p]].pins > 0
      ensures !ok ==> unchanged(this)
      ensures ok ==> var f, was := table[p], old(frames)[table[p]];
                && frames == old(frames)[f := Frame(p, was.pins - 1, was.dirty || dirty)]
                && past == if dirty then Report(old(past), p) else old(past)
      ensures replacer.accesses == old(replacer.accesses) && replacer.now == old(replacer.now)
    {
      hide Linked, Tracks, Evictable, Coherent;
      if p !in table || frames[table[p]].pins <= 0 {
        return false;
      }
      PinnedEntry(frames, table, free, replacer.entries, p);
      ok := true;
      var f := table[p];
      var frame := Frame(p, frames[f].pins - 1, frames[f].dirty || dirty);
      ghost var past' := if dirty then Report(past, p) else past;
      UpdateCoherent(frames, table, pages, disk, initial, past, p, frame, disk, past');
      ghost var entries0 := replacer.entries;
      if frame.pins == 0 {
        replacer.SetEvictable(f, true);
      }
      assert replacer.entries == entries0[f := replacer.entries[f]];
      UpdateLinked(frames, free, entries0, f, frame, replacer.entries[f]);
      frames, past := frames[f := frame], past';
    }

    /** Flushing puts a resident page's bytes on disk, whether it is marked dirty or not. */
    method FlushPage(p: nat) returns (ok: bool)
      requires Valid()
      modifies this`frames, this`disk, this`past
      ensures Valid() && (ok <==> p in table)
      ensures !ok ==> unchanged(this)
      ensures ok ==> disk == old(disk)[p := pages[table[p]]] && past == Save(old(past), p)
      ensures ok ==> frames == old(frames)[table[p] := old(frames)[table[p]].(dirty := false)]
    {
      hide Linked, Tracks, Evictable, Coherent;
      if p !in table {
        return false;
      }
      PinnedEntry(frames, table, free, replacer.entries, p);
      ok := true;
      var f := table[p];
      var frame := frames[f].(dirty := false);
      var disk' := disk[p := pages[f]];
      UpdateCoherent(frames, table, pages, disk, initial, past, p, frame, disk', Save(past, p));
      UpdateLinked(frames, free, replacer.entries, f, frame, replacer.entries[f]);
      assert replacer.entries == replacer.entries[f := replacer.entries[f]];
      frames, disk, past := frames[f := frame], disk', Save(past, p);
    }

    /** Flushing everything leaves no dirty frame. On disk is then the latest content of exactly the pages whose
        latest write is neither lost nor unsaved, and no history is lost by it. */
    method FlushAllPages()
      requires Valid()
      modifies this`frames, this`disk, this`past
      ensures Valid() && |frames| == |old(frames)| && past.writes == old(past).writes
      ensures forall f :: 0 <= f < |frames| ==> frames[f] == old(frames)[f].(dirty := false)
      ensures forall p: nat :: Lost(past.events, p) <==> Lost(old(past).events, p)
      ensures forall p: nat :: VersionIn(past.stored, p) == |Versions(initial, past, p)| - 1
                               <==> !Lost(past.events, p) && !Unsaved(past.events, p)
      ensures forall p: nat :: !Lost(past.events, p) && !Unsaved(past.events, p) ==>
                Content(disk, p) == Latest(initial, past, p)
    {
      hide Linked, Tracks, Evictable, Coherent, PageOk, Lost, Unsaved, Content;
      EmptyIsClean(frames, free, replacer.entries);
      var todo := table.Keys;
      while todo != {}
        invariant Valid() && todo <= table.Keys && |frames| == |old(frames)| && past.writes == old(past).writes
        invariant forall f :: 0 <= f < |frames| ==>
                    frames[f] == if frames[f].page in todo then old(frames)[f] else old(frames)[f].(dirty := false)
        invariant forall p: nat :: Lost(past.events, p) <==> Lost(old(past).events, p)
        decreases todo
      {
        var p :| p in todo;
        if frames[table[p]].dirty {
          FlushLosesNothing(past.events, p);
          var ok := FlushPage(p);
        }
        todo := todo - {p};
      }
      AllClean(frames, table, pages, disk, initial, past);
    }

    /** The replacer learns that f was accessed and may not be evicted. */
    method TrackInstalled(f: nat, ghost p: nat)
      requires replacer.Valid() && Linked(frames, free, replacer.entries, {f}) && p != INVALID && f < |frames|
      modifies replacer
      ensures replacer.Valid() && replacer.now == old(replacer.now) + 1
      ensures Linked(frames[f := Frame(p, 1, false)], free, replacer.entries, {})
      ensures replacer.accesses == Logged(old(replacer.accesses), f, replacer.now)
    {
      hide Linked, Tracks, Evictable;
      replacer.RecordAccess(f);
      replacer.SetEvictable(f, false);
      assert replacer.entries == old(replacer.entries)[f := replacer.entries[f]];
      InstallLinked(frames, free, old(replacer.entries), f, p, replacer.entries[f]);
    }
  }

  lemma {:induction false} EmptyIsClean(frames: seq<Frame>, free: seq<nat>, entries: map<nat, Node>)
    requires Linked(frames, free, entries, {})
    ensures forall f :: 0 <= f < |frames| && frames[f].page == INVALID ==> frames[f] == frames[f].(dirty := false)
  {
  }

  lemma {:induction false} FlushLosesNothing(events: seq<Event>, p: nat)
    ensures forall q: nat :: Lost(events + [Flushed(p)], q) <==> Lost(events, q)
  {
    forall q: nat ensures Lost(events + [Flushed(p)], q) <==> Lost(events, q) {
      HistoryAppend(events, Flushed(p), q);
    }
  }

  lemma {:induction false} AllClean(frames: seq<Frame>, table: map<nat, nat>, pages: seq<Page>, disk: map<nat, Page>,
                                    initial: map<nat, Page>, past: Past)
    requires Inverse(frames, table) && |pages| == |frames|
    requires Coherent(frames, table, pages, disk, initial, past)
    requires forall f :: 0 <= f < |frames| ==> !frames[f].dirty
    ensures forall p: nat :: VersionIn(past.stored, p) == |Versions(initial, past, p)| - 1
                             <==> !Lost(past.events, p) && !Unsaved(past.events, p)
    ensures forall p: nat :: !Lost(past.events, p) && !Unsaved(past.events, p) ==>
              Content(disk, p) == Latest(initial, past, p)
  {
    hide Lost, Unsaved, Marked, Versions;
    forall p: nat
      ensures VersionIn(past.stored, p) == |Versions(initial, past, p)| - 1
              <==> !Lost(past.events, p) && !Unsaved(past.events, p)
      ensures !Lost(past.events, p) && !Unsaved(past.events, p) ==> Content(disk, p) == Latest(initial, past, p)
    {
      assert PageOk(p, frames, table, pages, disk, initial, past);
      StatusIsHistory(past.events, p);
    }
  }

  lemma {:induction false} PinnedEntry(frames: seq<Frame>, table: map<nat, nat>, free: seq<nat>,
                                       entries: map<nat, Node>, p: nat)
    requires Inverse(frames, table) && Linked(frames, free, entries, {}) && p in table
    ensures table[p] in entries && (entries[table[p]].evictable <==> frames[table[p]].pins == 0)
    ensures table[p] < |frames| && frames[table[p]].page == p && p != INVALID
  {
  }

  lemma {:induction false} InTable(frames: seq<Frame>, table: map<nat, nat>, p: nat)
    requires Inverse(frames, table) && p in table
    ensures table[p] < |frames|
  {
  }

  /** What a resident page's frame holds, and exactly when that is the latest content. */
  lemma {:induction false} Resident(frames: seq<Frame>, table: map<nat, nat>, pages: seq<Page>, disk: map<nat, Page>,
                                    initial: map<nat, Page>, past: Past, p: nat)
    requires Inverse(frames, table) && |pages| == |frames| && p in table
    requires Coherent(frames, table, pages, disk, initial, past)
    ensures var vs, v := Versions(initial, past, p), VersionIn(past.held, p);
            && v < |vs| && pages[table[p]] == vs[v] && (v == |vs| - 1 <==> !Lost(past.events, p))
  {
    hide Lost, Unsaved, Marked, Versions;
    assert PageOk(p, frames, table, pages, disk, initial, past);
    StatusIsHistory(past.events, p);
  }

  /** Evicting another page loses nothing of p. */
  lemma {:induction false} LostElsewhere(frames: seq<Frame>, table: map<nat, nat>, past: Past, f: nat, p: nat)
    requires Inverse(frames, table) && f < |frames| && p !in table
    ensures Lost(Load(Forget(past, frames[f]), p).events, p) <==> Lost(past.events, p)
  {
    var frame := frames[f];
    if frame.page != INVALID {
      HistoryAppend(past.events, Evicted(frame.page), p);
    }
  }

  lemma {:induction false} AllTracked(entries: map<nat, Node>, accesses: map<nat, seq<nat>>, now: nat, k: nat)
    requires Tracks(entries, accesses, now, k)
    ensures entries.Keys == accesses.Keys
  {
  }

  lemma {:induction false} NoVictim(frames: seq<Frame>, free: seq<nat>, entries: map<nat, Node>)
    requires Linked(frames, free, entries, {}) && free == [] && Evictable(entries) == {}
    ensures forall f :: 0 <= f < |frames| ==> frames[f].pins > 0
  {
    forall f: nat | f < |frames| ensures frames[f].pins > 0 {
      assert f !in free;
      assert f in entries;
      assert f !in Evictable(entries);
    }
  }

  // ---- Two short runs ----

  /** On a pool of two frames: page 0 of an existing file is fetched, then a new page is made. It gets the id 0
      too, and both frames claim that page. */
  method FetchThenNew(initPage: nat -> Page) returns (pool: BufferPool)
    ensures pool.frames == [Frame(0, 1, false), Frame(0, 1, false)] && pool.table.Keys == {0}
    ensures !Inverse(pool.frames, pool.table)
  {
    hide Inverse, Linked, Coherent, Tracks, Evictable, IsVictim, Lost, Accessed, Load, Forget, Write, Versions;
    pool := new BufferPool(2, 2, map[], initPage);
    assert pool.frames == [EMPTY, EMPTY];
    assert pool.frames[0].pins == 0;
    var fetched := pool.FetchPage(0);
    ghost var i := fetched.value;
    assert pool.frames[1 - i].pins == 0 && pool.frames[i].pins == 1;
    var _, f := pool.NewPage();
    assert f == 1 - i && pool.table == map[0 := f];
  }

  /** On a pool of one frame: a new page is unpinned without a report, evicted by another one and fetched again.
      It comes back as zeros, unless it was flushed before the eviction. */
  method UnreportedPage(initPage: nat -> Page, flush: bool) returns (bytes: Page)
    ensures flush ==> bytes == initPage(0)
    ensures !flush ==> |bytes| == 4096 && forall i :: 0 <= i < 4096 ==> bytes[i] == 0
  {
    hide Inverse, Linked, Coherent, Tracks, Evictable, IsVictim, Lost, Accessed;
    var pool := MakeUnreported(initPage, flush);
    assert pool.frames[0].pins == 0;
    var _ := pool.FetchPage(7);
    var _ := pool.UnpinPage(7, false);
    assert pool.frames == [Frame(7, 0, false)] && pool.frames[0].pins == 0;
    var r := pool.FetchPage(0);
    bytes := pool.pages[r.value];
  }

  method MakeUnreported(initPage: nat -> Page, flush: bool) returns (pool: BufferPool)
    ensures fresh(pool) && fresh(pool.replacer) && pool.Valid() && pool.initial == map[]
    ensures pool.frames == [Frame(0, 0, false)] && pool.table == map[0 := 0]
    ensures pool.past.writes == map[0 := [initPage(0)]] && pool.past.stored == if flush then map[0 := 1] else map[]
  {
    hide Inverse, Linked, Coherent, Tracks, Evictable, IsVictim, Lost, Accessed, ZeroPage;
    pool := new BufferPool(1, 2, map[], initPage);
    assert pool.frames == [EMPTY] && pool.frames[0].pins == 0;
    var _, _ := pool.NewPage();
    assert pool.frames == [Frame(0, 1, false)] && pool.table == map[0 := 0];
    assert pool.past.writes[0] == [initPage(0)];
    var _ := pool.UnpinPage(0, false);
    if flush {
      var _ := pool.FlushPage(0);
    }
  }
}
