/** The cooperative fiber runtime's state, seen as values: fibers, wait lists and what they wait for.

    A fiber is the script of runtime calls it makes. Between two calls nothing else runs, so the next
    call of each fiber is all the scheduler can observe of it. */
module FiberState {
  import opened Common

  datatype Op<T> =
    | Yield
    | Lock(m: nat) | Unlock(m: nat)
    | Send(c: nat, v: T) | Receive(c: nat)
    | Spawn(child: Script<T>)

  datatype Script<T> = Done | Then(op: Op<T>, rest: Script<T>)

  datatype State = Ready | Running | Suspended | Dead

  datatype Fiber<T> = Fiber(state: State, script: Script<T>)

  datatype Mutex = Mutex(locked: bool, waiters: seq<nat>)

  /** `sent` and `received` record the values that went in and came out; no operation reads them. */
  datatype Channel<T> = Channel(capacity: nat, queue: seq<T>, sendWaiters: seq<nat>, recvWaiters: seq<nat>,
                                sent: seq<T>, received: seq<T>)

  /** What a blocking call waits for: a free mutex, a free slot, a queued value. */
  datatype Resource = Held(m: nat) | Slot(c: nat) | Item(c: nat)

  ghost predicate Wants<T>(f: Fiber<T>, r: Resource) {
    f.script.Then? &&
    match r
    case Held(m) => f.script.op == Op<T>.Lock(m)
    case Slot(c) => f.script.op.Send? && f.script.op.c == c
    case Item(c) => f.script.op == Op<T>.Receive(c)
  }

  ghost predicate Runnable<T>(f: Fiber<T>) { f.state.Ready? || f.state.Running? }

  ghost predicate Waits<T>(f: Fiber<T>, r: Resource) { f.state.Suspended? && Wants(f, r) }

  ghost predicate Exists<T>(r: Resource, ms: seq<Mutex>, cs: seq<Channel<T>>) {
    if r.Held? then r.m < |ms| else r.c < |cs|
  }

  ghost function WaitersOf<T>(r: Resource, ms: seq<Mutex>, cs: seq<Channel<T>>): seq<nat>
    requires Exists(r, ms, cs)
  {
    match r
    case Held(m) => ms[m].waiters
    case Slot(c) => cs[c].sendWaiters
    case Item(c) => cs[c].recvWaiters
  }

  /** How many waiting calls could complete right now. */
  ghost function Available<T>(r: Resource, ms: seq<Mutex>, cs: seq<Channel<T>>): int
    requires Exists(r, ms, cs)
  {
    match r
    case Held(m) => if ms[m].locked then 0 else 1
    case Slot(c) => cs[c].capacity - |cs[c].queue|
    case Item(c) => |cs[c].queue|
  }

  // ---- Counting fibers ----

  /** The number of runnable fibers whose next call needs r. */
  ghost function Pending<T>(fs: seq<Fiber<T>>, r: Resource): nat {
    if fs == [] then 0 else PendingOne(fs[0], r) + Pending(fs[1..], r)
  }

  ghost function PendingOne<T>(f: Fiber<T>, r: Resource): nat {
    if Runnable(f) && Wants(f, r) then 1 else 0
  }

  ghost function Size<T>(s: Script<T>): nat {
    match s
    case Done => 0
    case Then(op, rest) => 1 + (if op.Spawn? then Size(op.child) else 0) + Size(rest)
  }

  /** The number of calls all fibers together still have to complete. */
  ghost function Work<T>(fs: seq<Fiber<T>>): nat {
    if fs == [] then 0 else Size(fs[0].script) + Work(fs[1..])
  }

  lemma {:induction false} PendingUpdate<T>(fs: seq<Fiber<T>>, i: nat, f: Fiber<T>, r: Resource)
    requires i < |fs|
    ensures Pending(fs[i := f], r) == Pending(fs, r) - PendingOne(fs[i], r) + PendingOne(f, r)
  {
    if i == 0 {
      assert fs[i := f][1..] == fs[1..];
    } else {
      assert fs[i := f][1..] == fs[1..][i - 1 := f];
      PendingUpdate(fs[1..], i - 1, f, r);
    }
  }

  lemma {:induction false} PendingAppend<T>(fs: seq<Fiber<T>>, f: Fiber<T>, r: Resource)
    ensures Pending(fs + [f], r) == Pending(fs, r) + PendingOne(f, r)
  {
    if fs == [] {
      assert fs + [f] == [f];
    } else {
      assert (fs + [f])[1..] == fs[1..] + [f];
      PendingAppend(fs[1..], f, r);
    }
  }

  lemma {:induction false} NonePending<T>(fs: seq<Fiber<T>>, r: Resource)
    requires forall i :: 0 <= i < |fs| ==> !Runnable(fs[i])
    ensures Pending(fs, r) == 0
  {
    if fs != [] {
      NonePending(fs[1..], r);
    }
  }

  lemma {:induction false} WorkUpdate<T>(fs: seq<Fiber<T>>, i: nat, f: Fiber<T>)
    requires i < |fs|
    ensures Work(fs[i := f]) == Work(fs) - Size(fs[i].script) + Size(f.script)
  {
    if i == 0 {
      assert fs[i := f][1..] == fs[1..];
    } else {
      assert fs[i := f][1..] == fs[1..][i - 1 := f];
      WorkUpdate(fs[1..], i - 1, f);
    }
  }

  lemma {:induction false} WorkAppend<T>(fs: seq<Fiber<T>>, f: Fiber<T>)
    ensures Work(fs + [f]) == Work(fs) + Size(f.script)
  {
    if fs == [] {
      assert fs + [f] == [f];
    } else {
      assert (fs + [f])[1..] == fs[1..] + [f];
      WorkAppend(fs[1..], f);
    }
  }

  // ---- Invariant ----

  /** Every mutex and channel a script names exists. */
  ghost predicate WellFormed<T>(s: Script<T>, nm: nat, nc: nat) {
    match s
    case Done => true
    case Then(op, rest) =>
      && WellFormed(rest, nm, nc)
      && match op
         case Yield => true
         case Lock(m) => m < nm
         case Unlock(m) => m < nm
         case Send(c, _) => c < nc
         case Receive(c) => c < nc
         case Spawn(child) => WellFormed(child, nm, nc)
  }

  ghost predicate Blocking<T>(s: Script<T>) {
    s.Then? && (s.op.Lock? || s.op.Send? || s.op.Receive?)
  }

  ghost predicate FiberOk<T>(f: Fiber<T>, nm: nat, nc: nat) {
    && WellFormed(f.script, nm, nc)
    && (f.state.Suspended? ==> Blocking(f.script))
    && (f.state.Dead? ==> f.script.Done?)
  }

  /** A ready fiber is in the ready queue exactly once, and nothing else is. */
  ghost predicate ReadyOk<T>(fs: seq<Fiber<T>>, ready: seq<nat>) {
    && Distinct(ready)
    && forall f: nat :: f in ready <==> f < |fs| && fs[f].state.Ready?
  }

  /** Only the current fiber is running. */
  ghost predicate CurrentOk<T>(fs: seq<Fiber<T>>, current: Option<nat>) {
    && (current.Some? ==> current.value < |fs|)
    && forall f :: 0 <= f < |fs| ==> (fs[f].state.Running? <==> current == Some(f))
  }

  /** The wait list of r holds exactly the fibers suspended on r, once each; and as long as it is not
      empty, every available unit of r is spoken for by some runnable fiber. */
  ghost predicate WaitOk<T>(fs: seq<Fiber<T>>, r: Resource, waiters: seq<nat>, available: int) {
    && Distinct(waiters)
    && (forall f: nat :: f in waiters <==> f < |fs| && Waits(fs[f], r))
    && (waiters != [] ==> available <= Pending(fs, r))
  }

  /** Values leave a channel in the order they entered, and the rest is queued within capacity. */
  ghost predicate ChannelOk<T>(c: Channel<T>) {
    c.received + c.queue == c.sent && |c.queue| <= c.capacity
  }

  /** `owed` is the resource a unit of which was just produced, before the matching wake-up. */
  ghost predicate AllWaitOk<T>(fs: seq<Fiber<T>>, ms: seq<Mutex>, cs: seq<Channel<T>>, owed: Option<Resource>) {
    forall r :: Exists(r, ms, cs) ==>
      WaitOk(fs, r, WaitersOf(r, ms, cs), Available(r, ms, cs) - Owes(owed, r))
  }

  ghost function Owes(owed: Option<Resource>, r: Resource): int { if owed == Some(r) then 1 else 0 }

  ghost predicate FibersOk<T>(fs: seq<Fiber<T>>, nm: nat, nc: nat) {
    forall f :: 0 <= f < |fs| ==> FiberOk(fs[f], nm, nc)
  }

  ghost predicate ChannelsOk<T>(cs: seq<Channel<T>>) { forall c :: 0 <= c < |cs| ==> ChannelOk(cs[c]) }

  ghost predicate Inv<T>(fs: seq<Fiber<T>>, ready: seq<nat>, current: Option<nat>,
                         ms: seq<Mutex>, cs: seq<Channel<T>>, owed: Option<Resource>) {
    && FibersOk(fs, |ms|, |cs|)
    && ReadyOk(fs, ready)
    && CurrentOk(fs, current)
    && AllWaitOk(fs, ms, cs, owed)
    && ChannelsOk(cs)
  }

  /** The wait list a blocking call suspends on. */
  ghost function Awaited<T>(s: Script<T>): Resource
    requires Blocking(s)
  {
    if s.op.Lock? then Held(s.op.m) else if s.op.Send? then Slot(s.op.c) else Item(s.op.c)
  }

  /** A fiber that has not finished is in exactly one place: the ready queue, the processor, or the wait
      list of the one resource its next call needs. A finished fiber is nowhere. */
  lemma {:induction false} ExactlyOnePlace<T>(fs: seq<Fiber<T>>, ready: seq<nat>, current: Option<nat>,
                                              ms: seq<Mutex>, cs: seq<Channel<T>>, f: nat)
    requires Inv(fs, ready, current, ms, cs, None) && f < |fs|
    ensures f in ready <==> fs[f].state.Ready?
    ensures current == Some(f) <==> fs[f].state.Running?
    ensures fs[f].state.Suspended? ==> Blocking(fs[f].script) && Exists(Awaited(fs[f].script), ms, cs)
    ensures forall r :: Exists(r, ms, cs) ==>
              (f in WaitersOf(r, ms, cs) <==> fs[f].state.Suspended? && r == Awaited(fs[f].script))
  {
    assert FiberOk(fs[f], |ms|, |cs|);
    forall r | Exists(r, ms, cs)
      ensures f in WaitersOf(r, ms, cs) <==> fs[f].state.Suspended? && r == Awaited(fs[f].script)
    {
      assert WaitOk(fs, r, WaitersOf(r, ms, cs), Available(r, ms, cs) - Owes(None, r));
    }
  }

  /** With nothing runnable left, every suspended fiber waits for something that is really unavailable. */
  lemma {:induction false} StuckIsJustified<T>(fs: seq<Fiber<T>>, ms: seq<Mutex>, cs: seq<Channel<T>>, r: Resource)
    requires Inv(fs, [], None, ms, cs, None) && Exists(r, ms, cs)
    ensures WaitersOf(r, ms, cs) != [] ==> Available(r, ms, cs) <= 0
  {
    forall i | 0 <= i < |fs| ensures !Runnable(fs[i]) {
      assert i !in [];
    }
    NonePending(fs, r);
  }

  // ---- The ready queue ----

  lemma {:induction false} TailMembers(s: seq<nat>)
    requires Distinct(s) && s != []
    ensures Distinct(s[1..])
    ensures forall x :: x in s[1..] <==> x in s && x != s[0]
  {
    assert s == [s[0]] + s[1..];
  }

  lemma {:induction false} ReadyPop<T>(fs: seq<Fiber<T>>, ready: seq<nat>, y: Fiber<T>)
    requires ReadyOk(fs, ready) && ready != [] && ready[0] < |fs| && !y.state.Ready?
    ensures ReadyOk(fs[ready[0] := y], ready[1..])
  {
    TailMembers(ready);
  }

  lemma {:induction false} ReadyPush<T>(fs: seq<Fiber<T>>, ready: seq<nat>, f: nat, y: Fiber<T>)
    requires ReadyOk(fs, ready) && f < |fs| && !fs[f].state.Ready? && y.state.Ready?
    ensures ReadyOk(fs[f := y], ready + [f])
  {
    assert f !in ready;
  }

  lemma {:induction false} ReadySpawn<T>(fs: seq<Fiber<T>>, ready: seq<nat>, y: Fiber<T>)
    requires ReadyOk(fs, ready) && y.state.Ready?
    ensures ReadyOk(fs + [y], ready + [|fs|])
  {
    assert |fs| !in ready;
  }

  // ---- Steps of one fiber ----

  /** A fiber that is suspended neither before nor after leaves the wait list of r alone. */
  lemma {:induction false} WaitAfterUpdate<T>(fs: seq<Fiber<T>>, f: nat, y: Fiber<T>, r: Resource, ws: seq<nat>,
                                              av: int, av': int)
    requires f < |fs| && WaitOk(fs, r, ws, av)
    requires !fs[f].state.Suspended? && !y.state.Suspended?
    requires av' - PendingOne(y, r) <= av - PendingOne(fs[f], r)
    ensures WaitOk(fs[f := y], r, ws, av')
  {
    PendingUpdate(fs, f, y, r);
  }

  /** The current fiber completes its next call, which takes a unit of each resource it wants; the shared
      objects may change as long as no wait list does and nothing but `owed` grows. */
  lemma {:induction false} AdvanceKeepsInv<T>(fs: seq<Fiber<T>>, ready: seq<nat>, f: nat, ms: seq<Mutex>,
                                              cs: seq<Channel<T>>, ms': seq<Mutex>, cs': seq<Channel<T>>,
                                              owed: Option<Resource>)
    requires Inv(fs, ready, Some(f), ms, cs, None) && fs[f].script.Then?
    requires |ms'| == |ms| && |cs'| == |cs| && ChannelsOk(cs')
    requires forall r :: Exists(r, ms, cs) ==> WaitersOf(r, ms', cs') == WaitersOf(r, ms, cs)
    requires forall r :: Exists(r, ms, cs) ==>
               Available(r, ms', cs') - Owes(owed, r)
                 <= Available(r, ms, cs) - (if Wants(fs[f], r) then 1 else 0)
    ensures Inv(fs[f := Fiber(Running, fs[f].script.rest)], ready, Some(f), ms', cs', owed)
  {
    var y := Fiber(Running, fs[f].script.rest);
    forall r | Exists(r, ms, cs)
      ensures WaitOk(fs[f := y], r, WaitersOf(r, ms', cs'), Available(r, ms', cs') - Owes(owed, r))
    {
      WaitAfterUpdate(fs, f, y, r, WaitersOf(r, ms, cs), Available(r, ms, cs),
                      Available(r, ms', cs') - Owes(owed, r));
    }
  }

  /** Changing only the state of a fiber that stays runnable. */
  lemma {:induction false} KeepsWaits<T>(fs: seq<Fiber<T>>, f: nat, y: Fiber<T>, ms: seq<Mutex>, cs: seq<Channel<T>>)
    requires f < |fs| && AllWaitOk(fs, ms, cs, None) && Runnable(fs[f]) && !y.state.Suspended?
    requires forall r :: PendingOne(fs[f], r) <= PendingOne(y, r)
    ensures AllWaitOk(fs[f := y], ms, cs, None)
  {
    forall r | Exists(r, ms, cs)
      ensures WaitOk(fs[f := y], r, WaitersOf(r, ms, cs), Available(r, ms, cs) - 0)
    {
      WaitAfterUpdate(fs, f, y, r, WaitersOf(r, ms, cs), Available(r, ms, cs), Available(r, ms, cs));
    }
  }

  /** `run` takes the front of the ready queue and switches to it; a dead fiber is never found there. */
  lemma {:induction false} DispatchKeepsInv<T>(fs: seq<Fiber<T>>, ready: seq<nat>, ms: seq<Mutex>,
                                               cs: seq<Channel<T>>)
    requires Inv(fs, ready, None, ms, cs, None) && ready != []
    ensures ready[0] < |fs| && fs[ready[0]].state.Ready?
    ensures Inv(fs[ready[0] := fs[ready[0]].(state := Running)], ready[1..], Some(ready[0]), ms, cs, None)
  {
    var f := ready[0];
    assert f in ready;
    KeepsWaits(fs, f, fs[f].(state := Running), ms, cs);
    ReadyPop(fs, ready, fs[f].(state := Running));
  }

  /** `yield` puts a running fiber at the back of the ready queue. */
  lemma {:induction false} YieldKeepsInv<T>(fs: seq<Fiber<T>>, ready: seq<nat>, f: nat, ms: seq<Mutex>,
                                            cs: seq<Channel<T>>)
    requires Inv(fs, ready, Some(f), ms, cs, None)
    ensures f < |fs|
    ensures Inv(fs[f := fs[f].(state := Ready)], ready + [f], None, ms, cs, None)
  {
    KeepsWaits(fs, f, fs[f].(state := Ready), ms, cs);
    ReadyPush(fs, ready, f, fs[f].(state := Ready));
  }

  lemma {:induction false} FinishKeepsInv<T>(fs: seq<Fiber<T>>, ready: seq<nat>, f: nat, ms: seq<Mutex>,
                                             cs: seq<Channel<T>>)
    requires Inv(fs, ready, Some(f), ms, cs, None) && fs[f].script.Done?
    ensures Inv(fs[f := fs[f].(state := Dead)], ready, None, ms, cs, None)
  {
    KeepsWaits(fs, f, fs[f].(state := Dead), ms, cs);
  }

  lemma {:induction false} WaitSpawn<T>(fs: seq<Fiber<T>>, y: Fiber<T>, r: Resource, ws: seq<nat>, av: int)
    requires WaitOk(fs, r, ws, av) && y.state.Ready?
    ensures WaitOk(fs + [y], r, ws, av)
  {
    PendingAppend(fs, y, r);
  }

  lemma {:induction false} SpawnKeepsInv<T>(fs: seq<Fiber<T>>, ready: seq<nat>, cur: Option<nat>, ms: seq<Mutex>,
                                            cs: seq<Channel<T>>, child: Script<T>)
    requires Inv(fs, ready, cur, ms, cs, None) && WellFormed(child, |ms|, |cs|)
    ensures Inv(fs + [Fiber(Ready, child)], ready + [|fs|], cur, ms, cs, None)
  {
    var fs' := fs + [Fiber(Ready, child)];
    forall r | Exists(r, ms, cs)
      ensures WaitOk(fs', r, WaitersOf(r, ms, cs), Available(r, ms, cs) - 0)
    {
      WaitSpawn(fs, Fiber(Ready, child), r, WaitersOf(r, ms, cs), Available(r, ms, cs));
    }
    ReadySpawn(fs, ready, Fiber(Ready, child));
  }

  lemma {:induction false} WaitBlock<T>(fs: seq<Fiber<T>>, f: nat, r: Resource, r0: Resource, ws: seq<nat>, av: int)
    requires f < |fs| && fs[f].state.Running? && Wants(fs[f], r0)
    requires WaitOk(fs, r, ws, av) && (r == r0 ==> av <= 0)
    ensures WaitOk(fs[f := fs[f].(state := Suspended)], r, ws + (if r == r0 then [f] else []), av)
  {
    assert r != r0 ==> !Wants(fs[f], r);
    assert f !in ws;
    PendingUpdate(fs, f, fs[f].(state := Suspended), r);
  }

  /** The current fiber suspends on a resource of which nothing is available. */
  lemma {:induction false} BlockKeepsInv<T>(fs: seq<Fiber<T>>, ready: seq<nat>, f: nat, ms: seq<Mutex>,
                                            cs: seq<Channel<T>>, ms': seq<Mutex>, cs': seq<Channel<T>>, r0: Resource)
    requires Inv(fs, ready, Some(f), ms, cs, None) && Exists(r0, ms, cs)
    requires Wants(fs[f], r0) && Available(r0, ms, cs) <= 0
    requires |ms'| == |ms| && |cs'| == |cs| && ChannelsOk(cs')
    requires forall r :: Exists(r, ms, cs) ==>
               WaitersOf(r, ms', cs') == WaitersOf(r, ms, cs) + (if r == r0 then [f] else [])
               && Available(r, ms', cs') == Available(r, ms, cs)
    ensures Inv(fs[f := fs[f].(state := Suspended)], ready, None, ms', cs', None)
  {
    var y := fs[f].(state := Suspended);
    forall r | Exists(r, ms, cs)
      ensures WaitOk(fs[f := y], r, WaitersOf(r, ms', cs'), Available(r, ms', cs') - 0)
    {
      WaitBlock(fs, f, r, r0, WaitersOf(r, ms, cs), Available(r, ms, cs));
    }
  }

  lemma {:induction false} WaitWake<T>(fs: seq<Fiber<T>>, w: nat, r: Resource, r0: Resource, ws: seq<nat>, av: int)
    requires WaitOk(fs, r, ws, av - Owes(Some(r0), r))
    requires if r == r0 then ws != [] && w == ws[0] else w < |fs| && Waits(fs[w], r0)
    ensures w < |fs| && Waits(fs[w], r0)
    ensures WaitOk(fs[w := fs[w].(state := Ready)], r, if r == r0 then ws[1..] else ws, av)
  {
    if r == r0 {
      assert w in ws;
      TailMembers(ws);
    }
    assert r != r0 ==> !Wants(fs[w], r);
    PendingUpdate(fs, w, fs[w].(state := Ready), r);
  }

  /** Waking the front waiter of the resource just produced pays the debt. */
  lemma {:induction false} WakeKeepsInv<T>(fs: seq<Fiber<T>>, ready: seq<nat>, f: nat, ms: seq<Mutex>,
                                           cs: seq<Channel<T>>, ms': seq<Mutex>, cs': seq<Channel<T>>, r0: Resource,
                                           w: nat)
    requires Inv(fs, ready, Some(f), ms, cs, Some(r0)) && Exists(r0, ms, cs)
    requires |WaitersOf(r0, ms, cs)| > 0 && w == WaitersOf(r0, ms, cs)[0]
    requires |ms'| == |ms| && |cs'| == |cs| && ChannelsOk(cs')
    requires forall r :: Exists(r, ms, cs) ==>
               WaitersOf(r, ms', cs') == (if r == r0 then WaitersOf(r, ms, cs)[1..] else WaitersOf(r, ms, cs))
               && Available(r, ms', cs') == Available(r, ms, cs)
    ensures w < |fs| && fs[w].state.Suspended?
    ensures Inv(fs[w := fs[w].(state := Ready)], ready + [w], Some(f), ms', cs', None)
  {
    var y := fs[w].(state := Ready);
    WaitWake(fs, w, r0, r0, WaitersOf(r0, ms, cs), Available(r0, ms, cs));
    ReadyPush(fs, ready, w, y);
    forall r | Exists(r, ms, cs)
      ensures WaitOk(fs[w := y], r, WaitersOf(r, ms', cs'), Available(r, ms', cs') - 0)
    {
      WaitWake(fs, w, r, r0, WaitersOf(r, ms, cs), Available(r, ms, cs));
    }
  }

  /** With nobody waiting for it, a produced unit owes no wake-up. */
  lemma {:induction false} NobodyToWake<T>(fs: seq<Fiber<T>>, ready: seq<nat>, f: nat, ms: seq<Mutex>,
                                           cs: seq<Channel<T>>, r0: Resource)
    requires Inv(fs, ready, Some(f), ms, cs, Some(r0)) && Exists(r0, ms, cs) && WaitersOf(r0, ms, cs) == []
    ensures Inv(fs, ready, Some(f), ms, cs, None)
  {
    forall r | Exists(r, ms, cs) ensures WaitOk(fs, r, WaitersOf(r, ms, cs), Available(r, ms, cs) - 0) {
      assert WaitOk(fs, r, WaitersOf(r, ms, cs), Available(r, ms, cs) - Owes(Some(r0), r));
    }
  }
}

/** The completed lock and unlock calls of a run, and who is between the two. */
module FiberLocks {
  import opened FiberState

  datatype Event = Locked(f: nat, m: nat) | Unlocked(f: nat, m: nat)

  /** Fiber f has locked m and not unlocked it since. */
  ghost predicate Inside(trace: seq<Event>, f: nat, m: nat) {
    if trace == [] then false
    else
      var last := trace[|trace| - 1];
      if last == Locked(f, m) then true
      else if last == Unlocked(f, m) then false
      else Inside(trace[..|trace| - 1], f, m)
  }

  ghost predicate Occupied(trace: seq<Event>, m: nat) { exists f: nat :: Inside(trace, f, m) }

  ghost predicate AtMostOne(trace: seq<Event>, m: nat) {
    forall f: nat, g: nat :: Inside(trace, f, m) && Inside(trace, g, m) ==> f == g
  }

  /** The last call on m was a lock, whoever made it. */
  ghost predicate Busy(trace: seq<Event>, m: nat) {
    if trace == [] then false
    else
      var last := trace[|trace| - 1];
      if last.m == m then last.Locked? else Busy(trace[..|trace| - 1], m)
  }

  /** Every lock found the mutex free. */
  ghost predicate Alternating(trace: seq<Event>) {
    forall i :: 0 <= i < |trace| && trace[i].Locked? ==> !Busy(trace[..i], trace[i].m)
  }

  /** Only holders unlock. */
  ghost predicate Disciplined(trace: seq<Event>) {
    forall i :: 0 <= i < |trace| && trace[i].Unlocked? ==> Inside(trace[..i], trace[i].f, trace[i].m)
  }

  /** The flag of each mutex is what the calls made of it. */
  ghost predicate LocksOk(trace: seq<Event>, ms: seq<Mutex>) {
    Alternating(trace) && forall m :: 0 <= m < |ms| ==> (ms[m].locked <==> Busy(trace, m))
  }

  lemma {:induction false} AfterEvent(trace: seq<Event>, e: Event, f: nat, m: nat)
    ensures Busy(trace + [e], m) <==> if e.m == m then e.Locked? else Busy(trace, m)
    ensures Inside(trace + [e], f, m) <==>
            if e == Locked(f, m) then true else if e == Unlocked(f, m) then false else Inside(trace, f, m)
  {
    assert (trace + [e])[..|trace|] == trace;
  }

  lemma {:induction false} LockEvent(trace: seq<Event>, ms: seq<Mutex>, f: nat, m: nat, ms': seq<Mutex>)
    requires LocksOk(trace, ms) && m < |ms| && !ms[m].locked
    requires ms' == ms[m := ms[m].(locked := true)]
    ensures LocksOk(trace + [Locked(f, m)], ms')
  {
    var trace' := trace + [Locked(f, m)];
    forall i | 0 <= i < |trace'| && trace'[i].Locked? ensures !Busy(trace'[..i], trace'[i].m) {
      assert trace'[..i] == trace[..i];
      assert trace[..|trace|] == trace;
    }
    forall j | 0 <= j < |ms| ensures ms'[j].locked <==> Busy(trace', j) {
      AfterEvent(trace, Locked(f, m), f, j);
    }
  }

  lemma {:induction false} UnlockEvent(trace: seq<Event>, ms: seq<Mutex>, f: nat, m: nat, ms': seq<Mutex>)
    requires LocksOk(trace, ms) && m < |ms|
    requires ms' == ms[m := ms[m].(locked := false)]
    ensures LocksOk(trace + [Unlocked(f, m)], ms')
  {
    var trace' := trace + [Unlocked(f, m)];
    forall i | 0 <= i < |trace'| && trace'[i].Locked? ensures !Busy(trace'[..i], trace'[i].m) {
      assert trace'[..i] == trace[..i];
    }
    forall j | 0 <= j < |ms| ensures ms'[j].locked <==> Busy(trace', j) {
      AfterEvent(trace, Unlocked(f, m), f, j);
    }
  }

  lemma {:induction false} Shorter(trace: seq<Event>)
    requires trace != []
    ensures var before := trace[..|trace| - 1];
            && (Alternating(trace) ==> Alternating(before)) && (Disciplined(trace) ==> Disciplined(before))
  {
    var before := trace[..|trace| - 1];
    forall i | 0 <= i < |before| ensures before[i] == trace[i] && before[..i] == trace[..i] {
    }
  }

  /** Mutual exclusion: while only holders unlock, at most one fiber is between its lock and its unlock of m, and
      there is one exactly when m is locked. */
  lemma {:induction false} OneInside(trace: seq<Event>, m: nat)
    requires Alternating(trace) && Disciplined(trace)
    ensures AtMostOne(trace, m) && (Busy(trace, m) <==> Occupied(trace, m))
    decreases |trace|
  {
    if trace != [] {
      var n := |trace| - 1;
      var before, last := trace[..n], trace[n];
      assert trace == before + [last];
      Shorter(trace);
      OneInside(before, m);
      AfterEvent(before, last, last.f, m);
      forall f: nat, g: nat | Inside(trace, f, m) && Inside(trace, g, m) ensures f == g {
        AfterEvent(before, last, f, m);
        AfterEvent(before, last, g, m);
        assert last != Locked(f, m) ==> Inside(before, f, m);
        assert last != Locked(g, m) ==> Inside(before, g, m);
      }
      if Busy(trace, m) && last.m != m {
        var f: nat :| Inside(before, f, m);
        AfterEvent(before, last, f, m);
      } else if f: nat :| Inside(trace, f, m) {
        AfterEvent(before, last, f, m);
        assert last.m == m && last.Unlocked? ==> Inside(before, last.f, m) && Inside(before, f, m);
      }
    }
  }

  // ---- Exactly when the mutexes exclude ----

  /** At most one fiber is ever inside each mutex. */
  ghost predicate Exclusive(trace: seq<Event>) {
    forall n: nat, m: nat :: n <= |trace| ==> AtMostOne(trace[..n], m)
  }

  /** Call i unlocks the mutex that g is inside of, without being g's, and call j lets another fiber in before g has
      unlocked. */
  ghost predicate LetsIn(trace: seq<Event>, g: nat, i: nat, j: nat) {
    && i < j < |trace| && trace[i].Unlocked? && trace[i].f != g && Inside(trace[..i], g, trace[i].m)
    && trace[j].Locked? && trace[j].m == trace[i].m && trace[j].f != g
    && Keeps(trace, g, trace[i].m, i, j)
  }

  ghost predicate Keeps(trace: seq<Event>, g: nat, m: nat, i: nat, j: nat)
    requires i <= j <= |trace|
  {
    forall k :: i <= k < j ==> trace[k] != Unlocked(g, m)
  }

  lemma {:induction false} StaysInside(trace: seq<Event>, g: nat, m: nat, i: nat, j: nat)
    requires i <= j <= |trace| && Inside(trace[..i], g, m) && Keeps(trace, g, m, i, j)
    ensures Inside(trace[..j], g, m)
    decreases j - i
  {
    if i < j {
      StaysInside(trace, g, m, i, j - 1);
      assert trace[..j] == trace[..j - 1] + [trace[j - 1]];
      AfterEvent(trace[..j - 1], trace[j - 1], g, m);
    }
  }

  /** A free mutex with somebody inside was unlocked by somebody else. */
  lemma {:induction false} FreedByOther(trace: seq<Event>, g: nat, m: nat) returns (i: nat)
    requires !Busy(trace, m) && Inside(trace, g, m)
    ensures i < |trace| && trace[i].Unlocked? && trace[i].m == m && trace[i].f != g
    ensures Inside(trace[..i], g, m) && Keeps(trace, g, m, i, |trace|)
    decreases |trace|
  {
    var n := |trace| - 1;
    var before, last := trace[..n], trace[n];
    assert trace == before + [last];
    AfterEvent(before, last, g, m);
    if last.m == m {
      i := n;
    } else {
      i := FreedByOther(before, g, m);
      assert before[..i] == trace[..i];
      forall k | i <= k < |trace| ensures trace[k] != Unlocked(g, m) {
        assert k < n ==> trace[k] == before[k];
      }
    }
  }

  /** The first n calls, one by one. */
  lemma {:induction false} ExclusiveUpTo(trace: seq<Event>, n: nat, m: nat)
    requires Alternating(trace) && n <= |trace| && forall g: nat, i: nat, j: nat :: !LetsIn(trace, g, i, j)
    ensures AtMostOne(trace[..n], m)
  {
    if n > 0 {
      ExclusiveUpTo(trace, n - 1, m);
      var before, last := trace[..n - 1], trace[n - 1];
      assert trace[..n] == before + [last];
      forall f: nat, g: nat | Inside(trace[..n], f, m) && Inside(trace[..n], g, m) ensures f == g {
        AfterEvent(before, last, f, m);
        AfterEvent(before, last, g, m);
        if last == Locked(f, m) && f != g {
          NobodyElse(trace, n - 1, g);
        } else if last == Locked(g, m) && f != g {
          NobodyElse(trace, n - 1, f);
        }
      }
    }
  }

  /** A lock while g is inside lets somebody in. */
  lemma {:induction false} SomebodyLetIn(trace: seq<Event>, j: nat, g: nat) returns (i: nat)
    requires Alternating(trace) && j < |trace| && trace[j].Locked? && trace[j].f != g
    requires Inside(trace[..j], g, trace[j].m)
    ensures LetsIn(trace, g, i, j)
  {
    var before, m := trace[..j], trace[j].m;
    i := FreedByOther(before, g, m);
    assert before[..i] == trace[..i];
    forall k | i <= k < j ensures trace[k] != Unlocked(g, m) {
      assert trace[k] == before[k];
    }
  }

  lemma {:induction false} NobodyElse(trace: seq<Event>, j: nat, g: nat)
    requires Alternating(trace) && j < |trace| && trace[j].Locked? && trace[j].f != g
    requires forall i: nat :: !LetsIn(trace, g, i, j)
    ensures !Inside(trace[..j], g, trace[j].m)
  {
    if Inside(trace[..j], g, trace[j].m) {
      var i := SomebodyLetIn(trace, j, g);
      assert false;
    }
  }

  /** The mutexes exclude if and only if nobody is let in after a fiber unlocked what another one holds, before the
      holder has unlocked it too. */
  lemma {:induction false} ExclusiveIff(trace: seq<Event>)
    requires Alternating(trace)
    ensures Exclusive(trace) <==> forall g: nat, i: nat, j: nat :: !LetsIn(trace, g, i, j)
  {
    if forall g: nat, i: nat, j: nat :: !LetsIn(trace, g, i, j) {
      forall n: nat, m: nat | n <= |trace| ensures AtMostOne(trace[..n], m) {
        ExclusiveUpTo(trace, n, m);
      }
    }
    if g: nat, i: nat, j: nat :| LetsIn(trace, g, i, j) {
      var m := trace[i].m;
      StaysInside(trace, g, m, i, j);
      assert trace[..j + 1] == trace[..j] + [trace[j]];
      AfterEvent(trace[..j], trace[j], g, m);
      AfterEvent(trace[..j], trace[j], trace[j].f, m);
      assert !AtMostOne(trace[..j + 1], m);
    }
  }
}

/** The runtime as a value: its state, what each call does to it, and the history of completed calls. */
module FiberWorld {
  import opened Common
  import opened FiberState
  import opened FiberLocks

  /** A completed call of fiber f, with the value a receive returned. */
  datatype Call<T> = Call(f: nat, op: Op<T>, got: Option<T>)

  /** `origin` keeps every fiber's script as it was spawned, `calls` the completed calls; no operation reads them. */
  datatype World<T> = World(fibers: seq<Fiber<T>>, ready: seq<nat>, current: Option<nat>, mutexes: seq<Mutex>,
                            channels: seq<Channel<T>>, origin: seq<Script<T>>, calls: seq<Call<T>>)

  // ---- What the history says ----

  /** The calls that fiber f has completed, in order. */
  ghost function OpsBy<T>(calls: seq<Call<T>>, f: nat): seq<Op<T>> {
    if calls == [] then []
    else
      var last := calls[|calls| - 1];
      OpsBy(calls[..|calls| - 1], f) + if last.f == f then [last.op] else []
  }

  /** The script that makes these calls and goes on with the rest. */
  ghost function Before<T>(ops: seq<Op<T>>, rest: Script<T>): Script<T> {
    if ops == [] then rest else Then(ops[0], Before(ops[1..], rest))
  }

  ghost function EventOf<T>(c: Call<T>): seq<Event> {
    if c.op.Lock? then [Locked(c.f, c.op.m)] else if c.op.Unlock? then [Unlocked(c.f, c.op.m)] else []
  }

  /** The completed lock and unlock calls. */
  ghost function LockTrace<T>(calls: seq<Call<T>>): seq<Event> {
    if calls == [] then [] else LockTrace(calls[..|calls| - 1]) + EventOf(calls[|calls| - 1])
  }

  ghost function SentBy<T>(call: Call<T>, c: nat): seq<T> {
    if call.op.Send? && call.op.c == c then [call.op.v] else []
  }

  ghost function GotBy<T>(call: Call<T>, c: nat): seq<T> {
    if call.op.Receive? && call.op.c == c && call.got.Some? then [call.got.value] else []
  }

  /** The values that completed sends put into channel c. */
  ghost function SentIn<T>(calls: seq<Call<T>>, c: nat): seq<T> {
    if calls == [] then [] else SentIn(calls[..|calls| - 1], c) + SentBy(calls[|calls| - 1], c)
  }

  /** The values that completed receives got from channel c. */
  ghost function GotIn<T>(calls: seq<Call<T>>, c: nat): seq<T> {
    if calls == [] then [] else GotIn(calls[..|calls| - 1], c) + GotBy(calls[|calls| - 1], c)
  }

  /** The scripts of the fibers that completed calls have spawned. */
  ghost function Children<T>(calls: seq<Call<T>>): seq<Script<T>> {
    if calls == [] then []
    else
      var last := calls[|calls| - 1];
      Children(calls[..|calls| - 1]) + if last.op.Spawn? then [last.op.child] else []
  }

  /** What fiber f was to do is what it has done, followed by what it still has to do. */
  ghost predicate ScriptOk<T>(w: World<T>, f: nat)
    requires f < |w.fibers| && |w.origin| == |w.fibers|
  {
    Before(OpsBy(w.calls, f), w.fibers[f].script) == w.origin[f]
  }

  ghost predicate ScriptsOk<T>(w: World<T>) {
    && |w.origin| == |w.fibers|
    && (forall i :: 0 <= i < |w.calls| ==> w.calls[i].f < |w.fibers|)
    && forall f: nat :: f < |w.fibers| ==> ScriptOk(w, f)
  }

  ghost predicate Logged<T>(cs: seq<Channel<T>>, calls: seq<Call<T>>, c: nat)
    requires c < |cs|
  {
    cs[c].sent == SentIn(calls, c) && cs[c].received == GotIn(calls, c)
  }

  /** Scripts, mutexes and channels are what the completed calls made of them. */
  ghost predicate HistoryOk<T>(w: World<T>) {
    && ScriptsOk(w) && LocksOk(LockTrace(w.calls), w.mutexes)
    && forall c: nat :: c < |w.channels| ==> Logged(w.channels, w.calls, c)
  }

  ghost predicate WorldOk<T>(w: World<T>) {
    Inv(w.fibers, w.ready, w.current, w.mutexes, w.channels, None) && HistoryOk(w)
  }

  // ---- What each call does ----

  function Tail(ws: seq<nat>): seq<nat> { if ws == [] then [] else ws[1..] }

  /** Fiber f stands before a call. */
  ghost predicate Calls<T>(w: World<T>, f: nat, op: Op<T>) {
    w.current == Some(f) && f < |w.fibers| && w.fibers[f].script.Then? && w.fibers[f].script.op == op
  }

  /** The call is done and logged; the fiber goes on running. */
  ghost function Completes<T>(w: World<T>, f: nat, got: Option<T>): World<T>
    requires f < |w.fibers| && w.fibers[f].script.Then?
  {
    w.(fibers := w.fibers[f := Fiber(Running, w.fibers[f].script.rest)],
       calls := w.calls + [Call(f, w.fibers[f].script.op, got)])
  }

  ghost function Suspends<T>(w: World<T>, f: nat): World<T>
    requires f < |w.fibers|
  {
    w.(fibers := w.fibers[f := w.fibers[f].(state := Suspended)], current := None)
  }

  /** The first of the waiters, if any, goes to the back of the ready queue. */
  ghost function WakesFirst<T>(w: World<T>, ws: seq<nat>): World<T> {
    if ws == [] || ws[0] >= |w.fibers| then w
    else w.(fibers := w.fibers[ws[0] := w.fibers[ws[0]].(state := Ready)], ready := w.ready + [ws[0]])
  }

  ghost function LockOf<T>(w: World<T>, f: nat, m: nat): World<T>
    requires Calls(w, f, Lock(m)) && m < |w.mutexes|
  {
    var mutex := w.mutexes[m];
    if mutex.locked then Suspends(w, f).(mutexes := w.mutexes[m := mutex.(waiters := mutex.waiters + [f])])
    else Completes(w, f, None).(mutexes := w.mutexes[m := mutex.(locked := true)])
  }

  ghost function UnlockOf<T>(w: World<T>, f: nat, m: nat): World<T>
    requires Calls(w, f, Unlock(m)) && m < |w.mutexes|
  {
    var ws := w.mutexes[m].waiters;
    WakesFirst(Completes(w, f, None).(mutexes := w.mutexes[m := Mutex(false, Tail(ws))]), ws)
  }

  ghost function SendOf<T>(w: World<T>, f: nat, c: nat, v: T): World<T>
    requires Calls(w, f, Send(c, v)) && c < |w.channels|
  {
    var ch := w.channels[c];
    if |ch.queue| >= ch.capacity then
      Suspends(w, f).(channels := w.channels[c := ch.(sendWaiters := ch.sendWaiters + [f])])
    else
      WakesFirst(Completes(w, f, None).(channels := w.channels[c := ch.(
                   queue := ch.queue + [v], sent := ch.sent + [v], recvWaiters := Tail(ch.recvWaiters))]),
                 ch.recvWaiters)
  }

  ghost function ReceiveOf<T>(w: World<T>, f: nat, c: nat): World<T>
    requires Calls(w, f, Receive(c)) && c < |w.channels|
  {
    var ch := w.channels[c];
    if ch.queue == [] then
      Suspends(w, f).(channels := w.channels[c := ch.(recvWaiters := ch.recvWaiters + [f])])
    else
      WakesFirst(Completes(w, f, Some(ch.queue[0])).(channels := w.channels[c := ch.(
                   queue := ch.queue[1..], received := ch.received + [ch.queue[0]],
                   sendWaiters := Tail(ch.sendWaiters))]),
                 ch.sendWaiters)
  }

  ghost function YieldOf<T>(w: World<T>, f: nat): World<T>
    requires Calls(w, f, Yield)
  {
    var rest := w.fibers[f].script.rest;
    Completes(w, f, None).(fibers := w.fibers[f := Fiber(Ready, rest)], ready := w.ready + [f], current := None)
  }

  ghost function SpawnsOf<T>(w: World<T>, child: Script<T>): World<T> {
    w.(fibers := w.fibers + [Fiber(Ready, child)], ready := w.ready + [|w.fibers|], origin := w.origin + [child])
  }

  ghost function FinishOf<T>(w: World<T>, f: nat): World<T>
    requires f < |w.fibers|
  {
    w.(fibers := w.fibers[f := w.fibers[f].(state := Dead)], current := None)
  }

  /** What the call names exists. */
  ghost predicate Named<T>(w: World<T>, op: Op<T>) {
    && (op.Lock? || op.Unlock? ==> op.m < |w.mutexes|)
    && (op.Send? || op.Receive? ==> op.c < |w.channels|)
  }

  /** The next call of the running fiber. */
  ghost function StepOf<T>(w: World<T>, f: nat): World<T>
    requires w.current == Some(f) && f < |w.fibers|
    requires w.fibers[f].script.Then? ==> Named(w, w.fibers[f].script.op)
  {
    if w.fibers[f].script.Done? then FinishOf(w, f)
    else
      match w.fibers[f].script.op
      case Lock(m) => LockOf(w, f, m)
      case Unlock(m) => UnlockOf(w, f, m)
      case Send(c, v) => SendOf(w, f, c, v)
      case Receive(c) => ReceiveOf(w, f, c)
      case Yield => YieldOf(w, f)
      case Spawn(child) => SpawnsOf(Completes(w, f, None), child)
  }

  ghost function DispatchOf<T>(w: World<T>): World<T>
    requires w.ready != [] && w.ready[0] < |w.fibers|
  {
    var f := w.ready[0];
    w.(fibers := w.fibers[f := w.fibers[f].(state := Running)], ready := w.ready[1..], current := Some(f))
  }

  /** The scheduler's next move: the running fiber's next call, or the next fiber. */
  ghost function Advance<T>(w: World<T>): World<T> {
    if w.current.Some? then
      var f := w.current.value;
      if f < |w.fibers| && (w.fibers[f].script.Then? ==> Named(w, w.fibers[f].script.op)) then StepOf(w, f) else w
    else if w.ready != [] && w.ready[0] < |w.fibers| then DispatchOf(w)
    else w
  }

  ghost function Iterate<T>(w: World<T>, n: nat): World<T> { if n == 0 then w else Advance(Iterate(w, n - 1)) }

  // ---- The history of one more call ----

  lemma {:induction false} OneMoreCall<T>(calls: seq<Call<T>>, call: Call<T>, f: nat)
    ensures OpsBy(calls + [call], f) == OpsBy(calls, f) + if call.f == f then [call.op] else []
    ensures LockTrace(calls + [call]) == LockTrace(calls) + EventOf(call)
    ensures SentIn(calls + [call], f) == SentIn(calls, f) + SentBy(call, f)
    ensures GotIn(calls + [call], f) == GotIn(calls, f) + GotBy(call, f)
    ensures Children(calls + [call]) == Children(calls) + if call.op.Spawn? then [call.op.child] else []
  {
    assert (calls + [call])[..|calls|] == calls;
  }

  lemma {:induction false} BeforeOneMore<T>(ops: seq<Op<T>>, op: Op<T>, rest: Script<T>)
    ensures Before(ops + [op], rest) == Before(ops, Then(op, rest))
  {
    if ops == [] {
      assert ops + [op] == [op] && [op][1..] == [];
    } else {
      assert (ops + [op])[1..] == ops[1..] + [op];
      BeforeOneMore(ops[1..], op, rest);
    }
  }

  /** No other fiber's script and no other part of the state is touched by a completed call. */
  ghost predicate SameScripts<T>(fs: seq<Fiber<T>>, fs': seq<Fiber<T>>) {
    |fs| == |fs'| && forall i :: 0 <= i < |fs| ==> fs'[i].script == fs[i].script
  }

  lemma {:induction false} CallScripts<T>(w: World<T>, f: nat, got: Option<T>, w': World<T>)
    requires ScriptsOk(w) && f < |w.fibers| && w.fibers[f].script.Then?
    requires var done := Completes(w, f, got); SameScripts(done.fibers, w'.fibers) && w'.calls == done.calls
    requires w'.origin == w.origin
    ensures ScriptsOk(w')
  {
    var call := Call(f, w.fibers[f].script.op, got);
    forall g: nat | g < |w'.fibers| ensures ScriptOk(w', g) {
      assert ScriptOk(w, g);
      OneMoreCall(w.calls, call, g);
      if g == f {
        BeforeOneMore(OpsBy(w.calls, f), call.op, w.fibers[f].script.rest);
      } else {
        assert OpsBy(w.calls, g) + [] == OpsBy(w.calls, g);
      }
    }
  }

  /** Only the flags matter. */
  lemma {:induction false} SameFlags(trace: seq<Event>, ms: seq<Mutex>, ms': seq<Mutex>)
    requires LocksOk(trace, ms) && |ms'| == |ms|
    requires forall i :: 0 <= i < |ms| ==> ms'[i].locked == ms[i].locked
    ensures LocksOk(trace, ms')
  {
  }

  lemma {:induction false} CallChannels<T>(cs: seq<Channel<T>>, calls: seq<Call<T>>, call: Call<T>,
                                           cs': seq<Channel<T>>)
    requires forall c: nat :: c < |cs| ==> Logged(cs, calls, c)
    requires |cs'| == |cs|
    requires forall c: nat :: c < |cs| ==>
               cs'[c].sent == cs[c].sent + SentBy(call, c) && cs'[c].received == cs[c].received + GotBy(call, c)
    ensures forall c: nat :: c < |cs'| ==> Logged(cs', calls + [call], c)
  {
    forall c: nat | c < |cs'| ensures Logged(cs', calls + [call], c) {
      assert Logged(cs, calls, c);
      OneMoreCall(calls, call, c);
    }
  }

  /** A completed call that is neither a lock nor an unlock. */
  lemma {:induction false} CallHistory<T>(w: World<T>, f: nat, got: Option<T>, w': World<T>, trace: seq<Event>)
    requires HistoryOk(w) && f < |w.fibers| && w.fibers[f].script.Then? && w'.origin == w.origin
    requires var done := Completes(w, f, got); SameScripts(done.fibers, w'.fibers) && w'.calls == done.calls
    requires trace == LockTrace(w.calls) + EventOf(Call(f, w.fibers[f].script.op, got))
    requires LocksOk(trace, w'.mutexes) && |w'.channels| == |w.channels|
    requires var call := Call(f, w.fibers[f].script.op, got);
             forall c: nat :: c < |w.channels| ==>
               && w'.channels[c].sent == w.channels[c].sent + SentBy(call, c)
               && w'.channels[c].received == w.channels[c].received + GotBy(call, c)
    ensures HistoryOk(w')
  {
    hide ScriptsOk, LocksOk, SameScripts, Logged;
    var call := Call(f, w.fibers[f].script.op, got);
    CallScripts(w, f, got, w');
    OneMoreCall(w.calls, call, 0);
    CallChannels(w.channels, w.calls, call, w'.channels);
  }

  /** A step that completes no call. */
  lemma {:induction false} QuietHistory<T>(w: World<T>, w': World<T>)
    requires HistoryOk(w) && SameScripts(w.fibers, w'.fibers) && w'.origin == w.origin && w'.calls == w.calls
    requires |w'.mutexes| == |w.mutexes| && |w'.channels| == |w.channels|
    requires forall i :: 0 <= i < |w.mutexes| ==> w'.mutexes[i].locked == w.mutexes[i].locked
    requires forall c :: 0 <= c < |w.channels| ==>
               w'.channels[c].sent == w.channels[c].sent && w'.channels[c].received == w.channels[c].received
    ensures HistoryOk(w')
  {
    SameFlags(LockTrace(w.calls), w.mutexes, w'.mutexes);
    forall f: nat | f < |w'.fibers| ensures ScriptOk(w', f) {
      assert ScriptOk(w, f);
    }
    forall c: nat | c < |w'.channels| ensures Logged(w'.channels, w'.calls, c) {
      assert Logged(w.channels, w.calls, c);
    }
  }

  lemma {:induction false} NoCallsYet<T>(calls: seq<Call<T>>, f: nat)
    requires forall i :: 0 <= i < |calls| ==> calls[i].f != f
    ensures OpsBy(calls, f) == []
  {
    if calls != [] {
      NoCallsYet(calls[..|calls| - 1], f);
    }
  }

  lemma {:induction false} SpawnHistory<T>(w: World<T>, child: Script<T>)
    requires HistoryOk(w)
    ensures HistoryOk(SpawnsOf(w, child))
  {
    var w' := SpawnsOf(w, child);
    forall f: nat | f < |w'.fibers| ensures ScriptOk(w', f) {
      if f < |w.fibers| {
        assert ScriptOk(w, f);
      } else {
        NoCallsYet(w.calls, f);
      }
    }
    forall c: nat | c < |w'.channels| ensures Logged(w'.channels, w'.calls, c) {
      assert Logged(w.channels, w.calls, c);
    }
  }

  // ---- Every call keeps the world in order ----

  lemma {:induction false} NamedCall<T>(w: World<T>, f: nat)
    requires WorldOk(w) && w.current == Some(f)
    ensures f < |w.fibers| && FiberOk(w.fibers[f], |w.mutexes|, |w.channels|) && w.fibers[f].state.Running?
    ensures w.fibers[f].script.Then? ==> Named(w, w.fibers[f].script.op)
  {
    assert FiberOk(w.fibers[f], |w.mutexes|, |w.channels|);
  }

  lemma {:induction false} LockKeeps<T>(w: World<T>, f: nat, m: nat)
    requires WorldOk(w) && Calls(w, f, Lock(m)) && m < |w.mutexes|
    ensures WorldOk(LockOf(w, f, m))
  {
    hide Inv, ScriptsOk, LocksOk, Logged;
    NamedCall(w, f);
    ChannelsStay(w);
    var w' := LockOf(w, f, m);
    if w.mutexes[m].locked {
      BlockKeepsInv(w.fibers, w.ready, f, w.mutexes, w.channels, w'.mutexes, w.channels, Held(m));
      QuietHistory(w, w');
    } else {
      AdvanceKeepsInv(w.fibers, w.ready, f, w.mutexes, w.channels, w'.mutexes, w.channels, None);
      LockEvent(LockTrace(w.calls), w.mutexes, f, m, w'.mutexes);
      CallHistory(w, f, None, w', LockTrace(w.calls) + [Locked(f, m)]);
    }
  }

  /** Waking the first waiter for a unit just made pays for it. */
  lemma {:induction false} WakeKeeps<T>(w: World<T>, f: nat, r: Resource, ms: seq<Mutex>, cs: seq<Channel<T>>,
                                        ws: seq<nat>)
    requires Inv(w.fibers, w.ready, Some(f), ms, cs, Some(r)) && Exists(r, ms, cs) && ws == WaitersOf(r, ms, cs)
    requires w.current == Some(f) && |w.mutexes| == |ms| && |w.channels| == |cs| && ChannelsOk(w.channels)
    requires forall q :: Exists(q, ms, cs) ==>
               WaitersOf(q, w.mutexes, w.channels) == (if q == r then Tail(ws) else WaitersOf(q, ms, cs))
               && Available(q, w.mutexes, w.channels) == Available(q, ms, cs)
    requires ws == [] ==> w.mutexes == ms && w.channels == cs
    ensures var w' := WakesFirst(w, ws);
            && Inv(w'.fibers, w'.ready, w'.current, w'.mutexes, w'.channels, None)
            && SameScripts(w.fibers, w'.fibers)
  {
    hide Inv, ChannelsOk;
    if ws == [] {
      NobodyToWake(w.fibers, w.ready, f, ms, cs, r);
    } else {
      WakeKeepsInv(w.fibers, w.ready, f, ms, cs, w.mutexes, w.channels, r, ws[0]);
    }
  }

  lemma {:induction false} UnlockKeeps<T>(w: World<T>, f: nat, m: nat)
    requires WorldOk(w) && Calls(w, f, Unlock(m)) && m < |w.mutexes|
    ensures WorldOk(UnlockOf(w, f, m))
  {
    hide Inv, ScriptsOk, LocksOk, Logged;
    NamedCall(w, f);
    var ws := w.mutexes[m].waiters;
    var ms := w.mutexes[m := w.mutexes[m].(locked := false)];
    var done := Completes(w, f, None).(mutexes := w.mutexes[m := Mutex(false, Tail(ws))]);
    ChannelsStay(w);
    AdvanceKeepsInv(w.fibers, w.ready, f, w.mutexes, w.channels, ms, w.channels, Some(Held(m)));
    WakeKeeps(done, f, Held(m), ms, w.channels, ws);
    UnlockEvent(LockTrace(w.calls), w.mutexes, f, m, ms);
    SameFlags(LockTrace(w.calls) + [Unlocked(f, m)], ms, done.mutexes);
    CallHistory(w, f, None, UnlockOf(w, f, m), LockTrace(w.calls) + [Unlocked(f, m)]);
  }

  lemma {:induction false} ChannelsStay<T>(w: World<T>)
    requires WorldOk(w)
    ensures ChannelsOk(w.channels)
  {
  }

  lemma {:induction false} ChannelIs<T>(w: World<T>, c: nat)
    requires WorldOk(w) && c < |w.channels|
    ensures ChannelOk(w.channels[c])
  {
  }

  lemma {:induction false} ChannelsUpdate<T>(cs: seq<Channel<T>>, c: nat, ch: Channel<T>)
    requires ChannelsOk(cs) && c < |cs| && ChannelOk(ch)
    ensures ChannelsOk(cs[c := ch])
  {
  }

  lemma {:induction false} SendKeeps<T>(w: World<T>, f: nat, c: nat, v: T)
    requires WorldOk(w) && Calls(w, f, Send(c, v)) && c < |w.channels|
    ensures WorldOk(SendOf(w, f, c, v))
  {
    hide Inv, ScriptsOk, LocksOk, Logged, ChannelsOk;
    NamedCall(w, f);
    ChannelsStay(w);
    ChannelIs(w, c);
    var ch := w.channels[c];
    var w' := SendOf(w, f, c, v);
    if |ch.queue| >= ch.capacity {
      ChannelsUpdate(w.channels, c, ch.(sendWaiters := ch.sendWaiters + [f]));
      BlockKeepsInv(w.fibers, w.ready, f, w.mutexes, w.channels, w.mutexes, w'.channels, Slot(c));
      QuietHistory(w, w');
    } else {
      SendCompletes(w, f, c, v);
    }
  }

  lemma {:induction false} SendCompletes<T>(w: World<T>, f: nat, c: nat, v: T)
    requires WorldOk(w) && Calls(w, f, Send(c, v)) && c < |w.channels| && |w.channels[c].queue| < w.channels[c].capacity
    ensures WorldOk(SendOf(w, f, c, v))
  {
    hide Inv, ScriptsOk, LocksOk, Logged, ChannelsOk;
    ChannelsStay(w);
    ChannelIs(w, c);
    var ch := w.channels[c];
    var ch1 := ch.(queue := ch.queue + [v], sent := ch.sent + [v]);
    assert ch1.received + ch1.queue == ch.received + ch.queue + [v];
    var cs := w.channels[c := ch1];
    var done := Completes(w, f, None).(channels := w.channels[c := ch1.(recvWaiters := Tail(ch.recvWaiters))]);
    ChannelsUpdate(w.channels, c, ch1);
    ChannelsUpdate(w.channels, c, ch1.(recvWaiters := Tail(ch.recvWaiters)));
    AdvanceKeepsInv(w.fibers, w.ready, f, w.mutexes, w.channels, w.mutexes, cs, Some(Item(c)));
    WakeKeeps(done, f, Item(c), w.mutexes, cs, ch.recvWaiters);
    assert LockTrace(w.calls) + [] == LockTrace(w.calls);
    CallHistory(w, f, None, SendOf(w, f, c, v), LockTrace(w.calls));
  }

  lemma {:induction false} ReceiveKeeps<T>(w: World<T>, f: nat, c: nat)
    requires WorldOk(w) && Calls(w, f, Receive(c)) && c < |w.channels|
    ensures WorldOk(ReceiveOf(w, f, c))
  {
    hide Inv, ScriptsOk, LocksOk, Logged, ChannelsOk;
    NamedCall(w, f);
    ChannelsStay(w);
    ChannelIs(w, c);
    var ch := w.channels[c];
    var w' := ReceiveOf(w, f, c);
    if ch.queue == [] {
      ChannelsUpdate(w.channels, c, ch.(recvWaiters := ch.recvWaiters + [f]));
      BlockKeepsInv(w.fibers, w.ready, f, w.mutexes, w.channels, w.mutexes, w'.channels, Item(c));
      QuietHistory(w, w');
    } else {
      ReceiveCompletes(w, f, c);
    }
  }

  lemma {:induction false} ReceiveCompletes<T>(w: World<T>, f: nat, c: nat)
    requires WorldOk(w) && Calls(w, f, Receive(c)) && c < |w.channels| && w.channels[c].queue != []
    ensures WorldOk(ReceiveOf(w, f, c))
  {
    hide Inv, ScriptsOk, LocksOk, Logged, ChannelsOk;
    ChannelsStay(w);
    ChannelIs(w, c);
    var ch := w.channels[c];
    var v := ch.queue[0];
    var ch1 := ch.(queue := ch.queue[1..], received := ch.received + [v]);
    assert ch1.received + ch1.queue == ch.received + ch.queue;
    var cs := w.channels[c := ch1];
    var done := Completes(w, f, Some(v)).(channels := w.channels[c := ch1.(sendWaiters := Tail(ch.sendWaiters))]);
    ChannelsUpdate(w.channels, c, ch1);
    ChannelsUpdate(w.channels, c, ch1.(sendWaiters := Tail(ch.sendWaiters)));
    AdvanceKeepsInv(w.fibers, w.ready, f, w.mutexes, w.channels, w.mutexes, cs, Some(Slot(c)));
    WakeKeeps(done, f, Slot(c), w.mutexes, cs, ch.sendWaiters);
    assert LockTrace(w.calls) + [] == LockTrace(w.calls);
    CallHistory(w, f, Some(v), ReceiveOf(w, f, c), LockTrace(w.calls));
  }

  lemma {:induction false} YieldKeeps<T>(w: World<T>, f: nat)
    requires WorldOk(w) && Calls(w, f, Yield)
    ensures WorldOk(YieldOf(w, f))
  {
    hide Inv, ScriptsOk, LocksOk, Logged;
    NamedCall(w, f);
    ChannelsStay(w);
    var done := Completes(w, f, None);
    AdvanceKeepsInv(w.fibers, w.ready, f, w.mutexes, w.channels, w.mutexes, w.channels, None);
    YieldKeepsInv(done.fibers, w.ready, f, w.mutexes, w.channels);
    assert done.fibers[f := done.fibers[f].(state := Ready)] == YieldOf(w, f).fibers;
    assert LockTrace(w.calls) + [] == LockTrace(w.calls);
    CallHistory(w, f, None, YieldOf(w, f), LockTrace(w.calls));
  }

  lemma {:induction false} SpawnKeeps<T>(w: World<T>, child: Script<T>)
    requires WorldOk(w) && WellFormed(child, |w.mutexes|, |w.channels|)
    ensures WorldOk(SpawnsOf(w, child))
  {
    hide Inv, HistoryOk;
    SpawnKeepsInv(w.fibers, w.ready, w.current, w.mutexes, w.channels, child);
    SpawnHistory(w, child);
  }

  lemma {:induction false} SpawnCallKeeps<T>(w: World<T>, f: nat, child: Script<T>)
    requires WorldOk(w) && Calls(w, f, Op<T>.Spawn(child))
    ensures WorldOk(Completes(w, f, None)) && WorldOk(SpawnsOf(Completes(w, f, None), child))
  {
    hide Inv, ScriptsOk, LocksOk, Logged;
    NamedCall(w, f);
    ChannelsStay(w);
    var done := Completes(w, f, None);
    AdvanceKeepsInv(w.fibers, w.ready, f, w.mutexes, w.channels, w.mutexes, w.channels, None);
    assert LockTrace(w.calls) + [] == LockTrace(w.calls);
    CallHistory(w, f, None, done, LockTrace(w.calls));
    SpawnKeeps(done, child);
  }

  lemma {:induction false} FinishKeeps<T>(w: World<T>, f: nat)
    requires WorldOk(w) && w.current == Some(f) && f < |w.fibers| && w.fibers[f].script.Done?
    ensures WorldOk(FinishOf(w, f))
  {
    hide Inv, ScriptsOk, LocksOk, Logged;
    FinishKeepsInv(w.fibers, w.ready, f, w.mutexes, w.channels);
    QuietHistory(w, FinishOf(w, f));
  }

  lemma {:induction false} DispatchKeeps<T>(w: World<T>)
    requires WorldOk(w) && w.current.None? && w.ready != []
    ensures w.ready[0] < |w.fibers| && WorldOk(DispatchOf(w))
  {
    hide Inv, ScriptsOk, LocksOk, Logged;
    DispatchKeepsInv(w.fibers, w.ready, w.mutexes, w.channels);
    QuietHistory(w, DispatchOf(w));
  }

  // ---- Every call makes progress ----

  lemma {:induction false} WakeWork<T>(w: World<T>, ws: seq<nat>)
    ensures var w' := WakesFirst(w, ws);
            && Work(w'.fibers) == Work(w.fibers) && |w'.ready| <= |w.ready| + 1
            && w'.calls == w.calls && w'.origin == w.origin && w'.current == w.current
  {
    if ws != [] && ws[0] < |w.fibers| {
      WorkUpdate(w.fibers, ws[0], w.fibers[ws[0]].(state := Ready));
    }
  }

  ghost function Budget<T>(w: World<T>): nat { 2 * Work(w.fibers) + |w.ready| }

  ghost predicate CanStep<T>(w: World<T>, f: nat) {
    && w.current == Some(f) && f < |w.fibers|
    && (w.fibers[f].script.Then? ==> Named(w, w.fibers[f].script.op))
  }

  /** One move of a running fiber: it goes on with less work to do, or gives the processor back. */
  lemma {:induction false} StepProgress<T>(w: World<T>, f: nat)
    requires CanStep(w, f)
    ensures var w' := StepOf(w, f);
            && Budget(w') <= Budget(w) && Work(w'.fibers) <= Work(w.fibers)
            && (w'.current.Some? ==> Work(w'.fibers) < Work(w.fibers))
  {
    var script := w.fibers[f].script;
    var w' := StepOf(w, f);
    WorkUpdate(w.fibers, f, w.fibers[f].(state := Dead));
    WorkUpdate(w.fibers, f, w.fibers[f].(state := Suspended));
    if script.Then? {
      WorkUpdate(w.fibers, f, Fiber(Running, script.rest));
      WorkUpdate(w.fibers, f, Fiber(Ready, script.rest));
      match script.op
      case Unlock(m) => WakeWork(Completes(w, f, None).(mutexes := w'.mutexes), w.mutexes[m].waiters);
      case Send(c, v) => WakeWork(Completes(w, f, None).(channels := w'.channels), w.channels[c].recvWaiters);
      case Receive(c) =>
        if w.channels[c].queue != [] {
          var got := Some(w.channels[c].queue[0]);
          WakeWork(Completes(w, f, got).(channels := w'.channels), w.channels[c].sendWaiters);
        }
      case Spawn(child) => WorkAppend(Completes(w, f, None).fibers, Fiber(Ready, child));
      case _ =>
    }
  }

  /** Its call is logged exactly when it goes on or yields, and only a spawn adds a fiber. */
  lemma {:induction false} StepLogs<T>(w: World<T>, f: nat)
    requires CanStep(w, f)
    ensures var w' := StepOf(w, f); var script := w.fibers[f].script;
            && |w'.mutexes| == |w.mutexes| && |w'.channels| == |w.channels|
            && (w'.calls == w.calls <==> script.Done? || (w'.current.None? && !script.op.Yield?))
            && (w'.calls != w.calls ==> exists got :: w'.calls == w.calls + [Call(f, script.op, got)])
            && w'.origin == w.origin + if script.Then? && script.op.Spawn? then [script.op.child] else []
  {
    var script := w.fibers[f].script;
    var w' := StepOf(w, f);
    hide Work;
    if script.Then? {
      assert |w.calls + [Call(f, script.op, None)]| > |w.calls|;
      if script.op.Receive? && w.channels[script.op.c].queue != [] {
        var got := Some(w.channels[script.op.c].queue[0]);
        assert w'.calls == w.calls + [Call(f, script.op, got)];
        assert |w'.calls| > |w.calls|;
      } else if w'.current.Some? || script.op.Yield? {
        assert w'.calls == w.calls + [Call(f, script.op, None)];
      }
    }
  }

  /** Over any number of moves, the log grows, and the fibers are the old ones and one for every spawn logged. */
  lemma {:induction false} RunLogs<T>(w: World<T>, n: nat)
    ensures var w' := Iterate(w, n);
            && w.calls <= w'.calls && |w'.mutexes| == |w.mutexes| && |w'.channels| == |w.channels|
            && w'.origin == w.origin + Children(w'.calls[|w.calls|..])
  {
    hide Advance, Children;
    if n == 0 {
      NoNewCalls(w.calls, w.origin);
    } else {
      RunLogs(w, n - 1);
      var v := Iterate(w, n - 1);
      AdvanceLogs(v);
      var w' := Advance(v);
      if w'.calls != v.calls {
        var call :| w'.calls == v.calls + [call] &&
                    w'.origin == v.origin + if call.op.Spawn? then [call.op.child] else [];
        LogGrows(w.calls, v.calls, call, w.origin);
      }
    }
  }

  lemma {:induction false} LogGrows<T>(before: seq<Call<T>>, calls: seq<Call<T>>, call: Call<T>,
                                       origin: seq<Script<T>>)
    requires before <= calls
    ensures var child := if call.op.Spawn? then [call.op.child] else [];
            && before <= calls + [call]
            && origin + Children(calls[|before|..]) + child == origin + Children((calls + [call])[|before|..])
  {
    var since := calls[|before|..];
    assert (calls + [call])[|before|..] == since + [call];
    OneMoreCall(since, call, 0);
  }

  lemma {:induction false} AdvanceLogs<T>(w: World<T>)
    ensures var w' := Advance(w);
            && |w'.mutexes| == |w.mutexes| && |w'.channels| == |w.channels|
            && (w'.calls == w.calls ==> w'.origin == w.origin)
            && (w'.calls != w.calls ==>
                exists call :: w'.calls == w.calls + [call] &&
                               w'.origin == w.origin + if call.op.Spawn? then [call.op.child] else [])
  {
    if w.current.Some? && CanStep(w, w.current.value) {
      var f := w.current.value;
      StepLogs(w, f);
      var w' := StepOf(w, f);
      if w'.calls != w.calls {
        var got :| w'.calls == w.calls + [Call(f, w.fibers[f].script.op, got)];
        var call := Call(f, w.fibers[f].script.op, got);
        assert w'.calls == w.calls + [call];
      } else {
        assert w.fibers[f].script.Then? && w.fibers[f].script.op.Spawn? ==> w'.current.Some?;
      }
    }
  }

  lemma {:induction false} NoNewCalls<T>(calls: seq<Call<T>>, origin: seq<Script<T>>)
    ensures calls[|calls|..] == [] && Children(calls[|calls|..]) == [] && origin + [] == origin
  {
  }

  // ---- First come, first served ----

  /** Whether the scheduler's next move takes a fiber from the ready queue. */
  ghost predicate Dispatches<T>(w: World<T>) { w.current.None? && w.ready != [] && w.ready[0] < |w.fibers| }

  /** The ready queue loses its front to a dispatch and nothing otherwise; what comes goes to its back. */
  lemma {:induction false} ReadyIsQueue<T>(w: World<T>)
    ensures if Dispatches(w) then Advance(w).ready == w.ready[1..] else w.ready <= Advance(w).ready
    ensures Dispatches(w) ==> Advance(w).current == Some(w.ready[0])
  {
  }

  ghost function DispatchCount<T>(w: World<T>, n: nat): nat {
    if n == 0 then 0 else DispatchCount(w, n - 1) + if Dispatches(Iterate(w, n - 1)) then 1 else 0
  }

  /** Nobody overtakes: after d dispatches the fibers that were ready, but for the first d, still come first and in the
      same order; so the fiber at place d runs next. */
  lemma {:induction false} NobodyOvertakes<T>(w: World<T>, n: nat)
    ensures var d := DispatchCount(w, n); d <= |w.ready| ==> w.ready[d..] <= Iterate(w, n).ready
  {
    hide Advance;
    if n > 0 {
      NobodyOvertakes(w, n - 1);
      var v := Iterate(w, n - 1);
      ReadyIsQueue(v);
    }
  }

  /** A wait list loses nobody but its longest waiter, who becomes ready, and takes a new waiter at its back, who is
      the running fiber. */
  ghost predicate ServedInOrder<T>(w: World<T>, w': World<T>, ws: seq<nat>, ws': seq<nat>) {
    || ws' == ws
    || (ws != [] && ws' == ws[1..] && w'.ready == w.ready + [ws[0]])
    || (w.current.Some? && ws' == ws + [w.current.value] && w'.ready == w.ready)
  }

  lemma {:induction false} WaitersInOrder<T>(w: World<T>, r: Resource)
    requires WorldOk(w) && Exists(r, w.mutexes, w.channels)
    ensures var w' := Advance(w);
            && Exists(r, w'.mutexes, w'.channels)
            && InOrder(w, w', r)
  {
    hide WorldOk, LockOf, UnlockOf, SendOf, ReceiveOf;
    AdvanceLogs(w);
    if w.current.Some? && CanStep(w, w.current.value) && w.fibers[w.current.value].script.Then? {
      var f, op := w.current.value, w.fibers[w.current.value].script.op;
      if op.Lock? || op.Unlock? {
        MutexInOrder(w, f, op.m, r);
      } else if op.Send? {
        FrontExists(w, Item(op.c));
        SendInOrder(w, f, op.c, op.v, r);
      } else if op.Receive? {
        FrontExists(w, Slot(op.c));
        ReceiveInOrder(w, f, op.c, r);
      }
    }
  }

  ghost predicate InOrder<T>(w: World<T>, w': World<T>, r: Resource)
    requires Exists(r, w.mutexes, w.channels) && Exists(r, w'.mutexes, w'.channels)
  {
    ServedInOrder(w, w', WaitersOf(r, w.mutexes, w.channels), WaitersOf(r, w'.mutexes, w'.channels))
  }

  lemma {:induction false} MutexInOrder<T>(w: World<T>, f: nat, m: nat, r: Resource)
    requires WorldOk(w) && Exists(r, w.mutexes, w.channels) && m < |w.mutexes|
    ensures Calls(w, f, Lock(m)) ==> |LockOf(w, f, m).mutexes| == |w.mutexes| && InOrder(w, LockOf(w, f, m), r)
    ensures Calls(w, f, Unlock(m)) ==>
              |UnlockOf(w, f, m).mutexes| == |w.mutexes| && InOrder(w, UnlockOf(w, f, m), r)
  {
    FrontExists(w, Held(m));
    hide WorldOk;
  }

  lemma {:induction false} SendInOrder<T>(w: World<T>, f: nat, c: nat, v: T, r: Resource)
    requires Calls(w, f, Send(c, v)) && c < |w.channels| && Exists(r, w.mutexes, w.channels)
    requires var ws := w.channels[c].recvWaiters; ws != [] ==> ws[0] < |w.fibers|
    ensures |SendOf(w, f, c, v).channels| == |w.channels| && InOrder(w, SendOf(w, f, c, v), r)
  {
  }

  lemma {:induction false} ReceiveInOrder<T>(w: World<T>, f: nat, c: nat, r: Resource)
    requires Calls(w, f, Receive(c)) && c < |w.channels| && Exists(r, w.mutexes, w.channels)
    requires var ws := w.channels[c].sendWaiters; ws != [] ==> ws[0] < |w.fibers|
    ensures |ReceiveOf(w, f, c).channels| == |w.channels| && InOrder(w, ReceiveOf(w, f, c), r)
  {
  }

  lemma {:induction false} FrontExists<T>(w: World<T>, r: Resource)
    requires WorldOk(w) && Exists(r, w.mutexes, w.channels)
    ensures var ws := WaitersOf(r, w.mutexes, w.channels); ws != [] ==> ws[0] < |w.fibers|
  {
    var ws := WaitersOf(r, w.mutexes, w.channels);
    assert WaitOk(w.fibers, r, ws, Available(r, w.mutexes, w.channels) - Owes(None, r));
    if ws != [] {
      assert ws[0] in ws;
    }
  }

  /** Every move keeps the world in order. */
  lemma {:induction false} StepKeeps<T>(w: World<T>, f: nat)
    requires WorldOk(w) && w.current == Some(f)
    ensures CanStep(w, f) && WorldOk(StepOf(w, f))
  {
    hide WorldOk, LockOf, UnlockOf, SendOf, ReceiveOf, YieldOf, FinishOf, SpawnsOf, Completes;
    NamedCall(w, f);
    var script := w.fibers[f].script;
    if script.Done? {
      FinishKeeps(w, f);
    } else {
      match script.op
      case Lock(m) => LockKeeps(w, f, m);
      case Unlock(m) => UnlockKeeps(w, f, m);
      case Send(c, v) => SendKeeps(w, f, c, v);
      case Receive(c) => ReceiveKeeps(w, f, c);
      case Yield => YieldKeeps(w, f);
      case Spawn(child) => SpawnCallKeeps(w, f, child);
    }
  }
}

/** The scheduler with its mutexes and channels. `Run` drives every spawned fiber until nothing is ready. */
module FiberScheduler {
  import opened Common
  import opened FiberState
  import opened FiberLocks
  import opened FiberWorld

  class FiberRuntime<T> {
    var fibers: seq<Fiber<T>>
    var ready: seq<nat>
    var current: Option<nat>
    var mutexes: seq<Mutex>
    var channels: seq<Channel<T>>
    ghost var origin: seq<Script<T>>  // every fiber's script as it was spawned
    ghost var calls: seq<Call<T>>     // the calls completed so far

    ghost function Now(): World<T>
      reads this
    {
      World(fibers, ready, current, mutexes, channels, origin, calls)
    }

    /** The queues are consistent, and scripts, mutexes and channels are what the completed calls made of them. */
    ghost predicate Valid()
      reads this
    {
      WorldOk(Now())
    }

    /** In every state the mutexes have excluded so far if and only if nobody was let in after a fiber unlocked what
        another one held. While only holders unlock, somebody is inside exactly when the mutex is locked. */
    lemma {:induction false} MutualExclusion()
      requires Valid()
      ensures var trace := LockTrace(calls);
              && (Exclusive(trace) <==> forall g: nat, i: nat, j: nat :: !LetsIn(trace, g, i, j))
              && (Disciplined(trace) ==> forall m: nat :: m < |mutexes| ==>
                    AtMostOne(trace, m) && (mutexes[m].locked <==> Occupied(trace, m)))
    {
      var trace := LockTrace(calls);
      ExclusiveIff(trace);
      if Disciplined(trace) {
        forall m: nat | m < |mutexes| ensures AtMostOne(trace, m) && (mutexes[m].locked <==> Occupied(trace, m)) {
          OneInside(trace, m);
        }
      }
    }

    /** Fiber f runs and stands before a call. */
    ghost predicate InCall(f: nat, op: Op<T>)
      reads this
    {
      Valid() && Calls(Now(), f, op) && Named(Now(), op)
    }

    constructor (mutexCount: nat, capacities: seq<nat>)
      ensures Valid() && fibers == [] && ready == [] && current == None && origin == [] && calls == []
      ensures mutexes == seq(mutexCount, _ => Mutex(false, [])) && |channels| == |capacities|
      ensures forall c :: 0 <= c < |channels| ==> channels[c] == Channel(capacities[c], [], [], [], [], [])
    {
      fibers, ready, current, origin, calls := [], [], None, [], [];
      mutexes := seq(mutexCount, _ => Mutex(false, []));
      channels := seq(|capacities|, i requires 0 <= i < |capacities| =>
        Channel(capacities[i], [], [], [], [], []));
    }

    /** A spawned fiber goes to the back of the ready queue. */
    method Spawn(child: Script<T>)
      requires Valid() && WellFormed(child, |mutexes|, |channels|)
      modifies this`fibers, this`ready, this`origin
      ensures Valid() && Now() == SpawnsOf(old(Now()), child)
    {
      hide WorldOk;
      SpawnKeeps(Now(), child);
      fibers, ready, origin := fibers + [Fiber(Ready, child)], ready + [|fibers|], origin + [child];
    }

    /** The current fiber's next call is done; it goes on running. */
    method Completed(f: nat, ghost got: Option<T>)
      requires f < |fibers| && fibers[f].script.Then?
      modifies this`fibers, this`calls
      ensures Now() == Completes(old(Now()), f, got)
    {
      calls := calls + [Call(f, fibers[f].script.op, got)];
      fibers := fibers[f := Fiber(Running, fibers[f].script.rest)];
    }

    method Suspend(f: nat)
      requires f < |fibers|
      modifies this`fibers, this`current
      ensures Now() == Suspends(old(Now()), f)
    {
      fibers, current := fibers[f := fibers[f].(state := Suspended)], None;
    }

    /** `resume`: a fiber taken off a wait list goes to the back of the ready queue. */
    method Resume(ws: seq<nat>)
      requires ws != [] ==> ws[0] < |fibers|
      modifies this`fibers, this`ready
      ensures Now() == WakesFirst(old(Now()), ws)
    {
      if ws != [] {
        fibers := fibers[ws[0] := fibers[ws[0]].(state := Ready)];
        ready := ready + [ws[0]];
      }
    }

    /** One attempt of `lock`: take the mutex, or suspend at the back of its wait list. */
    method LockCall(f: nat, m: nat)
      requires InCall(f, Lock(m))
      modifies this
      ensures Valid() && old(m < |mutexes|) && Now() == LockOf(old(Now()), f, m)
    {
      hide WorldOk;
      LockKeeps(Now(), f, m);
      if mutexes[m].locked {
        mutexes := mutexes[m := mutexes[m].(waiters := mutexes[m].waiters + [f])];
        Suspend(f);
      } else {
        mutexes := mutexes[m := mutexes[m].(locked := true)];
        Completed(f, None);
      }
    }

    /** `unlock`: release the mutex and make its longest waiter ready. */
    method UnlockCall(f: nat, m: nat)
      requires InCall(f, Unlock(m))
      modifies this
      ensures Valid() && old(m < |mutexes|) && Now() == UnlockOf(old(Now()), f, m)
    {
      hide WorldOk;
      UnlockKeeps(Now(), f, m);
      FrontExists(Now(), Held(m));
      var ws := mutexes[m].waiters;
      mutexes := mutexes[m := Mutex(false, Tail(ws))];
      Completed(f, None);
      Resume(ws);
    }

    /** One attempt of `send`: queue the value and wake one receiver, or suspend when the queue is full. */
    method SendCall(f: nat, c: nat, v: T)
      requires InCall(f, Send(c, v))
      modifies this
      ensures Valid() && old(c < |channels|) && Now() == SendOf(old(Now()), f, c, v)
    {
      hide WorldOk;
      SendKeeps(Now(), f, c, v);
      FrontExists(Now(), Item(c));
      var ch := channels[c];
      if |ch.queue| >= ch.capacity {
        channels := channels[c := ch.(sendWaiters := ch.sendWaiters + [f])];
        Suspend(f);
        return;
      }
      channels := channels[c := ch.(queue := ch.queue + [v], sent := ch.sent + [v],
                                    recvWaiters := Tail(ch.recvWaiters))];
      Completed(f, None);
      Resume(ch.recvWaiters);
    }

    /** One attempt of `receive`: take the oldest value and wake one sender, or suspend when empty. */
    method ReceiveCall(f: nat, c: nat) returns (out: Option<T>)
      requires InCall(f, Receive(c))
      modifies this
      ensures Valid() && old(c < |channels|) && Now() == ReceiveOf(old(Now()), f, c)
      ensures out == if old(channels)[c].queue == [] then None else Some(old(channels)[c].queue[0])
    {
      hide WorldOk;
      ReceiveKeeps(Now(), f, c);
      FrontExists(Now(), Slot(c));
      var ch := channels[c];
      if ch.queue == [] {
        channels := channels[c := ch.(recvWaiters := ch.recvWaiters + [f])];
        Suspend(f);
        return None;
      }
      out := Some(ch.queue[0]);
      channels := channels[c := ch.(queue := ch.queue[1..], received := ch.received + [ch.queue[0]],
                                    sendWaiters := Tail(ch.sendWaiters))];
      Completed(f, out);
      Resume(ch.sendWaiters);
    }

    /** `yield`: the running fiber goes to the back of the ready queue. */
    method YieldCall(f: nat)
      requires InCall(f, Yield)
      modifies this
      ensures Valid() && Now() == YieldOf(old(Now()), f)
    {
      hide WorldOk;
      YieldKeeps(Now(), f);
      Completed(f, None);
      fibers := fibers[f := fibers[f].(state := Ready)];
      ready, current := ready + [f], None;
      assert fibers == old(fibers)[f := Fiber(Ready, old(fibers)[f].script.rest)];
    }

    method SpawnCall(f: nat, child: Script<T>)
      requires InCall(f, Op<T>.Spawn(child))
      modifies this
      ensures Valid() && Now() == SpawnsOf(Completes(old(Now()), f, None), child)
    {
      ChildExists(Now(), f);
      hide WorldOk;
      SpawnCallKeeps(Now(), f, child);
      Completed(f, None);
      Spawn(child);
    }

    /** A fiber whose function returns is dead and gives the processor back. */
    method Finish(f: nat)
      requires Valid() && current == Some(f) && f < |fibers| && fibers[f].script.Done?
      modifies this`fibers, this`current
      ensures Valid() && Now() == FinishOf(old(Now()), f)
    {
      hide WorldOk;
      FinishKeeps(Now(), f);
      fibers, current := fibers[f := fibers[f].(state := Dead)], None;
    }

    /** The fiber that has been ready longest runs next. */
    method Dispatch() returns (f: nat)
      requires Valid() && current.None? && ready != []
      modifies this`fibers, this`ready, this`current
      ensures old(ready[0] < |fibers|) && f == old(ready)[0]
      ensures Valid() && Now() == DispatchOf(old(Now())) && Budget(Now()) < Budget(old(Now()))
    {
      hide WorldOk;
      DispatchKeeps(Now());
      f := ready[0];
      WorkUpdate(fibers, f, fibers[f].(state := Running));
      fibers, ready, current := fibers[f := fibers[f].(state := Running)], ready[1..], Some(f);
    }

    /** Executes the next call of the running fiber. Either the fiber goes on with less work to do, or it
        switches back to the scheduler. */
    method Step()
      requires Valid() && current.Some?
      modifies this
      ensures CanStep(old(Now()), old(current).value)
      ensures Valid() && Now() == StepOf(old(Now()), old(current).value)
      ensures Budget(Now()) <= Budget(old(Now())) && Work(fibers) <= Work(old(fibers))
      ensures current.Some? ==> Work(fibers) < Work(old(fibers))
    {
      hide WorldOk, LockOf, UnlockOf, SendOf, ReceiveOf, YieldOf, FinishOf, SpawnsOf, Completes, Work;
      var f := current.value;
      StepKeeps(Now(), f);
      StepProgress(Now(), f);
      var script := fibers[f].script;
      if script.Done? {
        Finish(f);
      } else {
        match script.op
        case Lock(m) => LockCall(f, m);
        case Unlock(m) => UnlockCall(f, m);
        case Send(c, v) => SendCall(f, c, v);
        case Receive(c) => var _ := ReceiveCall(f, c);
        case Yield => YieldCall(f);
        case Spawn(child) => SpawnCall(f, child);
      }
    }

    /** `run` terminates. It is nothing but moves of the scheduler, one after the other. When it returns every fiber
        has completed its whole script, or is suspended on a mutex that is locked, a channel that is full (sender) or
        a channel that is empty (receiver). Mutexes and channels are what the completed calls made of them. */
    method Run() returns (ghost n: nat)
      requires Valid() && current.None?
      modifies this
      ensures Valid() && ready == [] && current.None? && Now() == Iterate(old(Now()), n)
      ensures forall f :: 0 <= f < |fibers| ==> fibers[f].state.Dead? || fibers[f].state.Suspended?
      ensures |origin| == |fibers|
      ensures forall f: nat :: f < |fibers| && fibers[f].state.Dead? ==> origin[f] == Before(OpsBy(calls, f), Done)
      ensures forall f, r :: 0 <= f < |fibers| && Exists(r, mutexes, channels) && Waits(fibers[f], r) ==>
                Available(r, mutexes, channels) <= 0
      ensures forall c: nat :: c < |channels| ==>
                && channels[c].received == GotIn(calls, c) && channels[c].sent == SentIn(calls, c)
                && GotIn(calls, c) <= SentIn(calls, c) && |channels[c].queue| <= channels[c].capacity
      ensures forall m: nat :: m < |mutexes| ==> (mutexes[m].locked <==> Busy(LockTrace(calls), m))
      ensures old(calls) <= calls && origin == old(origin) + Children(calls[|old(calls)|..])
    {
      hide WorldOk, StepOf, DispatchOf, Work;
      n := 0;
      while ready != []
        invariant Valid() && current.None? && Now() == Iterate(old(Now()), n)
        decreases Budget(Now())
      {
        ghost var before := Budget(Now());
        var _ := Dispatch();
        n := n + 1;
        while current.Some?
          invariant Valid() && Budget(Now()) < before && Now() == Iterate(old(Now()), n)
          decreases Work(fibers), if current.Some? then 1 else 0
        {
          Step();
          n := n + 1;
        }
      }
      RunLogs(old(Now()), n);
      AtRest(Now());
    }
  }

  lemma {:induction false} ChildExists<T>(w: World<T>, f: nat)
    requires WorldOk(w) && f < |w.fibers| && w.fibers[f].script.Then? && w.fibers[f].script.op.Spawn?
    ensures WellFormed(w.fibers[f].script.op.child, |w.mutexes|, |w.channels|)
  {
    assert FiberOk(w.fibers[f], |w.mutexes|, |w.channels|);
  }

  /** What holds when nothing is ready. */
  lemma {:induction false} AtRest<T>(w: World<T>)
    requires WorldOk(w) && w.ready == [] && w.current.None?
    ensures forall f :: 0 <= f < |w.fibers| ==> w.fibers[f].state.Dead? || w.fibers[f].state.Suspended?
    ensures |w.origin| == |w.fibers|
    ensures forall f: nat :: f < |w.fibers| && w.fibers[f].state.Dead? ==>
              w.origin[f] == Before(OpsBy(w.calls, f), Done)
    ensures forall f, r :: 0 <= f < |w.fibers| && Exists(r, w.mutexes, w.channels) && Waits(w.fibers[f], r) ==>
              Available(r, w.mutexes, w.channels) <= 0
    ensures forall c: nat :: c < |w.channels| ==>
              && w.channels[c].received == GotIn(w.calls, c) && w.channels[c].sent == SentIn(w.calls, c)
              && GotIn(w.calls, c) <= SentIn(w.calls, c) && |w.channels[c].queue| <= w.channels[c].capacity
    ensures forall m: nat :: m < |w.mutexes| ==> (w.mutexes[m].locked <==> Busy(LockTrace(w.calls), m))
  {
    forall f: nat | f < |w.fibers|
      ensures w.fibers[f].state.Dead? || w.fibers[f].state.Suspended?
      ensures w.fibers[f].state.Dead? ==> w.origin[f] == Before(OpsBy(w.calls, f), Done)
    {
      assert f !in w.ready && ScriptOk(w, f) && FiberOk(w.fibers[f], |w.mutexes|, |w.channels|);
    }
    forall f, r | 0 <= f < |w.fibers| && Exists(r, w.mutexes, w.channels) && Waits(w.fibers[f], r)
      ensures Available(r, w.mutexes, w.channels) <= 0
    {
      assert f in WaitersOf(r, w.mutexes, w.channels);
      StuckIsJustified(w.fibers, w.mutexes, w.channels, r);
    }
    forall c: nat | c < |w.channels|
      ensures w.channels[c].received == GotIn(w.calls, c) && w.channels[c].sent == SentIn(w.calls, c)
      ensures GotIn(w.calls, c) <= SentIn(w.calls, c) && |w.channels[c].queue| <= w.channels[c].capacity
    {
      assert ChannelOk(w.channels[c]) && Logged(w.channels, w.calls, c);
    }
  }

  /** A fiber locks a mutex. A second one unlocks it and locks it: both are inside. */
  method StolenMutex() returns (runtime: FiberRuntime<nat>)
    ensures runtime.Valid() && Inside(LockTrace(runtime.calls), 0, 0) && Inside(LockTrace(runtime.calls), 1, 0)
  {
    hide WorldOk, Inside, Work;
    runtime := new FiberRuntime<nat>(1, []);
    var locker, thief := Then(Lock(0), Done), Then(Unlock(0), Then(Lock(0), Done));
    runtime.Spawn(locker);
    runtime.Spawn(thief);
    var f := runtime.Dispatch();
    runtime.LockCall(0, 0);
    runtime.Finish(0);
    f := runtime.Dispatch();
    runtime.UnlockCall(1, 0);
    runtime.LockCall(1, 0);
    StolenCalls(runtime.calls);
  }

  lemma {:induction false} StolenCalls(calls: seq<Call<nat>>)
    requires calls == [Call(0, Lock(0), None), Call(1, Unlock(0), None), Call(1, Lock(0), None)]
    ensures Inside(LockTrace(calls), 0, 0) && Inside(LockTrace(calls), 1, 0)
  {
    var first := [Call(0, Lock(0), None)];
    var second := first + [Call(1, Unlock(0), None)];
    assert [] + first == first && calls == second + [Call(1, Lock(0), None)];
    OneMoreCall<nat>([], first[0], 0);
    OneMoreCall(first, Call(1, Unlock(0), None), 0);
    OneMoreCall(second, Call(1, Lock(0), None), 0);
    assert LockTrace(calls) == [Locked(0, 0), Unlocked(1, 0), Locked(1, 0)];
    StolenTrace(LockTrace(calls));
  }

  lemma {:induction false} StolenTrace(trace: seq<Event>)
    requires trace == [Locked(0, 0), Unlocked(1, 0), Locked(1, 0)]
    ensures Inside(trace, 0, 0) && Inside(trace, 1, 0)
  {
    var one := [Locked(0, 0)];
    var two := one + [Unlocked(1, 0)];
    assert [] + one == one && trace == two + [Locked(1, 0)];
    AfterEvent([], one[0], 0, 0);
    AfterEvent(one, Unlocked(1, 0), 0, 0);
    AfterEvent(two, Locked(1, 0), 0, 0);
    AfterEvent(two, Locked(1, 0), 1, 0);
  }
}
