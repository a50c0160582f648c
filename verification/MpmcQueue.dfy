/** The bounded multi-producer multi-consumer ring queue as a transition system.

    Any number of threads interleave their atomic steps: the loads, compare-exchanges and stores of
    `emplace` and `pop`, and the plain write and read of the cell's data. Positions are unbounded, and
    `pos & mask` is the remainder modulo the capacity (see Bits.MaskIsModulo). `pushed` and `popped`
    record what each claimed position was given and what it returned; no step reads them. */
module MpmcQueue {
  import opened Common

  datatype Cell<T> = Cell(sequence: nat, data: T)

  /** A thread's program point with its local variables. */
  datatype Local<T> =
    | Idle
    | PushReload(v: T)              // about to load enqueue_pos_
    | PushSeq(v: T, pos: nat)       // about to load the cell's sequence
    | PushCas(v: T, pos: nat)       // saw sequence == pos, about to claim
    | PushWrite(v: T, pos: nat)     // claimed pos, about to write the data
    | PushPublish(v: T, pos: nat)   // wrote the data, about to store pos + 1
    | PopReload
    | PopSeq(pos: nat)
    | PopCas(pos: nat)              // saw sequence == pos + 1, about to claim
    | PopRead(pos: nat)             // claimed pos, about to move the data out
    | PopRelease(pos: nat, out: T)  // has the data, about to store pos + capacity

  datatype State<T> = State(cells: seq<Cell<T>>, enq: nat, deq: nat, threads: seq<Local<T>>,
                            pushed: seq<T>, popped: map<nat, T>)

  datatype Action<T> =
    | CallPush(v: T) | LoadEnq | LoadPushSeq | ClaimPush(spurious: bool) | Write | Publish
    | CallPop | LoadDeq | LoadPopSeq | ClaimPop(spurious: bool) | Read(movedFrom: T) | Release

  ghost predicate Init<T>(s: State<T>) {
    && |s.cells| >= 2
    && (forall i :: 0 <= i < |s.cells| ==> s.cells[i].sequence == i)
    && (forall t :: 0 <= t < |s.threads| ==> s.threads[t] == Idle)
    && s.enq == 0 && s.deq == 0 && s.pushed == [] && s.popped == map[]
  }

  ghost predicate Enabled<T>(s: State<T>, t: nat, a: Action<T>) {
    && t < |s.threads|
    && |s.cells| > 0
    && match a
       case CallPush(_) => s.threads[t].Idle?
       case LoadEnq => s.threads[t].PushReload?
       case LoadPushSeq => s.threads[t].PushSeq?
       case ClaimPush(_) => s.threads[t].PushCas?
       case Write => s.threads[t].PushWrite?
       case Publish => s.threads[t].PushPublish?
       case CallPop => s.threads[t].Idle?
       case LoadDeq => s.threads[t].PopReload?
       case LoadPopSeq => s.threads[t].PopSeq?
       case ClaimPop(_) => s.threads[t].PopCas?
       case Read(_) => s.threads[t].PopRead?
       case Release => s.threads[t].PopRelease?
  }

  ghost function At<T>(s: State<T>, t: nat, l: Local<T>): State<T>
    requires t < |s.threads|
  {
    s.(threads := s.threads[t := l])
  }

  ghost function Store<T>(s: State<T>, pos: nat, c: Cell<T>): State<T>
    requires |s.cells| > 0
  {
    s.(cells := s.cells[pos % |s.cells| := c])
  }

  /** The sequence number of the cell that position `pos` uses. */
  ghost function SeqAt<T>(s: State<T>, pos: nat): nat
    requires |s.cells| > 0
  {
    s.cells[pos % |s.cells|].sequence
  }

  ghost function Apply<T>(s: State<T>, t: nat, a: Action<T>): State<T>
    requires Enabled(s, t, a)
  {
    var l := s.threads[t];
    match a
    case CallPush(v) => At(s, t, PushReload(v))
    case LoadEnq => At(s, t, PushSeq(l.v, s.enq))
    case LoadPushSeq =>
      var seqn := SeqAt(s, l.pos);
      At(s, t, if seqn == l.pos then PushCas(l.v, l.pos)
               else if seqn < l.pos then Idle               // queue full: return false
               else PushReload(l.v))
    case ClaimPush(spurious) =>
      if s.enq == l.pos && !spurious
      then At(s, t, PushWrite(l.v, l.pos)).(enq := s.enq + 1, pushed := s.pushed + [l.v])
      else At(s, t, PushSeq(l.v, s.enq))                     // the failed exchange reloads pos
    case Write =>
      Store(At(s, t, PushPublish(l.v, l.pos)), l.pos, Cell(SeqAt(s, l.pos), l.v))
    case Publish =>
      Store(At(s, t, Idle), l.pos, s.cells[l.pos % |s.cells|].(sequence := l.pos + 1))
    case CallPop => At(s, t, PopReload)
    case LoadDeq => At(s, t, PopSeq(s.deq))
    case LoadPopSeq =>
      var seqn := SeqAt(s, l.pos);
      At(s, t, if seqn == l.pos + 1 then PopCas(l.pos)
               else if seqn < l.pos + 1 then Idle           // queue empty: return false
               else PopReload)
    case ClaimPop(spurious) =>
      if s.deq == l.pos && !spurious
      then At(s, t, PopRead(l.pos)).(deq := s.deq + 1)
      else At(s, t, PopSeq(s.deq))
    case Read(junk) =>
      Store(At(s, t, PopRelease(l.pos, s.cells[l.pos % |s.cells|].data)), l.pos,
            Cell(SeqAt(s, l.pos), junk))
    case Release =>
      Store(At(s, t, Idle), l.pos, s.cells[l.pos % |s.cells|].(sequence := l.pos + |s.cells|))
        .(popped := s.popped[l.pos := l.out])
  }

  ghost predicate Next<T(!new)>(s: State<T>, s': State<T>) {
    exists t, a :: Enabled(s, t, a) && s' == Apply(s, t, a)
  }

  ghost predicate Run<T(!new)>(run: seq<State<T>>) {
    |run| > 0 && Init(run[0]) && forall i :: 0 < i < |run| ==> Next(run[i - 1], run[i])
  }

  // ---- Invariant ----

  predicate InPush<T>(l: Local<T>) { l.PushWrite? || l.PushPublish? }

  predicate InPop<T>(l: Local<T>) { l.PopRead? || l.PopRelease? }

  ghost predicate Producing<T>(s: State<T>, p: int) {
    exists t :: 0 <= t < |s.threads| && InPush(s.threads[t]) && s.threads[t].pos == p
  }

  ghost predicate Consuming<T>(s: State<T>, p: int) {
    exists t :: 0 <= t < |s.threads| && InPop(s.threads[t]) && s.threads[t].pos == p
  }

  ghost predicate Exclusive<T>(s: State<T>) {
    forall t, u :: 0 <= t < u < |s.threads| ==>
      && (InPush(s.threads[t]) && InPush(s.threads[u]) ==> s.threads[t].pos != s.threads[u].pos)
      && (InPop(s.threads[t]) && InPop(s.threads[u]) ==> s.threads[t].pos != s.threads[u].pos)
  }

  /** The cell is waiting for the value of position `b`: free, or being written by b's producer. */
  ghost predicate Vacant<T>(s: State<T>, c: Cell<T>, b: int) {
    c.sequence == b && s.deq <= b < s.deq + |s.cells| && (b < s.enq ==> Producing(s, b))
  }

  /** The cell holds the value of position `b`, or b's consumer is moving it out. */
  ghost predicate Full<T>(s: State<T>, c: Cell<T>, b: int) {
    && c.sequence == b + 1
    && 0 <= b < s.enq == |s.pushed|
    && (if b < s.deq then Consuming(s, b) else c.data == s.pushed[b])
  }

  /** Cell i is in the lap of position `b`, and no later position of cell i has been claimed. */
  ghost predicate CellOk<T>(s: State<T>, i: nat, b: int)
    requires i < |s.cells|
  {
    && 0 <= b && b % |s.cells| == i
    && s.enq <= b + |s.cells|
    && (Vacant(s, s.cells[i], b) || Full(s, s.cells[i], b))
  }

  ghost predicate LocalOk<T>(s: State<T>, base: seq<int>, l: Local<T>)
    requires |base| == |s.cells| > 0 && |s.pushed| == s.enq
  {
    match l
    case PushSeq(_, p) => p <= s.enq
    case PushCas(_, p) => p <= s.enq && p <= SeqAt(s, p)
    case PushWrite(v, p) =>
      p < s.enq && s.pushed[p] == v && base[p % |base|] == p == SeqAt(s, p)
    case PushPublish(v, p) =>
      p < s.enq && s.pushed[p] == v && base[p % |base|] == p == SeqAt(s, p)
      && s.cells[p % |base|].data == v
    case PopSeq(p) => p <= s.deq
    case PopCas(p) => p <= s.deq && p + 1 <= SeqAt(s, p)
    case PopRead(p) =>
      p < s.deq && p < s.enq && base[p % |base|] == p && SeqAt(s, p) == p + 1
      && s.cells[p % |base|].data == s.pushed[p]
    case PopRelease(p, out) =>
      p < s.deq && p < s.enq && base[p % |base|] == p && SeqAt(s, p) == p + 1 && out == s.pushed[p]
    case _ => true
  }

  ghost predicate PoppedOk<T>(s: State<T>) {
    && (forall p :: p in s.popped ==> p < s.deq && p < |s.pushed| && s.popped[p] == s.pushed[p])
    && (forall p: nat :: p < s.deq ==> p in s.popped || Consuming(s, p))
    && (forall p :: p in s.popped ==> !Consuming(s, p))
  }

  ghost predicate Shape<T>(s: State<T>, base: seq<int>) {
    && 2 <= |s.cells| == |base|
    && |s.pushed| == s.enq
    && s.deq <= s.enq <= s.deq + |s.cells|
  }

  /** `base[i]` is the position whose lap cell i is in. */
  ghost predicate InvFor<T>(s: State<T>, base: seq<int>) {
    && Shape(s, base)
    && (forall i :: 0 <= i < |s.cells| ==> CellOk(s, i, base[i]))
    && (forall t :: 0 <= t < |s.threads| ==> LocalOk(s, base, s.threads[t]))
    && Exclusive(s)
    && PoppedOk(s)
  }

  ghost predicate Inv<T>(s: State<T>) { exists base :: InvFor(s, base) }

  // ---- Arithmetic of laps ----

  lemma {:induction false} Multiple(k: int, n: nat)
    ensures k * n > 0 ==> k * n >= n
    ensures k * n < 0 ==> k * n + n <= 0
  {
    if k > 0 {
      assert (k - 1) * n >= 0;
    } else if k < 0 {
      assert (-k - 1) * n >= 0;
    }
  }

  lemma {:induction false} SameCell(p: nat, q: nat, n: nat)
    requires n > 0 && p % n == q % n && p < q
    ensures p + n <= q
  {
    assert q - p == (q / n - p / n) * n;
    Multiple(q / n - p / n, n);
  }

  lemma {:induction false} NextLap(p: nat, n: nat)
    requires n > 0
    ensures (p + n) % n == p % n
  {
    assert p + n == (p / n + 1) * n + p % n;
    ModUnique(p + n, p / n + 1, p % n, n);
  }

  // ---- Every step keeps the invariant ----

  /** Owners other than thread t are not affected by a step of t. */
  lemma {:induction false} OwnersKept<T>(s: State<T>, s': State<T>, t: nat, l: Local<T>)
    requires t < |s.threads| && s'.threads == s.threads[t := l]
    ensures forall p: int :: Producing(s, p) ==>
              Producing(s', p) || (InPush(s.threads[t]) && s.threads[t].pos == p)
    ensures forall p: int :: Consuming(s, p) ==>
              Consuming(s', p) || (InPop(s.threads[t]) && s.threads[t].pos == p)
    ensures forall p: int :: Producing(s', p) ==> Producing(s, p) || (InPush(l) && l.pos == p)
    ensures forall p: int :: Consuming(s', p) ==> Consuming(s, p) || (InPop(l) && l.pos == p)
    ensures InPush(l) ==> Producing(s', l.pos)
    ensures InPop(l) ==> Consuming(s', l.pos)
  {
    forall p: int | Producing(s, p) && !(InPush(s.threads[t]) && s.threads[t].pos == p)
      ensures Producing(s', p)
    {
      var u :| 0 <= u < |s.threads| && InPush(s.threads[u]) && s.threads[u].pos == p;
      assert s'.threads[u] == s.threads[u];
    }
    forall p: int | Consuming(s, p) && !(InPop(s.threads[t]) && s.threads[t].pos == p)
      ensures Consuming(s', p)
    {
      var u :| 0 <= u < |s.threads| && InPop(s.threads[u]) && s.threads[u].pos == p;
      assert s'.threads[u] == s.threads[u];
    }
    assert s'.threads[t] == l;
  }

  /** A step that moves thread t between program points that own nothing. */
  lemma {:induction false} QuietStep<T>(s: State<T>, base: seq<int>, t: nat, l: Local<T>)
    requires InvFor(s, base) && t < |s.threads|
    requires !InPush(s.threads[t]) && !InPop(s.threads[t]) && !InPush(l) && !InPop(l)
    requires LocalOk(s, base, l)
    ensures InvFor(At(s, t, l), base)
  {
    var s' := At(s, t, l);
    OwnersKept(s, s', t, l);
    forall i | 0 <= i < |s.cells| ensures CellOk(s', i, base[i]) {
      assert CellOk(s, i, base[i]);
    }
    forall u | 0 <= u < |s'.threads| ensures LocalOk(s', base, s'.threads[u]) {
      assert u != t ==> LocalOk(s, base, s.threads[u]);
    }
  }

  /** A producer about to claim the true enqueue position finds its cell vacant. */
  lemma {:induction false} ClaimableIsVacant<T>(s: State<T>, base: seq<int>, p: nat)
    requires InvFor(s, base) && p == s.enq && p <= SeqAt(s, p)
    ensures base[p % |base|] == p == SeqAt(s, p) && p < s.deq + |s.cells|
  {
    var i := p % |base|;
    assert CellOk(s, i, base[i]);
    if base[i] < p { SameCell(base[i], p, |base|); }
    if base[i] > p { SameCell(p, base[i], |base|); }
  }

  lemma {:induction false} ClaimPushStep<T>(s: State<T>, base: seq<int>, t: nat)
    requires InvFor(s, base) && Enabled(s, t, ClaimPush(false)) && s.threads[t].pos == s.enq
    ensures InvFor(Apply(s, t, ClaimPush(false)), base)
  {
    var l := s.threads[t];
    var s' := Apply(s, t, ClaimPush(false));
    OwnersKept(s, s', t, PushWrite(l.v, l.pos));
    ClaimableIsVacant(s, base, l.pos);
    forall i | 0 <= i < |s'.cells| ensures CellOk(s', i, base[i]) {
      assert CellOk(s, i, base[i]);
      if s.enq == base[i] + |base| { NextLap(base[i], |base|); }
    }
    forall u | 0 <= u < |s'.threads| ensures LocalOk(s', base, s'.threads[u]) {
      assert LocalOk(s, base, s.threads[u]);
    }
    forall u | 0 <= u < |s.threads| && InPush(s.threads[u]) ensures s.threads[u].pos < s.enq {
      assert LocalOk(s, base, s.threads[u]);
    }
  }

  lemma {:induction false} WriteStep<T>(s: State<T>, base: seq<int>, t: nat)
    requires InvFor(s, base) && Enabled(s, t, Write)
    ensures InvFor(Apply(s, t, Write), base)
  {
    var l := s.threads[t];
    var s' := Apply(s, t, Write);
    OwnersKept(s, s', t, PushPublish(l.v, l.pos));
    assert LocalOk(s, base, l);
    forall i | 0 <= i < |s'.cells| ensures CellOk(s', i, base[i]) {
      assert CellOk(s, i, base[i]);
    }
    forall u | 0 <= u < |s'.threads| ensures LocalOk(s', base, s'.threads[u]) {
      assert LocalOk(s, base, s.threads[u]);
    }
  }

  lemma {:induction false} PublishStep<T>(s: State<T>, base: seq<int>, t: nat)
    requires InvFor(s, base) && Enabled(s, t, Publish)
    ensures InvFor(Apply(s, t, Publish), base)
  {
    var l := s.threads[t];
    var s' := Apply(s, t, Publish);
    OwnersKept(s, s', t, Idle);
    assert LocalOk(s, base, l);
    forall i | 0 <= i < |s'.cells| ensures CellOk(s', i, base[i]) {
      assert CellOk(s, i, base[i]);
    }
    forall u | 0 <= u < |s'.threads| ensures LocalOk(s', base, s'.threads[u]) {
      assert LocalOk(s, base, s.threads[u]);
    }
  }

  /** A consumer about to claim the true dequeue position finds its value published. */
  lemma {:induction false} ClaimableIsFull<T>(s: State<T>, base: seq<int>, p: nat)
    requires InvFor(s, base) && p == s.deq && p + 1 <= SeqAt(s, p)
    ensures base[p % |base|] == p && SeqAt(s, p) == p + 1 && p < s.enq
    ensures s.cells[p % |base|].data == s.pushed[p]
  {
    var i := p % |base|;
    assert CellOk(s, i, base[i]);
    if base[i] > p { SameCell(p, base[i], |base|); }
  }

  lemma {:induction false} ClaimPopStep<T>(s: State<T>, base: seq<int>, t: nat)
    requires InvFor(s, base) && Enabled(s, t, ClaimPop(false)) && s.threads[t].pos == s.deq
    ensures InvFor(Apply(s, t, ClaimPop(false)), base)
  {
    var l := s.threads[t];
    var s' := Apply(s, t, ClaimPop(false));
    OwnersKept(s, s', t, PopRead(l.pos));
    assert LocalOk(s, base, l);
    ClaimableIsFull(s, base, l.pos);
    forall i | 0 <= i < |s'.cells| ensures CellOk(s', i, base[i]) {
      assert CellOk(s, i, base[i]);
    }
    forall u | 0 <= u < |s'.threads| ensures LocalOk(s', base, s'.threads[u]) {
      assert LocalOk(s, base, s.threads[u]);
    }
    forall u | 0 <= u < |s.threads| && InPop(s.threads[u]) ensures s.threads[u].pos < s.deq {
      assert LocalOk(s, base, s.threads[u]);
    }
  }

  lemma {:induction false} ReadStep<T>(s: State<T>, base: seq<int>, t: nat, junk: T)
    requires InvFor(s, base) && Enabled(s, t, Read(junk))
    ensures InvFor(Apply(s, t, Read(junk)), base)
  {
    var l := s.threads[t];
    var s' := Apply(s, t, Read(junk));
    OwnersKept(s, s', t, PopRelease(l.pos, s.cells[l.pos % |s.cells|].data));
    assert LocalOk(s, base, l);
    forall i | 0 <= i < |s'.cells| ensures CellOk(s', i, base[i]) {
      assert CellOk(s, i, base[i]);
    }
    forall u | 0 <= u < |s'.threads| ensures LocalOk(s', base, s'.threads[u]) {
      assert LocalOk(s, base, s.threads[u]);
    }
  }

  lemma {:induction false} ReleaseKeepsCells<T>(s: State<T>, base: seq<int>, t: nat, i: nat)
    requires InvFor(s, base) && Enabled(s, t, Release) && i < |s.cells|
    ensures CellOk(Apply(s, t, Release), i,
                   base[s.threads[t].pos % |base| := s.threads[t].pos + |base|][i])
  {
    var l := s.threads[t];
    OwnersKept(s, Apply(s, t, Release), t, Idle);
    assert LocalOk(s, base, l);
    assert CellOk(s, i, base[i]);
    NextLap(l.pos, |base|);
  }

  lemma {:induction false} ReleaseKeepsLocals<T>(s: State<T>, base: seq<int>, t: nat, u: nat)
    requires InvFor(s, base) && Enabled(s, t, Release) && u < |s.threads| && u != t
    ensures LocalOk(Apply(s, t, Release),
                    base[s.threads[t].pos % |base| := s.threads[t].pos + |base|], s.threads[u])
    ensures InPop(s.threads[u]) ==> s.threads[u].pos != s.threads[t].pos
  {
    assert LocalOk(s, base, s.threads[t]);
    assert LocalOk(s, base, s.threads[u]);
  }

  lemma {:induction false} ReleaseStep<T>(s: State<T>, base: seq<int>, t: nat)
    requires InvFor(s, base) && Enabled(s, t, Release)
    ensures InvFor(Apply(s, t, Release),
                   base[s.threads[t].pos % |base| := s.threads[t].pos + |base|])
  {
    var l := s.threads[t];
    var s' := Apply(s, t, Release);
    var base' := base[l.pos % |base| := l.pos + |base|];
    OwnersKept(s, s', t, Idle);
    assert LocalOk(s, base, l);
    forall i | 0 <= i < |s'.cells| ensures CellOk(s', i, base'[i]) {
      ReleaseKeepsCells(s, base, t, i);
    }
    forall u | 0 <= u < |s.threads| && u != t
      ensures LocalOk(s', base', s.threads[u])
      ensures InPop(s.threads[u]) ==> s.threads[u].pos != l.pos
    {
      ReleaseKeepsLocals(s, base, t, u);
    }
    assert forall u :: 0 <= u < |s.threads| && u != t ==> s'.threads[u] == s.threads[u];
  }

  lemma {:induction false} StepKeepsInv<T>(s: State<T>, t: nat, a: Action<T>)
    requires Inv(s) && Enabled(s, t, a)
    ensures Inv(Apply(s, t, a))
  {
    var base :| InvFor(s, base);
    var l := s.threads[t];
    var s' := Apply(s, t, a);
    assert LocalOk(s, base, l);
    if a.ClaimPush? && s.enq == l.pos && !a.spurious {
      ClaimPushStep(s, base, t);
    } else if a.Write? {
      WriteStep(s, base, t);
    } else if a.Publish? {
      PublishStep(s, base, t);
    } else if a.ClaimPop? && s.deq == l.pos && !a.spurious {
      ClaimPopStep(s, base, t);
    } else if a.Read? {
      ReadStep(s, base, t, a.movedFrom);
    } else if a.Release? {
      ReleaseStep(s, base, t);
    } else {
      assert s' == At(s, t, s'.threads[t]);
      QuietStep(s, base, t, s'.threads[t]);
    }
  }

  lemma {:induction false} InitIsInv<T>(s: State<T>)
    requires Init(s)
    ensures Inv(s)
  {
    var base: seq<int> := seq(|s.cells|, i => i);
    forall i | 0 <= i < |s.cells| ensures CellOk(s, i, base[i]) {
      ModUnique(i, 0, i, |s.cells|);
      assert Vacant(s, s.cells[i], base[i]);
    }
    assert InvFor(s, base);
  }

  lemma {:induction false} RunKeepsInv<T(!new)>(run: seq<State<T>>, i: nat)
    requires Run(run) && i < |run|
    ensures Inv(run[i])
  {
    if i == 0 {
      InitIsInv(run[0]);
    } else {
      RunKeepsInv(run, i - 1);
      assert Next(run[i - 1], run[i]);
      var t, a :| Enabled(run[i - 1], t, a) && run[i] == Apply(run[i - 1], t, a);
      StepKeepsInv(run[i - 1], t, a);
    }
  }

  // ---- Main results, in every state of every run ----

  /** No two threads that are writing, publishing, reading or releasing ever use the same cell. */
  lemma {:induction false} NoDataRace<T(!new)>(run: seq<State<T>>, i: nat, t: nat, u: nat)
    requires Run(run) && i < |run|
    requires t < u < |run[i].threads| && |run[i].cells| > 0
    requires InPush(run[i].threads[t]) || InPop(run[i].threads[t])
    requires InPush(run[i].threads[u]) || InPop(run[i].threads[u])
    ensures run[i].threads[t].pos % |run[i].cells| != run[i].threads[u].pos % |run[i].cells|
  {
    RunKeepsInv(run, i);
    var s := run[i];
    var base :| InvFor(s, base);
    assert LocalOk(s, base, s.threads[t]) && LocalOk(s, base, s.threads[u]);
  }

  /** What the queue holds as a bounded FIFO: the values claimed by producers, not yet by consumers. */
  ghost function Contents<T>(s: State<T>): seq<T>
    requires s.deq <= s.enq == |s.pushed|
  {
    s.pushed[s.deq..s.enq]
  }

  /** One step of a bounded FIFO queue, or no visible step. */
  ghost predicate FifoStep<T>(capacity: nat, q: seq<T>, q': seq<T>) {
    || q' == q
    || (|q| < capacity && |q'| == |q| + 1 && q' == q + [q'[|q|]])
    || (|q| > 0 && q' == q[1..])
  }

  /** The atomic steps refine a bounded FIFO, linearised at the successful compare-exchanges. */
  lemma {:induction false} StepRefinesFifo<T>(s: State<T>, t: nat, a: Action<T>)
    requires Inv(s) && Enabled(s, t, a)
    ensures s.deq <= s.enq == |s.pushed|
    ensures var s' := Apply(s, t, a);
            && s'.deq <= s'.enq == |s'.pushed| && |s'.cells| == |s.cells|
            && s.pushed <= s'.pushed
            && FifoStep(|s.cells|, Contents(s), Contents(s'))
            && (s'.enq != s.enq ==> s'.threads[t].PushWrite? && s'.threads[t].pos == s.enq
                                    && Contents(s') == Contents(s) + [s'.threads[t].v])
            && (s'.deq != s.deq ==> s'.threads[t] == PopRead(s.deq) && Contents(s) != []
                                    && Contents(s)[0] == s'.pushed[s.deq])
  {
    StepKeepsInv(s, t, a);
    var base :| InvFor(s, base);
    var s' := Apply(s, t, a);
    assert LocalOk(s, base, s.threads[t]);
    if a.ClaimPush? && s'.enq != s.enq {
      ClaimableIsVacant(s, base, s.enq);
      assert Contents(s') == Contents(s) + [s.threads[t].v];
    } else if a.ClaimPop? && s'.deq != s.deq {
      ClaimableIsFull(s, base, s.deq);
      assert Contents(s') == Contents(s)[1..];
    } else {
      assert Contents(s') == Contents(s);
    }
  }

  /** One step of a run, seen through the counters and the record of pushed values. */
  lemma {:induction false} RunStep<T(!new)>(run: seq<State<T>>, i: nat)
    requires Run(run) && i + 1 < |run|
    ensures run[i].deq <= run[i].enq == |run[i].pushed|
    ensures run[i].pushed <= run[i + 1].pushed
    ensures run[i].enq <= run[i + 1].enq <= run[i].enq + 1
    ensures run[i].deq <= run[i + 1].deq <= run[i].deq + 1
    ensures run[i + 1].deq != run[i].deq ==>
              Contents(run[i]) != [] && run[i].deq < |run[i + 1].pushed|
              && Contents(run[i])[0] == run[i + 1].pushed[run[i].deq]
  {
    RunKeepsInv(run, i);
    assert Next(run[i + 1 - 1], run[i + 1]);
    var t, a :| Enabled(run[i], t, a) && run[i + 1] == Apply(run[i], t, a);
    StepRefinesFifo(run[i], t, a);
  }

  lemma {:induction false} PushedGrows<T(!new)>(run: seq<State<T>>, i: nat, j: nat)
    requires Run(run) && i <= j < |run|
    ensures run[i].pushed <= run[j].pushed && run[i].enq <= run[j].enq && run[i].deq <= run[j].deq
    decreases j - i
  {
    if i < j {
      RunStep(run, i);
      PushedGrows(run, i + 1, j);
    }
  }

  /** Values leave in claim order: the pop that claims a position at step i returns, whenever it
      returns, exactly the value at the head of the queue when it claimed it. */
  lemma {:induction false} PopReturnsHead<T(!new)>(run: seq<State<T>>, i: nat, j: nat)
    requires Run(run) && i < j < |run|
    requires run[i + 1].deq != run[i].deq && run[i].deq in run[j].popped
    ensures run[i].deq < run[i].enq == |run[i].pushed|
    ensures run[j].popped[run[i].deq] == Contents(run[i])[0]
  {
    RunStep(run, i);
    PushedGrows(run, i + 1, j);
    RunKeepsInv(run, j);
  }

  /** Step i of the run claims position p for a producer (for a consumer). */
  ghost predicate ClaimsPush<T>(run: seq<State<T>>, i: nat, p: nat) {
    i + 1 < |run| && run[i].enq == p && run[i + 1].enq == p + 1
  }

  ghost predicate ClaimsPop<T>(run: seq<State<T>>, i: nat, p: nat) {
    i + 1 < |run| && run[i].deq == p && run[i + 1].deq == p + 1
  }

  /** Every position below enqueue_pos_ was claimed by a producer's step of the run. */
  lemma {:induction false} EveryPushClaimed<T(!new)>(run: seq<State<T>>, n: nat, p: nat) returns (i: nat)
    requires Run(run) && n < |run| && p < run[n].enq
    ensures ClaimsPush(run, i, p)
  {
    assert Init(run[0]);
    RunStep(run, n - 1);
    if p < run[n - 1].enq {
      i := EveryPushClaimed(run, n - 1, p);
    } else {
      i := n - 1;
    }
  }

  /** Every position below dequeue_pos_ was claimed by a consumer's step of the run. */
  lemma {:induction false} EveryPopClaimed<T(!new)>(run: seq<State<T>>, n: nat, p: nat) returns (i: nat)
    requires Run(run) && n < |run| && p < run[n].deq
    ensures ClaimsPop(run, i, p)
  {
    assert Init(run[0]);
    RunStep(run, n - 1);
    if p < run[n - 1].deq {
      i := EveryPopClaimed(run, n - 1, p);
    } else {
      i := n - 1;
    }
  }

  /** No position is claimed by two producers, nor by two consumers. */
  lemma {:induction false} ClaimedAtMostOnce<T(!new)>(run: seq<State<T>>, i: nat, j: nat, p: nat)
    requires Run(run)
    ensures ClaimsPush(run, i, p) && ClaimsPush(run, j, p) ==> i == j
    ensures ClaimsPop(run, i, p) && ClaimsPop(run, j, p) ==> i == j
  {
    if i < j && j + 1 < |run| {
      PushedGrows(run, i + 1, j);
    } else if j < i && i + 1 < |run| {
      PushedGrows(run, j + 1, i);
    }
  }

  /** Nothing lost or duplicated: when no call is in flight, the positions below dequeue_pos_ have been
      returned once each with the values pushed there, and all others sit in their cells. */
  lemma {:induction false} QuiescentIsExact<T(!new)>(run: seq<State<T>>, i: nat)
    requires Run(run) && i < |run|
    requires forall t :: 0 <= t < |run[i].threads| ==> run[i].threads[t].Idle?
    ensures run[i].deq <= run[i].enq == |run[i].pushed|
    ensures forall p: nat :: p in run[i].popped <==> p < run[i].deq
    ensures forall p: nat :: p < run[i].deq ==> run[i].popped[p] == run[i].pushed[p]
    ensures |run[i].cells| >= 2
    ensures forall p: nat :: run[i].deq <= p < run[i].enq ==>
              run[i].cells[p % |run[i].cells|] == Cell(p + 1, run[i].pushed[p])
  {
    RunKeepsInv(run, i);
    var s := run[i];
    var base :| InvFor(s, base);
    forall p: nat | s.deq <= p < s.enq ensures s.cells[p % |s.cells|] == Cell(p + 1, s.pushed[p]) {
      var b: int := base[p % |s.cells|];
      assert CellOk(s, p % |s.cells|, b);
      if b < p {
        SameCell(b, p, |s.cells|);
      } else if b > p {
        SameCell(p, b, |s.cells|);
      }
    }
  }

  // ---- What a call does at each of its steps ----

  /** No push can claim p now: the queue is full, or the consumer of the previous lap still holds the cell. */
  ghost predicate PushBlocked<T>(s: State<T>, p: nat) {
    s.enq == s.deq + |s.cells| || Consuming(s, p - |s.cells|)
  }

  /** No pop can claim p now: nobody pushed it, or its producer is still in flight. */
  ghost predicate PopBlocked<T>(s: State<T>, p: nat) { s.enq == s.deq || Producing(s, p) }

  /** What the sequence number of a position says. */
  lemma {:induction false} PushSeqMeans<T>(s: State<T>, base: seq<int>, p: nat)
    requires InvFor(s, base) && p <= s.enq
    ensures SeqAt(s, p) < p <==> p == s.enq && PushBlocked(s, p)
    ensures SeqAt(s, p) == p <==> (p == s.enq && !PushBlocked(s, p)) || Producing(s, p)
  {
    var n := |s.cells|;
    var b: int := base[p % n];
    assert CellOk(s, p % n, b);
    if b < p {
      SameCell(b, p, n);
    } else if b > p {
      SameCell(p, b, n);
    }
    if Consuming(s, p - n) {
      var u :| 0 <= u < |s.threads| && InPop(s.threads[u]) && s.threads[u].pos == p - n;
      assert LocalOk(s, base, s.threads[u]);
      NextLap(p - n, n);
    }
    if Producing(s, p) {
      var u :| 0 <= u < |s.threads| && InPush(s.threads[u]) && s.threads[u].pos == p;
      assert LocalOk(s, base, s.threads[u]);
    }
  }

  lemma {:induction false} PopSeqMeans<T>(s: State<T>, base: seq<int>, p: nat)
    requires InvFor(s, base) && p <= s.deq
    ensures SeqAt(s, p) < p + 1 <==> p == s.deq && PopBlocked(s, p)
    ensures SeqAt(s, p) == p + 1 <==> (p == s.deq && !PopBlocked(s, p)) || Consuming(s, p)
  {
    var n := |s.cells|;
    var b: int := base[p % n];
    assert CellOk(s, p % n, b);
    if b < p {
      SameCell(b, p, n);
    } else if b > p {
      SameCell(p, b, n);
    }
    if Producing(s, p) {
      var u :| 0 <= u < |s.threads| && InPush(s.threads[u]) && s.threads[u].pos == p;
      assert LocalOk(s, base, s.threads[u]);
    }
    if Consuming(s, p) {
      var u :| 0 <= u < |s.threads| && InPop(s.threads[u]) && s.threads[u].pos == p;
      assert LocalOk(s, base, s.threads[u]);
    }
  }

  /** The sequence load of a push: it refuses exactly when its position is the true enqueue position and no push can
      claim it. It goes on to claim when the position is the true one and can be claimed, or when somebody has claimed
      it and not yet published. Otherwise, with a position that has been overtaken, it loads a new one. */
  lemma {:induction false} PushRefusalExact<T(!new)>(run: seq<State<T>>, i: nat, t: nat)
    requires Run(run) && i < |run| && t < |run[i].threads| && run[i].threads[t].PushSeq?
    ensures |run[i].cells| >= 2
    ensures var s := run[i]; var l := s.threads[t]; var s' := Apply(s, t, LoadPushSeq);
            && s' == At(s, t, s'.threads[t])
            && (s'.threads[t] == Idle <==> l.pos == s.enq && PushBlocked(s, l.pos))
            && (s'.threads[t] == PushCas(l.v, l.pos) <==>
                (l.pos == s.enq && !PushBlocked(s, l.pos)) || Producing(s, l.pos))
            && (s'.threads[t] == Idle || s'.threads[t] == PushCas(l.v, l.pos) || s'.threads[t] == PushReload(l.v))
  {
    RunKeepsInv(run, i);
    var s := run[i];
    var base :| InvFor(s, base);
    assert LocalOk(s, base, s.threads[t]);
    PushSeqMeans(s, base, s.threads[t].pos);
  }

  /** The sequence load of a pop, likewise. */
  lemma {:induction false} PopRefusalExact<T(!new)>(run: seq<State<T>>, i: nat, t: nat)
    requires Run(run) && i < |run| && t < |run[i].threads| && run[i].threads[t].PopSeq?
    ensures |run[i].cells| >= 2
    ensures var s := run[i]; var l := s.threads[t]; var s' := Apply(s, t, LoadPopSeq);
            && s' == At(s, t, s'.threads[t])
            && (s'.threads[t] == Idle <==> l.pos == s.deq && PopBlocked(s, l.pos))
            && (s'.threads[t] == PopCas(l.pos) <==>
                (l.pos == s.deq && !PopBlocked(s, l.pos)) || Consuming(s, l.pos))
            && (s'.threads[t] == Idle || s'.threads[t] == PopCas(l.pos) || s'.threads[t] == PopReload)
  {
    RunKeepsInv(run, i);
    var s := run[i];
    var base :| InvFor(s, base);
    assert LocalOk(s, base, s.threads[t]);
    PopSeqMeans(s, base, s.threads[t].pos);
  }

  /** The exchange of a push: it claims exactly when its position is the true one and the exchange does not fail
      spuriously; otherwise it goes on with the true position and the same value. */
  lemma {:induction false} PushClaimExact<T(!new)>(run: seq<State<T>>, i: nat, t: nat, spurious: bool)
    requires Run(run) && i < |run| && |run[i].cells| > 0 && t < |run[i].threads| && run[i].threads[t].PushCas?
    ensures var s := run[i]; var l := s.threads[t]; var s' := Apply(s, t, ClaimPush(spurious));
            if l.pos == s.enq && !spurious
            then s' == At(s, t, PushWrite(l.v, s.enq)).(enq := s.enq + 1, pushed := s.pushed + [l.v])
                 && |s.pushed| == s.enq < s.deq + |s.cells|
            else s' == At(s, t, PushSeq(l.v, s.enq))
  {
    RunKeepsInv(run, i);
    var s := run[i];
    var base :| InvFor(s, base);
    assert LocalOk(s, base, s.threads[t]);
    if s.threads[t].pos == s.enq {
      ClaimableIsVacant(s, base, s.enq);
    }
  }

  /** The exchange of a pop, likewise. */
  lemma {:induction false} PopClaimExact<T(!new)>(run: seq<State<T>>, i: nat, t: nat, spurious: bool)
    requires Run(run) && i < |run| && |run[i].cells| > 0 && t < |run[i].threads| && run[i].threads[t].PopCas?
    ensures var s := run[i]; var l := s.threads[t]; var s' := Apply(s, t, ClaimPop(spurious));
            if l.pos == s.deq && !spurious
            then s' == At(s, t, PopRead(s.deq)).(deq := s.deq + 1) && s.deq < s.enq
            else s' == At(s, t, PopSeq(s.deq))
  {
    RunKeepsInv(run, i);
    var s := run[i];
    var base :| InvFor(s, base);
    assert LocalOk(s, base, s.threads[t]);
    if s.threads[t].pos == s.deq {
      ClaimableIsFull(s, base, s.deq);
    }
  }

  // ---- A call that runs alone ----

  /** The state after thread t takes the given steps in a row. */
  ghost function After<T>(s: State<T>, t: nat, steps: seq<Action<T>>): State<T>
    decreases |steps|
  {
    if steps == [] || !Enabled(s, t, steps[0]) then s else After(Apply(s, t, steps[0]), t, steps[1..])
  }

  lemma {:induction false} OneStep<T>(s: State<T>, t: nat, a: Action<T>, rest: seq<Action<T>>)
    requires Enabled(s, t, a)
    ensures After(s, t, [a] + rest) == After(Apply(s, t, a), t, rest)
  {
    assert ([a] + rest)[1..] == rest;
  }

  ghost function PushSteps<T>(v: T): seq<Action<T>> {
    [CallPush(v)] + ([LoadEnq] + ([LoadPushSeq] + ([ClaimPush(false)] + ([Write] + ([Publish] + [])))))
  }

  ghost function PopSteps<T>(junk: T): seq<Action<T>> {
    [CallPop] + ([LoadDeq] + ([LoadPopSeq] + ([ClaimPop(false)] + ([Read(junk)] + ([Release] + [])))))
  }

  /** A push that runs alone, from any reachable state, ends after at most six steps: it puts the value at the end of
      the queue, unless it is blocked, and then it has changed nothing. */
  lemma {:induction false} SoloPush<T(!new)>(run: seq<State<T>>, i: nat, t: nat, v: T)
    requires Run(run) && i < |run| && t < |run[i].threads| && run[i].threads[t] == Idle
    ensures var s := run[i]; var s' := After(s, t, PushSteps(v));
            && |s.cells| >= 2 && s.deq <= s.enq == |s.pushed| && s'.deq <= s'.enq == |s'.pushed|
            && (PushBlocked(s, s.enq) ==> s' == s)
            && (!PushBlocked(s, s.enq) ==>
                && Contents(s') == Contents(s) + [v] && s'.threads == s.threads && s'.popped == s.popped
                && s'.deq == s.deq && |s'.cells| == |s.cells|
                && s'.cells == s.cells[s.enq % |s.cells| := Cell(s.enq + 1, v)])
  {
    hide CellOk, LocalOk, Exclusive, PoppedOk, Producing, Consuming, After;
    RunKeepsInv(run, i);
    var s := run[i];
    var base :| InvFor(s, base);
    var p := s.enq;
    PushSeqMeans(s, base, p);
    hide InvFor, PushBlocked;
    var s1 := At(s, t, PushReload(v));
    var s2 := At(s1, t, PushSeq(v, p));
    var tail3: seq<Action<T>> := [ClaimPush(false)] + ([Write] + ([Publish] + []));
    OneStep(s, t, CallPush(v), [LoadEnq] + ([LoadPushSeq] + tail3));
    OneStep(s1, t, LoadEnq, [LoadPushSeq] + tail3);
    OneStep(s2, t, LoadPushSeq, tail3);
    if PushBlocked(s, p) {
      var s3 := At(s2, t, Idle);
      assert s3.threads == s.threads;
      assert s3 == s;
      StuckThere(s, t, ClaimPush(false), [Write] + ([Publish] + []));
    } else {
      SoloPushClaims(s, s2, t, v, tail3);
    }
  }

  lemma {:induction false} StuckThere<T>(s: State<T>, t: nat, a: Action<T>, rest: seq<Action<T>>)
    requires !Enabled(s, t, a)
    ensures After(s, t, [a] + rest) == s
  {
  }

  lemma {:induction false} SoloPushClaims<T>(s: State<T>, s2: State<T>, t: nat, v: T, tail: seq<Action<T>>)
    requires |s.cells| > 0 && t < |s.threads| && s.threads[t] == Idle && s2 == At(s, t, PushSeq(v, s.enq))
    requires SeqAt(s, s.enq) == s.enq && s.deq <= s.enq == |s.pushed|
    requires tail == [ClaimPush(false)] + ([Write] + ([Publish] + []))
    ensures var s' := After(Apply(s2, t, LoadPushSeq), t, tail);
            && s'.deq == s.deq && s'.enq == s.enq + 1 && s'.pushed == s.pushed + [v]
            && Contents(s') == Contents(s) + [v] && s'.threads == s.threads && s'.popped == s.popped
            && s'.cells == s.cells[s.enq % |s.cells| := Cell(s.enq + 1, v)]
  {
    var p := s.enq;
    var s3 := At(s2, t, PushCas(v, p));
    var s4 := At(s3, t, PushWrite(v, p)).(enq := p + 1, pushed := s.pushed + [v]);
    var s5 := Store(At(s4, t, PushPublish(v, p)), p, Cell(p, v));
    var s6 := Store(At(s5, t, Idle), p, Cell(p + 1, v));
    assert Apply(s2, t, LoadPushSeq) == s3 && Apply(s3, t, ClaimPush(false)) == s4;
    assert Apply(s4, t, Write) == s5;
    assert Apply(s5, t, Publish) == s6;
    hide Apply;
    OneStep(s3, t, ClaimPush(false), [Write] + ([Publish] + []));
    OneStep(s4, t, Write, [Publish] + []);
    OneStep(s5, t, Publish, []);
    assert s6.threads == s.threads;
    assert After(s6, t, []) == s6;
    assert s6.pushed[s.deq..p + 1] == s.pushed[s.deq..p] + [v];
  }

  /** A pop that runs alone: it takes the value at the head of the queue, unless it is blocked, and then it has
      changed nothing. */
  lemma {:induction false} SoloPop<T(!new)>(run: seq<State<T>>, i: nat, t: nat, junk: T)
    requires Run(run) && i < |run| && t < |run[i].threads| && run[i].threads[t] == Idle
    ensures var s := run[i]; var s' := After(s, t, PopSteps(junk));
            && |s.cells| >= 2 && s.deq <= s.enq == |s.pushed|
            && (PopBlocked(s, s.deq) ==> s' == s)
            && (!PopBlocked(s, s.deq) ==>
                && Contents(s) != [] && s'.enq == s.enq && s'.deq == s.deq + 1 && s'.pushed == s.pushed
                && s'.popped == s.popped[s.deq := Contents(s)[0]] && s'.threads == s.threads
                && s'.cells == s.cells[s.deq % |s.cells| := Cell(s.deq + |s.cells|, junk)])
  {
    hide CellOk, LocalOk, Exclusive, PoppedOk, Producing, Consuming, After;
    RunKeepsInv(run, i);
    var s := run[i];
    var base :| InvFor(s, base);
    var p := s.deq;
    PopSeqMeans(s, base, p);
    if !PopBlocked(s, p) {
      ClaimableIsFull(s, base, p);
      HeadCell(s, base, p);
    }
    hide InvFor, PopBlocked;
    var s1 := At(s, t, PopReload);
    var s2 := At(s1, t, PopSeq(p));
    var tail3: seq<Action<T>> := [ClaimPop(false)] + ([Read(junk)] + ([Release] + []));
    OneStep(s, t, CallPop, [LoadDeq] + ([LoadPopSeq] + tail3));
    OneStep(s1, t, LoadDeq, [LoadPopSeq] + tail3);
    OneStep(s2, t, LoadPopSeq, tail3);
    if PopBlocked(s, p) {
      var s3 := At(s2, t, Idle);
      assert s3.threads == s.threads;
      assert s3 == s;
      StuckThere(s, t, ClaimPop(false), [Read(junk)] + ([Release] + []));
    } else {
      SoloPopClaims(s, s2, t, junk, tail3);
    }
  }

  /** The cell of the head position holds the head value. */
  lemma {:induction false} HeadCell<T>(s: State<T>, base: seq<int>, p: nat)
    requires InvFor(s, base) && p == s.deq < s.enq && SeqAt(s, p) == p + 1
    ensures s.cells[p % |s.cells|] == Cell(p + 1, s.pushed[p])
  {
    var n := |s.cells|;
    var b: int := base[p % n];
    assert CellOk(s, p % n, b);
    if b < p {
      SameCell(b, p, n);
    } else if b > p {
      SameCell(p, b, n);
    }
  }

  lemma {:induction false} SoloPopClaims<T>(s: State<T>, s2: State<T>, t: nat, junk: T, tail: seq<Action<T>>)
    requires |s.cells| > 0 && t < |s.threads| && s.threads[t] == Idle && s2 == At(s, t, PopSeq(s.deq))
    requires s.deq < s.enq == |s.pushed| && s.cells[s.deq % |s.cells|] == Cell(s.deq + 1, s.pushed[s.deq])
    requires tail == [ClaimPop(false)] + ([Read(junk)] + ([Release] + []))
    ensures var s' := After(Apply(s2, t, LoadPopSeq), t, tail);
            && s'.enq == s.enq && s'.deq == s.deq + 1 && s'.pushed == s.pushed && s'.threads == s.threads
            && s'.popped == s.popped[s.deq := s.pushed[s.deq]]
            && s'.cells == s.cells[s.deq % |s.cells| := Cell(s.deq + |s.cells|, junk)]
  {
    var p, out := s.deq, s.pushed[s.deq];
    var s3 := At(s2, t, PopCas(p));
    var s4 := At(s3, t, PopRead(p)).(deq := p + 1);
    assert Apply(s2, t, LoadPopSeq) == s3 && Apply(s3, t, ClaimPop(false)) == s4;
    OneStep(s3, t, ClaimPop(false), [Read(junk)] + ([Release] + []));
    hide Apply, After;
    PopMovesOut(s4, t, junk);
    assert s4.threads[t := Idle] == s.threads;
  }

  /** The last two steps of a pop. */
  lemma {:induction false} PopMovesOut<T>(s: State<T>, t: nat, junk: T)
    requires |s.cells| > 0 && t < |s.threads| && s.threads[t].PopRead?
    ensures var p := s.threads[t].pos; var i := p % |s.cells|;
            After(s, t, [Read(junk)] + ([Release] + [])) ==
              s.(cells := s.cells[i := Cell(p + |s.cells|, junk)], threads := s.threads[t := Idle],
                 popped := s.popped[p := s.cells[i].data])
  {
    var p := s.threads[t].pos;
    var i := p % |s.cells|;
    var s5 := Apply(s, t, Read(junk));
    OneStep(s, t, Read(junk), [Release] + []);
    OneStep(s5, t, Release, []);
    var last := Cell(p + |s.cells|, junk);
    assert s.cells[i := Cell(SeqAt(s, p), junk)][i := last] == s.cells[i := last];
    assert s5.threads[t := Idle] == s.threads[t := Idle];
  }
}
