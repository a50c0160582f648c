/** The three-state futex mutex as a transition system.

    Any number of threads (indices into `pcs`) interleave their atomic steps on one shared 32-bit word:
    0 is unlocked, 1 is locked without waiters, 2 is locked with possible waiters. The kernel's
    FUTEX_WAIT is one atomic compare-and-sleep, FUTEX_WAKE wakes at most one sleeper, and a sleeper may
    wake up at any time of its own accord. */
module FutexMutex {

  /** Where a thread stands in `lock`, `try_lock` or `unlock`. */
  datatype Pc =
    | Out      // not inside the mutex code and not holding it
    | Fast     // about to try the 0 -> 1 compare-exchange
    | Xchg     // about to exchange 2 into the word
    | Wait     // about to call FUTEX_WAIT with expected value 2
    | Asleep   // in the kernel queue
    | Held     // owns the mutex
    | Clear    // unlocking: fetch_sub saw a value other than 1, about to store 0
    | Wake     // unlocking: stored 0, still owes one FUTEX_WAKE

  datatype State = State(word: nat, pcs: seq<Pc>)

  datatype Action =
    | CallLock | TryLock | FastCas | Exchange | KernelWait | Spurious
    | FetchSub | StoreZero | WakeOne(sleeper: nat) | WakeNone

  ghost predicate Init(s: State) {
    s.word == 0 && forall i :: 0 <= i < |s.pcs| ==> s.pcs[i] == Out
  }

  ghost predicate NoSleeper(s: State) {
    forall i :: 0 <= i < |s.pcs| ==> s.pcs[i] != Asleep
  }

  ghost predicate Enabled(s: State, t: nat, a: Action) {
    && t < |s.pcs|
    && match a
       case CallLock => s.pcs[t] == Out
       case TryLock => s.pcs[t] == Out
       case FastCas => s.pcs[t] == Fast
       case Exchange => s.pcs[t] == Xchg
       case KernelWait => s.pcs[t] == Wait
       case Spurious => s.pcs[t] == Asleep
       case FetchSub => s.pcs[t] == Held
       case StoreZero => s.pcs[t] == Clear
       case WakeOne(w) => s.pcs[t] == Wake && w < |s.pcs| && s.pcs[w] == Asleep
       case WakeNone => s.pcs[t] == Wake && NoSleeper(s)
  }

  /** 32-bit `fetch_sub(1)`, which wraps at zero. */
  function Decremented(w: nat): nat {
    if w == 0 then 0xFFFF_FFFF else w - 1
  }

  ghost function Apply(s: State, t: nat, a: Action): State
    requires Enabled(s, t, a)
  {
    match a
    case CallLock => s.(pcs := s.pcs[t := Fast])
    case TryLock => if s.word == 0 then State(1, s.pcs[t := Held]) else s
    case FastCas =>
      if s.word == 0 then State(1, s.pcs[t := Held])
      else if s.word != 2 then s.(pcs := s.pcs[t := Xchg])
      else s.(pcs := s.pcs[t := Wait])
    case Exchange => State(2, s.pcs[t := if s.word == 0 then Held else Wait])
    case KernelWait => s.(pcs := s.pcs[t := if s.word == 2 then Asleep else Xchg])
    case Spurious => s.(pcs := s.pcs[t := Xchg])
    case FetchSub => State(Decremented(s.word), s.pcs[t := if s.word == 1 then Out else Clear])
    case StoreZero => State(0, s.pcs[t := Wake])
    case WakeOne(w) => s.(pcs := s.pcs[w := Xchg][t := Out])
    case WakeNone => s.(pcs := s.pcs[t := Out])
  }

  ghost predicate Next(s: State, s': State) {
    exists t, a :: Enabled(s, t, a) && s' == Apply(s, t, a)
  }

  ghost predicate Run(run: seq<State>) {
    |run| > 0 && Init(run[0]) && forall i :: 0 < i < |run| ==> Next(run[i - 1], run[i])
  }

  /** A thread owns the word from acquiring it until the word is back at 0. */
  predicate Owns(pc: Pc) { pc == Held || pc == Clear }

  /** Threads that will still exchange 2 into the word or still owe a wake-up. */
  predicate WillSignal(pc: Pc) { pc == Xchg || pc == Clear || pc == Wake }

  ghost predicate SomeOwner(s: State) { exists i :: 0 <= i < |s.pcs| && Owns(s.pcs[i]) }

  ghost predicate SomeSignal(s: State) { exists i :: 0 <= i < |s.pcs| && WillSignal(s.pcs[i]) }

  ghost predicate OneOwner(s: State) {
    forall i, j :: 0 <= i < |s.pcs| && 0 <= j < |s.pcs| && Owns(s.pcs[i]) && Owns(s.pcs[j]) ==> i == j
  }

  ghost predicate Inv(s: State) {
    && s.word <= 2
    && OneOwner(s)
    && (s.word != 0 <==> SomeOwner(s))
    && (NoSleeper(s) || s.word == 2 || SomeSignal(s))
  }

  lemma {:induction false} StepKeepsOwners(s: State, t: nat, a: Action)
    requires Inv(s) && Enabled(s, t, a)
    ensures var s' := Apply(s, t, a);
            s'.word <= 2 && OneOwner(s') && (s'.word != 0 <==> SomeOwner(s'))
  {
    var s' := Apply(s, t, a);
    if SomeOwner(s) {
      var o :| 0 <= o < |s.pcs| && Owns(s.pcs[o]);
      assert o != t ==> s'.pcs[o] == s.pcs[o];
    }
    assert s'.pcs[t] == s'.pcs[t];
  }

  lemma {:induction false} StepKeepsWakeups(s: State, t: nat, a: Action)
    requires Inv(s) && Enabled(s, t, a)
    ensures var s' := Apply(s, t, a); NoSleeper(s') || s'.word == 2 || SomeSignal(s')
  {
    var s' := Apply(s, t, a);
    assert WillSignal(s'.pcs[t]) ==> SomeSignal(s');
    if a.WakeOne? {
      assert WillSignal(s'.pcs[a.sleeper]);
    } else if SomeSignal(s) {
      var g :| 0 <= g < |s.pcs| && WillSignal(s.pcs[g]);
      assert g != t ==> s'.pcs[g] == s.pcs[g];
    }
  }

  lemma {:induction false} StepKeepsInv(s: State, t: nat, a: Action)
    requires Inv(s) && Enabled(s, t, a)
    ensures Inv(Apply(s, t, a))
  {
    StepKeepsOwners(s, t, a);
    StepKeepsWakeups(s, t, a);
  }

  lemma {:induction false} RunKeepsInv(run: seq<State>, i: nat)
    requires Run(run) && i < |run|
    ensures Inv(run[i])
  {
    if i > 0 {
      RunKeepsInv(run, i - 1);
      var t, a :| Enabled(run[i - 1], t, a) && run[i] == Apply(run[i - 1], t, a);
      StepKeepsInv(run[i - 1], t, a);
    }
  }

  /** Mutual exclusion in every state of every run, and a holder never finds the word at 0,
      so `fetch_sub` never wraps. */
  lemma {:induction false} MutualExclusion(run: seq<State>, i: nat, t: nat, u: nat)
    requires Run(run) && i < |run|
    requires t < |run[i].pcs| && u < |run[i].pcs|
    requires run[i].pcs[t] == Held && run[i].pcs[u] == Held
    ensures t == u
    ensures run[i].word == 1 || run[i].word == 2
  {
    RunKeepsInv(run, i);
    assert Owns(run[i].pcs[t]) && Owns(run[i].pcs[u]);
  }

  /** No lost wake-up: while some thread sleeps, the word says so, or someone will still signal. */
  lemma {:induction false} NoLostWakeup(run: seq<State>, i: nat, t: nat)
    requires Run(run) && i < |run|
    requires t < |run[i].pcs| && run[i].pcs[t] == Asleep
    ensures run[i].word == 2 || exists u :: 0 <= u < |run[i].pcs| && WillSignal(run[i].pcs[u])
  {
    RunKeepsInv(run, i);
  }

  /** A state in which every thread is outside or asleep has no sleepers at all. */
  lemma {:induction false} QuiescentMeansEmpty(s: State)
    requires Inv(s)
    requires forall i :: 0 <= i < |s.pcs| ==> s.pcs[i] == Out || s.pcs[i] == Asleep
    ensures Init(s)
  {
    assert !SomeSignal(s) && !SomeOwner(s);
  }

  // ---- What each step does for the thread that takes it ----

  /** Inside `lock`, not yet through. */
  predicate Contends(pc: Pc) { pc == Fast || pc == Xchg || pc == Wait || pc == Asleep }

  /** A thread gets the mutex by its fast exchange, its exchange of 2 or its try_lock, and exactly when nobody owns
      it. A try_lock that does not get it changes nothing; inside `lock` the thread goes on contending. */
  lemma {:induction false} AcquiresIffFree(run: seq<State>, i: nat, t: nat, a: Action)
    requires Run(run) && i < |run| && Enabled(run[i], t, a)
    ensures var s := run[i]; var s' := Apply(s, t, a);
            && (s'.pcs[t] == Held <==> (a == TryLock || a == FastCas || a == Exchange) && !SomeOwner(s))
            && (s'.pcs[t] == Held ==> s'.word == if a == Exchange then 2 else 1)
            && (a == TryLock && SomeOwner(s) ==> s' == s)
            && (a == CallLock || (Contends(s.pcs[t]) && SomeOwner(s)) ==> Contends(s'.pcs[t]))
  {
    RunKeepsInv(run, i);
    if run[i].pcs[t] == Held {
      assert Owns(run[i].pcs[t]);
    }
  }

  /** Unlocking: without waiters one step frees the mutex and is all there is to do; otherwise the word is freed
      next, and then one sleeper is woken if there is any. No step touches a thread but its own and the one it wakes. */
  lemma {:induction false} ReleasesOnce(run: seq<State>, i: nat, t: nat, a: Action)
    requires Run(run) && i < |run| && Enabled(run[i], t, a)
    ensures var s := run[i]; var s' := Apply(s, t, a);
            && (Owns(s.pcs[t]) ==> (SomeOwner(s') <==> a == FetchSub && s.word == 2))
            && (a == FetchSub && s.word == 1 ==> s'.word == 0 && s'.pcs[t] == Out)
            && (a == FetchSub && s.word == 2 ==> s'.pcs[t] == Clear)
            && (a == StoreZero ==> s'.word == 0 && s'.pcs[t] == Wake)
            && (s.pcs[t] == Wake ==> s'.pcs[t] == Out && s'.word == s.word)
            && (s.pcs[t] == Wake && a.WakeOne? ==> s.pcs[a.sleeper] == Asleep && Contends(s'.pcs[a.sleeper])
                                                   && s'.pcs[a.sleeper] != Asleep)
            && (s.pcs[t] == Wake && !a.WakeOne? ==> NoSleeper(s))
            && forall u :: 0 <= u < |s.pcs| && u != t && (a.WakeOne? ==> u != a.sleeper) ==> s'.pcs[u] == s.pcs[u]
  {
    RunKeepsInv(run, i);
    var s := run[i];
    StepKeepsInv(s, t, a);
    var s' := Apply(s, t, a);
    if Owns(s.pcs[t]) {
      if a == FetchSub && s.word == 2 {
        assert Owns(s'.pcs[t]);
      }
    }
  }

  /** The way to the kernel: while somebody owns the mutex, a contender marks the word, unless it is marked, before it
      calls the kernel, which lets it sleep exactly when the word is still 2. Woken up or turned away, it marks the
      word again. */
  lemma {:induction false} SleepsIffContended(run: seq<State>, i: nat, t: nat, a: Action)
    requires Run(run) && i < |run| && Enabled(run[i], t, a)
    ensures var s := run[i]; var s' := Apply(s, t, a);
            && (s'.pcs[t] == Asleep <==> a == KernelWait && s.word == 2)
            && (s'.pcs[t] == Wait ==> SomeOwner(s) && s'.word == 2)
            && (s.pcs[t] == Fast && SomeOwner(s) ==>
                s'.word == s.word && s'.pcs[t] == if s.word == 2 then Wait else Xchg)
            && (s.pcs[t] == Xchg && SomeOwner(s) ==> s'.pcs[t] == Wait)
            && (s.pcs[t] == Asleep || (s.pcs[t] == Wait && s.word != 2) ==> s'.pcs[t] == Xchg && s'.word == s.word)
  {
    RunKeepsInv(run, i);
  }

  /** Without contention, locking and unlocking is one exchange and one decrement: no system call. */
  lemma {:induction false} UncontendedIsFast(s: State, t: nat)
    requires Init(s) && t < |s.pcs|
    ensures var called := Apply(s, t, CallLock);
            && Enabled(called, t, FastCas) && Apply(called, t, FastCas) == State(1, s.pcs[t := Held])
            && Apply(s, t, TryLock) == State(1, s.pcs[t := Held])
            && Enabled(State(1, s.pcs[t := Held]), t, FetchSub)
            && Apply(State(1, s.pcs[t := Held]), t, FetchSub) == s
  {
    assert s.pcs[t := Fast][t := Held] == s.pcs[t := Held];
    assert s.pcs[t := Held][t := Out] == s.pcs;
  }

  // ---- Liveness: without new calls every run drains ----

  /** Steps that bring a call under way forward. */
  predicate Draining(a: Action) { a != CallLock && a != TryLock && a != Spurious }

  /** A run without new calls: thread who[i] takes step acts[i] from state run[i]. */
  ghost predicate Drain(run: seq<State>, who: seq<nat>, acts: seq<Action>) {
    && |run| == |acts| + 1 && |who| == |acts|
    && forall i :: 0 <= i < |acts| ==>
         && (Draining(acts[i]) || acts[i] == Spurious)
         && Enabled(run[i], who[i], acts[i]) && run[i + 1] == Apply(run[i], who[i], acts[i])
  }

  function SpuriousIn(acts: seq<Action>): (n: nat)
    ensures n == multiset(acts)[Spurious]
  {
    assert acts != [] ==> acts == [acts[0]] + acts[1..];
    if acts == [] then 0 else (if acts[0] == Spurious then 1 else 0) + SpuriousIn(acts[1..])
  }

  /** How much of its lock/unlock cycle a thread still has to go through. */
  function Stage(pc: Pc): nat {
    match pc
    case Out => 0
    case Wake => 1
    case Clear => 2
    case Held => 3
    case _ => 4
  }

  /** Steps a waiting thread can take before the word changes or a stage is completed. */
  function Patience(pc: Pc, contended: bool): nat {
    match pc
    case Fast => 3
    case Xchg => if contended then 2 else 1
    case Wait => if contended then 1 else 2
    case _ => 0
  }

  function Stages(pcs: seq<Pc>): (r: nat)
    ensures r <= 4 * |pcs|
  {
    if pcs == [] then 0 else Stage(pcs[0]) + Stages(pcs[1..])
  }

  function Patiences(pcs: seq<Pc>, contended: bool): (r: nat)
    ensures r <= 3 * |pcs|
  {
    if pcs == [] then 0 else Patience(pcs[0], contended) + Patiences(pcs[1..], contended)
  }

  lemma {:induction false} StagesUpdate(pcs: seq<Pc>, t: nat, pc: Pc)
    requires t < |pcs|
    ensures Stages(pcs[t := pc]) == Stages(pcs) - Stage(pcs[t]) + Stage(pc)
  {
    if t == 0 {
      assert pcs[t := pc][1..] == pcs[1..];
    } else {
      assert pcs[t := pc][1..] == pcs[1..][t - 1 := pc];
      StagesUpdate(pcs[1..], t - 1, pc);
    }
  }

  lemma {:induction false} PatiencesUpdate(pcs: seq<Pc>, t: nat, pc: Pc, c: bool)
    requires t < |pcs|
    ensures Patiences(pcs[t := pc], c) == Patiences(pcs, c) - Patience(pcs[t], c) + Patience(pc, c)
  {
    if t == 0 {
      assert pcs[t := pc][1..] == pcs[1..];
    } else {
      assert pcs[t := pc][1..] == pcs[1..][t - 1 := pc];
      PatiencesUpdate(pcs[1..], t - 1, pc, c);
    }
  }

  function Low(s: State): (r: nat)
    ensures r < 8 * |s.pcs| + 2
  {
    (if s.word == 2 then 0 else 4 * |s.pcs| + 1) + Patiences(s.pcs, s.word == 2)
  }

  /** The bound on the remaining work: stages first, patience within a stage second. */
  function Work(s: State): nat {
    Stages(s.pcs) * (8 * |s.pcs| + 2) + Low(s)
  }

  lemma {:induction false} Quadratic(stages: nat, n: nat)
    requires stages <= 4 * n
    ensures stages * (8 * n + 2) <= 32 * n * n + 8 * n
  {
    assert 0 <= (4 * n - stages) * (8 * n + 2);
    assert 4 * n * (8 * n + 2) == 32 * n * n + 8 * n;
  }

  /** At most quadratic in the number of threads. */
  lemma {:induction false} WorkBound(s: State)
    ensures Work(s) <= 32 * |s.pcs| * |s.pcs| + 16 * |s.pcs| + 1
  {
    hide Stages, Low;
    Quadratic(Stages(s.pcs), |s.pcs|);
  }

  lemma {:induction false} LexicographicDrop(high: nat, high': nat, low: nat, low': nat, k: nat)
    requires low' < k
    requires high' < high || (high' == high && low' < low)
    ensures high' * k + low' < high * k + low
  {
    if high' < high {
      assert (high - 1 - high') * k >= 0;
    }
  }

  lemma {:induction false} DrainStepDrops(s: State, t: nat, a: Action)
    requires Inv(s) && Enabled(s, t, a) && Draining(a)
    ensures var s' := Apply(s, t, a);
            Stages(s'.pcs) < Stages(s.pcs) || (Stages(s'.pcs) == Stages(s.pcs) && Low(s') < Low(s))
  {
    var s' := Apply(s, t, a);
    if a.WakeOne? {
      StagesUpdate(s.pcs, a.sleeper, Xchg);
      StagesUpdate(s.pcs[a.sleeper := Xchg], t, Out);
    } else {
      assert s'.pcs == s.pcs[t := s'.pcs[t]];
      StagesUpdate(s.pcs, t, s'.pcs[t]);
      PatiencesUpdate(s.pcs, t, s'.pcs[t], s.word == 2);
      if a.FetchSub? {
        assert Owns(s.pcs[t]);
      }
    }
  }

  /** Every draining step strictly reduces the remaining work. */
  lemma {:induction false} DrainStepWorks(s: State, t: nat, a: Action)
    requires Inv(s) && Enabled(s, t, a) && Draining(a)
    ensures Work(Apply(s, t, a)) < Work(s)
  {
    var s' := Apply(s, t, a);
    DrainStepDrops(s, t, a);
    LexicographicDrop(Stages(s.pcs), Stages(s'.pcs), Low(s), Low(s'), 8 * |s.pcs| + 2);
  }

  /** A spurious wake-up sends its thread back to the exchange, which adds at most two steps. */
  lemma {:induction false} SpuriousAdds(s: State, t: nat)
    requires Enabled(s, t, Spurious)
    ensures Work(Apply(s, t, Spurious)) <= Work(s) + 2
  {
    StagesUpdate(s.pcs, t, Xchg);
    PatiencesUpdate(s.pcs, t, Xchg, s.word == 2);
  }

  lemma {:induction false} DrainTail(run: seq<State>, who: seq<nat>, acts: seq<Action>)
    requires Drain(run, who, acts) && acts != []
    ensures Drain(run[1..], who[1..], acts[1..])
  {
    var run', who', acts' := run[1..], who[1..], acts[1..];
    forall i | 0 <= i < |acts'|
      ensures (Draining(acts'[i]) || acts'[i] == Spurious) && Enabled(run'[i], who'[i], acts'[i])
      ensures run'[i + 1] == Apply(run'[i], who'[i], acts'[i])
    {
      assert acts'[i] == acts[i + 1];
    }
  }

  /** Livelock freedom: a run without new calls has at most `Work` steps and three more for every spurious
      wake-up, whatever the schedule. */
  lemma {:induction false} DrainIsBounded(run: seq<State>, who: seq<nat>, acts: seq<Action>)
    requires Drain(run, who, acts) && Inv(run[0])
    ensures |acts| <= Work(run[0]) + 3 * SpuriousIn(acts)
    ensures Inv(run[|acts|])
    decreases |acts|
  {
    hide Work;
    if acts != [] {
      var t, a := who[0], acts[0];
      assert Enabled(run[0], t, a) && run[0 + 1] == Apply(run[0], t, a);
      StepKeepsInv(run[0], t, a);
      if a == Spurious {
        SpuriousAdds(run[0], t);
      } else {
        DrainStepWorks(run[0], t, a);
      }
      DrainTail(run, who, acts);
      DrainIsBounded(run[1..], who[1..], acts[1..]);
    }
  }

  /** Nothing is left to do for any call under way. */
  ghost predicate Stuck(s: State) { forall t: nat, a :: Draining(a) ==> !Enabled(s, t, a) }

  lemma {:induction false} StuckIsEmpty(s: State)
    requires Inv(s) && Stuck(s)
    ensures Init(s)
  {
    forall i | 0 <= i < |s.pcs| ensures s.pcs[i] == Out || s.pcs[i] == Asleep {
      var a := match s.pcs[i]
        case Fast => FastCas
        case Xchg => Exchange
        case Wait => KernelWait
        case Held => FetchSub
        case Clear => StoreZero
        case _ => if j :| 0 <= j < |s.pcs| && s.pcs[j] == Asleep then WakeOne(j) else WakeNone;
      assert Draining(a) ==> !Enabled(s, i, a);
    }
    QuiescentMeansEmpty(s);
  }

  /** Deadlock and livelock freedom together: whatever happened before, once no new calls arrive every
      schedule stops after finitely many steps between spurious wake-ups, and it stops with the mutex free and every
      thread that wanted it served. */
  lemma {:induction false} EveryDrainServesEveryone(prefix: seq<State>, run: seq<State>, who: seq<nat>,
                                                    acts: seq<Action>)
    requires Run(prefix) && Drain(run, who, acts) && run[0] == prefix[|prefix| - 1]
    ensures var n := |run[0].pcs|;
            |acts| <= Work(run[0]) + 3 * SpuriousIn(acts) <= 32 * n * n + 16 * n + 1 + 3 * multiset(acts)[Spurious]
    ensures Stuck(run[|acts|]) ==> Init(run[|acts|])
  {
    RunKeepsInv(prefix, |prefix| - 1);
    DrainIsBounded(run, who, acts);
    WorkBound(run[0]);
    if Stuck(run[|acts|]) {
      StuckIsEmpty(run[|acts|]);
    }
  }
}
