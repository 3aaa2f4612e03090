/** What each step of the thread kernel does to the locks, the semaphores and the threads'
    program counters, whichever threads it moves between queues.  Monitors built on the kernel
    are reasoned about with this alone. */
module Effects {
  import opened Threads
  import opened Synchronization

  /** The same objects, and every thread at the same point of the same operation. */
  ghost predicate SamePcs(k: Kernel, k': Kernel) {
    && |k'.threads| == |k.threads| && k'.locks == k.locks && k'.sems == k.sems && k'.conds == k.conds
    && forall u :: 0 <= u < |k.threads| ==> k'.threads[u].pc == k.threads[u].pc
  }

  lemma MoveSamePcs(k: Kernel, p: Place, q: Place)
    requires Placed(k) && p in k.queues && q in k.queues && p != q && k.queues[p] != []
    ensures SamePcs(k, Move(k, p, q))
  {
  }

  lemma DispatchSamePcs(k: Kernel)
    requires Placed(k)
    ensures SamePcs(k, Dispatch(k))
  {
    hide QueueOk, Listed, Move;
    if k.queues[Cpu] == [] && k.queues[Ready] != [] { MoveSamePcs(k, Ready, Cpu); }
  }

  lemma WakeSamePcs(k: Kernel, p: Place)
    requires Placed(k) && IsPlace(k, p) && p != Ready && p != Cpu
    ensures SamePcs(k, Wake(k, p))
  {
    hide QueueOk, Listed, Move;
    if k.queues[p] != [] { MoveSamePcs(k, p, Ready); }
  }

  lemma {:induction false} WakeAllSamePcs(k: Kernel, p: Place)
    requires Placed(k) && IsPlace(k, p) && p != Ready && p != Cpu
    ensures SamePcs(k, WakeAll(k, p))
    decreases |k.queues[p]|
  {
    hide QueueOk, Listed, Move;
    if k.queues[p] != [] {
      WakeSamePcs(k, p);
      MoveFacts(k, p, Ready);
      WakeAllSamePcs(Wake(k, p), p);
    }
  }

  lemma BlockSamePcs(k: Kernel, q: Place)
    requires HasCurrent(k) && IsPlace(k, q) && q != Cpu && q != Ready
    ensures SamePcs(k, Block(k, q))
  {
    hide QueueOk, Listed, Move, Dispatch;
    MoveSamePcs(k, Cpu, q);
    MoveKeeps(k, Cpu, q);
    DispatchSamePcs(Move(k, Cpu, q));
  }

  lemma YieldSamePcs(k: Kernel)
    requires HasCurrent(k) && k.queues[Switching] == []
    ensures SamePcs(k, Yield(k))
  {
    hide QueueOk, Listed, Move;
    if k.queues[Ready] != [] {
      MoveKeeps(k, Cpu, Switching);
      MoveSamePcs(k, Cpu, Switching);
      MoveFacts(k, Cpu, Switching);
      var k1 := Move(k, Cpu, Switching);
      MoveKeeps(k1, Ready, Cpu);
      MoveSamePcs(k1, Ready, Cpu);
      MoveFacts(k1, Ready, Cpu);
      var k2 := Move(k1, Ready, Cpu);
      MoveSamePcs(k2, Switching, Ready);
    }
  }

  /** The locks after a step. */
  ghost function LocksAfter(k: Kernel, op: Op): seq<Lock>
    requires Inv(k) && Enabled(k, op)
  {
    match op
    case DoAcquire(l) => if k.locks[l].locked then k.locks else k.locks[l := Lock(true, Current(k))]
    case DoRelease(l) => k.locks[l := Lock(false, 0)]
    case DoWait(_, l) => k.locks[l := Lock(false, 0)]
    case _ => k.locks
  }

  /** The values of the semaphores after a step. */
  ghost function ValueAfter(k: Kernel, op: Op, s: nat): int
    requires Inv(k) && Enabled(k, op) && s < |k.sems|
  {
    var value := k.sems[s].value;
    match op
    case DoP(r) => if r == s && value > 0 then value - 1 else value
    case DoV(r) => if r == s then value + 1 else value
    case _ => value
  }

  /** Where the current thread stands after its step. */
  ghost function PcAfter(k: Kernel, op: Op): Pc
    requires Inv(k) && Enabled(k, op) && !ByMachine(op)
  {
    match op
    case DoAcquire(l) => if k.locks[l].locked then InAcquire(l) else Free
    case DoWait(_, l) => InAcquire(l)
    case DoP(s) => if k.sems[s].value == 0 then InP(s) else Free
    case DoYield => k.threads[Current(k)].pc
    case _ => Free
  }

  ghost predicate Effect(k: Kernel, op: Op, k': Kernel)
    requires Inv(k) && Enabled(k, op)
  {
    && |k'.threads| >= |k.threads| && k'.conds == k.conds && |k'.sems| == |k.sems|
    && k'.locks == LocksAfter(k, op)
    && (forall s :: 0 <= s < |k.sems| ==> k'.sems[s].value == ValueAfter(k, op, s))
    && (forall u :: 0 <= u < |k.threads| ==>
          k'.threads[u].pc == if !ByMachine(op) && u == Current(k) then PcAfter(k, op) else k.threads[u].pc)
    && (forall u :: |k.threads| <= u < |k'.threads| ==> k'.threads[u].pc == Free)
  }

  lemma PEffect(k: Kernel, s: nat)
    requires Inv(k) && Enabled(k, DoP(s))
    ensures Effect(k, DoP(s), P(k, s))
  {
    hide QueueOk, Listed, Block;
    SemValue(k, s);
    if k.sems[s].value == 0 {
      BlockSamePcs(WithThread(k, Current(k), InP(s), k.threads[Current(k)].holds), OnSem(s));
    }
  }

  lemma VEffect(k: Kernel, s: nat)
    requires Inv(k) && Enabled(k, DoV(s))
    ensures Effect(k, DoV(s), V(k, s))
  {
    hide QueueOk, Listed, Synced, Wake;
    WakeSamePcs(k, OnSem(s));
  }

  lemma AcquireEffect(k: Kernel, l: nat)
    requires Inv(k) && Enabled(k, DoAcquire(l))
    ensures Effect(k, DoAcquire(l), Acquire(k, l))
  {
    hide QueueOk, Listed, Synced, Block;
    if k.locks[l].locked {
      BlockSamePcs(WithThread(k, Current(k), InAcquire(l), k.threads[Current(k)].holds), OnLock(l));
    }
  }

  lemma ReleaseEffect(k: Kernel, l: nat)
    requires Inv(k) && Enabled(k, DoRelease(l))
    ensures Effect(k, DoRelease(l), Release(k, l))
  {
    hide QueueOk, Listed, Synced, Wake;
    WakeSamePcs(WithThread(k, Current(k), Free, k.threads[Current(k)].holds - {l}), OnLock(l));
  }

  lemma WaitEffect(k: Kernel, c: nat, l: nat)
    requires Inv(k) && Enabled(k, DoWait(c, l))
    ensures Effect(k, DoWait(c, l), Wait(k, c, l))
  {
    hide QueueOk, Listed, Synced, Release, Block;
    ReleaseEffect(k, l);
    var released, t := Release(k, l), Current(k);
    BlockSamePcs(WithThread(released, t, InAcquire(l), released.threads[t].holds), OnCond(c));
  }

  lemma ForkEffect(k: Kernel, priority: int)
    requires Inv(k) && Enabled(k, DoFork(priority))
    ensures Effect(k, DoFork(priority), Fork(k, priority))
  {
    hide QueueOk, Listed, Synced, Move;
    SpawnedPlaced(k, priority);
    MoveSamePcs(Spawned(k, priority), Switching, Ready);
  }

  lemma SameEffect(k: Kernel, op: Op, k': Kernel)
    requires Inv(k) && Enabled(k, op) && (op.DoSignal? || op.DoBroadcast? || op.DoYield? || op.DoFinish? || op.DoSetPriority? || op.DoDispatch?)
    requires SamePcs(k, k')
    ensures Effect(k, op, k')
  {
    hide QueueOk, Listed, Synced;
  }

  /** Every step of the kernel has the effect stated. */
  lemma StepEffect(k: Kernel, op: Op)
    requires Inv(k) && Enabled(k, op)
    ensures Inv(Step(k, op)) && Effect(k, op, Step(k, op))
  {
    hide Placed, Synced, P, V, Acquire, Release, Wait, WakeAll, Wake, Yield, Fork, Block, Dispatch, Effect;
    StepKeeps(k, op);
    match op
    case DoP(s) => PEffect(k, s);
    case DoV(s) => VEffect(k, s);
    case DoAcquire(l) => AcquireEffect(k, l);
    case DoRelease(l) => ReleaseEffect(k, l);
    case DoWait(c, l) => WaitEffect(k, c, l);
    case DoSignal(c, _) => WakeSamePcs(k, OnCond(c)); SameEffect(k, op, Step(k, op));
    case DoBroadcast(c, _) => WakeAllSamePcs(k, OnCond(c)); SameEffect(k, op, Step(k, op));
    case DoYield => YieldSamePcs(k); SameEffect(k, op, Step(k, op));
    case DoFork(priority) => ForkEffect(k, priority);
    case DoFinish => BlockSamePcs(k, Finished); SameEffect(k, op, Step(k, op));
    case DoSetPriority(_, _) => SameEffect(k, op, Step(k, op));
    case DoDispatch => DispatchSamePcs(k); SameEffect(k, op, Step(k, op));
  }

  // ---------------------------------------------------------------- who sleeps on a condition

  ghost predicate Sleeps(k: Kernel, t: Tid, c: nat) {
    t < |k.threads| && k.threads[t].place == OnCond(c)
  }

  ghost predicate SameSleepers(k: Kernel, k': Kernel, c: nat) {
    forall u: Tid :: Sleeps(k', u, c) <==> Sleeps(k, u, c)
  }

  ghost predicate OneWoken(k: Kernel, k': Kernel, w: Tid, c: nat) {
    Sleeps(k, w, c) && forall u: Tid :: Sleeps(k', u, c) <==> Sleeps(k, u, c) && u != w
  }

  lemma MoveSleepers(k: Kernel, p: Place, q: Place, c: nat)
    requires Placed(k) && p in k.queues && q in k.queues && p != q && k.queues[p] != []
    ensures p != OnCond(c) && q != OnCond(c) ==> SameSleepers(k, Move(k, p, q), c)
    ensures q == OnCond(c) ==> forall u :: Sleeps(Move(k, p, q), u, c) <==> Sleeps(k, u, c) || u == First(k, p)
    ensures p == OnCond(c) ==> Sleeps(k, First(k, p), c) && forall u :: Sleeps(Move(k, p, q), u, c) <==> Sleeps(k, u, c) && u != First(k, p)
  {
    hide QueueOk, Listed, Move, HasQueues;
    MoveFacts(k, p, q);
  }

  lemma DispatchSleepers(k: Kernel, c: nat)
    requires Placed(k)
    ensures SameSleepers(k, Dispatch(k), c)
  {
    hide QueueOk, Listed, Move;
    if k.queues[Cpu] == [] && k.queues[Ready] != [] { MoveSleepers(k, Ready, Cpu, c); }
  }

  /** An empty queue has no sleepers. */
  lemma WakeSleepers(k: Kernel, p: Place, c: nat)
    requires Placed(k) && IsPlace(k, p) && p != Ready && p != Cpu
    ensures p != OnCond(c) ==> SameSleepers(k, Wake(k, p), c)
    ensures p == OnCond(c) && k.queues[p] == [] ==> Wake(k, p) == k && forall u :: !Sleeps(k, u, c)
    ensures p == OnCond(c) && k.queues[p] != [] ==>
              Sleeps(k, First(k, p), c) && forall u :: Sleeps(Wake(k, p), u, c) <==> Sleeps(k, u, c) && u != First(k, p)
  {
    hide QueueOk, Move;
    if k.queues[p] != [] {
      hide Listed;
      MoveSleepers(k, p, Ready, c);
    } else if p == OnCond(c) {
      forall u: Tid ensures !Sleeps(k, u, c) {
        NotListed(k.queues[p], u);
      }
    }
  }

  lemma {:induction false} WakeAllSleepers(k: Kernel, p: Place, c: nat)
    requires Placed(k) && IsPlace(k, p) && p != Ready && p != Cpu
    ensures p != OnCond(c) ==> SameSleepers(k, WakeAll(k, p), c)
    ensures p == OnCond(c) ==> forall u :: !Sleeps(WakeAll(k, p), u, c)
    decreases |k.queues[p]|
  {
    hide QueueOk, Listed, Move;
    WakeSleepers(k, p, c);
    if k.queues[p] != [] {
      MoveFacts(k, p, Ready);
      WakeAllSleepers(Wake(k, p), p, c);
    }
  }

  lemma BlockSleepers(k: Kernel, q: Place, c: nat)
    requires HasCurrent(k) && IsPlace(k, q) && q != Cpu && q != Ready
    ensures q != OnCond(c) ==> SameSleepers(k, Block(k, q), c)
    ensures q == OnCond(c) ==> forall u :: Sleeps(Block(k, q), u, c) <==> Sleeps(k, u, c) || u == Current(k)
  {
    hide QueueOk, Listed, Move, Dispatch;
    MoveSleepers(k, Cpu, q, c);
    MoveKeeps(k, Cpu, q);
    DispatchSleepers(Move(k, Cpu, q), c);
  }

  lemma SamePlacesSleepers(k: Kernel, k': Kernel, c: nat)
    requires SamePlaces(k, k')
    ensures SameSleepers(k, k', c)
  {
  }

  lemma YieldSleepers(k: Kernel, c: nat)
    requires HasCurrent(k) && k.queues[Switching] == []
    ensures SameSleepers(k, Yield(k), c)
  {
    hide QueueOk, Listed, Move;
    if k.queues[Ready] != [] {
      MoveKeeps(k, Cpu, Switching);
      MoveSleepers(k, Cpu, Switching, c);
      MoveFacts(k, Cpu, Switching);
      var k1 := Move(k, Cpu, Switching);
      MoveKeeps(k1, Ready, Cpu);
      MoveSleepers(k1, Ready, Cpu, c);
      MoveFacts(k1, Ready, Cpu);
      MoveSleepers(Move(k1, Ready, Cpu), Switching, Ready, c);
    }
  }

  lemma ForkSleepers(k: Kernel, priority: int, c: nat)
    requires Placed(k) && k.queues[Switching] == []
    ensures SameSleepers(k, Fork(k, priority), c)
  {
    hide QueueOk, Listed, Move;
    SpawnedPlaced(k, priority);
    assert SameSleepers(k, Spawned(k, priority), c);
    MoveSleepers(Spawned(k, priority), Switching, Ready, c);
  }

  lemma ReleaseSleepers(k: Kernel, l: nat, c: nat)
    requires Inv(k) && HasCurrent(k) && HoldsLock(k, Current(k), l)
    ensures SameSleepers(k, Release(k, l), c)
  {
    hide QueueOk, Listed, Synced, Wake;
    var k1 := WithThread(k, Current(k), Free, k.threads[Current(k)].holds - {l});
    SamePlacesSleepers(k, k1, c);
    WakeSleepers(k1, OnLock(l), c);
    SamePlacesSleepers(Wake(k1, OnLock(l)), Release(k, l), c);
  }

  lemma SemaphoreSleepers(k: Kernel, s: nat, c: nat)
    requires Inv(k) && s < |k.sems|
    ensures HasCurrent(k) ==> SameSleepers(k, P(k, s), c)
    ensures SameSleepers(k, V(k, s), c)
  {
    hide QueueOk, Listed, Synced, Wake, Block;
    WakeSleepers(k, OnSem(s), c);
    SamePlacesSleepers(Wake(k, OnSem(s)), V(k, s), c);
    if HasCurrent(k) {
      var k1 := WithThread(k, Current(k), InP(s), k.threads[Current(k)].holds);
      SamePlacesSleepers(k, k1, c);
      BlockSleepers(k1, OnSem(s), c);
    }
  }

  lemma AcquireSleepers(k: Kernel, l: nat, c: nat)
    requires Inv(k) && HasCurrent(k) && l < |k.locks|
    ensures SameSleepers(k, Acquire(k, l), c)
  {
    hide QueueOk, Listed, Synced, Block;
    var k1 := WithThread(k, Current(k), InAcquire(l), k.threads[Current(k)].holds);
    SamePlacesSleepers(k, k1, c);
    if k.locks[l].locked { BlockSleepers(k1, OnLock(l), c); } else { SamePlacesSleepers(k, Acquire(k, l), c); }
  }

  lemma WaitSleepers(k: Kernel, d: nat, l: nat, c: nat)
    requires Inv(k) && HasCurrent(k) && HoldsLock(k, Current(k), l) && d < k.conds
    requires Enabled(k, DoWait(d, l))
    ensures d != c ==> SameSleepers(k, Wait(k, d, l), c)
    ensures d == c ==> forall u :: Sleeps(Wait(k, d, l), u, c) <==> Sleeps(k, u, c) || u == Current(k)
  {
    hide QueueOk, Listed, Synced, Release, Block;
    ReleaseEffect(k, l);
    ReleaseSleepers(k, l, c);
    var released, t := Release(k, l), Current(k);
    var k1 := WithThread(released, t, InAcquire(l), released.threads[t].holds);
    SamePlacesSleepers(released, k1, c);
    BlockSleepers(k1, OnCond(d), c);
  }

  predicate Touches(op: Op, c: nat) {
    match op
    case DoWait(d, _) => d == c
    case DoSignal(d, _) => d == c
    case DoBroadcast(d, _) => d == c
    case _ => false
  }

  /** Only operations on a condition change who sleeps on it: `Wait` adds the current thread,
      `Signal` wakes one thread unless there is none, and `Broadcast` wakes them all. */
  lemma StepSleepers(k: Kernel, op: Op, c: nat)
    requires Inv(k) && Enabled(k, op)
    ensures !Touches(op, c) ==> SameSleepers(k, Step(k, op), c)
    ensures op.DoWait? && op.c == c ==> forall u :: Sleeps(Step(k, op), u, c) <==> Sleeps(k, u, c) || u == Current(k)
    ensures op.DoSignal? && op.c == c ==>
              if forall u :: !Sleeps(k, u, c) then SameSleepers(k, Step(k, op), c)
              else exists w: Tid :: OneWoken(k, Step(k, op), w, c)
    ensures op.DoBroadcast? && op.c == c ==> forall u :: !Sleeps(Step(k, op), u, c)
  {
    hide QueueOk, Listed, Synced, P, V, Acquire, Release, Wait, WakeAll, Wake, Yield, Fork, Block;
    match op
    case DoP(s) => SemaphoreSleepers(k, s, c);
    case DoV(s) => SemaphoreSleepers(k, s, c);
    case DoAcquire(l) => AcquireSleepers(k, l, c);
    case DoRelease(l) => ReleaseSleepers(k, l, c);
    case DoWait(d, l) => WaitSleepers(k, d, l, c);
    case DoSignal(d, _) =>
      WakeSleepers(k, OnCond(d), c);
      if d == c && k.queues[OnCond(c)] != [] {
        assert Step(k, op) == Wake(k, OnCond(c));
        assert OneWoken(k, Step(k, op), First(k, OnCond(c)), c);
      }
    case DoBroadcast(d, _) => WakeAllSleepers(k, OnCond(d), c);
    case DoYield => YieldSleepers(k, c);
    case DoFork(priority) => ForkSleepers(k, priority, c);
    case DoFinish => BlockSleepers(k, Finished, c);
    case DoSetPriority(t, priority) => SamePlacesSleepers(k, SetPriority(k, t, priority), c);
    case DoDispatch => DispatchSleepers(k, c);
  }
}
