/** Where every thread is after every operation: what each puts on which queue, whom it wakes, and
    that a thread is finished exactly when it has finished itself. */
module Places {
  import opened SortedList
  import opened Threads
  import opened Synchronization

  /** `u` has the highest priority, as recorded when queued, of those waiting in `p`, and among those
      of that priority has waited longest. */
  ghost predicate BestWaiter(k: Kernel, p: Place, u: Tid) {
    p in k.queues && exists e :: e in k.queues[p] && e.1.tid == u && IsBest(e, k.queues[p])
  }

  /** The waiters that an operation makes ready. */
  ghost predicate Woken(k: Kernel, op: Op, u: Tid)
    requires u < |k.threads|
  {
    match op
    case DoV(s) => BestWaiter(k, OnSem(s), u)
    case DoRelease(l) => BestWaiter(k, OnLock(l), u)
    case DoWait(_, l) => BestWaiter(k, OnLock(l), u)
    case DoSignal(c, _) => BestWaiter(k, OnCond(c), u)
    case DoBroadcast(c, _) => k.threads[u].place == OnCond(c)
    case _ => false
  }

  /** Where the calling thread is after its operation. */
  ghost function CallerPlace(k: Kernel, op: Op): Place
    requires Inv(k) && Enabled(k, op) && !ByMachine(op)
  {
    match op
    case DoP(s) => if k.sems[s].value == 0 then OnSem(s) else Cpu
    case DoAcquire(l) => if k.locks[l].locked then OnLock(l) else Cpu
    case DoWait(c, _) => OnCond(c)
    case DoFinish => Finished
    case DoYield => if exists u :: 0 <= u < |k.threads| && k.threads[u].place == Ready then Ready else Cpu
    case _ => Cpu
  }

  /** The places of threads other than the caller: the one that now runs, the woken ones, the rest. */
  ghost predicate OthersPlaced(k: Kernel, op: Op, k': Kernel)
    requires Inv(k) && Enabled(k, op) && |k'.threads| >= |k.threads|
  {
    forall u :: 0 <= u < |k.threads| && (ByMachine(op) || u != Current(k)) ==>
      k'.threads[u].place == if HasCurrent(k') && u == Current(k') then Cpu
                             else if Woken(k, op, u) then Ready else k.threads[u].place
  }

  // ---------------------------------------------------------------- moves

  /** Threads for which `moves` says so are now in `q`, and nothing else about places changed. */
  ghost predicate Relocated(k: Kernel, k': Kernel, t: Tid, q: Place) {
    && |k'.threads| == |k.threads| && t < |k.threads|
    && forall u :: 0 <= u < |k.threads| ==>
         && k'.threads[u].place == (if u == t then q else k.threads[u].place)
         && k'.threads[u].priority == k.threads[u].priority
  }

  lemma MoveRelocates(k: Kernel, p: Place, q: Place)
    requires Placed(k) && p in k.queues && q in k.queues && p != q && k.queues[p] != []
    ensures Relocated(k, Move(k, p, q), First(k, p), q)
  {
    hide QueueOk, Listed, Move;
    MoveFacts(k, p, q);
  }

  lemma NobodyIn(k: Kernel, p: Place)
    requires Placed(k) && p in k.queues
    ensures k.queues[p] == [] <==> forall u :: 0 <= u < |k.threads| ==> k.threads[u].place != p
  {
    hide QueueOk;
    if k.queues[p] == [] {
      forall u | 0 <= u < |k.threads| ensures k.threads[u].place != p {
        if k.threads[u].place == p { NotListed(k.queues[p], u); }
      }
    } else {
      assert k.threads[First(k, p)].place == p;
    }
  }

  /** The best waiter is the first. */
  lemma BestIsFirst(k: Kernel, p: Place, u: Tid)
    requires Placed(k) && p in k.queues
    ensures BestWaiter(k, p, u) <==> k.queues[p] != [] && u == First(k, p)
  {
    hide Listed, IsBest;
    var list := k.queues[p];
    if list != [] {
      FrontIsBest(list, k.threads, p, k.clock);
      assert list[0] in list;
      if BestWaiter(k, p, u) {
        var e :| e in list && e.1.tid == u && IsBest(e, list);
        OneBest(list, e);
      }
    }
  }

  lemma OneBest(list: Queue, e: Keyed<Waiter>)
    requires list != [] && e in list && IsBest(e, list) && IsBest(list[0], list)
    ensures e == list[0]
  {
  }

  lemma DispatchPlaces(k: Kernel)
    requires Placed(k)
    ensures var k' := Dispatch(k);
            && |k'.threads| == |k.threads|
            && (forall u :: 0 <= u < |k.threads| ==>
                  && k'.threads[u].place == (if HasCurrent(k') && u == Current(k') then Cpu else k.threads[u].place)
                  && k'.threads[u].priority == k.threads[u].priority)
            && (HasCurrent(k) ==> HasCurrent(k') && Current(k') == Current(k))
            && (!HasCurrent(k') ==> k'.queues[Ready] == [])
            && (HasCurrent(k') && !HasCurrent(k) ==> k.threads[Current(k')].place == Ready)
  {
    hide QueueOk, Listed, Move;
    if k.queues[Cpu] == [] && k.queues[Ready] != [] {
      MoveKeeps(k, Ready, Cpu);
      MoveFacts(k, Ready, Cpu);
      NowCurrent(k, Move(k, Ready, Cpu), First(k, Ready));
    }
  }

  /** A thread on the processor is the current one. */
  lemma OnCpu(k: Kernel, t: Tid)
    requires Placed(k) && t < |k.threads| && k.threads[t].place == Cpu
    ensures HasCurrent(k) && Current(k) == t
  {
    hide QueueOk;
    assert Listed(k.queues[Cpu], t);
  }

  lemma NowCurrent(k: Kernel, k': Kernel, t: Tid)
    requires Placed(k') && t < |k.threads| == |k'.threads| && k'.threads[t].place == Cpu
    ensures HasCurrent(k') && Current(k') == t
  {
    OnCpu(k', t);
  }

  // ---------------------------------------------------------------- sleeping, waking, yielding

  ghost predicate SamePriorities(k: Kernel, k': Kernel) {
    |k'.threads| >= |k.threads| && forall u :: 0 <= u < |k.threads| ==> k'.threads[u].priority == k.threads[u].priority
  }

  /** The current thread went to `q`, and the scheduler gave the processor to a ready thread if there
      was one. */
  ghost predicate Slept(k: Kernel, k': Kernel, q: Place)
    requires HasCurrent(k)
  {
    && Placed(k') && |k'.threads| == |k.threads| && SamePriorities(k, k')
    && k'.threads[Current(k)].place == q
    && (forall u :: 0 <= u < |k.threads| && u != Current(k) ==>
          k'.threads[u].place == if HasCurrent(k') && u == Current(k') then Cpu else k.threads[u].place)
    && (if HasCurrent(k') then k.threads[Current(k')].place == Ready else Ready in k'.queues && k'.queues[Ready] == [])
  }

  lemma BlockPlaces(k: Kernel, q: Place)
    requires HasCurrent(k) && IsPlace(k, q) && q != Cpu && q != Ready
    ensures Slept(k, Block(k, q), q)
  {
    hide QueueOk, Listed, Move, Dispatch;
    MoveKeeps(k, Cpu, q);
    MoveRelocates(k, Cpu, q);
    MoveFacts(k, Cpu, q);
    DispatchPlaces(Move(k, Cpu, q));
  }

  lemma SleepPlaces(k: Kernel, pc: Pc, q: Place)
    requires HasCurrent(k) && IsPlace(k, q) && q != Cpu && q != Ready
    ensures Slept(k, Block(WithThread(k, Current(k), pc, k.threads[Current(k)].holds), q), q)
  {
    hide QueueOk, Listed, Block;
    BlockPlaces(WithThread(k, Current(k), pc, k.threads[Current(k)].holds), q);
  }

  ghost predicate WokeBest(k: Kernel, k': Kernel, p: Place) {
    && |k'.threads| == |k.threads| && SamePriorities(k, k') && Cpu in k.queues && Cpu in k'.queues && k'.queues[Cpu] == k.queues[Cpu]
    && forall u :: 0 <= u < |k.threads| ==> k'.threads[u].place == if BestWaiter(k, p, u) then Ready else k.threads[u].place
  }

  lemma WakePlaces(k: Kernel, p: Place)
    requires Placed(k) && IsPlace(k, p) && p != Ready && p != Cpu
    ensures WokeBest(k, Wake(k, p), p)
  {
    hide QueueOk, Listed, Move, BestWaiter;
    forall u | 0 <= u < |k.threads| ensures BestWaiter(k, p, u) <==> k.queues[p] != [] && u == First(k, p) {
      BestIsFirst(k, p, u);
    }
    if k.queues[p] != [] {
      MoveRelocates(k, p, Ready);
      MoveFacts(k, p, Ready);
    }
  }

  lemma {:induction false} WakeAllPlaces(k: Kernel, p: Place)
    requires Placed(k) && IsPlace(k, p) && p != Ready && p != Cpu
    ensures var k' := WakeAll(k, p);
            && |k'.threads| == |k.threads| && SamePriorities(k, k') && Cpu in k'.queues && k'.queues[Cpu] == k.queues[Cpu]
            && forall u :: 0 <= u < |k.threads| ==> k'.threads[u].place == if k.threads[u].place == p then Ready else k.threads[u].place
    decreases |k.queues[p]|
  {
    hide QueueOk, Listed, Move, BestWaiter;
    NobodyIn(k, p);
    if k.queues[p] != [] {
      MoveRelocates(k, p, Ready);
      MoveFacts(k, p, Ready);
      WakeAllPlaces(Wake(k, p), p);
    }
  }

  /** The caller stays on the processor when no thread is ready. */
  lemma YieldPlaces(k: Kernel)
    requires HasCurrent(k) && k.queues[Switching] == []
    ensures var k', t := Yield(k), Current(k);
            && |k'.threads| == |k.threads| && SamePriorities(k, k') && HasCurrent(k')
            && (Current(k') == t || k.threads[Current(k')].place == Ready)
            && k'.threads[t].place == (if exists u :: 0 <= u < |k.threads| && k.threads[u].place == Ready then Ready else Cpu)
            && forall u :: 0 <= u < |k.threads| && u != t ==> k'.threads[u].place == if u == Current(k') then Cpu else k.threads[u].place
  {
    hide QueueOk, Listed, Move;
    var t := Current(k);
    NobodyIn(k, Ready);
    if k.queues[Ready] != [] {
      MoveKeeps(k, Cpu, Switching);
      MoveRelocates(k, Cpu, Switching);
      MoveFacts(k, Cpu, Switching);
      var k1 := Move(k, Cpu, Switching);
      MoveKeeps(k1, Ready, Cpu);
      MoveRelocates(k1, Ready, Cpu);
      MoveFacts(k1, Ready, Cpu);
      var k2 := Move(k1, Ready, Cpu);
      OneSwitching(k, k1, k2);
      MoveKeeps(k2, Switching, Ready);
      MoveRelocates(k2, Switching, Ready);
      NowCurrent(k, Yield(k), First(k1, Ready));
    }
  }

  /** The one thread that is switching is the one that yields. */
  lemma OneSwitching(k: Kernel, k1: Kernel, k2: Kernel)
    requires HasCurrent(k) && k.queues[Switching] == [] && Placed(k1) && Placed(k2)
    requires Relocated(k, k1, Current(k), Switching) && Switching in k2.queues && k2.queues[Switching] != []
    requires |k2.threads| == |k1.threads|
    requires forall u :: 0 <= u < |k1.threads| && k2.threads[u].place == Switching ==> k1.threads[u].place == Switching
    ensures First(k2, Switching) == Current(k)
  {
    hide QueueOk, Listed;
    NobodyIn(k, Switching);
  }

  lemma ForkPlaces(k: Kernel, priority: int)
    requires Placed(k) && k.queues[Switching] == []
    ensures var k', n := Fork(k, priority), |k.threads|;
            && |k'.threads| == n + 1 && SamePriorities(k, k') && Cpu in k'.queues && k'.queues[Cpu] == k.queues[Cpu]
            && k'.threads[n] == Thread(priority, Ready, Free, {})
            && forall u :: 0 <= u < n ==> k'.threads[u].place == k.threads[u].place
  {
    hide QueueOk, Listed, Move;
    SpawnedPlaced(k, priority);
    MoveFacts(Spawned(k, priority), Switching, Ready);
    assert First(Spawned(k, priority), Switching) == |k.threads|;
  }

  // ---------------------------------------------------------------- every operation

  lemma SamePlacesCurrent(k: Kernel, k': Kernel)
    requires HasCurrent(k) && Placed(k') && SamePlaces(k, k')
    ensures HasCurrent(k') && Current(k') == Current(k)
  {
  }

  lemma SameCpu(k: Kernel, k': Kernel)
    requires Placed(k) && Placed(k') && k'.queues[Cpu] == k.queues[Cpu]
    ensures HasCurrent(k') <==> HasCurrent(k)
    ensures HasCurrent(k) ==> Current(k') == Current(k)
  {
  }

  lemma ReleasePlaces(k: Kernel, l: nat)
    requires HasCurrent(k) && HoldsLock(k, Current(k), l)
    ensures WokeBest(k, Release(k, l), OnLock(l))
  {
    hide QueueOk, Listed, Wake;
    WakePlaces(WithThread(k, Current(k), Free, k.threads[Current(k)].holds - {l}), OnLock(l));
  }

  /** What `StepPlaces` says, without the threads that are new. */
  ghost predicate PlacedAfter(k: Kernel, op: Op, k': Kernel)
    requires Inv(k) && Enabled(k, op)
  {
    && |k'.threads| >= |k.threads|
    && (!ByMachine(op) ==> k'.threads[Current(k)].place == CallerPlace(k, op))
    && OthersPlaced(k, op, k')
    && (!op.DoV? && !HasCurrent(k') ==> Ready in k'.queues && k'.queues[Ready] == [])
    && (HasCurrent(k) && (ByMachine(op) || CallerPlace(k, op) == Cpu) ==> HasCurrent(k') && Current(k') == Current(k))
    && (op.DoV? ==> (HasCurrent(k') <==> HasCurrent(k)))
    && (HasCurrent(k') && !(HasCurrent(k) && Current(k') == Current(k)) ==>
          Current(k') < |k.threads| && (k.threads[Current(k')].place == Ready || Woken(k, op, Current(k'))))
  }

  lemma NobodyElseOnCpu(k: Kernel)
    requires HasCurrent(k)
    ensures forall u :: 0 <= u < |k.threads| && k.threads[u].place == Cpu ==> u == Current(k)
  {
    hide QueueOk, Listed;
    forall u | 0 <= u < |k.threads| && k.threads[u].place == Cpu ensures u == Current(k) {
      OnCpu(k, u);
    }
  }

  /** Steps that leave the caller on the processor and make no other thread ready. */
  lemma StaysPlaced(k: Kernel, op: Op, k': Kernel)
    requires Inv(k) && Enabled(k, op) && !ByMachine(op) && HasCurrent(k) && CallerPlace(k, op) == Cpu && Placed(k')
    requires |k'.threads| >= |k.threads| && Cpu in k'.queues && k'.queues[Cpu] == k.queues[Cpu]
    requires forall u :: 0 <= u < |k.threads| ==> k'.threads[u].place == if Woken(k, op, u) then Ready else k.threads[u].place
    ensures PlacedAfter(k, op, k')
  {
    hide QueueOk, Listed, Synced, CallerPlace, Woken, Enabled;
    SameCpu(k, k');
    if Woken(k, op, Current(k)) {
      WokenWaited(k, op, Current(k));
      assert false;
    }
  }

  lemma SleptPlaced(k: Kernel, op: Op, k': Kernel, q: Place)
    requires Inv(k) && Enabled(k, op) && !ByMachine(op) && !op.DoWait? && HasCurrent(k) && CallerPlace(k, op) == q != Cpu && Slept(k, k', q)
    requires forall u :: 0 <= u < |k.threads| ==> !Woken(k, op, u)
    ensures PlacedAfter(k, op, k')
  {
    hide QueueOk, Listed, Synced, CallerPlace, Woken, Enabled;
    assert IsPlace(k', Ready);
  }

  lemma WaitPlaces(k: Kernel, c: nat, l: nat)
    requires Inv(k) && Enabled(k, DoWait(c, l))
    ensures PlacedAfter(k, DoWait(c, l), Wait(k, c, l)) && SamePriorities(k, Wait(k, c, l)) && |Wait(k, c, l).threads| == |k.threads|
  {
    hide QueueOk, Listed, Synced, Release, Block, BestWaiter, Slept;
    ReleasePlaces(k, l);
    ReleaseConds(k, l);
    SleepPlaces(Release(k, l), InAcquire(l), OnCond(c));
    WaitPlaced(k, c, l, Release(k, l), Wait(k, c, l));
  }

  lemma ReleaseConds(k: Kernel, l: nat)
    requires HasCurrent(k) && HoldsLock(k, Current(k), l)
    ensures Release(k, l).conds == k.conds
  {
  }

  lemma WaitPlaced(k: Kernel, c: nat, l: nat, released: Kernel, k': Kernel)
    requires Inv(k) && Enabled(k, DoWait(c, l)) && HasCurrent(released) && Current(released) == Current(k)
    requires WokeBest(k, released, OnLock(l)) && Slept(released, k', OnCond(c))
    ensures PlacedAfter(k, DoWait(c, l), k') && SamePriorities(k, k') && |k'.threads| == |k.threads|
  {
    hide QueueOk, Listed, Synced, BestWaiter, Enabled;
  }

  lemma PPlaces(k: Kernel, s: nat)
    requires Inv(k) && Enabled(k, DoP(s))
    ensures PlacedAfter(k, DoP(s), P(k, s)) && SamePriorities(k, P(k, s)) && |P(k, s).threads| == |k.threads|
  {
    hide QueueOk, Listed, Synced, Block, Slept;
    if k.sems[s].value == 0 {
      SleepPlaces(k, InP(s), OnSem(s));
      assert Slept(k, P(k, s), OnSem(s));
      SleptPlaced(k, DoP(s), P(k, s), OnSem(s));
      SleptFacts(k, P(k, s), OnSem(s));
    } else {
      StaysPlaced(k, DoP(s), P(k, s));
    }
  }

  lemma AcquirePlaces(k: Kernel, l: nat)
    requires Inv(k) && Enabled(k, DoAcquire(l))
    ensures PlacedAfter(k, DoAcquire(l), Acquire(k, l)) && SamePriorities(k, Acquire(k, l)) && |Acquire(k, l).threads| == |k.threads|
  {
    hide QueueOk, Listed, Synced, Block, Slept;
    if k.locks[l].locked {
      SleepPlaces(k, InAcquire(l), OnLock(l));
      assert Slept(k, Acquire(k, l), OnLock(l));
      SleptPlaced(k, DoAcquire(l), Acquire(k, l), OnLock(l));
      SleptFacts(k, Acquire(k, l), OnLock(l));
    } else {
      StaysPlaced(k, DoAcquire(l), Acquire(k, l));
    }
  }

  lemma SleptFacts(k: Kernel, k': Kernel, q: Place)
    requires HasCurrent(k) && Slept(k, k', q)
    ensures SamePriorities(k, k') && |k'.threads| == |k.threads|
  {
  }

  lemma VPlaces(k: Kernel, s: nat)
    requires Inv(k) && s < |k.sems|
    ensures PlacedAfter(k, DoV(s), V(k, s)) && SamePriorities(k, V(k, s)) && |V(k, s).threads| == |k.threads|
  {
    hide QueueOk, Listed, Synced, Wake, BestWaiter;
    WakePlaces(k, OnSem(s));
    SameCpu(k, V(k, s));
    if HasCurrent(k) {
      NobodyElseOnCpu(k);
      NotWaiting(k, OnSem(s));
    }
  }

  /** The running thread does not wait anywhere. */
  lemma NotWaiting(k: Kernel, p: Place)
    requires HasCurrent(k) && p != Cpu
    ensures !BestWaiter(k, p, Current(k))
  {
    hide QueueOk, Listed;
    if p in k.queues { BestIsFirst(k, p, Current(k)); }
  }

  lemma BestWaits(k: Kernel, p: Place, u: Tid)
    requires Placed(k) && BestWaiter(k, p, u)
    ensures u < |k.threads| && k.threads[u].place == p
  {
    hide QueueOk, Listed;
    BestIsFirst(k, p, u);
  }

  /** Woken threads were waiting. */
  lemma WokenWaited(k: Kernel, op: Op, u: Tid)
    requires Inv(k) && u < |k.threads| && Woken(k, op, u)
    ensures var p := k.threads[u].place; p.OnSem? || p.OnLock? || p.OnCond?
  {
    hide QueueOk, Listed, Synced, BestWaiter;
    match op
    case DoV(s) => BestWaits(k, OnSem(s), u);
    case DoRelease(l) => BestWaits(k, OnLock(l), u);
    case DoWait(_, l) => BestWaits(k, OnLock(l), u);
    case DoSignal(c, _) => BestWaits(k, OnCond(c), u);
    case DoBroadcast(_, _) =>
  }

  lemma FinishPlaces(k: Kernel)
    requires Inv(k) && Enabled(k, DoFinish)
    ensures PlacedAfter(k, DoFinish, Block(k, Finished)) && SamePriorities(k, Block(k, Finished)) && |Block(k, Finished).threads| == |k.threads|
  {
    hide QueueOk, Listed, Synced, Block, Slept;
    BlockPlaces(k, Finished);
    SleptPlaced(k, DoFinish, Block(k, Finished), Finished);
    SleptFacts(k, Block(k, Finished), Finished);
  }

  lemma YieldPlaced(k: Kernel)
    requires Inv(k) && Enabled(k, DoYield)
    ensures PlacedAfter(k, DoYield, Yield(k)) && SamePriorities(k, Yield(k)) && |Yield(k).threads| == |k.threads|
  {
    hide QueueOk, Listed, Synced, Yield;
    YieldPlaces(k);
    NobodyElseOnCpu(k);
    if CallerPlace(k, DoYield) == Cpu { OnCpu(Yield(k), Current(k)); }
  }

  lemma DispatchPlaced(k: Kernel)
    requires Inv(k) && Enabled(k, DoDispatch)
    ensures PlacedAfter(k, DoDispatch, Dispatch(k)) && SamePriorities(k, Dispatch(k)) && |Dispatch(k).threads| == |k.threads|
  {
    hide QueueOk, Listed, Synced, Dispatch;
    DispatchPlaces(k);
    assert IsPlace(Dispatch(k), Ready);
  }

  lemma MonitorPlaces(k: Kernel, op: Op)
    requires Inv(k) && Enabled(k, op) && (op.DoRelease? || op.DoSignal? || op.DoBroadcast?)
    ensures var k' := Step(k, op); PlacedAfter(k, op, k') && SamePriorities(k, k') && |k'.threads| == |k.threads|
  {
    hide QueueOk, Listed, Synced, Wake, WakeAll, Release, BestWaiter;
    StepKeeps(k, op);
    match op
    case DoRelease(l) => ReleasePlaces(k, l); StaysPlaced(k, op, Release(k, l));
    case DoSignal(c, _) => WakePlaces(k, OnCond(c)); StaysPlaced(k, op, Wake(k, OnCond(c)));
    case DoBroadcast(c, _) => WakeAllPlaces(k, OnCond(c)); StaysPlaced(k, op, WakeAll(k, OnCond(c)));
  }

  lemma ForkPlaced(k: Kernel, priority: int)
    requires Inv(k) && Enabled(k, DoFork(priority))
    ensures PlacedAfter(k, DoFork(priority), Fork(k, priority)) && SamePriorities(k, Fork(k, priority))
  {
    hide QueueOk, Listed, Synced, Fork;
    ForkPlaces(k, priority);
    StaysPlaced(k, DoFork(priority), Fork(k, priority));
  }

  lemma SetPriorityPlaces(k: Kernel, t: Tid, priority: int)
    requires Inv(k) && Enabled(k, DoSetPriority(t, priority))
    ensures PlacedAfter(k, DoSetPriority(t, priority), SetPriority(k, t, priority))
  {
    hide QueueOk, Listed, Synced;
    StaysPlaced(k, DoSetPriority(t, priority), SetPriority(k, t, priority));
  }

  function NewThreads(op: Op): nat { if op.DoFork? then 1 else 0 }

  /** Every operation: the caller goes on, or sleeps where the operation says, or is ready when another
      runs instead; the best waiter, or each, becomes ready; whoever runs then was ready, and a
      processor is idle only if nobody is; `Fork` adds one ready thread; only `setPriority` changes a
      priority, and all other threads stay where they are. */
  lemma StepPlaces(k: Kernel, op: Op)
    requires Inv(k) && Enabled(k, op)
    ensures var k' := Step(k, op);
            && |k'.threads| == |k.threads| + NewThreads(op) && PlacedAfter(k, op, k')
            && (op.DoFork? ==> k'.threads[|k.threads|] == Thread(op.priority, Ready, Free, {}))
            && forall u :: 0 <= u < |k.threads| ==>
                 k'.threads[u].priority == if op.DoSetPriority? && u == op.t then op.priority else k.threads[u].priority
  {
    hide QueueOk, Listed, Synced, P, V, Acquire, Release, Wait, WakeAll, Wake, Yield, Fork, Block, Dispatch, PlacedAfter;
    match op
    case DoP(s) => PPlaces(k, s);
    case DoV(s) => VPlaces(k, s);
    case DoAcquire(l) => AcquirePlaces(k, l);
    case DoWait(c, l) => WaitPlaces(k, c, l);
    case DoYield => YieldPlaced(k);
    case DoFork(priority) => ForkPlaced(k, priority); ForkPlaces(k, priority);
    case DoFinish => FinishPlaces(k);
    case DoSetPriority(t, priority) => SetPriorityPlaces(k, t, priority);
    case DoDispatch => DispatchPlaced(k);
    case _ => MonitorPlaces(k, op);
  }

  /** The kernel never blocks a thread that could run: while one is on the processor or ready, a thread
      or the scheduler can take a step. */
  lemma RunnableCanStep(k: Kernel, t: Tid) returns (op: Op)
    requires Inv(k) && t < |k.threads| && (k.threads[t].place == Cpu || k.threads[t].place == Ready)
    ensures Enabled(k, op) && !op.DoV?
    ensures HasCurrent(k) ==> k.threads[Current(k)].pc.InP? || op == DoYield
  {
    hide QueueOk, Listed, Synced;
    if k.threads[t].place == Cpu { OnCpu(k, t); }
    if !HasCurrent(k) {
      op := DoDispatch;
    } else {
      var c := Current(k);
      assert ThreadOk(k, c) by { SyncedThread(k, c); }
      op := if k.threads[c].pc.InP? then DoP(k.threads[c].pc.s) else DoYield;
    }
  }

  // ---------------------------------------------------------------- every run

  /** Thread `t` calls `Finish` in step `m`. */
  ghost predicate Finishes(ks: seq<Kernel>, ops: seq<Op>, t: Tid, m: nat) {
    m < |ops| && m < |ks| && ops[m].DoFinish? && HasCurrent(ks[m]) && Current(ks[m]) == t
  }

  ghost predicate IsFinished(k: Kernel, t: Tid) {
    t < |k.threads| && k.threads[t].place == Finished
  }

  lemma FinishedStays(k: Kernel, op: Op, t: Tid)
    requires Inv(k) && Enabled(k, op)
    ensures IsFinished(Step(k, op), t) <==> IsFinished(k, t) || (op.DoFinish? && t == Current(k))
  {
    hide QueueOk, Listed, Synced, Step, Woken, Enabled;
    StepPlaces(k, op);
    forall u | 0 <= u < |k.threads| && Woken(k, op, u) ensures k.threads[u].place != Finished {
      WokenWaited(k, op, u);
    }
  }

  lemma NoneFinished(k: Kernel, values: seq<nat>, t: Tid)
    requires Booted(k, values)
    ensures !IsFinished(k, t)
  {
  }

  /** In every run a thread is finished if and only if it has called `Finish`. */
  lemma {:induction false} FinishedIff(ks: seq<Kernel>, ops: seq<Op>, values: seq<nat>, n: nat, t: Tid)
    requires IsRun(ks, ops, values) && n <= |ops|
    ensures IsFinished(ks[n], t) <==> exists m: nat :: m < n && Finishes(ks, ops, t, m)
  {
    hide Inv, Step, Enabled, Booted, IsFinished, HasCurrent;
    if n == 0 {
      NoneFinished(ks[0], values, t);
    } else {
      EveryRunIsSafe(ks, ops, values, n - 1);
      assert IsStep(ks[n - 1], ops[n - 1], ks[n - 1 + 1]);
      FinishedStays(ks[n - 1], ops[n - 1], t);
      FinishedIff(ks, ops, values, n - 1, t);
      if ops[n - 1].DoFinish? { CallerRuns(ks[n - 1], ops[n - 1]); }
      if Finishes(ks, ops, t, n - 1) { assert n - 1 < n; }
    }
  }

  lemma CallerRuns(k: Kernel, op: Op)
    requires Inv(k) && Enabled(k, op) && !ByMachine(op)
    ensures HasCurrent(k)
  {
  }
}
