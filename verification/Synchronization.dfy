/** Semaphores, locks and condition variables over the scheduler: what holds in every reachable
    state, whatever the threads do and however they are interleaved. */
module Synchronization {
  import opened Basics
  import opened SortedList
  import opened Threads

  // ---------------------------------------------------------------- the operations

  /** `k'` differs from `k` in no thread's place and in no queue. */
  ghost predicate SamePlaces(k: Kernel, k': Kernel) {
    && k'.queues == k.queues && k'.clock == k.clock && k'.conds == k.conds
    && |k'.sems| == |k.sems| && |k'.locks| == |k.locks| && |k'.threads| == |k.threads|
    && forall t :: 0 <= t < |k.threads| ==> k'.threads[t].place == k.threads[t].place
  }

  lemma SamePlacesPlaced(k: Kernel, k': Kernel)
    requires Placed(k) && SamePlaces(k, k')
    ensures Placed(k')
  {
    hide Ordered, Listed;
    assert forall p :: IsPlace(k', p) == IsPlace(k, p);
    forall p | p in k'.queues ensures QueueOk(k'.queues[p], k'.threads, p, k'.clock) {
      assert QueueOk(k.queues[p], k.threads, p, k.clock);
    }
  }

  ghost predicate HasCurrent(k: Kernel) {
    Placed(k) && k.queues[Cpu] != []
  }

  ghost function Current(k: Kernel): (t: Tid)
    requires HasCurrent(k)
    ensures t < |k.threads| && k.threads[t].place == Cpu
  {
    First(k, Cpu)
  }

  /** Change the current thread's program counter and locks held. */
  ghost function WithThread(k: Kernel, t: Tid, pc: Pc, holds: set<nat>): (r: Kernel)
    requires Placed(k) && t < |k.threads|
    ensures Placed(r) && SamePlaces(k, r)
  {
    var r := k.(threads := k.threads[t := k.threads[t].(pc := pc, holds := holds)]);
    SamePlacesPlaced(k, r);
    r
  }

  ghost function WithSem(k: Kernel, s: nat, sem: Semaphore): (r: Kernel)
    requires Placed(k) && s < |k.sems|
    ensures Placed(r) && SamePlaces(k, r)
  {
    var r := k.(sems := k.sems[s := sem]);
    SamePlacesPlaced(k, r);
    r
  }

  ghost function WithLock(k: Kernel, l: nat, lock: Lock): (r: Kernel)
    requires Placed(k) && l < |k.locks|
    ensures Placed(r) && SamePlaces(k, r)
  {
    var r := k.(locks := k.locks[l := lock]);
    SamePlacesPlaced(k, r);
    r
  }

  /** Give an idle processor to the first ready thread. */
  ghost function Dispatch(k: Kernel): (r: Kernel)
    requires Placed(k)
    ensures Placed(r)
  {
    if k.queues[Cpu] == [] && k.queues[Ready] != [] then
      MoveKeeps(k, Ready, Cpu);
      Move(k, Ready, Cpu)
    else k
  }

  /** `Thread::Sleep` on queue `q`, and the switch to the next thread if there is one. */
  ghost function Block(k: Kernel, q: Place): (r: Kernel)
    requires HasCurrent(k) && IsPlace(k, q) && q != Cpu && q != Ready
    ensures Placed(r)
  {
    MoveKeeps(k, Cpu, q);
    Dispatch(Move(k, Cpu, q))
  }

  /** Make the first waiter of `p`, if there is one, ready. */
  ghost function Wake(k: Kernel, p: Place): (r: Kernel)
    requires Placed(k) && IsPlace(k, p) && p != Ready && p != Cpu
    ensures Placed(r) && r.sems == k.sems && r.locks == k.locks && r.conds == k.conds
    ensures r.queues[Cpu] == k.queues[Cpu]
  {
    if k.queues[p] == [] then k
    else
      MoveKeeps(k, p, Ready);
      Move(k, p, Ready)
  }

  ghost function WakeAll(k: Kernel, p: Place): (r: Kernel)
    requires Placed(k) && IsPlace(k, p) && p != Ready && p != Cpu
    ensures Placed(r)
    decreases |k.queues[p]|
  {
    if k.queues[p] == [] then k else WakeAll(Wake(k, p), p)
  }

  /** One turn of the loop in `Semaphore::P`: sleep, or take the semaphore. */
  ghost function P(k: Kernel, s: nat): (r: Kernel)
    requires HasCurrent(k) && s < |k.sems|
    ensures Placed(r)
  {
    var t, sem := Current(k), k.sems[s];
    if sem.value == 0 then Block(WithThread(k, t, InP(s), k.threads[t].holds), OnSem(s))
    else WithSem(WithThread(k, t, Free, k.threads[t].holds), s, sem.(value := sem.value - 1, ps := sem.ps + 1))
  }

  /** `Semaphore::V`, called by a thread or by an interrupt handler.  A thread woken on an idle
      machine is not dispatched yet: other handlers may run first. */
  ghost function V(k: Kernel, s: nat): (r: Kernel)
    requires Placed(k) && s < |k.sems|
    ensures Placed(r)
  {
    var sem := k.sems[s];
    WithSem(Wake(k, OnSem(s)), s, sem.(value := sem.value + 1, vs := sem.vs + 1))
  }

  /** `Thread::setPriority`: queues the thread is on are not touched. */
  ghost function SetPriority(k: Kernel, t: Tid, priority: int): (r: Kernel)
    requires Placed(k) && t < |k.threads|
    ensures Placed(r) && SamePlaces(k, r)
  {
    var r := k.(threads := k.threads[t := k.threads[t].(priority := priority)]);
    SamePlacesPlaced(k, r);
    r
  }

  /** One turn of the loop in `Lock::Acquire`. */
  ghost function Acquire(k: Kernel, l: nat): (r: Kernel)
    requires HasCurrent(k) && l < |k.locks|
    ensures Placed(r)
  {
    var t := Current(k);
    if k.locks[l].locked then Block(WithThread(k, t, InAcquire(l), k.threads[t].holds), OnLock(l))
    else WithLock(WithThread(k, t, Free, k.threads[t].holds + {l}), l, Lock(true, t))
  }

  ghost predicate HoldsLock(k: Kernel, t: Tid, l: nat) {
    l < |k.locks| && k.locks[l] == Lock(true, t)
  }

  /** `Lock::Release` by its holder. */
  ghost function Release(k: Kernel, l: nat): (r: Kernel)
    requires HasCurrent(k) && HoldsLock(k, Current(k), l)
    ensures HasCurrent(r) && Current(r) == Current(k)
  {
    var t := Current(k);
    var woken := Wake(WithThread(k, t, Free, k.threads[t].holds - {l}), OnLock(l));
    WithLock(woken, l, Lock(false, 0))
  }

  /** `Condition::Wait`: release the lock and sleep in one step; on waking, acquire it again. */
  ghost function Wait(k: Kernel, c: nat, l: nat): (r: Kernel)
    requires HasCurrent(k) && HoldsLock(k, Current(k), l) && c < k.conds
    ensures Placed(r)
  {
    var released := Release(k, l);
    var t := Current(k);
    Block(WithThread(released, t, InAcquire(l), released.threads[t].holds), OnCond(c))
  }

  ghost function Signal(k: Kernel, c: nat): (r: Kernel)
    requires Placed(k) && c < k.conds
    ensures Placed(r)
  {
    Wake(k, OnCond(c))
  }

  ghost function Broadcast(k: Kernel, c: nat): (r: Kernel)
    requires Placed(k) && c < k.conds
    ensures Placed(r)
  {
    WakeAll(k, OnCond(c))
  }

  /** `Thread::Yield`: the next thread is chosen before the current one becomes ready. */
  ghost function Yield(k: Kernel): (r: Kernel)
    requires HasCurrent(k) && k.queues[Switching] == []
    ensures Placed(r)
  {
    if k.queues[Ready] == [] then k
    else
      MoveKeeps(k, Cpu, Switching);
      var k1 := Move(k, Cpu, Switching);
      MoveKeeps(k1, Ready, Cpu);
      var k2 := Move(k1, Ready, Cpu);
      MoveKeeps(k2, Switching, Ready);
      Move(k2, Switching, Ready)
  }

  /** `Thread::Fork`: a new thread appears and is made ready. */
  ghost function Spawned(k: Kernel, priority: int): Kernel {
    k.(threads := k.threads + [Thread(priority, Switching, Free, {})],
       queues := k.queues[Switching := [(-priority, Waiter(|k.threads|, k.clock, priority))]],
       clock := k.clock + 1)
  }

  lemma SpawnedQueues(list: Queue, threads: seq<Thread>, p: Place, clock: nat, th: Thread)
    requires QueueOk(list, threads, p, clock)
    ensures QueueOk(list, threads + [th], p, clock + 1)
    ensures QueueOk([(-th.priority, Waiter(|threads|, clock, th.priority))], threads + [th], th.place, clock + 1)
    ensures Listed([(-th.priority, Waiter(|threads|, clock, th.priority))], |threads|)
  {
    var single := [(-th.priority, Waiter(|threads|, clock, th.priority))];
    assert single[0].1.tid == |threads|;
  }

  lemma SpawnedPlaced(k: Kernel, priority: int)
    requires Placed(k) && k.queues[Switching] == []
    ensures Placed(Spawned(k, priority))
  {
    hide QueueOk, Listed;
    var k', th := Spawned(k, priority), Thread(priority, Switching, Free, {});
    assert forall p :: IsPlace(k', p) == IsPlace(k, p);
    forall p | p in k'.queues ensures QueueOk(k'.queues[p], k'.threads, p, k'.clock) {
      SpawnedQueues(k.queues[p], k.threads, p, k.clock, th);
    }
    SpawnedQueues(k.queues[Switching], k.threads, Switching, k.clock, th);
    forall t | 0 <= t < |k.threads| ensures k'.threads[t].place != Switching {
      if k.threads[t].place == Switching { NotListed(k.queues[Switching], t); }
    }
  }

  lemma NotListed(list: Queue, t: Tid)
    requires list == []
    ensures !Listed(list, t)
  {
  }

  ghost function Fork(k: Kernel, priority: int): (r: Kernel)
    requires Placed(k) && k.queues[Switching] == []
    ensures Placed(r)
  {
    SpawnedPlaced(k, priority);
    MoveKeeps(Spawned(k, priority), Switching, Ready);
    Move(Spawned(k, priority), Switching, Ready)
  }

  // ---------------------------------------------------------------- the invariant

  predicate Runnable(p: Place) { p == Cpu || p == Ready || p == Switching }

  /** A sleeping thread is asleep in the operation whose queue it is on. */
  ghost predicate ThreadOk(k: Kernel, t: Tid)
    requires t < |k.threads|
  {
    var th := k.threads[t];
    && (th.place.OnSem? ==> th.pc == InP(th.place.s))
    && (th.place.OnLock? ==> th.pc == InAcquire(th.place.l))
    && (th.place.OnCond? ==> th.pc.InAcquire?)
    && (th.pc.InP? ==> th.pc.s < |k.sems| && (Runnable(th.place) || th.place == OnSem(th.pc.s)))
    && (th.pc.InAcquire? ==> th.pc.l < |k.locks| && (Runnable(th.place) || th.place.OnLock? || th.place.OnCond?))
    && (forall l :: l in th.holds <==> HoldsLock(k, t, l))
  }

  /** The threads that were woken, or have not slept yet, and will test the semaphore again. */
  ghost function Retesting(k: Kernel, s: nat): set<Tid> {
    set t | 0 <= t < |k.threads| && k.threads[t].pc == InP(s) && Runnable(k.threads[t].place)
  }

  /** The value is what the completed operations leave, and as long as threads wait there are
      enough woken ones on their way to use it up: no wake-up is lost. */
  ghost predicate SemOk(k: Kernel, s: nat)
    requires s < |k.sems| && OnSem(s) in k.queues
  {
    var sem := k.sems[s];
    && sem.value == sem.initial + sem.vs - sem.ps && sem.value >= 0
    && (k.queues[OnSem(s)] != [] ==> sem.value <= |Retesting(k, s)|)
  }

  ghost predicate WillRetest(k: Kernel, l: nat, t: Tid) {
    t < |k.threads| && k.threads[t].pc == InAcquire(l) && Runnable(k.threads[t].place)
  }

  /** A free lock with waiters has a thread on its way to take it. */
  ghost predicate LockOk(k: Kernel, l: nat)
    requires l < |k.locks| && OnLock(l) in k.queues
  {
    if k.locks[l].locked then k.locks[l].threadHeld < |k.threads|
    else k.queues[OnLock(l)] != [] ==> exists t :: WillRetest(k, l, t)
  }

  ghost predicate Inv(k: Kernel) {
    && Placed(k)
    && k.queues[Switching] == []
    && Synced(k)
  }

  ghost predicate Synced(k: Kernel)
    requires Placed(k)
  {
    && (forall t :: 0 <= t < |k.threads| ==> ThreadOk(k, t))
    && (forall s :: 0 <= s < |k.sems| ==> IsPlace(k, OnSem(s)) && SemOk(k, s))
    && (forall l :: 0 <= l < |k.locks| ==> IsPlace(k, OnLock(l)) && LockOk(k, l))
  }

  /** At most one thread holds a lock. */
  lemma AtMostOneHolder(k: Kernel, l: nat, t: Tid, u: Tid)
    requires Inv(k) && t < |k.threads| && u < |k.threads|
    requires l in k.threads[t].holds && l in k.threads[u].holds
    ensures t == u
  {
    assert ThreadOk(k, t) && ThreadOk(k, u);
  }

  // ---------------------------------------------------------------- moves

  /** A semaphore is fine when it was and no retesting thread went away. */
  lemma SemFrame(k: Kernel, k': Kernel, s: nat)
    requires s < |k.sems| && OnSem(s) in k.queues && SemOk(k, s)
    requires s < |k'.sems| && OnSem(s) in k'.queues && k'.sems[s] == k.sems[s]
    requires k'.queues[OnSem(s)] != [] ==> k.queues[OnSem(s)] != []
    requires Retesting(k, s) <= Retesting(k', s)
    ensures SemOk(k', s)
  {
    SubsetSize(Retesting(k, s), Retesting(k', s));
  }

  lemma LockFrame(k: Kernel, k': Kernel, l: nat)
    requires l < |k.locks| && OnLock(l) in k.queues && LockOk(k, l)
    requires l < |k'.locks| && OnLock(l) in k'.queues && k'.locks[l] == k.locks[l]
    requires k'.queues[OnLock(l)] != [] ==> k.queues[OnLock(l)] != []
    requires |k'.threads| >= |k.threads|
    requires forall t :: WillRetest(k, l, t) ==> WillRetest(k', l, t)
    ensures LockOk(k', l)
  {
  }

  /** Only thread `t` changed, and it will still retest what it was going to. */
  ghost predicate OnlyThread(k: Kernel, k': Kernel, t: Tid) {
    && |k'.threads| == |k.threads| && t < |k.threads|
    && (forall u :: 0 <= u < |k.threads| && u != t ==> k'.threads[u] == k.threads[u])
  }

  ghost predicate StillRetests(k: Kernel, k': Kernel, t: Tid)
    requires t < |k.threads| && t < |k'.threads|
  {
    var th, th' := k.threads[t], k'.threads[t];
    Runnable(th.place) && th.pc != Free ==> Runnable(th'.place) && th'.pc == th.pc
  }

  /** Steps that change one thread, no semaphore and no lock, and take no waiter's place. */
  lemma OneThreadSynced(k: Kernel, k': Kernel, t: Tid)
    requires Placed(k) && Synced(k) && Placed(k') && OnlyThread(k, k', t) && StillRetests(k, k', t)
    requires k'.sems == k.sems && k'.locks == k.locks && ThreadOk(k', t)
    requires forall p :: p in k'.queues && (p.OnSem? || p.OnLock?) && k'.queues[p] != [] ==> p in k.queues && k.queues[p] != []
    ensures Synced(k')
  {
    hide QueueOk, Listed, SemOk, LockOk;
    forall u | 0 <= u < |k'.threads| ensures ThreadOk(k', u) {
      assert ThreadOk(k, u);
    }
    forall s | 0 <= s < |k'.sems| ensures IsPlace(k', OnSem(s)) && SemOk(k', s) {
      assert IsPlace(k, OnSem(s)) && IsPlace(k', OnSem(s)) && SemOk(k, s);
      SemFrame(k, k', s);
    }
    forall l | 0 <= l < |k'.locks| ensures IsPlace(k', OnLock(l)) && LockOk(k', l) {
      assert IsPlace(k, OnLock(l)) && IsPlace(k', OnLock(l)) && LockOk(k, l);
      LockFrame(k, k', l);
    }
  }

  /** What `Move` does, without the order of the queues. */
  lemma MoveFacts(k: Kernel, p: Place, q: Place)
    requires Placed(k) && p in k.queues && q in k.queues && p != q && k.queues[p] != []
    ensures var t, k' := First(k, p), Move(k, p, q);
            && OnlyThread(k, k', t) && k'.threads[t] == k.threads[t].(place := q)
            && k'.sems == k.sems && k'.locks == k.locks && k'.conds == k.conds
            && k'.queues.Keys == k.queues.Keys
            && (forall r :: r in k.queues && r != p && r != q ==> k'.queues[r] == k.queues[r])
            && |k'.queues[q]| == |k.queues[q]| + 1 && |k'.queues[p]| == |k.queues[p]| - 1
  {
    hide QueueOk, Listed, HasQueues, Insert;
  }

  /** A thread that stays runnable changes nothing for synchronisation. */
  lemma RunnableMove(k: Kernel, p: Place, q: Place)
    requires Placed(k) && Synced(k) && Runnable(p) && Runnable(q) && p != q && k.queues[p] != []
    requires Placed(Move(k, p, q))
    ensures Synced(Move(k, p, q))
  {
    hide QueueOk, Listed, Move, Synced;
    MoveFacts(k, p, q);
    assert ThreadOk(k, First(k, p)) by { SyncedThread(k, First(k, p)); }
    OneThreadSynced(k, Move(k, p, q), First(k, p));
  }

  lemma SyncedThread(k: Kernel, t: Tid)
    requires Placed(k) && Synced(k) && t < |k.threads|
    ensures ThreadOk(k, t)
  {
  }

  lemma DispatchKeeps(k: Kernel)
    requires Inv(k)
    ensures Inv(Dispatch(k))
  {
    hide QueueOk, Listed, Move, Synced;
    if k.queues[Cpu] == [] && k.queues[Ready] != [] {
      MoveKeeps(k, Ready, Cpu);
      MoveFacts(k, Ready, Cpu);
      RunnableMove(k, Ready, Cpu);
    }
  }

  /** Waking the first waiter of any queue. */
  lemma WakeKeeps(k: Kernel, p: Place)
    requires Inv(k) && IsPlace(k, p) && (p.OnSem? || p.OnLock? || p.OnCond?)
    ensures Inv(Wake(k, p))
  {
    hide QueueOk, Listed, Move, Synced;
    if k.queues[p] != [] {
      MoveKeeps(k, p, Ready);
      MoveFacts(k, p, Ready);
      SyncedThread(k, First(k, p));
      OneThreadSynced(k, Move(k, p, Ready), First(k, p));
    }
  }

  lemma WakeAllKeeps(k: Kernel, p: Place)
    requires Inv(k) && IsPlace(k, p) && (p.OnSem? || p.OnLock? || p.OnCond?)
    ensures Inv(WakeAll(k, p))
    decreases |k.queues[p]|
  {
    hide QueueOk, Listed, Move, Synced;
    if k.queues[p] != [] {
      WakeKeeps(k, p);
      MoveFacts(k, p, Ready);
      WakeAllKeeps(Wake(k, p), p);
    }
  }

  lemma YieldKeeps(k: Kernel)
    requires Inv(k) && HasCurrent(k)
    ensures Inv(Yield(k))
  {
    hide QueueOk, Listed, Move, Synced;
    if k.queues[Ready] != [] {
      MoveKeeps(k, Cpu, Switching);
      MoveFacts(k, Cpu, Switching);
      RunnableMove(k, Cpu, Switching);
      var k1 := Move(k, Cpu, Switching);
      MoveKeeps(k1, Ready, Cpu);
      MoveFacts(k1, Ready, Cpu);
      RunnableMove(k1, Ready, Cpu);
      var k2 := Move(k1, Ready, Cpu);
      MoveKeeps(k2, Switching, Ready);
      MoveFacts(k2, Switching, Ready);
      RunnableMove(k2, Switching, Ready);
    }
  }

  lemma ForkKeeps(k: Kernel, priority: int)
    requires Inv(k)
    ensures Inv(Fork(k, priority))
  {
    hide QueueOk, Listed, Move, SemOk, LockOk;
    SpawnedPlaced(k, priority);
    var k' := Spawned(k, priority);
    NewThreadHoldsNothing(k);
    forall u | 0 <= u < |k'.threads| ensures ThreadOk(k', u) {
      assert u < |k.threads| ==> ThreadOk(k, u);
      assert forall l :: HoldsLock(k', u, l) == HoldsLock(k, u, l);
    }
    forall s | 0 <= s < |k'.sems| ensures IsPlace(k', OnSem(s)) && SemOk(k', s) {
      assert IsPlace(k, OnSem(s)) && IsPlace(k', OnSem(s)) && SemOk(k, s);
      SemFrame(k, k', s);
    }
    forall l | 0 <= l < |k'.locks| ensures IsPlace(k', OnLock(l)) && LockOk(k', l) {
      assert IsPlace(k, OnLock(l)) && IsPlace(k', OnLock(l)) && LockOk(k, l);
      LockFrame(k, k', l);
    }
    MoveKeeps(k', Switching, Ready);
    MoveFacts(k', Switching, Ready);
    RunnableMove(k', Switching, Ready);
  }

  /** Locks are held by existing threads only. */
  lemma NewThreadHoldsNothing(k: Kernel)
    requires Inv(k)
    ensures forall l :: !HoldsLock(k, |k.threads|, l)
  {
    forall l | 0 <= l < |k.locks| ensures k.locks[l] != Lock(true, |k.threads|) {
      assert IsPlace(k, OnLock(l)) && LockOk(k, l);
    }
  }

  // ---------------------------------------------------------------- going to sleep

  /** The current thread sleeps on `q` in the operation that `pc` names. */
  ghost function Asleep(k: Kernel, pc: Pc, q: Place): (r: Kernel)
    requires HasCurrent(k) && IsPlace(k, q) && q != Cpu && q != Ready
    ensures Placed(r)
  {
    var t := Current(k);
    var k1 := WithThread(k, t, pc, k.threads[t].holds);
    MoveKeeps(k1, Cpu, q);
    Move(k1, Cpu, q)
  }

  lemma AsleepFacts(k: Kernel, pc: Pc, q: Place)
    requires HasCurrent(k) && IsPlace(k, q) && q != Cpu && q != Ready
    ensures var t, k' := Current(k), Asleep(k, pc, q);
            && OnlyThread(k, k', t) && k'.threads[t] == k.threads[t].(pc := pc, place := q)
            && k'.sems == k.sems && k'.locks == k.locks && k'.queues.Keys == k.queues.Keys
            && (forall r :: r in k.queues && r != Cpu && r != q ==> k'.queues[r] == k.queues[r])
  {
    hide QueueOk, Listed, Move;
    var t := Current(k);
    MoveFacts(WithThread(k, t, pc, k.threads[t].holds), Cpu, q);
  }

  /** Sleeping is safe where nothing is available: on a semaphore of value zero, on a lock that
      is taken, or on a condition when the lock has another thread on its way or no waiters. */
  ghost predicate SafeToSleep(k: Kernel, pc: Pc, q: Place)
    requires HasCurrent(k)
  {
    var th := k.threads[Current(k)];
    match q
    case OnSem(s) => pc == InP(s) && s < |k.sems| && k.sems[s].value == 0 && (th.pc == Free || th.pc == pc)
    case OnLock(l) => pc == InAcquire(l) && l < |k.locks| && k.locks[l].locked && (th.pc == Free || th.pc == pc)
    case OnCond(_) => pc.InAcquire? && pc.l < |k.locks| && th.pc == Free
    case Finished => pc == Free && th.pc == Free
    case _ => false
  }

  lemma AsleepKeeps(k: Kernel, pc: Pc, q: Place)
    requires Inv(k) && HasCurrent(k) && IsPlace(k, q) && SafeToSleep(k, pc, q)
    ensures Inv(Asleep(k, pc, q))
  {
    hide QueueOk, Listed, Asleep, SemOk, LockOk;
    AsleepFacts(k, pc, q);
    var t, k' := Current(k), Asleep(k, pc, q);
    forall u | 0 <= u < |k'.threads| ensures ThreadOk(k', u) {
      assert ThreadOk(k, u);
    }
    forall s | 0 <= s < |k'.sems| ensures IsPlace(k', OnSem(s)) && SemOk(k', s) {
      assert IsPlace(k, OnSem(s)) && IsPlace(k', OnSem(s)) && SemOk(k, s);
      if q == OnSem(s) { ZeroSem(k, k', s); } else { SemFrame(k, k', s); }
    }
    forall l | 0 <= l < |k'.locks| ensures IsPlace(k', OnLock(l)) && LockOk(k', l) {
      assert IsPlace(k, OnLock(l)) && IsPlace(k', OnLock(l)) && LockOk(k, l);
      if q == OnLock(l) { TakenLock(k, k', l); } else { LockFrame(k, k', l); }
    }
  }

  lemma ZeroSem(k: Kernel, k': Kernel, s: nat)
    requires s < |k.sems| && OnSem(s) in k.queues && SemOk(k, s) && k.sems[s].value == 0
    requires s < |k'.sems| && OnSem(s) in k'.queues && k'.sems[s] == k.sems[s]
    ensures SemOk(k', s)
  {
  }

  lemma TakenLock(k: Kernel, k': Kernel, l: nat)
    requires l < |k.locks| && OnLock(l) in k.queues && LockOk(k, l) && k.locks[l].locked
    requires l < |k'.locks| && OnLock(l) in k'.queues && k'.locks[l] == k.locks[l] && |k'.threads| == |k.threads|
    ensures LockOk(k', l)
  {
  }

  lemma BlockKeeps(k: Kernel, pc: Pc, q: Place)
    requires Inv(k) && HasCurrent(k) && IsPlace(k, q) && SafeToSleep(k, pc, q)
    ensures var t := Current(k); Inv(Block(WithThread(k, t, pc, k.threads[t].holds), q))
  {
    hide QueueOk, Listed, Move, Synced, Dispatch;
    AsleepKeeps(k, pc, q);
    DispatchKeeps(Asleep(k, pc, q));
  }

  // ---------------------------------------------------------------- taking and giving back

  /** `P` of a positive semaphore: the value and the number of retesting threads drop together. */
  lemma TakeSemSynced(k: Kernel, k': Kernel, t: Tid, s: nat)
    requires Inv(k) && Placed(k') && t < |k.threads| && s < |k.sems| && k.sems[s].value > 0
    requires k.threads[t].place == Cpu && (k.threads[t].pc == Free || k.threads[t].pc == InP(s))
    requires OnlyThread(k, k', t) && k'.threads[t] == k.threads[t].(pc := Free)
    requires k'.queues == k.queues && k'.locks == k.locks
    requires var sem := k.sems[s]; k'.sems == k.sems[s := sem.(value := sem.value - 1, ps := sem.ps + 1)]
    ensures Inv(k')
  {
    hide QueueOk, Listed, LockOk;
    forall u | 0 <= u < |k'.threads| ensures ThreadOk(k', u) {
      assert ThreadOk(k, u);
    }
    forall r | 0 <= r < |k'.sems| ensures IsPlace(k', OnSem(r)) && SemOk(k', r) {
      assert IsPlace(k, OnSem(r)) && IsPlace(k', OnSem(r)) && SemOk(k, r);
      if r == s {
        assert Retesting(k', s) == Retesting(k, s) - {t};
      } else {
        SemFrame(k, k', r);
      }
    }
    forall l | 0 <= l < |k'.locks| ensures IsPlace(k', OnLock(l)) && LockOk(k', l) {
      assert IsPlace(k, OnLock(l)) && IsPlace(k', OnLock(l)) && LockOk(k, l);
      LockFrame(k, k', l);
    }
  }

  lemma PKeeps(k: Kernel, s: nat)
    requires Inv(k) && HasCurrent(k) && s < |k.sems|
    requires k.threads[Current(k)].pc == Free || k.threads[Current(k)].pc == InP(s)
    ensures Inv(P(k, s))
  {
    hide QueueOk, Listed, Synced, Block;
    if k.sems[s].value == 0 {
      BlockKeeps(k, InP(s), OnSem(s));
    } else {
      SemValue(k, s);
      TakeSemSynced(k, P(k, s), Current(k), s);
    }
  }

  lemma SemValue(k: Kernel, s: nat)
    requires Inv(k) && s < |k.sems|
    ensures IsPlace(k, OnSem(s)) && SemOk(k, s)
  {
  }

  lemma RaiseSemKeeps(k: Kernel, s: nat, sem: Semaphore)
    requires Inv(k) && s < |k.sems| && sem.value == sem.initial + sem.vs - sem.ps && sem.value >= 0
    requires IsPlace(k, OnSem(s)) && (k.queues[OnSem(s)] != [] ==> sem.value <= |Retesting(k, s)|)
    ensures Inv(WithSem(k, s, sem))
  {
    hide QueueOk, Listed, LockOk;
    var k' := WithSem(k, s, sem);
    forall u | 0 <= u < |k'.threads| ensures ThreadOk(k', u) {
      assert ThreadOk(k, u);
    }
    forall r | 0 <= r < |k'.sems| ensures IsPlace(k', OnSem(r)) && SemOk(k', r) {
      assert IsPlace(k, OnSem(r)) && IsPlace(k', OnSem(r)) && SemOk(k, r);
      assert Retesting(k', r) == Retesting(k, r);
    }
    forall l | 0 <= l < |k'.locks| ensures IsPlace(k', OnLock(l)) && LockOk(k', l) {
      assert IsPlace(k, OnLock(l)) && IsPlace(k', OnLock(l)) && LockOk(k, l);
      LockFrame(k, k', l);
    }
  }

  /** A woken waiter joins the retesting threads. */
  lemma WakeAddsRetester(k: Kernel, s: nat)
    requires Inv(k) && s < |k.sems| && IsPlace(k, OnSem(s)) && k.queues[OnSem(s)] != []
    ensures |Retesting(Wake(k, OnSem(s)), s)| == |Retesting(k, s)| + 1
  {
    hide QueueOk, Listed, Move;
    MoveFacts(k, OnSem(s), Ready);
    var t := First(k, OnSem(s));
    assert ThreadOk(k, t);
    assert Retesting(Wake(k, OnSem(s)), s) == Retesting(k, s) + {t};
  }

  /** `V` adds one to the value and, when threads wait, one to those on their way. */
  lemma VKeeps(k: Kernel, s: nat)
    requires Inv(k) && s < |k.sems|
    ensures Inv(V(k, s))
  {
    hide QueueOk, Listed, Move, Synced, Retesting;
    SemValue(k, s);
    WakeKeeps(k, OnSem(s));
    var k1, sem := Wake(k, OnSem(s)), k.sems[s];
    if k.queues[OnSem(s)] != [] {
      WakeAddsRetester(k, s);
    }
    RaiseSemKeeps(k1, s, sem.(value := sem.value + 1, vs := sem.vs + 1));
  }

  lemma TakeLockKeeps(k: Kernel, l: nat)
    requires Inv(k) && HasCurrent(k) && l < |k.locks| && !k.locks[l].locked
    requires k.threads[Current(k)].pc == Free || k.threads[Current(k)].pc == InAcquire(l)
    ensures Inv(Acquire(k, l))
  {
    hide QueueOk, Listed, SemOk, Block, Dispatch, Move;
    var t, k' := Current(k), Acquire(k, l);
    forall u | 0 <= u < |k'.threads| ensures ThreadOk(k', u) {
      assert ThreadOk(k, u);
      assert forall m :: HoldsLock(k', u, m) <==> HoldsLock(k, u, m) || (m == l && u == t);
    }
    forall s | 0 <= s < |k'.sems| ensures IsPlace(k', OnSem(s)) && SemOk(k', s) {
      assert IsPlace(k, OnSem(s)) && IsPlace(k', OnSem(s)) && SemOk(k, s);
      SemFrame(k, k', s);
    }
    forall m | 0 <= m < |k'.locks| ensures IsPlace(k', OnLock(m)) && LockOk(k', m) {
      assert IsPlace(k, OnLock(m)) && IsPlace(k', OnLock(m)) && LockOk(k, m);
      if m != l { LockFrame(k, k', m); }
    }
  }

  lemma AcquireKeeps(k: Kernel, l: nat)
    requires Inv(k) && HasCurrent(k) && l < |k.locks|
    requires k.threads[Current(k)].pc == Free || k.threads[Current(k)].pc == InAcquire(l)
    ensures Inv(Acquire(k, l))
  {
    hide QueueOk, Listed, Synced, Block;
    if k.locks[l].locked {
      BlockKeeps(k, InAcquire(l), OnLock(l));
    } else {
      TakeLockKeeps(k, l);
    }
  }

  /** What `Release` does. */
  lemma ReleaseFacts(k: Kernel, l: nat)
    requires Inv(k) && HasCurrent(k) && HoldsLock(k, Current(k), l)
    ensures var t, k' := Current(k), Release(k, l);
            && |k'.threads| == |k.threads| && k'.sems == k.sems && k'.locks == k.locks[l := Lock(false, 0)]
            && k'.threads[t] == k.threads[t].(pc := Free, holds := k.threads[t].holds - {l})
            && (k.queues[OnLock(l)] == [] ==> OnlyThread(k, k', t) && k'.queues == k.queues)
            && (k.queues[OnLock(l)] != [] ==>
                  var w := First(k, OnLock(l));
                  && w != t && k'.threads[w] == k.threads[w].(place := Ready)
                  && (forall u :: 0 <= u < |k.threads| && u != t && u != w ==> k'.threads[u] == k.threads[u])
                  && k'.queues.Keys == k.queues.Keys
                  && (forall r :: r in k.queues && r != Ready && r != OnLock(l) ==> k'.queues[r] == k.queues[r]))
  {
    hide QueueOk, Listed, Move, Synced;
    var t := Current(k);
    var k1 := WithThread(k, t, Free, k.threads[t].holds - {l});
    if k1.queues[OnLock(l)] != [] {
      MoveFacts(k1, OnLock(l), Ready);
      assert k1.threads[First(k1, OnLock(l))].place == OnLock(l);
    }
  }

  lemma ReleaseKeeps(k: Kernel, l: nat)
    requires Inv(k) && HasCurrent(k) && HoldsLock(k, Current(k), l) && k.threads[Current(k)].pc == Free
    ensures Inv(Release(k, l))
  {
    hide QueueOk, Listed, Release, SemOk;
    ReleaseFacts(k, l);
    var t, k' := Current(k), Release(k, l);
    forall u | 0 <= u < |k'.threads| ensures ThreadOk(k', u) {
      assert ThreadOk(k, u);
      assert forall m :: HoldsLock(k', u, m) <==> HoldsLock(k, u, m) && m != l;
    }
    forall s | 0 <= s < |k'.sems| ensures IsPlace(k', OnSem(s)) && SemOk(k', s) {
      assert IsPlace(k, OnSem(s)) && IsPlace(k', OnSem(s)) && SemOk(k, s);
      SemFrame(k, k', s);
    }
    forall m | 0 <= m < |k'.locks| ensures IsPlace(k', OnLock(m)) && LockOk(k', m) {
      assert IsPlace(k, OnLock(m)) && IsPlace(k', OnLock(m)) && LockOk(k, m);
      if m != l {
        LockFrame(k, k', m);
      } else if k.queues[OnLock(l)] != [] {
        var w := First(k, OnLock(l));
        assert ThreadOk(k, w);
        assert WillRetest(k', l, w);
      }
    }
  }

  lemma WaitKeeps(k: Kernel, c: nat, l: nat)
    requires Inv(k) && HasCurrent(k) && HoldsLock(k, Current(k), l) && k.threads[Current(k)].pc == Free && c < k.conds
    ensures Inv(Wait(k, c, l))
  {
    hide QueueOk, Listed, Synced, Block, Release;
    ReleaseKeeps(k, l);
    ReleaseFacts(k, l);
    BlockKeeps(Release(k, l), InAcquire(l), OnCond(c));
  }

  // ---------------------------------------------------------------- every run

  datatype Op =
    | DoP(s: nat) | DoV(s: nat) | DoAcquire(l: nat) | DoRelease(l: nat)
    | DoWait(c: nat, l: nat) | DoSignal(c: nat, l: nat) | DoBroadcast(c: nat, l: nat)
    | DoYield | DoFork(priority: int) | DoFinish | DoSetPriority(t: Tid, priority: int) | DoDispatch

  /** Steps of the machine itself: `V` is also an interrupt handler's step, and the scheduler is
      what an idle processor comes back to when the handlers are done. */
  predicate ByMachine(op: Op) { op.DoV? || op.DoDispatch? }

  /** What the current thread may do: a thread inside `P` can only retest, one inside `Acquire`
      can also be preempted, as it is when `Condition::Wait` turns interrupts on before it
      reacquires; the assertions of `Acquire`, `Release`, `Wait`, `Signal` and `Broadcast` must
      hold. */
  ghost predicate Enabled(k: Kernel, op: Op)
    requires Inv(k)
  {
    hide QueueOk, Listed, Synced;
    if op.DoV? then op.s < |k.sems|
    else if op.DoDispatch? then k.queues[Cpu] == []
    else
      && HasCurrent(k)
      && var t := Current(k); var pc := k.threads[t].pc;
         match op
         case DoP(s) => s < |k.sems| && (pc == Free || pc == InP(s))
         case DoAcquire(l) => l < |k.locks| && ((pc == Free && !HoldsLock(k, t, l)) || pc == InAcquire(l))
         case DoRelease(l) => pc == Free && HoldsLock(k, t, l)
         case DoWait(c, l) => pc == Free && HoldsLock(k, t, l) && c < k.conds
         case DoSignal(c, l) => pc == Free && HoldsLock(k, t, l) && c < k.conds
         case DoBroadcast(c, l) => pc == Free && HoldsLock(k, t, l) && c < k.conds
         case DoYield => !pc.InP?
         case DoSetPriority(u, _) => pc == Free && u < |k.threads|
         case _ => pc == Free
  }

  ghost function Step(k: Kernel, op: Op): (r: Kernel)
    requires Inv(k) && Enabled(k, op)
  {
    if op.DoV? then V(k, op.s)
    else if op.DoDispatch? then Dispatch(k)
    else if op.DoRelease? || op.DoWait? || op.DoSignal? || op.DoBroadcast? then MonitorStep(k, op)
    else ThreadStep(k, op)
  }

  /** The steps a thread can take without holding a lock. */
  ghost function ThreadStep(k: Kernel, op: Op): (r: Kernel)
    requires HasCurrent(k) && k.queues[Switching] == [] && !ByMachine(op)
    requires !(op.DoRelease? || op.DoWait? || op.DoSignal? || op.DoBroadcast?)
    requires op.DoP? ==> op.s < |k.sems|
    requires op.DoAcquire? ==> op.l < |k.locks|
    requires op.DoSetPriority? ==> op.t < |k.threads|
  {
    match op
    case DoP(s) => P(k, s)
    case DoAcquire(l) => Acquire(k, l)
    case DoYield => Yield(k)
    case DoFork(priority) => Fork(k, priority)
    case DoFinish => Block(k, Finished)
    case DoSetPriority(t, priority) => SetPriority(k, t, priority)
  }

  /** The steps of a thread that holds a lock. */
  ghost function MonitorStep(k: Kernel, op: Op): (r: Kernel)
    requires HasCurrent(k) && (op.DoRelease? || op.DoWait? || op.DoSignal? || op.DoBroadcast?)
    requires HoldsLock(k, Current(k), op.l) && (op.DoRelease? || op.c < k.conds)
  {
    match op
    case DoRelease(l) => Release(k, l)
    case DoWait(c, l) => Wait(k, c, l)
    case DoSignal(c, _) => Signal(k, c)
    case DoBroadcast(c, _) => Broadcast(k, c)
  }

  lemma StepKeeps(k: Kernel, op: Op)
    requires Inv(k) && Enabled(k, op)
    ensures Inv(Step(k, op))
  {
    hide QueueOk, Listed, Synced, P, V, Acquire, Release, Wait, WakeAll, Wake, Yield, Fork, Block, SetPriority, Dispatch;
    match op
    case DoP(s) => PKeeps(k, s);
    case DoV(s) => VKeeps(k, s);
    case DoAcquire(l) => AcquireKeeps(k, l);
    case DoRelease(l) => ReleaseKeeps(k, l);
    case DoWait(c, l) => WaitKeeps(k, c, l);
    case DoSignal(c, _) => WakeKeeps(k, OnCond(c));
    case DoBroadcast(c, _) => WakeAllKeeps(k, OnCond(c));
    case DoYield => YieldKeeps(k);
    case DoFork(priority) => ForkKeeps(k, priority);
    case DoFinish => FinishKeeps(k);
    case DoSetPriority(t, priority) => SetPriorityKeeps(k, t, priority);
    case DoDispatch => DispatchKeeps(k);
  }

  lemma SetPriorityKeeps(k: Kernel, t: Tid, priority: int)
    requires Inv(k) && t < |k.threads|
    ensures Inv(SetPriority(k, t, priority))
  {
    hide QueueOk, Listed, Synced;
    SyncedThread(k, t);
    OneThreadSynced(k, SetPriority(k, t, priority), t);
  }

  lemma FinishKeeps(k: Kernel)
    requires Inv(k) && HasCurrent(k) && k.threads[Current(k)].pc == Free
    ensures Inv(Block(k, Finished))
  {
    hide QueueOk, Listed, Synced, Block, Move;
    var t := Current(k);
    BlockKeeps(k, Free, Finished);
    assert WithThread(k, t, Free, k.threads[t].holds) == k;
  }

  /** The first thread, with semaphores of any initial values and any locks and conditions. */
  ghost predicate Booted(k: Kernel, values: seq<nat>) {
    && k.threads == [Thread(0, Cpu, Free, {})] && k.clock == 1
    && |k.sems| == |values| && (forall s :: 0 <= s < |values| ==> k.sems[s] == Semaphore(values[s], values[s], 0, 0))
    && (forall l :: 0 <= l < |k.locks| ==> !k.locks[l].locked)
    && HasQueues(k)
    && (forall p :: p in k.queues ==> k.queues[p] == if p == Cpu then [(0, Waiter(0, 0, 0))] else [])
  }

  /** There is such a kernel for every choice of objects. */
  lemma BootExists(values: seq<nat>, locks: nat, conds: nat) returns (k: Kernel)
    ensures Booted(k, values) && |k.locks| == locks && k.conds == conds
  {
    var places := (set s | 0 <= s < |values| :: OnSem(s)) + (set l | 0 <= l < locks :: OnLock(l))
                  + (set c | 0 <= c < conds :: OnCond(c)) + {Cpu, Ready, Switching, Finished};
    k := Kernel([Thread(0, Cpu, Free, {})],
                map p | p in places :: if p == Cpu then [(0, Waiter(0, 0, 0))] else [],
                seq(|values|, s requires 0 <= s < |values| => Semaphore(values[s], values[s], 0, 0)),
                seq(locks, _ => Lock(false, 0)), conds, 1);
    forall p ensures IsPlace(k, p) <==> p in k.queues {
    }
  }

  lemma BootQueues(threads: seq<Thread>)
    requires threads == [Thread(0, Cpu, Free, {})]
    ensures QueueOk([(0, Waiter(0, 0, 0))], threads, Cpu, 1) && Listed([(0, Waiter(0, 0, 0))], 0)
    ensures forall p :: QueueOk([], threads, p, 1)
  {
    var single := [(0, Waiter(0, 0, 0))];
    assert single[0].1.tid == 0;
  }

  lemma BootIsValid(k: Kernel, values: seq<nat>)
    requires Booted(k, values)
    ensures Inv(k)
  {
    hide QueueOk, Listed;
    BootQueues(k.threads);
  }

  /** A run: each step is one that some interleaving of the threads can take. */
  ghost predicate IsRun(ks: seq<Kernel>, ops: seq<Op>, values: seq<nat>) {
    && |ks| == |ops| + 1
    && Booted(ks[0], values)
    && forall i :: 0 <= i < |ops| ==> IsStep(ks[i], ops[i], ks[i + 1])
  }

  ghost predicate IsStep(k: Kernel, op: Op, k': Kernel) {
    Inv(k) ==> Enabled(k, op) && k' == Step(k, op)
  }

  /** In every reachable state: every thread is in exactly one place; the semaphores count;
      locks have at most one holder, who believes it holds them; no wake-up is lost. */
  lemma {:induction false} EveryRunIsSafe(ks: seq<Kernel>, ops: seq<Op>, values: seq<nat>, n: nat)
    requires IsRun(ks, ops, values) && n <= |ops|
    ensures Inv(ks[n])
  {
    hide Inv, Step, Enabled, Booted;
    if n == 0 {
      BootIsValid(ks[0], values);
    } else {
      EveryRunIsSafe(ks, ops, values, n - 1);
      assert IsStep(ks[n - 1], ops[n - 1], ks[n - 1 + 1]);
      StepKeeps(ks[n - 1], ops[n - 1]);
    }
  }
}
