/** What the scheduler chooses, over every run.  Priorities may be changed at any time; what
    counts is the priority a thread had when it was put on the ready list. */
module Scheduling {
  import opened SortedList
  import opened Threads
  import opened Synchronization

  type Entry = Keyed<Waiter>

  // ---------------------------------------------------------------- where entries come from

  /** `e` was put on a queue between `k` and `k'`, with the priority its thread then had. */
  ghost predicate Queued(k: Kernel, k': Kernel, e: Entry) {
    k.clock <= e.1.stamp && e.1.tid < |k'.threads| && e.1.priority == k'.threads[e.1.tid].priority
  }

  ghost predicate Entries(k: Kernel, k': Kernel) {
    forall p, e :: p in k'.queues && e in k'.queues[p] ==> (p in k.queues && e in k.queues[p]) || Queued(k, k', e)
  }

  /** Queues gain only entries that were just made, and no priority changes. */
  ghost predicate Follows(k: Kernel, k': Kernel) {
    && k.clock <= k'.clock && |k.threads| <= |k'.threads|
    && (forall t :: 0 <= t < |k.threads| ==> k'.threads[t].priority == k.threads[t].priority)
    && Entries(k, k')
  }

  lemma FollowsChain(a: Kernel, b: Kernel, c: Kernel)
    requires Follows(a, b) && Follows(b, c)
    ensures Follows(a, c)
  {
    forall p, e | p in c.queues && e in c.queues[p] ensures (p in a.queues && e in a.queues[p]) || Queued(a, c, e) {
      assert (p in b.queues && e in b.queues[p]) || Queued(b, c, e);
      if p in b.queues && e in b.queues[p] {
        assert (p in a.queues && e in a.queues[p]) || Queued(a, b, e);
      }
    }
  }

  lemma SameQueuesFollow(k: Kernel, k': Kernel)
    requires k'.queues == k.queues && k'.clock == k.clock && |k'.threads| == |k.threads|
    requires forall t :: 0 <= t < |k.threads| ==> k'.threads[t].priority == k.threads[t].priority
    ensures Follows(k, k')
  {
  }

  lemma MoveFollows(k: Kernel, p: Place, q: Place)
    requires Placed(k) && p in k.queues && q in k.queues && p != q && k.queues[p] != []
    ensures Follows(k, Move(k, p, q))
  {
    hide QueueOk, Listed, HasQueues, Insert;
    var t, k' := First(k, p), Move(k, p, q);
    var w := Waiter(t, k.clock, k.threads[t].priority);
    forall r, e | r in k'.queues && e in k'.queues[r] ensures (r in k.queues && e in k.queues[r]) || Queued(k, k', e) {
      if r == q { InsertMembers(k.queues[q], -w.priority, w, e); }
    }
  }

  lemma DispatchFollows(k: Kernel)
    requires Placed(k)
    ensures Follows(k, Dispatch(k))
  {
    hide QueueOk, Listed, Move, Entries;
    if k.queues[Cpu] == [] && k.queues[Ready] != [] { MoveFollows(k, Ready, Cpu); } else { SameQueuesFollow(k, k); }
  }

  lemma BlockFollows(k: Kernel, q: Place)
    requires HasCurrent(k) && IsPlace(k, q) && q != Cpu && q != Ready
    ensures Follows(k, Block(k, q))
  {
    hide QueueOk, Listed, Move, Dispatch, Follows;
    MoveFollows(k, Cpu, q);
    MoveKeeps(k, Cpu, q);
    DispatchFollows(Move(k, Cpu, q));
    FollowsChain(k, Move(k, Cpu, q), Block(k, q));
  }

  lemma WakeFollows(k: Kernel, p: Place)
    requires Placed(k) && IsPlace(k, p) && p != Ready && p != Cpu
    ensures Follows(k, Wake(k, p))
  {
    hide QueueOk, Listed, Move, Entries;
    if k.queues[p] == [] { SameQueuesFollow(k, k); } else { MoveFollows(k, p, Ready); }
  }

  lemma {:induction false} WakeAllFollows(k: Kernel, p: Place)
    requires Placed(k) && IsPlace(k, p) && p != Ready && p != Cpu
    ensures Follows(k, WakeAll(k, p)) && Cpu in WakeAll(k, p).queues && WakeAll(k, p).queues[Cpu] == k.queues[Cpu]
    decreases |k.queues[p]|
  {
    hide QueueOk, Listed, Move, Follows;
    if k.queues[p] == [] {
      SameQueuesFollow(k, k);
    } else {
      WakeFollows(k, p);
      MoveFacts(k, p, Ready);
      WakeAllFollows(Wake(k, p), p);
      FollowsChain(k, Wake(k, p), WakeAll(k, p));
    }
  }

  lemma YieldFollows(k: Kernel)
    requires HasCurrent(k) && k.queues[Switching] == []
    ensures Follows(k, Yield(k))
  {
    hide QueueOk, Listed, Move, Follows;
    if k.queues[Ready] == [] {
      SameQueuesFollow(k, k);
    } else {
      MoveKeeps(k, Cpu, Switching);
      MoveFollows(k, Cpu, Switching);
      MoveFacts(k, Cpu, Switching);
      var k1 := Move(k, Cpu, Switching);
      MoveKeeps(k1, Ready, Cpu);
      MoveFollows(k1, Ready, Cpu);
      MoveFacts(k1, Ready, Cpu);
      var k2 := Move(k1, Ready, Cpu);
      MoveFollows(k2, Switching, Ready);
      FollowsChain(k, k1, k2);
      FollowsChain(k, k2, Yield(k));
    }
  }

  lemma ForkFollows(k: Kernel, priority: int)
    requires Placed(k) && k.queues[Switching] == []
    ensures Follows(k, Fork(k, priority)) && Fork(k, priority).queues[Cpu] == k.queues[Cpu]
  {
    hide QueueOk, Listed, Move;
    SpawnedPlaced(k, priority);
    var k1 := Spawned(k, priority);
    assert Follows(k, k1);
    MoveFollows(k1, Switching, Ready);
    MoveFacts(k1, Switching, Ready);
    FollowsChain(k, k1, Fork(k, priority));
  }

  lemma ReleaseFollows(k: Kernel, l: nat)
    requires HasCurrent(k) && HoldsLock(k, Current(k), l)
    ensures Follows(k, Release(k, l)) && Release(k, l).conds == k.conds
  {
    hide QueueOk, Listed, Wake, Entries;
    var k1 := WithThread(k, Current(k), Free, k.threads[Current(k)].holds - {l});
    SameQueuesFollow(k, k1);
    WakeFollows(k1, OnLock(l));
    SameQueuesFollow(Wake(k1, OnLock(l)), Release(k, l));
    FollowsChain(k, k1, Wake(k1, OnLock(l)));
    FollowsChain(k, Wake(k1, OnLock(l)), Release(k, l));
  }

  lemma SleepFollows(k: Kernel, pc: Pc, q: Place)
    requires HasCurrent(k) && IsPlace(k, q) && q != Cpu && q != Ready
    ensures var k1 := WithThread(k, Current(k), pc, k.threads[Current(k)].holds); Follows(k, Block(k1, q))
  {
    hide QueueOk, Listed, Block, Entries;
    var k1 := WithThread(k, Current(k), pc, k.threads[Current(k)].holds);
    SameQueuesFollow(k, k1);
    BlockFollows(k1, q);
    FollowsChain(k, k1, Block(k1, q));
  }

  /** After any step a queue holds what it held and what the step put there, with its priority. */
  lemma StepEntries(k: Kernel, op: Op)
    requires Inv(k) && Enabled(k, op)
    ensures Entries(k, Step(k, op)) && k.clock <= Step(k, op).clock
  {
    hide QueueOk, Listed, Synced, Wake, WakeAll, Yield, Fork, Block, Dispatch, Release, Entries;
    match op
    case DoP(s) => if k.sems[s].value == 0 { SleepFollows(k, InP(s), OnSem(s)); } else { SameQueuesFollow(k, P(k, s)); }
    case DoV(s) =>
      WakeFollows(k, OnSem(s));
      SameQueuesFollow(Wake(k, OnSem(s)), V(k, s));
      FollowsChain(k, Wake(k, OnSem(s)), V(k, s));
    case DoAcquire(l) => if k.locks[l].locked { SleepFollows(k, InAcquire(l), OnLock(l)); } else { SameQueuesFollow(k, Acquire(k, l)); }
    case DoRelease(l) => ReleaseFollows(k, l);
    case DoWait(c, l) =>
      ReleaseFollows(k, l);
      SleepFollows(Release(k, l), InAcquire(l), OnCond(c));
      FollowsChain(k, Release(k, l), Wait(k, c, l));
    case DoSignal(c, _) => WakeFollows(k, OnCond(c));
    case DoBroadcast(c, _) => WakeAllFollows(k, OnCond(c));
    case DoYield => YieldFollows(k);
    case DoFork(priority) => ForkFollows(k, priority);
    case DoFinish => BlockFollows(k, Finished);
    case DoSetPriority(t, priority) => assert Entries(k, Step(k, op)) by { SetPriorityEntries(k, t, priority); }
    case DoDispatch => DispatchFollows(k);
  }

  lemma SetPriorityEntries(k: Kernel, t: Tid, priority: int)
    requires Placed(k) && t < |k.threads|
    ensures Entries(k, SetPriority(k, t, priority))
  {
  }

  // ---------------------------------------------------------------- whom a step switches to

  /** The ready list as `FindNextToRun` sees it during a step; empty also when it is not called. */
  ghost function ReadySeen(k: Kernel, op: Op): Queue
    requires Inv(k) && Enabled(k, op)
  {
    hide QueueOk, Listed, Synced;
    match op
    case DoYield => k.queues[Ready]
    case DoDispatch => k.queues[Ready]
    case DoFinish => k.queues[Ready]
    case DoP(s) => if k.sems[s].value == 0 then k.queues[Ready] else []
    case DoAcquire(l) => if k.locks[l].locked then k.queues[Ready] else []
    case DoWait(_, l) => Release(k, l).queues[Ready]
    case _ => []
  }

  lemma MoveToCpu(k: Kernel)
    requires Placed(k) && k.queues[Cpu] == [] && k.queues[Ready] != []
    ensures var k' := Move(k, Ready, Cpu);
            HasCurrent(k') && Current(k') == k.queues[Ready][0].1.tid
  {
    hide QueueOk, Listed;
    MoveKeeps(k, Ready, Cpu);
  }

  lemma BlockSwitches(k: Kernel, q: Place)
    requires HasCurrent(k) && IsPlace(k, q) && q != Cpu && q != Ready
    ensures var k' := Block(k, q);
            if k.queues[Ready] == [] then !HasCurrent(k')
            else HasCurrent(k') && Current(k') == k.queues[Ready][0].1.tid
  {
    hide QueueOk, Listed, Move;
    MoveKeeps(k, Cpu, q);
    MoveFacts(k, Cpu, q);
    if k.queues[Ready] != [] { MoveToCpu(Move(k, Cpu, q)); }
  }

  lemma YieldSwitches(k: Kernel)
    requires HasCurrent(k) && k.queues[Switching] == [] && k.queues[Ready] != []
    ensures HasCurrent(Yield(k)) && Current(Yield(k)) == k.queues[Ready][0].1.tid
  {
    hide QueueOk, Listed, Move;
    MoveKeeps(k, Cpu, Switching);
    MoveFacts(k, Cpu, Switching);
    var k1 := Move(k, Cpu, Switching);
    MoveToCpu(k1);
    MoveKeeps(k1, Ready, Cpu);
    MoveFacts(k1, Ready, Cpu);
    var k2 := Move(k1, Ready, Cpu);
    MoveFacts(k2, Switching, Ready);
    assert Yield(k).queues[Cpu] == k2.queues[Cpu];
  }

  /** A step that finds a ready thread when it looks for one switches to the first; one that does
      not look leaves the processor with whom it was. */
  lemma StepSwitches(k: Kernel, op: Op)
    requires Inv(k) && Enabled(k, op)
    ensures var k', ready := Step(k, op), ReadySeen(k, op);
            if ready != [] then HasCurrent(k') && Current(k') == ready[0].1.tid
            else HasCurrent(k') ==> HasCurrent(k) && Current(k') == Current(k)
  {
    hide QueueOk, Listed, Synced, Wake, WakeAll, Yield, Fork, Block, Release;
    StepKeeps(k, op);
    match op
    case DoP(s) => if k.sems[s].value == 0 { BlockSwitches(WithThread(k, Current(k), InP(s), k.threads[Current(k)].holds), OnSem(s)); }
    case DoAcquire(l) => if k.locks[l].locked { BlockSwitches(WithThread(k, Current(k), InAcquire(l), k.threads[Current(k)].holds), OnLock(l)); }
    case DoWait(c, l) =>
      ReleaseFollows(k, l);
      var released, t := Release(k, l), Current(k);
      BlockSwitches(WithThread(released, t, InAcquire(l), released.threads[t].holds), OnCond(c));
    case DoBroadcast(c, _) => WakeAllFollows(k, OnCond(c));
    case DoYield => YieldStays(k); if k.queues[Ready] != [] { YieldSwitches(k); }
    case DoFork(priority) => ForkFollows(k, priority);
    case DoFinish => BlockSwitches(k, Finished);
    case DoDispatch => if k.queues[Ready] != [] { MoveToCpu(k); }
    case _ =>
  }

  lemma YieldStays(k: Kernel)
    requires HasCurrent(k) && k.queues[Switching] == []
    ensures k.queues[Ready] == [] ==> Yield(k) == k
  {
  }

  // ---------------------------------------------------------------- every run

  /** `e` came to the queue of `p` in step `m` of the run, when its thread had priority
      `e.1.priority`, and has been there up to state `n`. */
  ghost predicate WaitsSince(ks: seq<Kernel>, p: Place, e: Entry, m: nat, n: nat) {
    && m <= n < |ks|
    && (forall j :: m <= j <= n ==> p in ks[j].queues && e in ks[j].queues[p])
    && e.1.tid < |ks[m].threads| && e.1.priority == ks[m].threads[e.1.tid].priority
    && (m > 0 ==> ks[m - 1].clock <= e.1.stamp)
  }

  lemma {:induction false} EntryOrigin(ks: seq<Kernel>, ops: seq<Op>, values: seq<nat>, n: nat, p: Place, e: Entry)
    returns (m: nat)
    requires IsRun(ks, ops, values) && n <= |ops| && p in ks[n].queues && e in ks[n].queues[p]
    ensures WaitsSince(ks, p, e, m, n)
  {
    hide Inv, Enabled, Step, Booted;
    if n == 0 {
      BootEntries(ks[0], values, p, e);
      return 0;
    }
    EveryRunIsSafe(ks, ops, values, n - 1);
    assert IsStep(ks[n - 1], ops[n - 1], ks[n - 1 + 1]);
    StepEntries(ks[n - 1], ops[n - 1]);
    if p in ks[n - 1].queues && e in ks[n - 1].queues[p] {
      m := EntryOrigin(ks, ops, values, n - 1, p, e);
    } else {
      m := n;
      assert Queued(ks[n - 1], ks[n], e);
    }
  }

  lemma BootEntries(k: Kernel, values: seq<nat>, p: Place, e: Entry)
    requires Booted(k, values) && p in k.queues && e in k.queues[p]
    ensures e.1.tid < |k.threads| && e.1.priority == k.threads[e.1.tid].priority
  {
  }

  /** The scheduler, over every run: the processor changes hands only to the first thread of the
      ready list as it then is; that thread has the highest priority of all on the list, and was
      queued first among those of that priority, where priorities are those the threads had when
      they were put on the list, in an earlier step of the run or in this one. */
  lemma BestIsChosen(ks: seq<Kernel>, ops: seq<Op>, values: seq<nat>, n: nat)
    requires IsRun(ks, ops, values) && n < |ops|
    ensures Inv(ks[n]) && Enabled(ks[n], ops[n])
    ensures var ready := ReadySeen(ks[n], ops[n]);
            && (ready == [] && HasCurrent(ks[n + 1]) ==> HasCurrent(ks[n]) && Current(ks[n + 1]) == Current(ks[n]))
            && (ready != [] ==> HasCurrent(ks[n + 1]) && Current(ks[n + 1]) == ready[0].1.tid && IsBest(ready[0], ready))
            && forall e <- ready :: Queued(ks[n], ks[n + 1], e) || exists m :: WaitsSince(ks, Ready, e, m, n)
  {
    hide Inv, Enabled, Step, Booted, Queued, WaitsSince, IsBest;
    EveryRunIsSafe(ks, ops, values, n);
    assert IsStep(ks[n], ops[n], ks[n + 1]);
    var ready := ReadySeen(ks[n], ops[n]);
    StepSwitches(ks[n], ops[n]);
    if ready != [] { SeenIsOrdered(ks[n], ops[n]); }
    forall e | e in ready ensures Queued(ks[n], ks[n + 1], e) || exists m :: WaitsSince(ks, Ready, e, m, n) {
      SeenOrigin(ks[n], ops[n], e);
      if Ready in ks[n].queues && e in ks[n].queues[Ready] {
        var m := EntryOrigin(ks, ops, values, n, Ready, e);
        assert WaitsSince(ks, Ready, e, m, n);
      }
    }
  }

  lemma SeenIsOrdered(k: Kernel, op: Op)
    requires Inv(k) && Enabled(k, op) && ReadySeen(k, op) != []
    ensures IsBest(ReadySeen(k, op)[0], ReadySeen(k, op))
  {
    hide Listed, Synced, Release, IsBest, Ordered;
    var k1 := if op.DoWait? then Release(k, op.l) else k;
    FrontIsBest(k1.queues[Ready], k1.threads, Ready, k1.clock);
  }

  lemma SeenOrigin(k: Kernel, op: Op, e: Entry)
    requires Inv(k) && Enabled(k, op) && e in ReadySeen(k, op)
    ensures Ready in k.queues && (e in k.queues[Ready] || Queued(k, Step(k, op), e))
  {
    hide QueueOk, Listed, Synced, Release, Block;
    if op.DoWait? {
      ReleaseFollows(k, op.l);
      SleepFollows(Release(k, op.l), InAcquire(op.l), OnCond(op.c));
      var released := Release(k, op.l);
      assert Follows(released, Step(k, op));
      assert Ready in released.queues && e in released.queues[Ready];
      assert e in k.queues[Ready] || Queued(k, released, e);
    }
  }
}
