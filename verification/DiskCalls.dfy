/** A call of `ReadSector` or `WriteSector` from end to end: up to the sleep for the disk, the
    interrupt, and from there to the return. */
module DiskCalls {
  import opened Threads
  import opened Synchronization
  import opened Effects
  import opened Monitors
  import opened DiskProtocol
  import Places

  ghost predicate Stands(o: Objects, s: System, t: Tid, c: Call) {
    SystemOk(o, s) && HasCurrent(s.k) && Current(s.k) == t && CallOf(s, t) == c
  }

  /** Each system follows from the one before by a statement of the running thread. */
  ghost predicate Uninterrupted(o: Objects, run: seq<System>) {
    forall i, j :: 0 <= i && j == i + 1 && j < |run| && Inv(run[i].k) && o.lock < |run[i].k.locks| && o.semaphore < |run[i].k.sems| ==>
      Runs(o, run[i], run[j])
  }

  ghost predicate Sleepy(o: Objects, s: System, c: Call)
    requires SystemOk(o, s)
  {
    (c.Enter? || c.Await?) && Stays(o, s.k, c)
  }

  lemma Goes(o: Objects, s: System, s': System, t: Tid, c: Call)
    requires Stands(o, s, t, c) && Runs(o, s, s') && !Sleepy(o, s, c)
    ensures Stands(o, s', t, CallAfter(c, false))
    ensures s'.disk == if c.Request? then Disk(true, s.disk.requested + [(t, c.sector)], s.disk.completed) else s.disk
    ensures c.Leave? ==> !s'.k.locks[o.lock].locked
    ensures s'.k.sems[o.semaphore].value == s.k.sems[o.semaphore].value - if c.Await? then 1 else 0
  {
    hide Placed, Synced, DiskOk, CallOk, Step;
    RunKeeps(o, s, s');
    RunHasEffect(o, s, s'.k);
    RunIsEnabled(o, s);
    assert CallOk(o, s, t);
    SemValue(s.k, o.semaphore);
    StaysOn(o, s, s', t, c);
  }

  lemma StaysOn(o: Objects, s: System, s': System, t: Tid, c: Call)
    requires Stands(o, s, t, c) && Runs(o, s, s') && !Sleepy(o, s, c)
    requires forall op :: op in KernelOp(o, c) ==> Enabled(s.k, op)
    ensures HasCurrent(s'.k) && Current(s'.k) == t
  {
    hide Placed, Synced, DiskOk, CallOk, Step;
    var ops := KernelOp(o, c);
    if |ops| == 1 {
      assert ops[0] in ops;
      Places.StepPlaces(s.k, ops[0]);
    }
  }

  /** A statement that sleeps leaves the thread on the queue of the lock or of the semaphore. */
  lemma Waits(o: Objects, s: System, s': System, t: Tid, c: Call)
    requires Stands(o, s, t, c) && Runs(o, s, s') && Sleepy(o, s, c)
    ensures SystemOk(o, s') && CallOf(s', t) == c && s'.disk == s.disk && t < |s'.k.threads|
    ensures s'.k.threads[t].place == if c.Enter? then OnLock(o.lock) else OnSem(o.semaphore)
  {
    hide Placed, Synced, DiskOk, CallOk, Step;
    RunKeeps(o, s, s');
    RunIsEnabled(o, s);
    var op := KernelOp(o, c)[0];
    assert op in KernelOp(o, c);
    assert CallOk(o, s, t);
    Places.StepPlaces(s.k, op);
  }

  lemma Next(o: Objects, run: seq<System>, i: nat, t: Tid, c: Call)
    requires Uninterrupted(o, run) && i + 1 < |run| && Stands(o, run[i], t, c) && !Sleepy(o, run[i], c)
    ensures var s, s' := run[i], run[i + 1];
            && Stands(o, s', t, CallAfter(c, false))
            && s'.disk == (if c.Request? then Disk(true, s.disk.requested + [(t, c.sector)], s.disk.completed) else s.disk)
            && (c.Leave? ==> o.lock < |s'.k.locks| && !s'.k.locks[o.lock].locked)
  {
    hide Inv, Runs, CallOk, DiskOk;
    var j := i + 1;
    assert Runs(o, run[i], run[j]);
    Goes(o, run[i], run[j], t, c);
  }

  lemma NextWaits(o: Objects, run: seq<System>, i: nat, t: Tid, c: Call)
    requires Uninterrupted(o, run) && i + 1 < |run| && Stands(o, run[i], t, c) && Sleepy(o, run[i], c)
    ensures var s' := run[i + 1];
            && SystemOk(o, s') && CallOf(s', t) == c && s'.disk == run[i].disk && t < |s'.k.threads|
            && s'.k.threads[t].place == if c.Enter? then OnLock(o.lock) else OnSem(o.semaphore)
  {
    hide Inv, Runs, CallOk, DiskOk;
    var j := i + 1;
    assert Runs(o, run[i], run[j]);
    Waits(o, run[i], run[j], t, c);
  }

  /** A call for sector `n` that finds the lock free asks the disk for exactly `n` and sleeps. */
  lemma AsksThenSleeps(o: Objects, run: seq<System>, t: Tid, n: nat)
    requires |run| == 4 && Uninterrupted(o, run) && Stands(o, run[0], t, Enter(n)) && !run[0].k.locks[o.lock].locked
    ensures SystemOk(o, run[3]) && CallOf(run[3], t) == Await(n) && t < |run[3].k.threads|
    ensures run[3].k.threads[t].place == OnSem(o.semaphore)
    ensures run[3].disk == Disk(true, run[0].disk.requested + [(t, n)], run[0].disk.completed)
  {
    hide Uninterrupted, Stands, Sleepy, SystemOk;
    EntersFree(o, run[0], t, n);
    Next(o, run, 0, t, Enter(n));
    AsksAwake(o, run[1], t, n);
    Next(o, run, 1, t, Request(n));
    AskedIsSleepy(o, run[2], t, n);
    NextWaits(o, run, 2, t, Await(n));
  }

  lemma EntersFree(o: Objects, s: System, t: Tid, n: nat)
    requires Stands(o, s, t, Enter(n)) && !s.k.locks[o.lock].locked
    ensures !Sleepy(o, s, Enter(n))
  {
    hide Inv, CallOk, DiskOk;
  }

  lemma AsksAwake(o: Objects, s: System, t: Tid, n: nat)
    requires Stands(o, s, t, Request(n))
    ensures !Sleepy(o, s, Request(n))
  {
    hide Inv, CallOk, DiskOk;
  }

  /** The disk has not answered yet. */
  lemma AskedIsSleepy(o: Objects, s: System, t: Tid, n: nat)
    requires Stands(o, s, t, Await(n)) && s.disk.active
    ensures Sleepy(o, s, Await(n))
  {
    hide Inv;
    assert CallOk(o, s, t);
  }

  /** The disk's interrupt makes the sleeping thread ready. */
  lemma InterruptWakes(o: Objects, s: System, s': System, t: Tid)
    requires SystemOk(o, s) && Interrupts(o, s, s') && t < |s.k.threads| && s.k.threads[t].place == OnSem(o.semaphore)
    ensures SystemOk(o, s') && t < |s'.k.threads| && s'.k.threads[t].place == Ready && !s'.disk.active
    ensures CallOf(s', t) == CallOf(s, t) && s'.k.sems[o.semaphore].value == 1
  {
    hide Placed, Synced, Step, CallOk;
    InterruptKeeps(o, s, s');
    var op := DoV(o.semaphore);
    Places.StepPlaces(s.k, op);
    StepEffect(s.k, op);
    AskerIsAlone(o, s, t);
  }

  /** Nobody else waits for the disk. */
  lemma AskerIsAlone(o: Objects, s: System, t: Tid)
    requires SystemOk(o, s) && t < |s.k.threads| && s.k.threads[t].place == OnSem(o.semaphore) && s.disk.active
    ensures Places.Woken(s.k, DoV(o.semaphore), t) && !(HasCurrent(s.k) && Current(s.k) == t)
    ensures s.k.sems[o.semaphore].value == 0
  {
    hide Synced, Step, QueueOk, Listed, IsBest;
    var p := OnSem(o.semaphore);
    SleeperCalls(o, s, t);
    Places.NobodyIn(s.k, p);
    var u := First(s.k, p);
    SleeperCalls(o, s, u);
    OnlyWaiter(o, s, t, u);
    Places.BestIsFirst(s.k, p, t);
  }

  lemma SleeperCalls(o: Objects, s: System, t: Tid)
    requires SystemOk(o, s) && t < |s.k.threads| && s.k.threads[t].place == OnSem(o.semaphore)
    ensures OnSem(o.semaphore) in s.k.queues && s.k.threads[t].pc == InP(o.semaphore)
    ensures s.disk.active ==> s.k.sems[o.semaphore].value == 0
  {
    hide QueueOk, Listed;
    assert ThreadOk(s.k, t) && CallOk(o, s, t);
    assert IsPlace(s.k, OnSem(o.semaphore));
  }

  lemma AnsweredPasses(o: Objects, s: System, t: Tid, n: nat)
    requires Stands(o, s, t, Await(n)) && s.k.sems[o.semaphore].value > 0
    ensures !Sleepy(o, s, Await(n))
  {
    hide Inv, CallOk, DiskOk;
  }

  /** A thread about to return has had its own request, the last one made, completed. */
  lemma LeavesServed(o: Objects, s: System, t: Tid, n: nat)
    requires Stands(o, s, t, Leave(n))
    ensures s.disk.completed == s.disk.requested != [] && s.disk.completed[|s.disk.completed| - 1] == (t, n)
    ensures !Sleepy(o, s, Leave(n))
  {
    hide Inv;
    assert CallOk(o, s, t);
  }

  /** Running again, it passes the semaphore, frees the lock and returns. */
  lemma WokenReturns(o: Objects, run: seq<System>, t: Tid, n: nat)
    requires |run| == 3 && Uninterrupted(o, run) && Stands(o, run[0], t, Await(n)) && run[0].k.sems[o.semaphore].value > 0
    ensures Stands(o, run[2], t, Outside) && run[2].disk == run[0].disk && !run[2].k.locks[o.lock].locked
    ensures run[2].disk.completed == run[2].disk.requested != [] && run[2].disk.completed[|run[2].disk.completed| - 1] == (t, n)
  {
    hide Uninterrupted, Stands, Sleepy;
    AnsweredPasses(o, run[0], t, n);
    Next(o, run, 0, t, Await(n));
    LeavesServed(o, run[1], t, n);
    Next(o, run, 1, t, Leave(n));
  }

  /** However the calls interleave, a call keeps its sector. */
  lemma SectorKept(o: Objects, s: System, s': System, t: Tid)
    requires SystemOk(o, s) && Runs(o, s, s') && CallOf(s', t) != Outside
    ensures CallOf(s, t) != Outside && CallOf(s', t).sector == CallOf(s, t).sector
  {
    hide SystemOk, KernelTakes;
  }
}
