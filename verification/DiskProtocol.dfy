/** `SynchDisk` over the thread kernel: any number of threads read and write sectors through one
    lock and one semaphore, while the disk itself takes a single request at a time and answers
    with an interrupt. */
module DiskProtocol {
  import opened Threads
  import opened Synchronization
  import opened Effects
  import opened Monitors

  datatype Objects = Objects(lock: nat, semaphore: nat)

  /** How far a thread is in `ReadSector` or `WriteSector`. */
  datatype Call = Outside | Enter(sector: nat) | Request(sector: nat) | Await(sector: nat) | Leave(sector: nat)

  /** The disk: whether a request is under way, and which requests were made and completed. */
  datatype Disk = Disk(active: bool, requested: seq<(Tid, nat)>, completed: seq<(Tid, nat)>)

  datatype System = System(k: Kernel, calls: map<Tid, Call>, disk: Disk)

  function CallOf(s: System, t: Tid): Call {
    CallIn(s.calls, t, Outside)
  }

  /** Calls that have the lock. */
  predicate Critical(c: Call) {
    c.Request? || c.Await? || c.Leave?
  }

  // ---------------------------------------------------------------- steps

  function KernelOp(o: Objects, c: Call): (ops: seq<Op>)
    ensures |ops| <= 1
  {
    match c
    case Enter(_) => [DoAcquire(o.lock)]
    case Await(_) => [DoP(o.semaphore)]
    case Leave(_) => [DoRelease(o.lock)]
    case _ => []
  }

  /** Where the call stands afterwards: `stay` tells whether the kernel put the thread to sleep. */
  function CallAfter(c: Call, stay: bool): Call {
    match c
    case Outside => Outside
    case Enter(n) => if stay then c else Request(n)
    case Request(n) => Await(n)
    case Await(n) => if stay then c else Leave(n)
    case Leave(_) => Outside
  }

  /** `Disk::ReadRequest` and `WriteRequest`. */
  function Requested(disk: Disk, t: Tid, sector: nat): Disk {
    disk.(active := true, requested := disk.requested + [(t, sector)])
  }

  /** Whether the current thread is put to sleep by its next statement. */
  ghost predicate Stays(o: Objects, k: Kernel, c: Call)
    requires o.lock < |k.locks| && o.semaphore < |k.sems|
  {
    if c.Enter? then k.locks[o.lock].locked else k.sems[o.semaphore].value == 0
  }

  /** The current thread runs the next statement of its call. */
  ghost predicate Runs(o: Objects, s: System, s': System)
    requires Inv(s.k) && o.lock < |s.k.locks| && o.semaphore < |s.k.sems|
  {
    && HasCurrent(s.k)
    && var t := Current(s.k); var c := CallOf(s, t);
       && c != Outside
       && KernelTakes(s.k, KernelOp(o, c), s'.k)
       && s'.calls == s.calls[t := CallAfter(c, Stays(o, s.k, c))]
       && s'.disk == if c.Request? then Requested(s.disk, t, c.sector) else s.disk
  }

  /** A thread calls `ReadSector` or `WriteSector`. */
  ghost predicate Calls(s: System, s': System)
    requires Inv(s.k)
  {
    && HasCurrent(s.k) && s.k.threads[Current(s.k)].pc == Free && CallOf(s, Current(s.k)) == Outside
    && exists sector :: s' == s.(calls := s.calls[Current(s.k) := Enter(sector)])
  }

  /** The disk's interrupt, pending exactly while a request is under way: the handler marks the
      disk idle and does a `V`, in one step with interrupts off. */
  ghost predicate Interrupts(o: Objects, s: System, s': System)
    requires Inv(s.k) && o.semaphore < |s.k.sems|
  {
    && s.disk.active && s.disk.requested != []
    && s' == s.(k := Step(s.k, DoV(o.semaphore)),
                disk := s.disk.(active := false, completed := s.disk.completed + [s.disk.requested[|s.disk.requested| - 1]]))
  }

  ghost predicate Background(o: Objects, s: System, op: Op, s': System)
    requires Inv(s.k)
  {
    && Enabled(s.k, op) && Leaves(op, o.lock, {}, {o.semaphore})
    && (ByMachine(op) || op.DoYield? || CallOf(s, Current(s.k)) == Outside)
    && s' == s.(k := Step(s.k, op))
  }

  ghost predicate IsStep(o: Objects, s: System, s': System) {
    Inv(s.k) && o.lock < |s.k.locks| && o.semaphore < |s.k.sems| ==>
      Runs(o, s, s') || Calls(s, s') || Interrupts(o, s, s') || exists op :: Background(o, s, op, s')
  }

  // ---------------------------------------------------------------- the invariant

  /** The call of the lock's holder. */
  ghost function Phase(o: Objects, s: System): Call {
    HolderCall(s.k, o.lock, s.calls, Outside)
  }

  ghost predicate CallOk(o: Objects, s: System, t: Tid)
    requires t < |s.k.threads|
  {
    var c, pc := CallOf(s, t), s.k.threads[t].pc;
    && (Critical(c) <==> HoldsLock(s.k, t, o.lock))
    && (c.Request? || c.Leave? ==> pc == Free)
    && (c.Enter? ==> pc == Free || pc == InAcquire(o.lock))
    && (c.Await? ==> pc == Free || pc == InP(o.semaphore))
    && (pc == InP(o.semaphore) ==> c.Await?)
  }

  /** A request is under way, or its completion is waiting in the semaphore, exactly while the
      holder of the lock waits for it; the request is the holder's own. */
  ghost predicate DiskOk(phase: Call, holder: Tid, disk: Disk, value: int) {
    if phase.Await? then
      && disk.requested != [] && disk.requested[|disk.requested| - 1] == (holder, phase.sector)
      && value == (if disk.active then 0 else 1)
      && disk.completed == if disk.active then disk.requested[..|disk.requested| - 1] else disk.requested
    else
      && !disk.active && value == 0 && disk.completed == disk.requested
      && (phase.Leave? ==> disk.completed != [] && disk.completed[|disk.completed| - 1] == (holder, phase.sector))
  }

  ghost predicate SystemOk(o: Objects, s: System) {
    && Inv(s.k)
    && o.lock < |s.k.locks| && o.semaphore < |s.k.sems|
    && (s.k.locks[o.lock].locked ==> s.k.locks[o.lock].threadHeld < |s.k.threads|)
    && (forall t :: t in s.calls ==> t < |s.k.threads|)
    && (forall t :: 0 <= t < |s.k.threads| ==> CallOk(o, s, t))
    && DiskOk(Phase(o, s), s.k.locks[o.lock].threadHeld, s.disk, s.k.sems[o.semaphore].value)
  }

  // ---------------------------------------------------------------- every step keeps it

  /** The kernel's assertions hold wherever a call reaches them. */
  lemma RunIsEnabled(o: Objects, s: System)
    requires SystemOk(o, s) && HasCurrent(s.k)
    ensures forall op :: op in KernelOp(o, CallOf(s, Current(s.k))) ==> Enabled(s.k, op)
  {
    hide Placed, Synced, DiskOk;
    assert CallOk(o, s, Current(s.k));
  }

  /** What a statement does to the disk's lock and semaphore and to the threads' counters. */
  ghost predicate RunEffect(o: Objects, s: System, k': Kernel)
    requires SystemOk(o, s) && HasCurrent(s.k)
  {
    var t := Current(s.k);
    var c := CallOf(s, t);
    var lock, value := s.k.locks[o.lock], s.k.sems[o.semaphore].value;
    var c' := CallAfter(c, Stays(o, s.k, c));
    && Bystanders(s.k, k', t)
    && k'.locks[o.lock] == (if Critical(c') then Lock(true, t) else if Critical(c) then Lock(false, 0) else lock)
    && k'.sems[o.semaphore].value == (if c.Await? && value > 0 then value - 1 else value)
    && (c'.Request? || c'.Leave? ==> k'.threads[t].pc == Free)
    && (c'.Enter? ==> k'.threads[t].pc == InAcquire(o.lock) || k'.threads[t].pc == Free)
    && (c'.Await? ==> k'.threads[t].pc == InP(o.semaphore) || k'.threads[t].pc == Free)
    && (k'.threads[t].pc == InP(o.semaphore) ==> c'.Await?)
  }

  lemma RunHasEffect(o: Objects, s: System, k': Kernel)
    requires SystemOk(o, s) && HasCurrent(s.k) && CallOf(s, Current(s.k)) != Outside
    requires KernelTakes(s.k, KernelOp(o, CallOf(s, Current(s.k))), k')
    ensures RunEffect(o, s, k')
  {
    hide Placed, Synced, DiskOk, Step;
    assert CallOk(o, s, Current(s.k));
    TakesEffect(s.k, KernelOp(o, CallOf(s, Current(s.k))), k');
  }

  lemma RunKeepsCalls(o: Objects, s: System, s': System)
    requires SystemOk(o, s) && Runs(o, s, s') && RunEffect(o, s, s'.k)
    ensures forall u :: 0 <= u < |s'.k.threads| ==> CallOk(o, s', u)
  {
    hide Placed, Synced, DiskOk, Step;
    var t := Current(s.k);
    assert CallOk(o, s, t);
    forall u | 0 <= u < |s'.k.threads| ensures CallOk(o, s', u) {
      assert u < |s.k.threads| ==> CallOk(o, s, u);
      assert u != t ==> CallOf(s', u) == CallOf(s, u);
    }
  }

  lemma RunKeeps(o: Objects, s: System, s': System)
    requires SystemOk(o, s) && Runs(o, s, s')
    ensures SystemOk(o, s')
  {
    hide Placed, Synced, Step;
    var t := Current(s.k);
    assert CallOk(o, s, t);
    RunHasEffect(o, s, s'.k);
    RunKeepsCalls(o, s, s');
    if !Critical(CallOf(s, t)) && s.k.locks[o.lock].locked {
      assert CallOk(o, s, s.k.locks[o.lock].threadHeld);
    }
  }

  lemma CallKeeps(o: Objects, s: System, s': System)
    requires SystemOk(o, s) && Calls(s, s')
    ensures SystemOk(o, s')
  {
    hide Placed, Synced, DiskOk;
    assert CallOk(o, s, Current(s.k));
    forall u | 0 <= u < |s'.k.threads| ensures CallOk(o, s', u) {
      assert CallOk(o, s, u);
    }
  }

  lemma InterruptKeeps(o: Objects, s: System, s': System)
    requires SystemOk(o, s) && Interrupts(o, s, s')
    ensures SystemOk(o, s')
  {
    hide Placed, Synced, Step;
    StepEffect(s.k, DoV(o.semaphore));
    forall u | 0 <= u < |s'.k.threads| ensures CallOk(o, s', u) {
      assert u < |s.k.threads| ==> CallOk(o, s, u);
    }
  }

  lemma BackgroundKeeps(o: Objects, s: System, op: Op, s': System)
    requires SystemOk(o, s) && Background(o, s, op, s')
    ensures SystemOk(o, s')
  {
    hide Placed, Synced, DiskOk, Step;
    StepEffect(s.k, op);
    assert s'.k.locks[o.lock] == s.k.locks[o.lock];
    if !ByMachine(op) { assert CallOk(o, s, Current(s.k)); }
    forall u | 0 <= u < |s'.k.threads| ensures CallOk(o, s', u) {
      assert u < |s.k.threads| ==> CallOk(o, s, u);
    }
  }

  lemma StepKeepsDisk(o: Objects, s: System, s': System)
    requires SystemOk(o, s) && IsStep(o, s, s')
    ensures SystemOk(o, s')
  {
    hide Inv, DiskOk, CallOk, Runs, Calls, Background, Interrupts;
    if Runs(o, s, s') {
      RunKeeps(o, s, s');
    } else if Calls(s, s') {
      CallKeeps(o, s, s');
    } else if Interrupts(o, s, s') {
      InterruptKeeps(o, s, s');
    } else {
      var op :| Background(o, s, op, s');
      BackgroundKeeps(o, s, op, s');
    }
  }

  // ---------------------------------------------------------------- every run

  /** An idle disk in a kernel in any reachable state, with its lock free and its semaphore at
      zero, used by no one yet. */
  ghost predicate Init(o: Objects, s: System) {
    && Inv(s.k) && o.lock < |s.k.locks| && o.semaphore < |s.k.sems|
    && !s.k.locks[o.lock].locked && s.k.sems[o.semaphore].value == 0
    && (forall t :: 0 <= t < |s.k.threads| ==> s.k.threads[t].pc != InP(o.semaphore))
    && s.calls == map[] && s.disk == Disk(false, [], [])
  }

  ghost predicate IsDiskRun(o: Objects, run: seq<System>) {
    && run != [] && Init(o, run[0])
    && forall i, j :: 0 <= i && j == i + 1 && j < |run| ==> IsStep(o, run[i], run[j])
  }

  lemma {:induction false} RunIsOk(o: Objects, run: seq<System>, n: nat)
    requires IsDiskRun(o, run) && n < |run|
    ensures SystemOk(o, run[n])
  {
    hide Inv, IsStep;
    if n > 0 {
      RunIsOk(o, run, n - 1);
      assert IsStep(o, run[n - 1], run[n]);
      StepKeepsDisk(o, run[n - 1], run[n]);
    }
  }

  /** There are such runs: a fresh disk in a freshly booted kernel. */
  lemma FreshDisk() returns (o: Objects, s: System)
    ensures Init(o, s) && IsDiskRun(o, [s])
  {
    hide Placed, Synced;
    var k := BootExists([0], 1, 0);
    BootIsValid(k, [0]);
    o, s := Objects(0, 0), System(k, map[], Disk(false, [], []));
  }

  /** In every reachable state the disk is idle when a thread is about to make a request, so its
      assertion against a second request holds; and a call that is about to return has had its
      own request, the last one made, completed. */
  lemma DiskIsNeverAskedWhileActive(o: Objects, run: seq<System>, n: nat, t: Tid)
    requires IsDiskRun(o, run) && n < |run|
    ensures var s := run[n]; var c := CallOf(s, t);
            && (c.Request? ==> !s.disk.active)
            && (c.Leave? ==> !s.disk.active && s.disk.completed == s.disk.requested
                             && s.disk.completed != [] && s.disk.completed[|s.disk.completed| - 1] == (t, c.sector))
            && |s.disk.requested| <= |s.disk.completed| + 1 && s.disk.completed <= s.disk.requested
  {
    hide Inv, IsStep;
    RunIsOk(o, run, n);
    var s := run[n];
    if t in s.calls {
      assert CallOk(o, s, t);
    }
  }

  /** Only the holder of the lock is ever inside `P` on the disk's semaphore. */
  lemma OnlyWaiter(o: Objects, s: System, t: Tid, u: Tid)
    requires SystemOk(o, s) && t < |s.k.threads| && u < |s.k.threads|
    requires s.k.threads[t].pc == InP(o.semaphore) && s.k.threads[u].pc == InP(o.semaphore)
    ensures t == u
  {
    hide Inv, DiskOk;
    assert CallOk(o, s, t) && CallOk(o, s, u);
  }

  /** No completion is lost: while a thread sleeps in its call, its request is still under way,
      and the interrupt that will wake it is still to come. */
  lemma SleeperHasRequest(o: Objects, run: seq<System>, n: nat, t: Tid)
    requires IsDiskRun(o, run) && n < |run| && t < |run[n].k.threads|
    requires run[n].k.threads[t].place == OnSem(o.semaphore)
    ensures run[n].disk.active && CallOf(run[n], t).Await?
  {
    hide IsStep, IsDiskRun, QueueOk;
    RunIsOk(o, run, n);
    var s := run[n];
    assert ThreadOk(s.k, t) && CallOk(o, s, t);
    assert IsPlace(s.k, OnSem(o.semaphore)) && SemOk(s.k, o.semaphore);
    if !s.disk.active {
      var u :| u in Retesting(s.k, o.semaphore);
      OnlyWaiter(o, s, t, u);
    }
  }
}
