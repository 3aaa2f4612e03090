/** What code running on the thread kernel has in common: a call in progress for each thread, kernel
    operations its statements ask for, and bystanders that leave its objects alone. */
module Monitors {
  import opened Threads
  import opened Synchronization
  import opened Effects

  /** The call thread `t` is in. */
  function CallIn<Call>(calls: map<Tid, Call>, t: Tid, outside: Call): Call {
    if t in calls then calls[t] else outside
  }

  /** A statement asks the kernel for at most one operation. */
  ghost predicate KernelTakes(k: Kernel, ops: seq<Op>, k': Kernel)
    requires Inv(k)
  {
    if |ops| == 1 then Enabled(k, ops[0]) && k' == Step(k, ops[0]) else k' == k
  }

  /** Operations that do not touch the lock, the conditions and the semaphores given. */
  predicate Leaves(op: Op, lock: nat, conds: set<nat>, sems: set<nat>) {
    match op
    case DoAcquire(l) => l != lock
    case DoRelease(l) => l != lock
    case DoWait(c, l) => l != lock && c !in conds
    case DoSignal(c, l) => l != lock && c !in conds
    case DoBroadcast(c, l) => l != lock && c !in conds
    case DoP(r) => r !in sems
    case DoV(r) => r !in sems
    case _ => true
  }

  /** A step by thread `t` keeps the kernel's invariant and its objects, and leaves every other thread
      at its point; new threads are at none. */
  ghost predicate Bystanders(k: Kernel, k': Kernel, t: Tid) {
    && Inv(k') && |k'.threads| >= |k.threads| && |k'.locks| == |k.locks| && k'.conds == k.conds && |k'.sems| == |k.sems|
    && (forall u :: 0 <= u < |k.threads| && u != t ==> k'.threads[u].pc == k.threads[u].pc)
    && (forall u :: |k.threads| <= u < |k'.threads| ==> k'.threads[u].pc == Free)
  }

  /** The kernel step of a statement. */
  lemma TakesEffect(k: Kernel, ops: seq<Op>, k': Kernel)
    requires Inv(k) && HasCurrent(k) && |ops| <= 1 && KernelTakes(k, ops, k')
    requires forall op <- ops :: !ByMachine(op)
    ensures Bystanders(k, k', Current(k))
    ensures |ops| == 1 ==> Enabled(k, ops[0]) && Effect(k, ops[0], k')
    ensures |ops| == 0 ==> k' == k
  {
    hide Placed, Synced, Step;
    if |ops| == 1 {
      assert ops[0] in ops;
      StepEffect(k, ops[0]);
    }
  }

  /** The call of a lock's holder, or none. */
  ghost function HolderCall<Call>(k: Kernel, lock: nat, calls: map<Tid, Call>, outside: Call): Call {
    if lock < |k.locks| && k.locks[lock].locked then CallIn(calls, k.locks[lock].threadHeld, outside) else outside
  }
}
