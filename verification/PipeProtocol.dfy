/** User pipes over the thread kernel: any number of readers and writers, with the lock, the waiting
    loops and the broadcasts of `Read` and `Write`.  The statements between taking the lock and
    waiting or broadcasting pass no simulated time and are one step, a pass of module `Pipe`. */
module PipeProtocol {
  import opened Threads
  import opened Synchronization
  import opened Effects
  import opened Monitors
  import Pipe

  datatype Objects = Objects(lock: nat, cond: nat)

  /** How far a thread is in its call; a woken waiter is entering again. */
  datatype Call =
    | Outside
    | ReadEnter | ReadPass
    | WriteEnter(ch: int) | WritePass(ch: int)
    | Announce(result: int) | Leave(result: int)

  datatype System = System(k: Kernel, calls: map<Tid, Call>, pipe: Pipe.System)

  function CallOf(s: System, t: Tid): Call {
    CallIn(s.calls, t, Outside)
  }

  predicate Entering(c: Call) { c.ReadEnter? || c.WriteEnter? }

  /** Calls that have the lock. */
  predicate Critical(c: Call) { !c.Outside? && !Entering(c) }

  // ---------------------------------------------------------------- steps

  /** What a pass does to the pipe, and what it answers. */
  ghost function PassOf(c: Call, p: Pipe.System): (Pipe.System, Pipe.Outcome)
    requires Pipe.Valid(p.ring)
  {
    match c
    case ReadPass => Pipe.Step(p, Pipe.Read)
    case WritePass(ch) => Pipe.Step(p, Pipe.Write(ch))
    case _ => (p, Pipe.Waits)
  }

  predicate IsPass(c: Call) { c.ReadPass? || c.WritePass? }

  ghost function KernelOp(o: Objects, c: Call, p: Pipe.System): (ops: seq<Op>)
    requires Pipe.Valid(p.ring)
    ensures |ops| <= 1
  {
    match c
    case ReadEnter => [DoAcquire(o.lock)]
    case WriteEnter(_) => [DoAcquire(o.lock)]
    case Announce(_) => [DoBroadcast(o.cond, o.lock)]
    case Leave(_) => [DoRelease(o.lock)]
    case _ => if IsPass(c) && PassOf(c, p).1.Waits? then [DoWait(o.cond, o.lock)] else []
  }

  /** The ring is announced when it changed; end of stream and refusal leave it alone. */
  ghost function CallAfter(c: Call, p: Pipe.System, locked: bool): Call
    requires Pipe.Valid(p.ring)
  {
    match c
    case Outside => Outside
    case ReadEnter => if locked then c else ReadPass
    case WriteEnter(ch) => if locked then c else WritePass(ch)
    case Announce(v) => Leave(v)
    case Leave(_) => Outside
    case ReadPass =>
      var out := PassOf(c, p).1;
      if out.Waits? then ReadEnter else if p.ring.size == 0 then Leave(out.value) else Announce(out.value)
    case WritePass(ch) =>
      var out := PassOf(c, p).1;
      if out.Waits? then WriteEnter(ch) else if p.ring.size == |p.ring.cells| then Leave(out.value) else Announce(out.value)
  }

  /** The current thread takes the next step of its call. */
  ghost predicate Runs(o: Objects, s: System, s': System)
    requires Inv(s.k) && o.lock < |s.k.locks| && Pipe.Valid(s.pipe.ring)
  {
    && HasCurrent(s.k)
    && var t := Current(s.k); var c := CallOf(s, t);
       && c != Outside
       && KernelTakes(s.k, KernelOp(o, c, s.pipe), s'.k)
       && s'.calls == s.calls[t := CallAfter(c, s.pipe, s.k.locks[o.lock].locked)]
       && s'.pipe == PassOf(c, s.pipe).0
  }

  ghost predicate Calls(s: System, s': System)
    requires Inv(s.k)
  {
    && HasCurrent(s.k) && s.k.threads[Current(s.k)].pc == Free && CallOf(s, Current(s.k)) == Outside
    && (s' == s.(calls := s.calls[Current(s.k) := ReadEnter])
        || exists ch :: Pipe.IsChar(ch) && s' == s.(calls := s.calls[Current(s.k) := WriteEnter(ch)]))
  }

  /** An end is opened or closed, without the lock. */
  ghost predicate Opens(s: System, s': System) {
    exists i, j :: s' == s.(pipe := s.pipe.(ring := s.pipe.ring.(inOpen := i, outOpen := j)))
  }

  ghost predicate Background(o: Objects, s: System, op: Op, s': System)
    requires Inv(s.k)
  {
    && Enabled(s.k, op) && Leaves(op, o.lock, {o.cond}, {})
    && (ByMachine(op) || op.DoYield? || CallOf(s, Current(s.k)) == Outside)
    && s' == s.(k := Step(s.k, op))
  }

  ghost predicate IsStep(o: Objects, s: System, s': System) {
    Inv(s.k) && o.lock < |s.k.locks| && Pipe.Valid(s.pipe.ring) ==>
      Runs(o, s, s') || Calls(s, s') || Opens(s, s') || exists op :: Background(o, s, op, s')
  }

  // ---------------------------------------------------------------- the invariant

  ghost function Phase(o: Objects, s: System): Call {
    HolderCall(s.k, o.lock, s.calls, Outside)
  }

  ghost predicate CallOk(o: Objects, s: System, t: Tid)
    requires t < |s.k.threads|
  {
    var c, pc := CallOf(s, t), s.k.threads[t].pc;
    && (Critical(c) <==> HoldsLock(s.k, t, o.lock))
    && (Critical(c) ==> pc == Free)
    && (Entering(c) ==> pc == Free || pc == InAcquire(o.lock))
    && (c.WriteEnter? || c.WritePass? ==> Pipe.IsChar(c.ch))
  }

  /** A thread sleeps on the condition only as a reader of an empty ring or a writer of a full one,
      or when a broadcast is about to wake it. */
  ghost predicate HasReason(o: Objects, s: System, t: Tid) {
    var c, ring := CallOf(s, t), s.pipe.ring;
    Entering(c) && (Phase(o, s).Announce? || ring.size == if c.ReadEnter? then 0 else |ring.cells|)
  }

  ghost predicate SystemOk(o: Objects, s: System) {
    && Inv(s.k)
    && o.lock < |s.k.locks| && o.cond < s.k.conds
    && (s.k.locks[o.lock].locked ==> s.k.locks[o.lock].threadHeld < |s.k.threads|)
    && (forall t :: t in s.calls ==> t < |s.k.threads|)
    && (forall t :: 0 <= t < |s.k.threads| ==> CallOk(o, s, t))
    && Pipe.Fifo(s.pipe)
    && (forall t :: Sleeps(s.k, t, o.cond) ==> HasReason(o, s, t))
  }

  // ---------------------------------------------------------------- every step keeps it

  lemma HolderIsCritical(o: Objects, s: System, t: Tid)
    requires SystemOk(o, s) && t < |s.k.threads|
    ensures CallOk(o, s, t)
    ensures Critical(CallOf(s, t)) ==> Phase(o, s) == CallOf(s, t)
    ensures !s.k.locks[o.lock].locked ==> Phase(o, s) == Outside
  {
    hide Inv, Pipe.Fifo;
  }

  /** The kernel's assertions hold wherever a call reaches them. */
  lemma RunIsEnabled(o: Objects, s: System)
    requires SystemOk(o, s) && HasCurrent(s.k)
    ensures forall op :: op in KernelOp(o, CallOf(s, Current(s.k)), s.pipe) ==> Enabled(s.k, op)
  {
    hide Placed, Synced, PassOf;
    assert CallOk(o, s, Current(s.k));
  }

  ghost predicate RunEffect(o: Objects, s: System, k': Kernel)
    requires SystemOk(o, s) && HasCurrent(s.k)
  {
    var t := Current(s.k);
    var c := CallOf(s, t);
    var lock := s.k.locks[o.lock];
    var c' := CallAfter(c, s.pipe, lock.locked);
    && Bystanders(s.k, k', t)
    && k'.locks[o.lock] == (if Critical(c') then Lock(true, t) else if Critical(c) then Lock(false, 0) else lock)
    && (Critical(c') ==> k'.threads[t].pc == Free)
    && (Entering(c') ==> k'.threads[t].pc == InAcquire(o.lock) || k'.threads[t].pc == Free)
  }

  lemma RunHasEffect(o: Objects, s: System, k': Kernel)
    requires SystemOk(o, s) && HasCurrent(s.k) && CallOf(s, Current(s.k)) != Outside
    requires KernelTakes(s.k, KernelOp(o, CallOf(s, Current(s.k)), s.pipe), k')
    ensures RunEffect(o, s, k')
  {
    hide Placed, Synced, Step, PassOf, Pipe.Valid, Pipe.Contents;
    assert CallOk(o, s, Current(s.k));
    TakesEffect(s.k, KernelOp(o, CallOf(s, Current(s.k)), s.pipe), k');
  }

  lemma RunKeepsCalls(o: Objects, s: System, s': System)
    requires SystemOk(o, s) && Runs(o, s, s') && RunEffect(o, s, s'.k)
    ensures forall u :: 0 <= u < |s'.k.threads| ==> CallOk(o, s', u)
    ensures var c := CallOf(s, Current(s.k));
            var c' := CallAfter(c, s.pipe, s.k.locks[o.lock].locked);
            Phase(o, s') == if Critical(c') then c' else if Critical(c) then Outside else Phase(o, s)
  {
    hide Placed, Synced, Step, PassOf, Pipe.Valid, Pipe.Contents;
    var t := Current(s.k);
    var c := CallOf(s, t);
    assert CallOk(o, s, t);
    forall u | 0 <= u < |s'.k.threads| ensures CallOk(o, s', u) {
      assert u < |s.k.threads| ==> CallOk(o, s, u);
      assert u != t ==> CallOf(s', u) == CallOf(s, u);
    }
    if !Critical(c) && s.k.locks[o.lock].locked {
      assert CallOk(o, s, s.k.locks[o.lock].threadHeld);
    }
  }

  /** A pass changes the ring exactly when it goes on to announce it, and waits only on a ring that
      is empty, for a reader, or full, for a writer. */
  lemma PassFacts(c: Call, p: Pipe.System)
    requires IsPass(c) && Pipe.Fifo(p) && (c.WritePass? ==> Pipe.IsChar(c.ch))
    ensures Pipe.Fifo(PassOf(c, p).0)
    ensures var c', p' := CallAfter(c, p, false), PassOf(c, p).0;
            && |p'.ring.cells| == |p.ring.cells|
            && (!c'.Announce? ==> p'.ring.size == p.ring.size)
            && (Entering(c') <==> PassOf(c, p).1.Waits?)
            && (c'.ReadEnter? ==> p.ring.size == 0) && (c'.WriteEnter? ==> p.ring.size == |p.ring.cells|)
  {
    Pipe.StepKeeps(p, if c.ReadPass? then Pipe.Read else Pipe.Write(c.ch));
  }

  lemma RunKeepsSleepers(o: Objects, s: System, s': System)
    requires SystemOk(o, s) && Runs(o, s, s') && RunEffect(o, s, s'.k)
    ensures Pipe.Fifo(s'.pipe)
    ensures forall u :: Sleeps(s'.k, u, o.cond) ==> HasReason(o, s', u)
  {
    hide Placed, Synced, Step, PassOf, Pipe.Valid, Pipe.Contents, RunEffect;
    var t := Current(s.k);
    var c := CallOf(s, t);
    HolderIsCritical(o, s, t);
    RunKeepsCalls(o, s, s');
    CurrentIsAwake(o, s);
    NoPass(c, s.pipe);
    if IsPass(c) { PassFacts(c, s.pipe); }
    var ops := KernelOp(o, c, s.pipe);
    if |ops| == 1 { StepSleepers(s.k, ops[0], o.cond); }
    forall u | Sleeps(s'.k, u, o.cond) ensures HasReason(o, s', u) {
      assert u != t ==> Sleeps(s.k, u, o.cond) && CallOf(s', u) == CallOf(s, u);
    }
  }

  lemma NoPass(c: Call, p: Pipe.System)
    requires Pipe.Valid(p.ring)
    ensures !IsPass(c) ==> PassOf(c, p).0 == p
  {
  }

  lemma CurrentIsAwake(o: Objects, s: System)
    requires SystemOk(o, s) && HasCurrent(s.k)
    ensures !Sleeps(s.k, Current(s.k), o.cond)
  {
    hide Placed, Synced;
  }

  lemma RunKeeps(o: Objects, s: System, s': System)
    requires SystemOk(o, s) && Runs(o, s, s')
    ensures SystemOk(o, s')
  {
    hide Placed, Synced, Step, CallOk, HasReason, Sleeps, PassOf, Pipe.Valid, Pipe.Contents;
    RunHasEffect(o, s, s'.k);
    RunKeepsCalls(o, s, s');
    RunKeepsSleepers(o, s, s');
  }

  lemma CallKeeps(o: Objects, s: System, s': System)
    requires SystemOk(o, s) && Calls(s, s')
    ensures SystemOk(o, s')
  {
    hide Placed, Synced, Pipe.Fifo;
    CurrentIsAwake(o, s);
    assert CallOk(o, s, Current(s.k));
    forall u | 0 <= u < |s'.k.threads| ensures CallOk(o, s', u) {
      assert CallOk(o, s, u);
    }
    forall u | Sleeps(s'.k, u, o.cond) ensures HasReason(o, s', u) {
      assert HasReason(o, s, u);
    }
  }

  lemma OpenKeeps(o: Objects, s: System, s': System)
    requires SystemOk(o, s) && Opens(s, s')
    ensures SystemOk(o, s')
  {
    hide Inv;
    Pipe.OpeningKeepsContents(s.pipe.ring, s'.pipe.ring);
    forall u | 0 <= u < |s'.k.threads| ensures CallOk(o, s', u) {
      assert CallOk(o, s, u);
    }
    forall u | Sleeps(s'.k, u, o.cond) ensures HasReason(o, s', u) {
      assert HasReason(o, s, u);
    }
  }

  lemma BackgroundKeeps(o: Objects, s: System, op: Op, s': System)
    requires SystemOk(o, s) && Background(o, s, op, s')
    ensures SystemOk(o, s')
  {
    hide Placed, Synced, Step, Pipe.Fifo;
    StepEffect(s.k, op);
    StepSleepers(s.k, op, o.cond);
    assert s'.k.locks[o.lock] == s.k.locks[o.lock];
    if !ByMachine(op) { assert CallOk(o, s, Current(s.k)); }
    forall u | 0 <= u < |s'.k.threads| ensures CallOk(o, s', u) {
      assert u < |s.k.threads| ==> CallOk(o, s, u);
    }
    forall u | Sleeps(s'.k, u, o.cond) ensures HasReason(o, s', u) {
      assert HasReason(o, s, u);
    }
  }

  lemma StepKeepsPipe(o: Objects, s: System, s': System)
    requires SystemOk(o, s) && IsStep(o, s, s')
    ensures SystemOk(o, s')
  {
    hide Inv, CallOk, Runs, Calls, Opens, Background, HasReason, Sleeps;
    if Runs(o, s, s') {
      RunKeeps(o, s, s');
    } else if Calls(s, s') {
      CallKeeps(o, s, s');
    } else if Opens(s, s') {
      OpenKeeps(o, s, s');
    } else {
      var op :| Background(o, s, op, s');
      BackgroundKeeps(o, s, op, s');
    }
  }

  // ---------------------------------------------------------------- every run

  /** An empty pipe of any capacity in a kernel in any reachable state, with no one using its lock
      and its condition. */
  ghost predicate Init(o: Objects, s: System) {
    && Inv(s.k) && o.lock < |s.k.locks| && o.cond < s.k.conds
    && !s.k.locks[o.lock].locked && (forall t :: !Sleeps(s.k, t, o.cond))
    && s.calls == map[] && exists capacity: nat :: s.pipe == Pipe.Empty(capacity)
  }

  ghost predicate IsPipeRun(o: Objects, run: seq<System>) {
    && run != [] && Init(o, run[0])
    && forall i, j :: 0 <= i && j == i + 1 && j < |run| ==> IsStep(o, run[i], run[j])
  }

  lemma InitIsOk(o: Objects, s: System)
    requires Init(o, s)
    ensures SystemOk(o, s)
  {
    hide Placed, Synced;
    var capacity: nat :| s.pipe == Pipe.Empty(capacity);
    Pipe.EmptyIsFifo(capacity);
  }

  lemma {:induction false} RunIsOk(o: Objects, run: seq<System>, n: nat)
    requires IsPipeRun(o, run) && n < |run|
    ensures SystemOk(o, run[n])
  {
    hide Inv, IsStep, SystemOk, Init;
    if n == 0 {
      InitIsOk(o, run[0]);
    } else {
      RunIsOk(o, run, n - 1);
      assert IsStep(o, run[n - 1], run[n]);
      StepKeepsPipe(o, run[n - 1], run[n]);
    }
  }

  /** There are such runs: a fresh pipe in a freshly booted kernel. */
  lemma FreshPipe(capacity: nat) returns (o: Objects, s: System)
    ensures Init(o, s) && IsPipeRun(o, [s])
  {
    hide Placed, Synced;
    var k := BootExists([], 1, 1);
    BootIsValid(k, []);
    o, s := Objects(0, 0), System(k, map[], Pipe.Empty(capacity));
  }

  /** In every run, with any number of readers and writers: the characters returned and those in the
      ring are the characters accepted, in order; and no wake-up is lost: a reader sleeps only
      beside an empty ring and a writer only beside a full one, or a broadcast is about to come. */
  lemma PipeIsSafe(o: Objects, run: seq<System>, n: nat, t: Tid)
    requires IsPipeRun(o, run) && n < |run|
    ensures var p := run[n].pipe; Pipe.Valid(p.ring) && p.accepted == p.returned + Pipe.Contents(p.ring)
    ensures Sleeps(run[n].k, t, o.cond) ==> HasReason(o, run[n], t)
  {
    hide Inv, IsStep, CallOk, Sleeps, HasReason;
    RunIsOk(o, run, n);
  }

  /** Two threads are never inside the pipe at once. */
  lemma OneInside(o: Objects, run: seq<System>, n: nat, t: Tid, u: Tid)
    requires IsPipeRun(o, run) && n < |run| && t < |run[n].k.threads| && u < |run[n].k.threads|
    requires Critical(CallOf(run[n], t)) && Critical(CallOf(run[n], u))
    ensures t == u
  {
    hide Inv, IsStep, Sleeps, HasReason, Pipe.Fifo;
    RunIsOk(o, run, n);
    assert CallOk(o, run[n], t) && CallOk(o, run[n], u);
  }
}
