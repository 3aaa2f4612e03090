/** `Mailbox`: `Send` and `Receive` by any number of threads over the thread kernel.  Every
    statement of the two operations is a step of its own, threads may be preempted between any
    two of them, and threads outside the mailbox do anything else the kernel allows. */
module Mailbox {
  import opened Threads
  import opened Synchronization
  import opened Effects
  import opened Monitors

  /** The mailbox's own lock and condition variables. */
  datatype Objects = Objects(lock: nat, sendWait: nat, receiveWait: nat)

  datatype Box = Box(buffer: int, bufferRead: bool, receivePres: int)

  /** How far a thread is in its call; from `Clear` on, `m` is what `Receive` will return. */
  datatype Call =
    | Outside
    | SendEnter(m: int) | SendTest(m: int) | Put(m: int) | Flag(m: int) | SignalReceiver | SendRelease
    | ReceiveEnter | Count | SignalSender | ReceiveTest | ReceiveAgain
    | Copy | Clear(m: int) | Unflag(m: int) | Uncount(m: int) | ReceiveRelease(m: int)

  /** `deposited` and `received` are the messages put in the buffer and returned so far. */
  datatype System = System(k: Kernel, calls: map<Tid, Call>, box: Box, deposited: seq<int>, received: seq<int>)

  function CallOf(s: System, t: Tid): Call {
    CallIn(s.calls, t, Outside)
  }

  /** Calls on their way to the lock. */
  predicate Entering(c: Call) {
    c.SendEnter? || c.ReceiveEnter? || c.ReceiveAgain?
  }

  /** Calls that have the lock. */
  predicate Critical(c: Call) {
    !c.Outside? && !Entering(c)
  }

  /** Receivers that have entered and not yet taken a message. */
  predicate Present(c: Call) {
    c.SignalSender? || c.ReceiveTest? || c.ReceiveAgain? || c.Copy? || c.Clear? || c.Unflag? || c.Uncount?
  }

  ghost function Receivers(calls: map<Tid, Call>): set<Tid> {
    set t | t in calls && Present(calls[t])
  }

  // ---------------------------------------------------------------- steps

  /** What the next statement of a call asks of the kernel. */
  function KernelOp(o: Objects, c: Call, box: Box): (ops: seq<Op>)
    ensures |ops| <= 1
  {
    match c
    case SendEnter(_) => [DoAcquire(o.lock)]
    case ReceiveEnter => [DoAcquire(o.lock)]
    case ReceiveAgain => [DoAcquire(o.lock)]
    case SendTest(_) => if box.bufferRead || box.receivePres <= 0 then [DoWait(o.sendWait, o.lock)] else []
    case ReceiveTest => if !box.bufferRead then [DoWait(o.receiveWait, o.lock)] else []
    case SignalReceiver => [DoSignal(o.receiveWait, o.lock)]
    case SignalSender => [DoSignal(o.sendWait, o.lock)]
    case SendRelease => [DoRelease(o.lock)]
    case ReceiveRelease(_) => [DoRelease(o.lock)]
    case _ => []
  }

  /** Where the call stands afterwards; `locked` tells whether an `Acquire` found the lock taken. */
  function CallAfter(c: Call, box: Box, locked: bool): Call {
    match c
    case Outside => Outside
    case SendEnter(m) => if locked then c else SendTest(m)
    case SendTest(m) => if box.bufferRead || box.receivePres <= 0 then SendEnter(m) else Put(m)
    case Put(m) => Flag(m)
    case Flag(_) => SignalReceiver
    case SignalReceiver => SendRelease
    case SendRelease => Outside
    case ReceiveEnter => if locked then c else Count
    case Count => SignalSender
    case SignalSender => ReceiveTest
    case ReceiveTest => if !box.bufferRead then ReceiveAgain else Copy
    case ReceiveAgain => if locked then c else ReceiveTest
    case Copy => Clear(box.buffer)
    case Clear(m) => Unflag(m)
    case Unflag(m) => Uncount(m)
    case Uncount(m) => ReceiveRelease(m)
    case ReceiveRelease(_) => Outside
  }

  function BoxAfter(c: Call, box: Box): Box {
    match c
    case Put(m) => box.(buffer := m)
    case Flag(_) => box.(bufferRead := true)
    case Count => box.(receivePres := box.receivePres + 1)
    case Clear(_) => box.(buffer := 0)
    case Unflag(_) => box.(bufferRead := false)
    case Uncount(_) => box.(receivePres := box.receivePres - 1)
    case _ => box
  }

  /** The current thread runs the next statement of its call. */
  ghost predicate Runs(o: Objects, s: System, s': System)
    requires Inv(s.k) && o.lock < |s.k.locks|
  {
    && HasCurrent(s.k)
    && var t := Current(s.k); var c := CallOf(s, t);
       && c != Outside
       && KernelTakes(s.k, KernelOp(o, c, s.box), s'.k)
       && s'.calls == s.calls[t := CallAfter(c, s.box, s.k.locks[o.lock].locked)]
       && s'.box == BoxAfter(c, s.box)
       && s'.deposited == (if c.Put? then s.deposited + [c.m] else s.deposited)
       && s'.received == (if c.ReceiveRelease? then s.received + [c.m] else s.received)
  }

  /** A thread outside the mailbox calls `Send` or `Receive`. */
  ghost predicate Calls(s: System, s': System)
    requires Inv(s.k)
  {
    && HasCurrent(s.k) && s.k.threads[Current(s.k)].pc == Free && CallOf(s, Current(s.k)) == Outside
    && (s' == s.(calls := s.calls[Current(s.k) := ReceiveEnter])
        || exists m :: s' == s.(calls := s.calls[Current(s.k) := SendEnter(m)]))
  }

  /** Any other step of the kernel: an interrupt's `V`, the scheduler, a preemption, or whatever a
      thread outside the mailbox does. */
  ghost predicate Background(o: Objects, s: System, op: Op, s': System)
    requires Inv(s.k)
  {
    && Enabled(s.k, op) && Leaves(op, o.lock, {o.sendWait, o.receiveWait}, {})
    && (ByMachine(op) || op.DoYield? || CallOf(s, Current(s.k)) == Outside)
    && s' == s.(k := Step(s.k, op))
  }

  ghost predicate IsStep(o: Objects, s: System, s': System) {
    Inv(s.k) && o.lock < |s.k.locks| ==> Runs(o, s, s') || Calls(s, s') || exists op :: Background(o, s, op, s')
  }

  // ---------------------------------------------------------------- the invariant

  /** The call of the lock's holder. */
  ghost function Phase(o: Objects, s: System): Call {
    HolderCall(s.k, o.lock, s.calls, Outside)
  }

  /** What is in the buffer, as a sequence of at most one message. */
  function Buffered(box: Box): seq<int> {
    if box.bufferRead then [box.buffer] else []
  }

  /** Messages are neither lost, duplicated nor reordered, and a full buffer has a receiver for
      it; the statements in between are covered by who holds the lock. */
  ghost predicate BoxOk(phase: Call, box: Box, deposited: seq<int>, received: seq<int>) {
    match phase
    case Put(_) => !box.bufferRead && box.receivePres > 0 && deposited == received
    case Flag(m) => !box.bufferRead && box.receivePres > 0 && box.buffer == m && deposited == received + [m]
    case Copy => box.bufferRead && box.receivePres > 0 && deposited == received + [box.buffer]
    case Clear(m) => box.bufferRead && box.receivePres > 0 && deposited == received + [m]
    case Unflag(m) => box.bufferRead && box.receivePres > 0 && deposited == received + [m]
    case Uncount(m) => !box.bufferRead && box.receivePres > 0 && deposited == received + [m]
    case ReceiveRelease(m) => !box.bufferRead && deposited == received + [m]
    case _ => deposited == received + Buffered(box) && (box.bufferRead ==> box.receivePres > 0)
  }

  /** A call is critical exactly when its thread holds the lock, and its place in the kernel's
      operations fits. */
  ghost predicate CallOk(o: Objects, s: System, t: Tid)
    requires t < |s.k.threads|
  {
    var c, pc := CallOf(s, t), s.k.threads[t].pc;
    && (Critical(c) <==> HoldsLock(s.k, t, o.lock))
    && (Critical(c) ==> pc == Free)
    && (Entering(c) ==> pc == Free || pc == InAcquire(o.lock))
  }

  ghost predicate SystemOk(o: Objects, s: System) {
    && Inv(s.k)
    && o.lock < |s.k.locks| && o.sendWait < s.k.conds && o.receiveWait < s.k.conds && o.sendWait != o.receiveWait
    && (s.k.locks[o.lock].locked ==> s.k.locks[o.lock].threadHeld < |s.k.threads|)
    && (forall t :: t in s.calls ==> t < |s.k.threads|)
    && (forall t :: 0 <= t < |s.k.threads| ==> CallOk(o, s, t))
    && BoxOk(Phase(o, s), s.box, s.deposited, s.received)
    && s.box.receivePres == |Receivers(s.calls)|
  }

  // ---------------------------------------------------------------- every step keeps it

  lemma HolderIsCritical(o: Objects, s: System, t: Tid)
    requires SystemOk(o, s) && t < |s.k.threads|
    ensures CallOk(o, s, t)
    ensures Critical(CallOf(s, t)) ==> Phase(o, s) == CallOf(s, t)
    ensures !s.k.locks[o.lock].locked ==> Phase(o, s) == Outside
  {
  }

  /** Mutual exclusion: two threads are never between their first and last statement at once. */
  lemma OneInside(o: Objects, s: System, t: Tid, u: Tid)
    requires SystemOk(o, s) && t < |s.k.threads| && u < |s.k.threads|
    requires Critical(CallOf(s, t)) && Critical(CallOf(s, u))
    ensures t == u
  {
    hide Inv, BoxOk;
    assert CallOk(o, s, t) && CallOk(o, s, u);
  }

  /** The kernel's assertions hold wherever a call reaches them. */
  lemma RunIsEnabled(o: Objects, s: System)
    requires SystemOk(o, s) && HasCurrent(s.k)
    ensures forall op :: op in KernelOp(o, CallOf(s, Current(s.k)), s.box) ==> Enabled(s.k, op)
  {
    hide Placed, Synced, BoxOk;
    assert CallOk(o, s, Current(s.k));
  }

  /** What a statement does to the mailbox's lock and to the threads' counters. */
  ghost predicate RunEffect(o: Objects, s: System, k': Kernel)
    requires SystemOk(o, s) && HasCurrent(s.k)
  {
    var t := Current(s.k);
    var c := CallOf(s, t);
    var lock := s.k.locks[o.lock];
    var c' := CallAfter(c, s.box, lock.locked);
    && Bystanders(s.k, k', t)
    && k'.locks[o.lock] == (if Critical(c') then Lock(true, t) else if Critical(c) then Lock(false, 0) else lock)
    && (Critical(c') ==> k'.threads[t].pc == Free)
    && (Entering(c') ==> k'.threads[t].pc == InAcquire(o.lock) || k'.threads[t].pc == Free)
  }

  lemma RunHasEffect(o: Objects, s: System, k': Kernel)
    requires SystemOk(o, s) && HasCurrent(s.k) && CallOf(s, Current(s.k)) != Outside
    requires KernelTakes(s.k, KernelOp(o, CallOf(s, Current(s.k)), s.box), k')
    ensures RunEffect(o, s, k')
  {
    hide Placed, Synced, BoxOk, Step;
    assert CallOk(o, s, Current(s.k));
    TakesEffect(s.k, KernelOp(o, CallOf(s, Current(s.k)), s.box), k');
  }

  /** The statement itself keeps the messages in order. */
  lemma StatementKeepsBox(c: Call, box: Box, deposited: seq<int>, received: seq<int>)
    requires Critical(c) && BoxOk(c, box, deposited, received)
    ensures var c' := CallAfter(c, box, false);
            BoxOk(if Critical(c') then c' else Outside, BoxAfter(c, box),
                  if c.Put? then deposited + [c.m] else deposited,
                  if c.ReceiveRelease? then received + [c.m] else received)
  {
  }

  function One(b: bool): int { if b then 1 else 0 }

  lemma ReceiversUpdated(calls: map<Tid, Call>, t: Tid, c: Call)
    requires t in calls
    ensures |Receivers(calls[t := c])| == |Receivers(calls)| + One(Present(c)) - One(Present(calls[t]))
  {
    var rest := Receivers(calls) - {t};
    assert Receivers(calls) == if Present(calls[t]) then rest + {t} else rest;
    assert Receivers(calls[t := c]) == if Present(c) then rest + {t} else rest;
  }

  lemma StatementCountsReceivers(calls: map<Tid, Call>, t: Tid, box: Box, locked: bool)
    requires t in calls && calls[t] != Outside
    ensures var c := calls[t];
            |Receivers(calls[t := CallAfter(c, box, locked)])| == |Receivers(calls)| + BoxAfter(c, box).receivePres - box.receivePres
  {
    hide Receivers;
    ReceiversUpdated(calls, t, CallAfter(calls[t], box, locked));
  }

  lemma RunKeepsCalls(o: Objects, s: System, s': System)
    requires SystemOk(o, s) && Runs(o, s, s') && RunEffect(o, s, s'.k)
    ensures forall u :: 0 <= u < |s'.k.threads| ==> CallOk(o, s', u)
    ensures var t, c := Current(s.k), CallOf(s, Current(s.k));
            var c' := CallAfter(c, s.box, s.k.locks[o.lock].locked);
            Phase(o, s') == if Critical(c') then c' else if Critical(c) then Outside else Phase(o, s)
  {
    hide Placed, Synced, BoxOk, Step;
    var t := Current(s.k);
    var c := CallOf(s, t);
    assert CallOk(o, s, t);
    forall u | 0 <= u < |s'.k.threads| ensures CallOk(o, s', u) {
      assert u < |s.k.threads| ==> CallOk(o, s, u);
      assert u != t ==> CallOf(s', u) == CallOf(s, u);
    }
    if !Critical(c) && s.k.locks[o.lock].locked {
      assert CallOk(o, s, s.k.locks[o.lock].threadHeld);
    }
  }

  lemma RunKeeps(o: Objects, s: System, s': System)
    requires SystemOk(o, s) && Runs(o, s, s')
    ensures SystemOk(o, s')
  {
    hide Placed, Synced, Step, BoxOk, CallOk, Receivers;
    var t := Current(s.k);
    var c := CallOf(s, t);
    RunHasEffect(o, s, s'.k);
    RunKeepsCalls(o, s, s');
    HolderIsCritical(o, s, t);
    StatementCountsReceivers(s.calls, t, s.box, s.k.locks[o.lock].locked);
    if Critical(c) {
      StatementKeepsBox(c, s.box, s.deposited, s.received);
    } else {
      SamePhaseBox(Phase(o, s), Phase(o, s'), s.box, s.deposited, s.received);
    }
  }

  /** Taking the lock changes nothing in the box. */
  lemma SamePhaseBox(phase: Call, phase': Call, box: Box, deposited: seq<int>, received: seq<int>)
    requires BoxOk(phase, box, deposited, received)
    requires phase' == phase || (phase == Outside && (phase'.SendTest? || phase'.Count? || phase'.ReceiveTest?))
    ensures BoxOk(phase', box, deposited, received)
  {
  }

  /** Entering a call changes nothing yet. */
  lemma CallKeeps(o: Objects, s: System, s': System)
    requires SystemOk(o, s) && Calls(s, s')
    ensures SystemOk(o, s')
  {
    hide Placed, Synced, BoxOk;
    var t := Current(s.k);
    assert CallOk(o, s, t);
    forall u | 0 <= u < |s'.k.threads| ensures CallOk(o, s', u) {
      assert CallOk(o, s, u);
    }
    assert Receivers(s'.calls) == Receivers(s.calls);
  }

  /** The rest of the kernel cannot disturb the mailbox. */
  lemma BackgroundKeeps(o: Objects, s: System, op: Op, s': System)
    requires SystemOk(o, s) && Background(o, s, op, s')
    ensures SystemOk(o, s')
  {
    hide Placed, Synced, BoxOk, Step, Receivers;
    StepEffect(s.k, op);
    assert s'.k.locks[o.lock] == s.k.locks[o.lock];
    if !ByMachine(op) { assert CallOk(o, s, Current(s.k)); }
    forall u | 0 <= u < |s'.k.threads| ensures CallOk(o, s', u) {
      assert u < |s.k.threads| ==> CallOk(o, s, u);
    }
  }

  lemma StepKeepsMailbox(o: Objects, s: System, s': System)
    requires SystemOk(o, s) && IsStep(o, s, s')
    ensures SystemOk(o, s')
  {
    hide Inv, BoxOk, CallOk, Runs, Calls, Background, Receivers;
    if Runs(o, s, s') {
      RunKeeps(o, s, s');
    } else if Calls(s, s') {
      CallKeeps(o, s, s');
    } else {
      var op :| Background(o, s, op, s');
      BackgroundKeeps(o, s, op, s');
    }
  }

  // ---------------------------------------------------------------- no message waits in vain

  /** A receiver that is not asleep on the condition: it holds the lock or is on its way to it. */
  ghost predicate Coming(o: Objects, s: System, t: Tid) {
    t in s.calls && Present(s.calls[t]) && !Sleeps(s.k, t, o.receiveWait)
  }

  /** Only receivers sleep on their condition, and a full buffer has a receiver coming for it or a
      sender about to signal. */
  ghost predicate Attended(o: Objects, s: System) {
    && (forall t :: Sleeps(s.k, t, o.receiveWait) ==> CallOf(s, t) == ReceiveAgain)
    && (s.box.bufferRead && Phase(o, s) != SignalReceiver ==> exists t :: Coming(o, s, t))
  }

  /** A thread that holds the lock is not asleep. */
  lemma HolderIsAwake(o: Objects, s: System, t: Tid)
    requires SystemOk(o, s) && t < |s.k.threads| && (Critical(CallOf(s, t)) || s.k.threads[t].place == Cpu)
    ensures !Sleeps(s.k, t, o.receiveWait)
  {
    hide Placed, BoxOk;
    assert CallOk(o, s, t) && ThreadOk(s.k, t);
  }

  /** The signal: a sleeping receiver is woken, or there is a receiver that does not sleep. */
  lemma SignalBringsReceiver(o: Objects, s: System, s': System)
    requires SystemOk(o, s) && Attended(o, s) && Runs(o, s, s') && CallOf(s, Current(s.k)) == SignalReceiver
    requires SystemOk(o, s')
    ensures Attended(o, s')
  {
    hide Placed, Synced, Step;
    var t := Current(s.k);
    HolderIsCritical(o, s, t);
    StepSleepers(s.k, DoSignal(o.receiveWait, o.lock), o.receiveWait);
    if forall u :: !Sleeps(s.k, u, o.receiveWait) {
      if s.box.bufferRead {
        var u :| u in Receivers(s.calls);
        assert Coming(o, s', u);
      }
    } else {
      var w: Tid :| OneWoken(s.k, s'.k, w, o.receiveWait);
      assert CallOf(s, w) == ReceiveAgain;
      assert Coming(o, s', w);
    }
  }

  /** Every other statement leaves the receivers that are coming. */
  lemma RunAttends(o: Objects, s: System, s': System)
    requires SystemOk(o, s) && Attended(o, s) && Runs(o, s, s') && CallOf(s, Current(s.k)) != SignalReceiver
    ensures Attended(o, s')
  {
    hide Placed, Synced, Step, Receivers, CallOk, RunEffect;
    var t := Current(s.k);
    var c := CallOf(s, t);
    HolderIsCritical(o, s, t);
    HolderIsAwake(o, s, t);
    RunHasEffect(o, s, s'.k);
    RunKeepsCalls(o, s, s');
    var ops := KernelOp(o, c, s.box);
    if |ops| == 1 { StepSleepers(s.k, ops[0], o.receiveWait); }
    if s'.box.bufferRead && Phase(o, s') != SignalReceiver {
      assert s.box.bufferRead && !c.Flag?;
      var u :| Coming(o, s, u);
      assert Coming(o, s', u);
    }
  }

  lemma CallAttends(o: Objects, s: System, s': System)
    requires SystemOk(o, s) && Attended(o, s) && Calls(s, s')
    ensures Attended(o, s')
  {
    hide Placed, Synced, BoxOk, CallOk, Receivers;
    HolderIsAwake(o, s, Current(s.k));
    HolderIsCritical(o, s, Current(s.k));
    assert Phase(o, s') != Phase(o, s) ==> !Critical(Phase(o, s)) && !Critical(Phase(o, s'));
    assert forall u :: Coming(o, s, u) ==> Coming(o, s', u);
  }

  lemma BackgroundAttends(o: Objects, s: System, op: Op, s': System)
    requires SystemOk(o, s) && Attended(o, s) && Background(o, s, op, s')
    ensures Attended(o, s')
  {
    hide Placed, Synced, BoxOk, CallOk, Receivers, Step;
    StepEffect(s.k, op);
    StepSleepers(s.k, op, o.receiveWait);
    assert s'.k.locks[o.lock] == s.k.locks[o.lock];
    assert forall u :: Coming(o, s, u) ==> Coming(o, s', u);
  }

  lemma StepAttends(o: Objects, s: System, s': System)
    requires SystemOk(o, s) && Attended(o, s) && IsStep(o, s, s')
    ensures SystemOk(o, s') && Attended(o, s')
  {
    hide Placed, Synced, Step, BoxOk, CallOk, Receivers, Attended, Calls, Background;
    StepKeepsMailbox(o, s, s');
    if Runs(o, s, s') {
      if CallOf(s, Current(s.k)) == SignalReceiver {
        SignalBringsReceiver(o, s, s');
      } else {
        RunAttends(o, s, s');
      }
    } else if Calls(s, s') {
      CallAttends(o, s, s');
    } else {
      var op :| Background(o, s, op, s');
      BackgroundAttends(o, s, op, s');
    }
  }

  // ---------------------------------------------------------------- every run

  /** An empty mailbox in a kernel in any reachable state, with no one using its lock. */
  ghost predicate Init(o: Objects, s: System) {
    && Inv(s.k) && o.lock < |s.k.locks| && o.sendWait < s.k.conds && o.receiveWait < s.k.conds && o.sendWait != o.receiveWait
    && !s.k.locks[o.lock].locked && (forall t :: !Sleeps(s.k, t, o.receiveWait))
    && s.calls == map[] && s.box == Box(0, false, 0) && s.deposited == [] && s.received == []
  }

  ghost predicate IsMailboxRun(o: Objects, run: seq<System>) {
    && run != [] && Init(o, run[0])
    && forall i, j :: 0 <= i && j == i + 1 && j < |run| ==> IsStep(o, run[i], run[j])
  }

  lemma {:induction false} RunIsOk(o: Objects, run: seq<System>, n: nat)
    requires IsMailboxRun(o, run) && n < |run|
    ensures SystemOk(o, run[n]) && Attended(o, run[n])
  {
    hide Inv, IsStep, Sleeps;
    if n > 0 {
      hide SystemOk, Attended;
      RunIsOk(o, run, n - 1);
      assert IsStep(o, run[n - 1], run[n]);
      StepAttends(o, run[n - 1], run[n]);
    }
  }

  /** There are such runs: a fresh mailbox in a freshly booted kernel. */
  lemma FreshMailbox(values: seq<nat>) returns (o: Objects, s: System)
    ensures Init(o, s) && IsMailboxRun(o, [s])
  {
    hide Placed, Synced;
    var k := BootExists(values, 1, 2);
    BootIsValid(k, values);
    o, s := Objects(0, 0, 1), System(k, map[], Box(0, false, 0), [], []);
  }

  /** A message copied out of the buffer by a `Receive` that has not returned yet. */
  function InHand(phase: Call): seq<int> {
    if phase.Clear? || phase.Unflag? || phase.Uncount? || phase.ReceiveRelease? then [phase.m] else []
  }

  /** In every reachable state: the messages deposited are those returned, in order, followed by
      the one a receiver has in hand or the one in the buffer; whenever the lock is free the
      latter is the buffer flagged full; a full buffer has a receiver present; and `receivePres`
      is the number of receivers that have entered and not yet taken. */
  lemma MailboxIsFifo(o: Objects, run: seq<System>, n: nat)
    requires IsMailboxRun(o, run) && n < |run|
    ensures var s := run[n];
            && o.lock < |s.k.locks|
            && s.received <= s.deposited && |s.deposited| <= |s.received| + 1
            && (InHand(Phase(o, s)) != [] ==> s.deposited == s.received + InHand(Phase(o, s)))
            && (!s.k.locks[o.lock].locked ==> s.deposited == s.received + Buffered(s.box))
            && (s.box.bufferRead ==> s.box.receivePres > 0)
            && s.box.receivePres == |Receivers(s.calls)|
  {
    hide Inv, IsStep, CallOk;
    RunIsOk(o, run, n);
  }

  /** In every reachable state a full buffer has a receiver on its way to it, or the sender is about
      to signal: `Send`'s signal is never lost. */
  lemma FullBufferIsAttended(o: Objects, run: seq<System>, n: nat)
    requires IsMailboxRun(o, run) && n < |run|
    requires run[n].box.bufferRead && Phase(o, run[n]) != SignalReceiver
    ensures exists t :: Coming(o, run[n], t)
  {
    hide SystemOk, IsStep;
    RunIsOk(o, run, n);
  }

  /** `Receive` copies exactly what the last `Send` put there. */
  lemma CopyTakesOldest(o: Objects, run: seq<System>, n: nat)
    requires IsMailboxRun(o, run) && n < |run| && Phase(o, run[n]) == Copy
    ensures var s := run[n]; |s.received| < |s.deposited| && s.box.buffer == s.deposited[|s.received|]
  {
    hide Inv, IsStep, CallOk;
    RunIsOk(o, run, n);
  }
}
