/** Whole calls of `Send` and `Receive` that nothing interrupts: what they leave when they return, and
    when they sleep instead. */
module MailboxCalls {
  import opened Threads
  import opened Synchronization
  import opened Effects
  import opened Monitors
  import opened Mailbox
  import Places

  // ---------------------------------------------------------------- sleepers

  /** No thread fell asleep on a condition or was woken from one. */
  ghost predicate NoneMoved(k: Kernel, k': Kernel) {
    forall e: nat :: SameSleepers(k, k', e)
  }

  /** A signal wakes one of those who sleep on the condition, if any do, and nobody else. */
  ghost predicate Signalled(k: Kernel, k': Kernel, c: nat) {
    && (forall e: nat :: e != c ==> SameSleepers(k, k', e))
    && if forall u :: !Sleeps(k, u, c) then SameSleepers(k, k', c) else exists w :: OneWoken(k, k', w, c)
  }

  lemma QuietThenQuiet(a: Kernel, b: Kernel, c: Kernel)
    requires NoneMoved(a, b) && NoneMoved(b, c)
    ensures NoneMoved(a, c)
  {
    forall e: nat ensures SameSleepers(a, c, e) {
      assert SameSleepers(a, b, e) && SameSleepers(b, c, e);
    }
  }

  lemma QuietThenSignal(a: Kernel, b: Kernel, c: Kernel, d: nat)
    requires NoneMoved(a, b) && Signalled(b, c, d)
    ensures Signalled(a, c, d)
  {
    forall e: nat | e != d ensures SameSleepers(a, c, e) {
      assert SameSleepers(a, b, e) && SameSleepers(b, c, e);
    }
    assert SameSleepers(a, b, d);
    if u :| Sleeps(a, u, d) {
      assert Sleeps(b, u, d);
      var w :| OneWoken(b, c, w, d);
      assert OneWoken(a, c, w, d);
    } else {
      assert forall u :: !Sleeps(b, u, d);
    }
  }

  lemma SignalThenQuiet(a: Kernel, b: Kernel, c: Kernel, d: nat)
    requires Signalled(a, b, d) && NoneMoved(b, c)
    ensures Signalled(a, c, d)
  {
    forall e: nat | e != d ensures SameSleepers(a, c, e) {
      assert SameSleepers(a, b, e) && SameSleepers(b, c, e);
    }
    assert SameSleepers(b, c, d);
    if u :| Sleeps(a, u, d) {
      var w :| OneWoken(a, b, w, d);
      assert OneWoken(a, c, w, d);
    }
  }

  // ---------------------------------------------------------------- one statement

  /** The thread that has the processor, where it is in its call, and whether the lock is free. */
  ghost predicate Stands(o: Objects, s: System, t: Tid, c: Call) {
    && SystemOk(o, s) && HasCurrent(s.k) && Current(s.k) == t && CallOf(s, t) == c
    && (c == Outside || Entering(c) ==> !s.k.locks[o.lock].locked)
  }

  predicate Sleepy(c: Call, box: Box) {
    (c.SendTest? && (box.bufferRead || box.receivePres <= 0)) || (c.ReceiveTest? && !box.bufferRead)
  }

  /** Where a statement that does not wait leads. */
  lemma Goes(o: Objects, s: System, s': System, t: Tid, c: Call)
    requires Stands(o, s, t, c) && Runs(o, s, s') && !Sleepy(c, s.box)
    ensures Stands(o, s', t, CallAfter(c, s.box, false))
    ensures s'.box == BoxAfter(c, s.box)
    ensures s'.deposited == if c.Put? then s.deposited + [c.m] else s.deposited
    ensures s'.received == if c.ReceiveRelease? then s.received + [c.m] else s.received
    ensures if c == SignalReceiver then Signalled(s.k, s'.k, o.receiveWait)
            else if c == SignalSender then Signalled(s.k, s'.k, o.sendWait) else NoneMoved(s.k, s'.k)
  {
    hide Placed, Synced, BoxOk, CallOk, Step, Receivers, NoneMoved, Signalled;
    RunKeeps(o, s, s');
    HolderIsCritical(o, s, t);
    RunHasEffect(o, s, s'.k);
    RunIsEnabled(o, s);
    StaysOn(o, s, s', t, c);
  }

  lemma StaysOn(o: Objects, s: System, s': System, t: Tid, c: Call)
    requires Stands(o, s, t, c) && Runs(o, s, s') && !Sleepy(c, s.box) && Inv(s.k)
    requires forall op :: op in KernelOp(o, c, s.box) ==> Enabled(s.k, op)
    ensures HasCurrent(s'.k) && Current(s'.k) == t
    ensures if c == SignalReceiver then Signalled(s.k, s'.k, o.receiveWait)
            else if c == SignalSender then Signalled(s.k, s'.k, o.sendWait) else NoneMoved(s.k, s'.k)
  {
    hide Placed, Synced, SystemOk, Step;
    var ops := KernelOp(o, c, s.box);
    if |ops| == 1 {
      assert ops[0] in ops;
      Places.StepPlaces(s.k, ops[0]);
      forall d: nat ensures !Touches(ops[0], d) ==> SameSleepers(s.k, s'.k, d) {
        StepSleepers(s.k, ops[0], d);
      }
      StepSleepers(s.k, ops[0], o.receiveWait);
      StepSleepers(s.k, ops[0], o.sendWait);
    }
  }

  /** Waiting: the thread is asleep on its condition, will enter again, and has freed the lock. */
  lemma Waits(o: Objects, s: System, s': System, t: Tid, c: Call)
    requires Stands(o, s, t, c) && Runs(o, s, s') && Sleepy(c, s.box)
    ensures s' == s.(k := s'.k, calls := s.calls[t := if c.SendTest? then SendEnter(c.m) else ReceiveAgain])
    ensures SystemOk(o, s') && !s'.k.locks[o.lock].locked
    ensures Sleeps(s'.k, t, if c.SendTest? then o.sendWait else o.receiveWait)
    ensures SameSleepers(s.k, s'.k, if c.SendTest? then o.receiveWait else o.sendWait)
  {
    hide Placed, Synced, BoxOk, CallOk, Step, Receivers;
    RunKeeps(o, s, s');
    HolderIsCritical(o, s, t);
    RunHasEffect(o, s, s'.k);
    RunIsEnabled(o, s);
    var op := KernelOp(o, c, s.box)[0];
    assert op in KernelOp(o, c, s.box);
    StepSleepers(s.k, op, o.sendWait);
    StepSleepers(s.k, op, o.receiveWait);
  }

  // ---------------------------------------------------------------- whole calls

  /** Each system follows from the one before by a statement of the running thread. */
  ghost predicate Uninterrupted(o: Objects, run: seq<System>) {
    forall i, j :: 0 <= i && j == i + 1 && j < |run| && Inv(run[i].k) && o.lock < |run[i].k.locks| ==> Runs(o, run[i], run[j])
  }

  lemma Next(o: Objects, run: seq<System>, i: nat, t: Tid, c: Call)
    requires Uninterrupted(o, run) && i + 1 < |run| && Stands(o, run[i], t, c) && !Sleepy(c, run[i].box)
    ensures var s, s' := run[i], run[i + 1];
            && Stands(o, s', t, CallAfter(c, s.box, false))
            && s'.box == BoxAfter(c, s.box)
            && s'.deposited == (if c.Put? then s.deposited + [c.m] else s.deposited)
            && s'.received == (if c.ReceiveRelease? then s.received + [c.m] else s.received)
            && if c == SignalReceiver then Signalled(s.k, s'.k, o.receiveWait)
               else if c == SignalSender then Signalled(s.k, s'.k, o.sendWait) else NoneMoved(s.k, s'.k)
  {
    hide Inv, Runs, BoxOk, CallOk, NoneMoved, Signalled;
    var j := i + 1;
    assert Runs(o, run[i], run[j]);
    Goes(o, run[i], run[j], t, c);
  }

  /** `Send(m)` with the buffer empty and a receiver present returns after six statements: it has put
      exactly `m` in the buffer, flagged it, woken one receiver if any sleep, and freed the lock. */
  lemma SendDelivers(o: Objects, run: seq<System>, t: Tid, m: int)
    requires |run| == 7 && Uninterrupted(o, run) && Stands(o, run[0], t, SendEnter(m))
    requires !run[0].box.bufferRead && run[0].box.receivePres > 0
    ensures Stands(o, run[6], t, Outside)
    ensures run[6].box == Box(m, true, run[0].box.receivePres)
    ensures run[6].deposited == run[0].deposited + [m] && run[6].received == run[0].received
    ensures Signalled(run[0].k, run[6].k, o.receiveWait)
  {
    hide Stands, Uninterrupted, NoneMoved, Signalled;
    Next(o, run, 0, t, SendEnter(m));
    Next(o, run, 1, t, SendTest(m));
    Next(o, run, 2, t, Put(m));
    Next(o, run, 3, t, Flag(m));
    Next(o, run, 4, t, SignalReceiver);
    Next(o, run, 5, t, SendRelease);
    SignalThenQuiet(run[4].k, run[5].k, run[6].k, o.receiveWait);
    QuietThenSignal(run[3].k, run[4].k, run[6].k, o.receiveWait);
    QuietThenSignal(run[2].k, run[3].k, run[6].k, o.receiveWait);
    QuietThenSignal(run[1].k, run[2].k, run[6].k, o.receiveWait);
    QuietThenSignal(run[0].k, run[1].k, run[6].k, o.receiveWait);
  }

  lemma NextWaits(o: Objects, run: seq<System>, i: nat, t: Tid, c: Call)
    requires Uninterrupted(o, run) && i + 1 < |run| && Stands(o, run[i], t, c) && Sleepy(c, run[i].box)
    ensures var s, s' := run[i], run[i + 1];
            && SystemOk(o, s') && !s'.k.locks[o.lock].locked
            && s'.box == s.box && s'.deposited == s.deposited && s'.received == s.received
            && CallOf(s', t) == (if c.SendTest? then SendEnter(c.m) else ReceiveAgain)
            && Sleeps(s'.k, t, if c.SendTest? then o.sendWait else o.receiveWait)
            && SameSleepers(s.k, s'.k, if c.SendTest? then o.receiveWait else o.sendWait)
  {
    hide Inv, Runs, BoxOk, CallOk, SameSleepers, Sleeps;
    var j := i + 1;
    assert Runs(o, run[i], run[j]);
    Waits(o, run[i], run[j], t, c);
  }

  /** Otherwise it sleeps, with nothing changed and the lock free. */
  lemma SendSleeps(o: Objects, run: seq<System>, t: Tid, m: int)
    requires |run| == 3 && Uninterrupted(o, run) && Stands(o, run[0], t, SendEnter(m))
    requires run[0].box.bufferRead || run[0].box.receivePres <= 0
    ensures SystemOk(o, run[2]) && CallOf(run[2], t) == SendEnter(m) && Sleeps(run[2].k, t, o.sendWait) && !run[2].k.locks[o.lock].locked
    ensures run[2].box == run[0].box && run[2].deposited == run[0].deposited && run[2].received == run[0].received
  {
    hide Stands, Uninterrupted, NoneMoved, Signalled, SystemOk, Sleeps, SameSleepers;
    Next(o, run, 0, t, SendEnter(m));
    NextWaits(o, run, 1, t, SendTest(m));
  }

  /** The first three statements of `Receive`. */
  lemma ReceiverEnters(o: Objects, run: seq<System>, t: Tid)
    requires |run| > 3 && Uninterrupted(o, run) && Stands(o, run[0], t, ReceiveEnter)
    ensures Stands(o, run[3], t, ReceiveTest)
    ensures run[3].box == run[0].box.(receivePres := run[0].box.receivePres + 1)
    ensures run[3].deposited == run[0].deposited && run[3].received == run[0].received
    ensures Signalled(run[0].k, run[3].k, o.sendWait)
  {
    hide Stands, Uninterrupted, NoneMoved, Signalled;
    Next(o, run, 0, t, ReceiveEnter);
    Next(o, run, 1, t, Count);
    Next(o, run, 2, t, SignalSender);
    QuietThenSignal(run[1].k, run[2].k, run[3].k, o.sendWait);
    QuietThenSignal(run[0].k, run[1].k, run[3].k, o.sendWait);
  }

  /** Its last six, once there is a message. */
  lemma ReceiverTakes(o: Objects, run: seq<System>, i: nat, t: Tid)
    requires |run| == i + 7 && Uninterrupted(o, run) && Stands(o, run[i], t, ReceiveTest) && run[i].box.bufferRead
    ensures Stands(o, run[i + 6], t, Outside)
    ensures run[i + 6].box == Box(0, false, run[i].box.receivePres - 1)
    ensures run[i + 6].received == run[i].received + [run[i].box.buffer] && run[i + 6].deposited == run[i].deposited
    ensures NoneMoved(run[i].k, run[i + 6].k)
  {
    hide Stands, Uninterrupted, NoneMoved, Signalled;
    var m := run[i].box.buffer;
    Next(o, run, i, t, ReceiveTest);
    Next(o, run, i + 1, t, Copy);
    Next(o, run, i + 2, t, Clear(m));
    Next(o, run, i + 3, t, Unflag(m));
    Next(o, run, i + 4, t, Uncount(m));
    Next(o, run, i + 5, t, ReceiveRelease(m));
    QuietThenQuiet(run[i].k, run[i + 1].k, run[i + 2].k);
    QuietThenQuiet(run[i].k, run[i + 2].k, run[i + 3].k);
    QuietThenQuiet(run[i].k, run[i + 3].k, run[i + 4].k);
    QuietThenQuiet(run[i].k, run[i + 4].k, run[i + 5].k);
    QuietThenQuiet(run[i].k, run[i + 5].k, run[i + 6].k);
  }

  /** `Receive` that finds the buffer full returns after nine statements: it has returned what was in the
      buffer and emptied it, woken one sender if any sleep, and freed the lock. */
  lemma ReceiveTakes(o: Objects, run: seq<System>, t: Tid)
    requires |run| == 10 && Uninterrupted(o, run) && Stands(o, run[0], t, ReceiveEnter) && run[0].box.bufferRead
    ensures Stands(o, run[9], t, Outside)
    ensures run[9].box == Box(0, false, run[0].box.receivePres)
    ensures run[9].received == run[0].received + [run[0].box.buffer] && run[9].deposited == run[0].deposited
    ensures Signalled(run[0].k, run[9].k, o.sendWait)
  {
    hide Stands, Uninterrupted, NoneMoved, Signalled;
    ReceiverEnters(o, run, t);
    ReceiverTakes(o, run, 3, t);
    SignalThenQuiet(run[0].k, run[3].k, run[9].k, o.sendWait);
  }

  /** Otherwise it has counted itself and woken one sender if any sleep, and sleeps with the lock free. */
  lemma ReceiveSleeps(o: Objects, run: seq<System>, t: Tid)
    requires |run| == 5 && Uninterrupted(o, run) && Stands(o, run[0], t, ReceiveEnter) && !run[0].box.bufferRead
    ensures SystemOk(o, run[4]) && CallOf(run[4], t) == ReceiveAgain && Sleeps(run[4].k, t, o.receiveWait) && !run[4].k.locks[o.lock].locked
    ensures run[4].box == run[0].box.(receivePres := run[0].box.receivePres + 1)
    ensures run[4].deposited == run[0].deposited && run[4].received == run[0].received
    ensures Signalled(run[0].k, run[3].k, o.sendWait) && SameSleepers(run[3].k, run[4].k, o.sendWait)
  {
    hide Stands, Uninterrupted, NoneMoved, Signalled, SystemOk, Sleeps, SameSleepers;
    ReceiverEnters(o, run, t);
    NextWaits(o, run, 3, t, ReceiveTest);
  }

  /** A woken receiver that finds the buffer full takes the message in seven statements. */
  lemma WokenReceiverTakes(o: Objects, run: seq<System>, t: Tid)
    requires |run| == 8 && Uninterrupted(o, run) && Stands(o, run[0], t, ReceiveAgain) && run[0].box.bufferRead
    ensures Stands(o, run[7], t, Outside)
    ensures run[7].box == Box(0, false, run[0].box.receivePres - 1)
    ensures run[7].received == run[0].received + [run[0].box.buffer] && run[7].deposited == run[0].deposited
  {
    hide Stands, Uninterrupted, NoneMoved, Signalled;
    Next(o, run, 0, t, ReceiveAgain);
    ReceiverTakes(o, run, 1, t);
  }

  /** However the calls interleave, the message of a `Send` stays the one it was called with. */
  lemma MessageKept(o: Objects, s: System, s': System, t: Tid)
    requires SystemOk(o, s) && Runs(o, s, s')
    ensures var c, c' := CallOf(s, t), CallOf(s', t);
            (c'.SendEnter? || c'.SendTest? || c'.Put? || c'.Flag?) ==>
              (c.SendEnter? || c.SendTest? || c.Put? || c.Flag?) && c'.m == c.m
  {
    hide SystemOk, KernelTakes;
  }
}
