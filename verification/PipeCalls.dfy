/** Whole calls of a pipe's `Read` and `Write` that nothing interrupts: what they return and leave, and
    when they sleep instead. */
module PipeCalls {
  import opened Threads
  import opened Synchronization
  import opened Effects
  import opened Monitors
  import opened PipeProtocol
  import Pipe
  import Places

  /** The thread that has the processor, where it is in its call, and whether the lock is free. */
  ghost predicate Stands(o: Objects, s: System, t: Tid, c: Call) {
    && SystemOk(o, s) && HasCurrent(s.k) && Current(s.k) == t && CallOf(s, t) == c
    && (c == Outside || Entering(c) ==> !s.k.locks[o.lock].locked)
  }

  ghost predicate Sleepy(c: Call, p: Pipe.System)
    requires Pipe.Valid(p.ring)
  {
    IsPass(c) && PassOf(c, p).1.Waits?
  }

  /** Each system follows from the one before by a statement of the running thread. */
  ghost predicate Uninterrupted(o: Objects, run: seq<System>) {
    forall i, j :: 0 <= i && j == i + 1 && j < |run| && Inv(run[i].k) && o.lock < |run[i].k.locks| && Pipe.Valid(run[i].pipe.ring) ==>
      Runs(o, run[i], run[j])
  }

  ghost predicate NobodySleeps(k: Kernel, c: nat) {
    forall u: Tid :: !Sleeps(k, u, c)
  }

  lemma Goes(o: Objects, s: System, s': System, t: Tid, c: Call)
    requires Stands(o, s, t, c) && Runs(o, s, s') && !Sleepy(c, s.pipe)
    ensures Stands(o, s', t, CallAfter(c, s.pipe, false)) && s'.pipe == PassOf(c, s.pipe).0
    ensures c.Announce? ==> NobodySleeps(s'.k, o.cond)
  {
    hide Placed, Synced, CallOk, Step, HasReason, Sleeps, PassOf, Pipe.Valid, Pipe.Contents, NobodySleeps;
    RunKeeps(o, s, s');
    HolderIsCritical(o, s, t);
    RunHasEffect(o, s, s'.k);
    RunIsEnabled(o, s);
    StaysOn(o, s, s', t, c);
  }

  lemma StaysOn(o: Objects, s: System, s': System, t: Tid, c: Call)
    requires Stands(o, s, t, c) && Runs(o, s, s') && Inv(s.k) && Pipe.Valid(s.pipe.ring) && !Sleepy(c, s.pipe)
    requires forall op :: op in KernelOp(o, c, s.pipe) ==> Enabled(s.k, op)
    ensures HasCurrent(s'.k) && Current(s'.k) == t
    ensures c.Announce? ==> NobodySleeps(s'.k, o.cond)
  {
    hide Placed, Synced, SystemOk, Step, PassOf, Pipe.Valid;
    var ops := KernelOp(o, c, s.pipe);
    if |ops| == 1 {
      assert ops[0] in ops;
      Places.StepPlaces(s.k, ops[0]);
      StepSleepers(s.k, ops[0], o.cond);
    }
  }

  lemma Waits(o: Objects, s: System, s': System, t: Tid, c: Call)
    requires Stands(o, s, t, c) && Runs(o, s, s') && Sleepy(c, s.pipe)
    ensures SystemOk(o, s') && !s'.k.locks[o.lock].locked && Sleeps(s'.k, t, o.cond)
    ensures CallOf(s', t) == (if c.ReadPass? then ReadEnter else WriteEnter(c.ch)) && s'.pipe == PassOf(c, s.pipe).0
  {
    hide Placed, Synced, CallOk, Step, HasReason, PassOf, Pipe.Valid, Pipe.Contents;
    RunKeeps(o, s, s');
    HolderIsCritical(o, s, t);
    RunHasEffect(o, s, s'.k);
    RunIsEnabled(o, s);
    var op := KernelOp(o, c, s.pipe)[0];
    assert op in KernelOp(o, c, s.pipe);
    StepSleepers(s.k, op, o.cond);
  }

  lemma Next(o: Objects, run: seq<System>, i: nat, t: Tid, c: Call)
    requires Uninterrupted(o, run) && i + 1 < |run| && Stands(o, run[i], t, c) && !Sleepy(c, run[i].pipe)
    ensures Stands(o, run[i + 1], t, CallAfter(c, run[i].pipe, false)) && run[i + 1].pipe == PassOf(c, run[i].pipe).0
    ensures c.Announce? ==> NobodySleeps(run[i + 1].k, o.cond)
  {
    hide Inv, Runs, CallOk, HasReason, Pipe.Contents, NobodySleeps;
    var j := i + 1;
    assert Runs(o, run[i], run[j]);
    Goes(o, run[i], run[j], t, c);
  }

  lemma NextWaits(o: Objects, run: seq<System>, i: nat, t: Tid, c: Call)
    requires Uninterrupted(o, run) && i + 1 < |run| && Stands(o, run[i], t, c) && Sleepy(c, run[i].pipe)
    ensures var s' := run[i + 1];
            && SystemOk(o, s') && !s'.k.locks[o.lock].locked && Sleeps(s'.k, t, o.cond)
            && CallOf(s', t) == (if c.ReadPass? then ReadEnter else WriteEnter(c.ch)) && s'.pipe == PassOf(c, run[i].pipe).0
  {
    hide Inv, Runs, CallOk, HasReason, Pipe.Contents, Sleeps;
    var j := i + 1;
    assert Runs(o, run[i], run[j]);
    Waits(o, run[i], run[j], t, c);
  }

  // ---------------------------------------------------------------- Read

  /** A `Read` of a pipe that is not empty returns the oldest character after four statements, and all
      sleepers are awake. */
  lemma ReadReturnsOldest(o: Objects, run: seq<System>, t: Tid)
    requires |run| == 5 && Uninterrupted(o, run) && Stands(o, run[0], t, ReadEnter)
    requires Pipe.Valid(run[0].pipe.ring) && Pipe.Contents(run[0].pipe.ring) != []
    ensures var was := Pipe.Contents(run[0].pipe.ring);
            && Stands(o, run[3], t, Leave(was[0])) && Stands(o, run[4], t, Outside)
            && Pipe.Valid(run[4].pipe.ring) && Pipe.Contents(run[4].pipe.ring) == was[1..]
            && run[4].pipe.returned == run[0].pipe.returned + [was[0]] && run[4].pipe.accepted == run[0].pipe.accepted
            && NobodySleeps(run[3].k, o.cond)
  {
    hide Stands, Uninterrupted, NobodySleeps, Pipe.Valid, Pipe.Contents, Pipe.ReadPass;
    var was := Pipe.Contents(run[0].pipe.ring);
    Pipe.ContentsLength(run[0].pipe.ring);
    Pipe.ReadTakesOldest(run[0].pipe.ring);
    Next(o, run, 0, t, ReadEnter);
    Next(o, run, 1, t, ReadPass);
    Next(o, run, 2, t, Announce(was[0]));
    Next(o, run, 3, t, Leave(was[0]));
  }

  /** Of an empty pipe whose writing end is closed it returns end of stream and changes nothing. */
  lemma ReadEndsStream(o: Objects, run: seq<System>, t: Tid)
    requires |run| == 4 && Uninterrupted(o, run) && Stands(o, run[0], t, ReadEnter)
    requires Pipe.Valid(run[0].pipe.ring) && Pipe.Contents(run[0].pipe.ring) == [] && run[0].pipe.ring.outOpen == 0
    ensures Stands(o, run[2], t, Leave(1000000)) && Stands(o, run[3], t, Outside) && run[3].pipe == run[0].pipe
  {
    hide Stands, Uninterrupted, NobodySleeps, Pipe.Valid, Pipe.Contents, Pipe.ReadPass;
    Pipe.ContentsLength(run[0].pipe.ring);
    Pipe.ReadTakesOldest(run[0].pipe.ring);
    Next(o, run, 0, t, ReadEnter);
    Next(o, run, 1, t, ReadPass);
    Next(o, run, 2, t, Leave(1000000));
  }

  /** Of an empty pipe whose writing end is open it sleeps, with nothing changed and the lock free. */
  lemma ReadSleeps(o: Objects, run: seq<System>, t: Tid)
    requires |run| == 3 && Uninterrupted(o, run) && Stands(o, run[0], t, ReadEnter)
    requires Pipe.Valid(run[0].pipe.ring) && Pipe.Contents(run[0].pipe.ring) == [] && run[0].pipe.ring.outOpen != 0
    ensures SystemOk(o, run[2]) && !run[2].k.locks[o.lock].locked && Sleeps(run[2].k, t, o.cond)
    ensures CallOf(run[2], t) == ReadEnter && run[2].pipe == run[0].pipe
  {
    hide Stands, Uninterrupted, NobodySleeps, Pipe.Valid, Pipe.Contents, Pipe.ReadPass, Sleeps, SystemOk;
    Pipe.ContentsLength(run[0].pipe.ring);
    Pipe.ReadTakesOldest(run[0].pipe.ring);
    Next(o, run, 0, t, ReadEnter);
    NextWaits(o, run, 1, t, ReadPass);
  }

  // ---------------------------------------------------------------- Write

  /** A `Write` to a pipe that is not full returns 1 after four statements, with the character behind the
      others, and all sleepers are awake. */
  lemma WriteAccepts(o: Objects, run: seq<System>, t: Tid, ch: int)
    requires |run| == 5 && Uninterrupted(o, run) && Stands(o, run[0], t, WriteEnter(ch))
    requires Pipe.Valid(run[0].pipe.ring) && |Pipe.Contents(run[0].pipe.ring)| < |run[0].pipe.ring.cells|
    ensures Stands(o, run[3], t, Leave(1)) && Stands(o, run[4], t, Outside)
    ensures Pipe.Valid(run[4].pipe.ring) && Pipe.Contents(run[4].pipe.ring) == Pipe.Contents(run[0].pipe.ring) + [ch]
    ensures run[4].pipe.accepted == run[0].pipe.accepted + [ch] && run[4].pipe.returned == run[0].pipe.returned
    ensures NobodySleeps(run[3].k, o.cond)
  {
    hide Stands, Uninterrupted, NobodySleeps, Pipe.Valid, Pipe.Contents, Pipe.WritePass;
    Pipe.ContentsLength(run[0].pipe.ring);
    Pipe.WriteAddsNewest(run[0].pipe.ring, ch);
    Next(o, run, 0, t, WriteEnter(ch));
    Next(o, run, 1, t, WritePass(ch));
    Next(o, run, 2, t, Announce(1));
    Next(o, run, 3, t, Leave(1));
  }

  /** To a full pipe whose reading end is closed it returns 0 and changes nothing. */
  lemma WriteRefuses(o: Objects, run: seq<System>, t: Tid, ch: int)
    requires |run| == 4 && Uninterrupted(o, run) && Stands(o, run[0], t, WriteEnter(ch))
    requires Pipe.Valid(run[0].pipe.ring) && |Pipe.Contents(run[0].pipe.ring)| == |run[0].pipe.ring.cells| && run[0].pipe.ring.inOpen == 0
    ensures Stands(o, run[2], t, Leave(0)) && Stands(o, run[3], t, Outside) && run[3].pipe == run[0].pipe
  {
    hide Stands, Uninterrupted, NobodySleeps, Pipe.Valid, Pipe.Contents, Pipe.WritePass;
    Pipe.ContentsLength(run[0].pipe.ring);
    Pipe.WriteAddsNewest(run[0].pipe.ring, ch);
    Next(o, run, 0, t, WriteEnter(ch));
    Next(o, run, 1, t, WritePass(ch));
    Next(o, run, 2, t, Leave(0));
  }

  /** To a full pipe whose reading end is open it sleeps, with nothing changed and the lock free. */
  lemma WriteSleeps(o: Objects, run: seq<System>, t: Tid, ch: int)
    requires |run| == 3 && Uninterrupted(o, run) && Stands(o, run[0], t, WriteEnter(ch))
    requires Pipe.Valid(run[0].pipe.ring) && |Pipe.Contents(run[0].pipe.ring)| == |run[0].pipe.ring.cells| && run[0].pipe.ring.inOpen != 0
    ensures SystemOk(o, run[2]) && !run[2].k.locks[o.lock].locked && Sleeps(run[2].k, t, o.cond)
    ensures CallOf(run[2], t) == WriteEnter(ch) && run[2].pipe == run[0].pipe
  {
    hide Stands, Uninterrupted, NobodySleeps, Pipe.Valid, Pipe.Contents, Pipe.WritePass, Sleeps, SystemOk;
    Pipe.ContentsLength(run[0].pipe.ring);
    Pipe.WriteAddsNewest(run[0].pipe.ring, ch);
    Next(o, run, 0, t, WriteEnter(ch));
    NextWaits(o, run, 1, t, WritePass(ch));
  }

  /** However the calls interleave, the character of a `Write` stays the one it was called with, and the
      result of a call the one its pass gave. */
  lemma ArgumentKept(o: Objects, s: System, s': System, t: Tid)
    requires SystemOk(o, s) && Runs(o, s, s')
    ensures var c, c' := CallOf(s, t), CallOf(s', t);
            && (c'.WriteEnter? || c'.WritePass? ==> (c.WriteEnter? || c.WritePass?) && c'.ch == c.ch)
            && (c'.Leave? && c.Announce? ==> c'.result == c.result)
            && (c'.ReadEnter? || c'.ReadPass? ==> c.ReadEnter? || c.ReadPass?)
  {
    hide SystemOk, KernelTakes, PassOf, Pipe.Valid;
  }
}
