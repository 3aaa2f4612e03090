/** An interrupt between two instructions delivers the pending load before the kernel does anything
    else.  It can be noticed exactly where a fault can, and a run in which it is. */
module Preemption {
  import opened Basics
  import opened Bytes
  import opened PagedMemory
  import opened PagingInvariant
  import opened PagingRefinement
  import opened Cpu
  import opened Restart
  import opened Progress
  import opened Execution
  import Visibility
  import Computations

  // ---------------------------------------------------------------- interrupts and faults

  /** Executing `i` at once and after an interrupt end the same. */
  ghost predicate Survives(i: Instr, m: seq<Byte>, regs: Registers)
    requires RegsOk(regs)
  {
    var r, r' := Visibility.Execute(i, m, regs), Visibility.Execute(i, m, DelayedLoad(regs, 0, 0));
    r.0 == r'.0 && Similar(r.1, r'.1) && r.2 == r'.2
  }

  lemma ExecuteSimilar(i: Instr, m: seq<Byte>, a: Registers, b: Registers)
    requires RegsOk(a) && RegsOk(b) && Similar(a, b)
    ensures var r, r' := Visibility.Execute(i, m, a), Visibility.Execute(i, m, b);
            r.0 == r'.0 && Similar(r.1, r'.1) && r.2 == r'.2
  {
    hide ExecuteRegisters, FlatData, Similar;
    if i.Alu? || i.MulDiv? || i.Raise? {
      ComputeSimilar(i, a, b);
    } else if RegisterOnly(i) {
      JumpSimilar(i, a, b);
    } else {
      DataSimilar(i, m, a, b);
    }
  }

  lemma SurvivesIff(i: Instr, m: seq<Byte>, regs: Registers, a: int)
    requires RegsOk(regs)
    ensures Survives(i, m, regs) <==> Visibility.Agrees(i, m, regs, a)
  {
    hide Visibility.Execute, RaiseException, Similar;
    DeliveryIsRaise(regs);
    RaiseTwice(regs, a, regs[BAD_VADDR]);
    RaiseTwice(regs, regs[BAD_VADDR], a);
    var d, e := DelayedLoad(regs, 0, 0), RaiseException(regs, a);
    ExecuteSimilar(i, m, d, e);
    ExecuteSimilar(i, m, e, d);
    var r, rd, re := Visibility.Execute(i, m, regs), Visibility.Execute(i, m, d), Visibility.Execute(i, m, e);
    if Similar(r.1, rd.1) { SimilarChain(r.1, rd.1, re.1); }
    if Similar(r.1, re.1) { SimilarChain(r.1, re.1, rd.1); }
  }

  /** An instruction can notice an interrupt before it if and only if it can notice a restart, so the
      exact conditions for restarts are those for preemption. */
  lemma InterruptTransparentIff(i: Instr, target: Reg)
    ensures (forall m: seq<Byte>, regs: Registers :: Visibility.IsSpace(m) && Visibility.Waiting(regs, target) ==> Survives(i, m, regs))
            <==> Visibility.Transparent(i, target)
  {
    hide Survives, Visibility.Agrees;
    forall m: seq<Byte>, regs: Registers, a: int | Visibility.Waiting(regs, target)
      ensures Survives(i, m, regs) <==> Visibility.Agrees(i, m, regs, a)
    {
      SurvivesIff(i, m, regs, a);
    }
    if Visibility.Transparent(i, target) {
      forall m: seq<Byte>, regs: Registers | Visibility.IsSpace(m) && Visibility.Waiting(regs, target) ensures Survives(i, m, regs) {
        assert Visibility.Agrees(i, m, regs, 0);
      }
    }
  }

  // ---------------------------------------------------------------- a run in which it shows

  const LOAD_WORD := 0x8c01_0008  // LW r1, 8(r0)
  const ADD_WORD := 0x0021_1020   // ADD r2, r1, r1

  /** Two instructions and the number five. */
  function Program(): Executable {
    Executable(ToBytes(4, LOAD_WORD) + ToBytes(4, ADD_WORD) + ToBytes(4, 5), Segment(12, 0, 0), Segment(0, 0, 0), 0)
  }

  function Decode(word: int): Instr {
    if word == LOAD_WORD - 0x1_0000_0000 then Load(4, 0, 1, 8, x => x) else Computations.Encode(Computations.ADD, 1, 1, 2)
  }

  /** The registers a program starts with. */
  function Initial(): (regs: Registers)
    ensures RegsOk(regs)
  {
    seq(NUM_TOTAL_REGS, j => if j == NEXT_PC then 4 else 0)
  }

  lemma ProgramBytes()
    ensures var m, file := Image(Program()), Program().file;
            |m| == 1664 && |file| == 12 && forall a :: 0 <= a < 12 ==> m[a] == file[a]
  {
    hide ToBytes;
  }

  lemma WordAt(m: seq<Byte>, a: nat, word: int)
    requires a + 4 <= |m| < 0x8000_0000 && a % 4 == 0 && m[a..a + 4] == ToBytes(4, word)
    ensures Permitted(m, a, 4) && FlatRead(m, a, 4) == Signed(word % 0x1_0000_0000, 0x1_0000_0000)
  {
    hide ToBytes, Word;
    WordOfBytes(word);
  }

  lemma ProgramWords()
    ensures var m := Image(Program());
            && |m| == 1664
            && Permitted(m, 0, 4) && Permitted(m, 4, 4) && Permitted(m, 8, 4)
            && FlatRead(m, 0, 4) == LOAD_WORD - 0x1_0000_0000 && FlatRead(m, 4, 4) == ADD_WORD && FlatRead(m, 8, 4) == 5
  {
    hide Image, FlatRead, Permitted, ToBytes;
    var m := Image(Program());
    ProgramBytes();
    assert m[0..4] == ToBytes(4, LOAD_WORD) && m[4..8] == ToBytes(4, ADD_WORD) && m[8..12] == ToBytes(4, 5);
    WordAt(m, 0, LOAD_WORD);
    WordAt(m, 4, ADD_WORD);
    WordAt(m, 8, 5);
  }

  /** The registers once the load has been executed and is pending. */
  function AfterLoad(): (regs: Registers)
    ensures RegsOk(regs)
  {
    Finish(Initial(), 1, 5, 8)
  }

  /** On the private processor the sum uses the old register; after an interrupt, the loaded one. */
  lemma FlatSteps()
    ensures var m := Image(Program());
            && FlatInstruction(Decode, m, Initial()) == (m, AfterLoad(), Completed)
            && FlatInstruction(Decode, m, AfterLoad()).1[2] == 0
            && FlatInstruction(Decode, m, DelayedLoad(AfterLoad(), 0, 0)).1[2] == 10
            && Needed(Decode, m, Initial()) == {0} && Needed(Decode, m, DelayedLoad(AfterLoad(), 0, 0)) == {0}
  {
    hide FlatRead, Image;
    ProgramWords();
    Visibility.WrapFits(8);
    Visibility.WrapFits(12);
    Visibility.WrapFits(10);
    Visibility.WrapFits(0);
    assert DataAddress(Decode(LOAD_WORD - 0x1_0000_0000), Initial()) == 8;
  }

  lemma NothingDelivered()
    ensures RaiseException(Initial(), 0) == Initial()
  {
  }

  function Events(swap: seq<Byte>): seq<Event> { [Start(Program(), swap, Initial()), Attempt(0), Attempt(0)] }

  lemma Started0(swap: seq<Byte>)
    requires |swap| == 1664
    ensures PagesNeeded(Program()) == 13
    ensures var p, e := Paged(Boot(Fifo, 1), []), Start(Program(), swap, Initial());
            && Possible(p, e) && Matches(Private([], []), e)
            && var p' := Advance(Decode, p, e).0;
               Started(p'.k, [Image(Program())], 0, Initial()) && p'.k.frames == 1 && p'.regs == [Initial()] && !Resident(p'.k, 0, 0)
  {
    BootIsCorrect(Fifo, 1);
    ExecStep(Boot(Fifo, 1), [], Program(), swap);
  }

  lemma NeededSimilar(m: seq<Byte>, a: Registers, b: Registers)
    requires RegsOk(a) && RegsOk(b) && Similar(a, b)
    ensures CodePage(a) == CodePage(b) && Needed(Decode, m, a) == Needed(Decode, m, b)
  {
    hide FlatRead, Permitted, Wrap32;
  }

  /** An attempt with its one page in memory does not fault and is that of the private processor. */
  lemma Hits(decode: Decoder, k: Kernel, f: Flat, regs: Registers)
    requires Started(k, f, 0, regs) && k.frames == 1 && Needed(decode, f[0], regs) == {0} && CodePage(regs) == 0 && Resident(k, 0, 0)
    ensures var (k', regs', o) := OneInstruction(decode, k, 0, regs);
            && (regs', o) == (FlatInstruction(decode, f[0], regs).1, FlatInstruction(decode, f[0], regs).2) && o != PageFault
            && Started(k', f[0 := FlatInstruction(decode, f[0], regs).0], 0, regs') && k'.frames == 1 && Resident(k', 0, 0)
  {
    hide OneInstruction, FlatInstruction, Needed, Resident, Refines, CoreMatchesTables, UsedMatchesCore, CleanPagesBacked, FramesDistinct;
    FirstAttemptIff(decode, k, f, 0, regs);
    HitsKeepPages(decode, k, f, 0, regs);
    InstructionRefines(decode, k, f, 0, regs);
    FramesKept(decode, k, f, 0, regs);
  }

  /** The first attempt faults on page 0, and the registers are as they were. */
  lemma FirstFaults(decode: Decoder, k: Kernel, f: Flat)
    requires Started(k, f, 0, Initial()) && Needed(decode, f[0], Initial()) == {0} && k.frames == 1 && !Resident(k, 0, 0)
    ensures var (k', regs, o) := OneInstruction(decode, k, 0, Initial());
            && o == PageFault && Similar(Initial(), regs) && Started(k', f, 0, regs) && k'.frames == 1 && Resident(k', 0, 0)
  {
    hide OneInstruction, FlatInstruction, Resident, Needed, Refines, CoreMatchesTables, UsedMatchesCore, CleanPagesBacked, FramesDistinct, RaiseException;
    StartedCanRun(k, f, 0, Initial());
    FirstAttemptIff(decode, k, f, 0, Initial());
    FirstFault(decode, k, f, 0, Initial());
    InstructionRefines(decode, k, f, 0, Initial());
    var a :| OneInstruction(decode, k, 0, Initial()).1 == RaiseException(Initial(), a);
    NothingDelivered();
    RaiseTwice(Initial(), 0, a);
  }

  /** The machine alone: fault, load, interrupt, sum. */
  lemma KernelRun(k0: Kernel) returns (k1: Kernel, k2: Kernel, k3: Kernel, regs1: Registers, regs2: Registers, regs3: Registers)
    requires var f := [Image(Program())]; Started(k0, f, 0, Initial()) && k0.frames == 1 && !Resident(k0, 0, 0)
    ensures Shape(k0) && |k0.spaces| > 0 && OneInstruction(Decode, k0, 0, Initial()) == (k1, regs1, PageFault)
    ensures Shape(k1) && |k1.spaces| > 0 && RegsOk(regs1) && OneInstruction(Decode, k1, 0, regs1) == (k2, regs2, Completed)
    ensures Shape(k2) && |k2.spaces| > 0 && RegsOk(regs2) && OneInstruction(Decode, k2, 0, DelayedLoad(regs2, 0, 0)) == (k3, regs3, Completed)
    ensures |regs3| == NUM_TOTAL_REGS && regs3[2] == 10
    ensures |k0.spaces| == |k1.spaces| == |k2.spaces| == 1
  {
    hide OneInstruction, FlatInstruction, Resident, Needed, Refines, Inv, Image, RaiseException;
    var f, m := [Image(Program())], Image(Program());
    FlatSteps();
    StartedCanRun(k0, f, 0, Initial());
    FirstFaults(Decode, k0, f);
    var r1 := OneInstruction(Decode, k0, 0, Initial());
    k1, regs1 := r1.0, r1.1;
    StartedCanRun(k1, f, 0, regs1);
    NeededSimilar(m, Initial(), regs1);
    FlatSimilar(Decode, m, Initial(), regs1);
    Hits(Decode, k1, f, regs1);
    var r2 := OneInstruction(Decode, k1, 0, regs1);
    k2, regs2 := r2.0, r2.1;
    assert f[0 := m] == f;
    DeliveredSimilar(regs2);
    var d := DelayedLoad(regs2, 0, 0);
    StartedCanRun(k2, f, 0, regs2);
    NeededSimilar(m, DelayedLoad(AfterLoad(), 0, 0), d);
    FlatSimilar(Decode, m, DelayedLoad(AfterLoad(), 0, 0), d);
    Hits(Decode, k2, f, d);
    var r3 := OneInstruction(Decode, k2, 0, d);
    k3, regs3 := r3.0, r3.1;
    SumCompletes(m);
    SpacesOf(k0, f, Initial());
    SpacesOf(k1, f, regs1);
    SpacesOf(k2, f, regs2);
  }

  lemma SpacesOf(k: Kernel, f: Flat, regs: Registers)
    requires Started(k, f, 0, regs)
    ensures |k.spaces| == |f|
  {
  }

  lemma SumCompletes(m: seq<Byte>)
    requires m == Image(Program())
    ensures FlatInstruction(Decode, m, DelayedLoad(AfterLoad(), 0, 0)).2 == Completed && FlatInstruction(Decode, m, AfterLoad()).2 == Completed
    ensures FlatInstruction(Decode, m, AfterLoad()).0 == m
  {
    hide FlatRead, Image;
    ProgramWords();
    Visibility.WrapFits(8);
  }

  lemma DeliveredSimilar(regs: Registers)
    requires RegsOk(regs) && Similar(AfterLoad(), regs)
    ensures Similar(DelayedLoad(AfterLoad(), 0, 0), DelayedLoad(regs, 0, 0))
  {
    DeliveryIsRaise(regs);
    DeliveryIsRaise(AfterLoad());
    RaiseSimilar(AfterLoad(), regs, AfterLoad()[BAD_VADDR], regs[BAD_VADDR]);
  }

  /** An execution from boot in which a program faults, executes a load, is interrupted and executes a
      sum of the loaded register.  Up to the interrupt it is as the theorem of module `Execution`
      says; the sum then differs from the private processor's. */
  lemma InterruptIsVisible(swap: seq<Byte>) returns (ps: seq<Paged>, ms: seq<Private>)
    requires |swap| == 1664
    ensures |ps| == |ms| == 6 && IsExecution(Decode, Fifo, 1, ps[..4], ms[..4], Events(swap))
    ensures Possible(ps[3], Interrupt(0)) && Advance(Decode, ps[3], Interrupt(0)) == (ps[4], Completed)
    ensures Matches(ms[3], Interrupt(0)) && PrivateAdvance(Decode, ms[3], Interrupt(0), Completed) == ms[4]
    ensures Possible(ps[4], Attempt(0)) && Advance(Decode, ps[4], Attempt(0)) == (ps[5], Completed)
    ensures Matches(ms[4], Attempt(0)) && PrivateAdvance(Decode, ms[4], Attempt(0), Completed) == ms[5]
    ensures |ps[5].regs| == 1 && |ps[5].regs[0]| == 40 && ps[5].regs[0][2] == 10
    ensures |ms[5].regs| == 1 && |ms[5].regs[0]| == 40 && ms[5].regs[0][2] == 0
  {
    hide OneInstruction, FlatInstruction, Resident, Needed, Refines, Inv, Image, Step;
    Started0(swap);
    var start, m := Start(Program(), swap, Initial()), Image(Program());
    var p0, m0 := Paged(Boot(Fifo, 1), []), Private([], []);
    var p1, m1 := Advance(Decode, p0, start).0, Private([m], [Initial()]);
    var k1, k2, k3, regs1, regs2, regs3 := KernelRun(p1.k);
    FlatSteps();
    SumCompletes(m);
    var p2, p3 := Paged(k1, [regs1]), Paged(k2, [regs2]);
    var p4, p5 := Paged(k2, [DelayedLoad(regs2, 0, 0)]), Paged(k3, [regs3]);
    var m3 := Private([m], [AfterLoad()]);
    var m5 := Private([m], [FlatInstruction(Decode, m, AfterLoad()).1]);
    ps, ms := [p0, p1, p2, p3, p4, p5], [m0, m1, m1, m3, m3, m5];
    assert m0.memory + [m] == m1.memory && m0.regs + [Initial()] == m1.regs;
    AttemptOf(p1, regs1, m1, m);
    AttemptOf(p2, regs2, m1, m);
    AttemptOf(p4, regs3, m3, m);
    assert p3.regs[0 := DelayedLoad(regs2, 0, 0)] == p4.regs;
    assert IsEvent(Decode, p0, m0, start, p1, m1);
    assert IsEvent(Decode, p1, m1, Attempt(0), p2, m1);
    assert IsEvent(Decode, p2, m1, Attempt(0), p3, m3);
  }

  /** One attempt of the one process, on both machines. */
  lemma AttemptOf(p: Paged, regs: Registers, m: Private, mem: seq<Byte>)
    requires Shape(p.k) && |p.k.spaces| == |p.regs| == 1 && RegsOk(p.regs[0]) && OneInstruction(Decode, p.k, 0, p.regs[0]).1 == regs
    requires |m.regs| == 1 && RegsOk(m.regs[0]) && m.memory == [mem] && FlatInstruction(Decode, mem, m.regs[0]).0 == mem
    ensures Possible(p, Attempt(0)) && Matches(m, Attempt(0))
    ensures var r := OneInstruction(Decode, p.k, 0, p.regs[0]); Advance(Decode, p, Attempt(0)) == (Paged(r.0, [regs]), r.2)
    ensures forall o :: PrivateAdvance(Decode, m, Attempt(0), o) ==
              if o == PageFault then m else Private([mem], [FlatInstruction(Decode, mem, m.regs[0]).1])
    ensures p.regs[0][LOAD] == 0 ==> NextIndependent(Decode, mem, p.regs[0])
  {
    hide OneInstruction, FlatInstruction, Shape;
    assert p.regs[0 := regs] == [regs];
    assert m.memory[0 := mem] == [mem];
    assert forall x: Registers :: m.regs[0 := x] == [x];
  }
}
