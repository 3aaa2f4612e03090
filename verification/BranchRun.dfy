/** A program executed from boot on paged memory in which one branch is taken and one is not. */
module BranchRun {
  import opened Basics
  import opened Bytes
  import opened PagedMemory
  import opened PagingInvariant
  import opened PagingRefinement
  import opened Cpu
  import opened Restart
  import opened Progress
  import opened InstructionSet
  import Computations
  import Visibility
  import Preemption

  const BEQ_WORD := 0x1000_0002    // BEQ r0, r0, two instructions past the next
  const FIVE_WORD := 0x2001_0005   // ADDI r1, r0, 5
  const SEVEN_WORD := 0x2001_0007  // ADDI r1, r0, 7
  const BNE_WORD := 0x1400_0002    // BNE r0, r0, two instructions past the next
  const SUM_WORD := 0x2022_0001    // ADDI r2, r1, 1

  function Program(): Executable {
    Executable(ToBytes(4, BEQ_WORD) + ToBytes(4, FIVE_WORD) + ToBytes(4, SEVEN_WORD) + ToBytes(4, BNE_WORD) + ToBytes(4, SUM_WORD),
               Segment(20, 0, 0), Segment(0, 0, 0), 0)
  }

  function Decode(word: int): Instr {
    if word == BEQ_WORD then Visibility.BranchEqual(true, 0, 0, 8)
    else if word == BNE_WORD then Visibility.BranchEqual(false, 0, 0, 8)
    else if word == FIVE_WORD then Computations.Encode(Computations.ADDI(5), 0, 0, 1)
    else if word == SEVEN_WORD then Computations.Encode(Computations.ADDI(7), 0, 0, 1)
    else Computations.Encode(Computations.ADDI(1), 1, 0, 2)
  }

  lemma ProgramBytes()
    ensures var m, file := Image(Program()), Program().file;
            |m| == 1664 && |file| == 20 && forall a :: 0 <= a < 20 ==> m[a] == file[a]
  {
    hide ToBytes;
  }

  lemma ProgramWords()
    ensures var m := Image(Program());
            && |m| == 1664
            && (forall a :: a in {0, 4, 8, 12, 16} ==> Permitted(m, a, 4))
            && FlatRead(m, 0, 4) == BEQ_WORD && FlatRead(m, 4, 4) == FIVE_WORD && FlatRead(m, 8, 4) == SEVEN_WORD
            && FlatRead(m, 12, 4) == BNE_WORD && FlatRead(m, 16, 4) == SUM_WORD
  {
    hide Image, FlatRead, Permitted, ToBytes;
    var m, file := Image(Program()), Program().file;
    ProgramBytes();
    assert file[0..4] == ToBytes(4, BEQ_WORD) && file[4..8] == ToBytes(4, FIVE_WORD) && file[8..12] == ToBytes(4, SEVEN_WORD)
           && file[12..16] == ToBytes(4, BNE_WORD) && file[16..20] == ToBytes(4, SUM_WORD);
    assert m[0..4] == file[0..4] && m[4..8] == file[4..8] && m[8..12] == file[8..12] && m[12..16] == file[12..16] && m[16..20] == file[16..20];
    Preemption.WordAt(m, 0, BEQ_WORD);
    Preemption.WordAt(m, 4, FIVE_WORD);
    Preemption.WordAt(m, 8, SEVEN_WORD);
    Preemption.WordAt(m, 12, BNE_WORD);
    Preemption.WordAt(m, 16, SUM_WORD);
  }

  /** The program counters and the two registers the program uses. */
  ghost predicate At(regs: Registers, pc: int, next: int, r1: int, r2: int) {
    RegsOk(regs) && regs[LOAD] == 0 && regs[PC] == pc && regs[NEXT_PC] == next && regs[1] == r1 && regs[2] == r2
  }

  /** The machine runs the program with its code in memory. */
  ghost predicate Loaded(k: Kernel, regs: Registers) {
    Started(k, [Image(Program())], 0, regs) && k.frames == 1 && Resident(k, 0, 0)
  }

  /** An instruction that only uses registers. */
  lemma CodeStep(k: Kernel, regs: Registers, i: Instr) returns (k': Kernel, regs': Registers, o: Outcome)
    requires Loaded(k, regs) && regs[PC] in {0, 4, 8, 12, 16} && RegisterOnly(i)
    requires Permitted(Image(Program()), regs[PC], 4) && Decode(FlatRead(Image(Program()), regs[PC], 4)) == i
    ensures Shape(k) && |k.spaces| > 0 && OneInstruction(Decode, k, 0, regs) == (k', regs', o)
    ensures Means(i, Image(Program()), regs, Image(Program()), regs', o) && Loaded(k', regs')
  {
    hide OneInstruction, FlatInstruction, Means, Image, Resident, Refines, CoreMatchesTables, UsedMatchesCore, CleanPagesBacked, FramesDistinct,
         FlatRead, Permitted;
    var m := Image(Program());
    var f := [m];
    FlatMeans(Decode, m, regs);
    OnlyItsPage(m, regs, i);
    Preemption.SpacesOf(k, f, regs);
    Preemption.Hits(Decode, k, f, regs);
    var r := OneInstruction(Decode, k, 0, regs);
    k', regs', o := r.0, r.1, r.2;
    MemoryKept(i, m, regs, FlatInstruction(Decode, m, regs).0, regs', o);
    assert f[0 := m] == f;
  }

  lemma MemoryKept(i: Instr, m: seq<Byte>, regs: Registers, m': seq<Byte>, regs': Registers, o: Outcome)
    requires RegsOk(regs) && RegisterOnly(i) && Means(i, m, regs, m', regs', o)
    ensures m' == m
  {
  }

  lemma OnlyItsPage(m: seq<Byte>, regs: Registers, i: Instr)
    requires RegsOk(regs) && regs[PC] in {0, 4, 8, 12, 16} && RegisterOnly(i) && Permitted(m, regs[PC], 4) && Decode(FlatRead(m, regs[PC], 4)) == i
    ensures Needed(Decode, m, regs) == {0} && CodePage(regs) == 0
  {
    hide FlatRead, Permitted;
  }

  lemma BranchAt(eq: bool, regs: Registers, regs': Registers, o: Outcome, m: seq<Byte>, pc: int, next: int, r1: int, r2: int)
    requires At(regs, pc, next, r1, r2) && 0 <= next <= 16 && Means(Visibility.BranchEqual(eq, 0, 0, 8), m, regs, m, regs', o)
    requires RegsOk(regs')
    ensures o == Completed && At(regs', next, if eq then next + 8 else next + 4, r1, r2)
  {
    Visibility.WrapFits(next + 8);
    Visibility.WrapFits(next + 4);
  }

  lemma AddAt(imm: int, s: Reg, d: Reg, regs: Registers, regs': Registers, o: Outcome, m: seq<Byte>, pc: int, next: int, r1: int, r2: int)
    requires At(regs, pc, next, r1, r2) && 0 <= next <= 20 && 0 <= imm < 10 && 0 <= r1 < 10 && s < 2 && 1 <= d < 3
    requires Means(Computations.Encode(Computations.ADDI(imm), s, 0, d), m, regs, m, regs', o) && RegsOk(regs')
    ensures var x := imm + if s == 1 then r1 else 0;
            o == Completed && At(regs', next, next + 4, if d == 1 then x else r1, if d == 2 then x else r2)
  {
    Visibility.WrapFits(next + 4);
    Visibility.WrapFits(imm);
    Visibility.WrapFits(r1 + imm);
  }

  /** The first attempt, from boot. */
  lemma StartFaults(swap: seq<Byte>) returns (k: Kernel, k': Kernel, regs': Registers)
    requires |swap| == 1664
    ensures PagesNeeded(Program()) == 13 && Shape(Boot(Fifo, 1))
    ensures k == Step(Boot(Fifo, 1), Exec(Program(), swap)).0 && Shape(k) && |k.spaces| > 0
    ensures OneInstruction(Decode, k, 0, Preemption.Initial()) == (k', regs', PageFault) && Loaded(k', regs') && At(regs', 0, 4, 0, 0)
  {
    hide OneInstruction, FlatInstruction, Image, Resident, Refines, CoreMatchesTables, UsedMatchesCore, CleanPagesBacked, FramesDistinct, FlatRead;
    BootIsCorrect(Fifo, 1);
    ExecStep(Boot(Fifo, 1), [], Program(), swap);
    k := Step(Boot(Fifo, 1), Exec(Program(), swap)).0;
    var f := [Image(Program())];
    assert [] + f == f;
    assert !Resident(k, 0, 0) by { NothingResident(swap, k); }
    ProgramWords();
    OnlyItsPage(Image(Program()), Preemption.Initial(), Visibility.BranchEqual(true, 0, 0, 8));
    Preemption.SpacesOf(k, f, Preemption.Initial());
    Preemption.FirstFaults(Decode, k, f);
    var r := OneInstruction(Decode, k, 0, Preemption.Initial());
    k', regs' := r.0, r.1;
  }

  lemma NothingResident(swap: seq<Byte>, k: Kernel)
    requires |swap| == 1664 && PagesNeeded(Program()) == 13 && k == Step(Boot(Fifo, 1), Exec(Program(), swap)).0
    ensures !Resident(k, 0, 0)
  {
  }

  /** The run: a page fault, then BEQ jumps two instructions beyond the one that follows it, which is
      executed, and BNE does not jump. */
  lemma BranchesGo(swap: seq<Byte>) returns (ks: seq<Kernel>, rs: seq<Registers>)
    requires |swap| == 1664
    ensures |ks| == |rs| == 6 && Shape(Boot(Fifo, 1)) && PagesNeeded(Program()) == 13
    ensures ks[0] == Step(Boot(Fifo, 1), Exec(Program(), swap)).0 && rs[0] == Preemption.Initial()
    ensures forall j, j' :: 0 <= j < 5 && j' == j + 1 ==>
              && Shape(ks[j]) && |ks[j].spaces| > 0 && RegsOk(rs[j])
              && OneInstruction(Decode, ks[j], 0, rs[j]) == (ks[j'], rs[j'], if j == 0 then PageFault else Completed)
    ensures forall j :: 1 <= j < 6 ==> RegsOk(rs[j]) && rs[j][PC] == [0, 0, 4, 12, 16, 20][j]
    ensures RegsOk(rs[5]) && rs[5][1] == 5 && rs[5][2] == 6
  {
    hide OneInstruction, Means, Image, FlatRead, Permitted, Loaded, Step;
    ProgramWords();
    var m := Image(Program());
    var k0, k1, r1 := StartFaults(swap);
    var k2, r2, o2 := CodeStep(k1, r1, Visibility.BranchEqual(true, 0, 0, 8));
    LoadedOk(k2, r2);
    BranchAt(true, r1, r2, o2, m, 0, 4, 0, 0);
    var k3, r3, o3 := CodeStep(k2, r2, Computations.Encode(Computations.ADDI(5), 0, 0, 1));
    LoadedOk(k3, r3);
    AddAt(5, 0, 1, r2, r3, o3, m, 4, 12, 0, 0);
    var k4, r4, o4 := CodeStep(k3, r3, Visibility.BranchEqual(false, 0, 0, 8));
    LoadedOk(k4, r4);
    BranchAt(false, r3, r4, o4, m, 12, 16, 5, 0);
    var k5, r5, o5 := CodeStep(k4, r4, Computations.Encode(Computations.ADDI(1), 1, 0, 2));
    LoadedOk(k5, r5);
    AddAt(1, 1, 2, r4, r5, o5, m, 16, 20, 5, 0);
    ks, rs := [k0, k1, k2, k3, k4, k5], [Preemption.Initial(), r1, r2, r3, r4, r5];
  }

  lemma LoadedOk(k: Kernel, regs: Registers)
    requires Loaded(k, regs)
    ensures RegsOk(regs)
  {
  }
}
