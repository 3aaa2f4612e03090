/** Whole executions: any number of processes run user programs in any interleaving, faulting,
    starting over and being interrupted as they go.  Each behaves as if it had a processor and a
    flat memory of its own, as long as no instruction that meets a fault or an interrupt uses the
    target of a load that is still pending. */
module Execution {
  import opened Bytes
  import opened PagedMemory
  import opened PagingInvariant
  import opened PagingRefinement
  import opened Cpu
  import opened Restart

  /** The paged machine, with the registers of every process. */
  datatype Paged = Paged(k: Kernel, regs: seq<Registers>)

  /** What it is meant to be: a memory and registers for every process. */
  datatype Private = Private(memory: Flat, regs: seq<Registers>)

  /** A process starts; it attempts its next instruction; an interrupt fires between two of its
      instructions, which delivers the pending load before anything else happens; the kernel sets
      its registers, as system calls do. */
  datatype Event =
    | Start(exe: Executable, swap: seq<Byte>, initial: Registers)
    | Attempt(s: nat)
    | Interrupt(s: nat)
    | SetRegs(s: nat, value: Registers)

  ghost predicate Possible(p: Paged, e: Event) {
    && Shape(p.k) && |p.regs| == |p.k.spaces| && (forall s :: 0 <= s < |p.regs| ==> RegsOk(p.regs[s]))
    && match e
       case Start(exe, swap, initial) => |swap| == PagesNeeded(exe) * PAGE_SIZE && RegsOk(initial)
       case Attempt(s) => s < |p.regs|
       case Interrupt(s) => s < |p.regs|
       case SetRegs(s, value) => s < |p.regs| && RegsOk(value)
  }

  ghost function Advance(decode: Decoder, p: Paged, e: Event): (r: (Paged, Outcome))
    requires Possible(p, e)
  {
    match e
    case Start(exe, swap, initial) => (Paged(Step(p.k, Exec(exe, swap)).0, p.regs + [initial]), Completed)
    case Attempt(s) =>
      var (k, regs, o) := OneInstruction(decode, p.k, s, p.regs[s]);
      (Paged(k, p.regs[s := regs]), o)
    case Interrupt(s) => (p.(regs := p.regs[s := DelayedLoad(p.regs[s], 0, 0)]), Completed)
    case SetRegs(s, value) => (p.(regs := p.regs[s := value]), Completed)
  }

  ghost predicate Matches(m: Private, e: Event) {
    && |m.memory| == |m.regs| && (forall s :: 0 <= s < |m.regs| ==> RegsOk(m.regs[s]))
    && (e.Start? ==> RegsOk(e.initial)) && (e.SetRegs? ==> e.s < |m.regs| && RegsOk(e.value)) && (e.Attempt? || e.Interrupt? ==> e.s < |m.regs|)
  }

  /** A process executes an instruction on its own, unless the paged machine only faulted; of
      interrupts it knows nothing. */
  ghost function PrivateAdvance(decode: Decoder, m: Private, e: Event, o: Outcome): Private
    requires Matches(m, e)
  {
    match e
    case Start(exe, _, initial) => Private(m.memory + [Image(exe)], m.regs + [initial])
    case Attempt(s) =>
      if o == PageFault then m
      else
        var (mem, regs, _) := FlatInstruction(decode, m.memory[s], m.regs[s]);
        Private(m.memory[s := mem], m.regs[s := regs])
    case Interrupt(_) => m
    case SetRegs(s, value) => m.(regs := m.regs[s := value])
  }

  // ---------------------------------------------------------------- registers

  /** The registers of a process: as they should be, or with the pending load already delivered to
      an instruction that does not depend on it. */
  ghost predicate Agree(decode: Decoder, mem: seq<Byte>, want: Registers, have: Registers)
    requires RegsOk(want) && RegsOk(have)
  {
    Similar(want, have) || (Similar(RaiseException(want, 0), have) && NextIndependent(decode, mem, want))
  }

  lemma SimilarChain(a: Registers, b: Registers, c: Registers)
    requires RegsOk(a) && RegsOk(b) && RegsOk(c) && Similar(a, b) && Similar(b, c)
    ensures Similar(a, c)
  {
  }

  lemma FinishSimilar(a: Registers, b: Registers, nextReg: Reg, v: int, v': int, pcAfter: int)
    requires |a| == NUM_TOTAL_REGS && |b| == NUM_TOTAL_REGS && 0 <= a[LOAD] < 32 && Similar(a, b)
    requires nextReg != 0 ==> v == v'
    ensures Similar(Finish(a, nextReg, v, pcAfter), Finish(b, nextReg, v', pcAfter))
  {
  }

  lemma RaiseSimilar(a: Registers, b: Registers, x: int, y: int)
    requires RegsOk(a) && RegsOk(b) && Similar(a, b)
    ensures Similar(RaiseException(a, x), RaiseException(b, y))
  {
  }

  /** Raising twice is raising once. */
  lemma RaiseTwice(a: Registers, x: int, y: int)
    requires RegsOk(a)
    ensures Similar(RaiseException(a, x), RaiseException(RaiseException(a, x), y))
    ensures Similar(RaiseException(a, x), RaiseException(a, y))
  {
  }

  lemma ComputeSimilar(i: Instr, a: Registers, b: Registers)
    requires (i.Alu? || i.MulDiv? || i.Raise?) && RegsOk(a) && RegsOk(b) && Similar(a, b)
    ensures var r, r' := ExecuteRegisters(i, a), ExecuteRegisters(i, b);
            Similar(r.0, r'.0) && r.1 == r'.1
  {
    hide Finish, RaiseException, Wrap32;
    RaiseSimilar(a, b, 0, 0);
    var next := Wrap32(a[NEXT_PC] + 4);
    match i
    case Alu(src1, src2, dst, op, _) =>
      var x := op(a[src1], a[src2]);
      FinishSimilar(a[dst := x], b[dst := x], 0, 0, 0, next);
    case MulDiv(rs, rt, hi, lo) =>
      var x, y := hi(a[rs], a[rt]), lo(a[rs], a[rt]);
      FinishSimilar(a[HI := x][LO := y], b[HI := x][LO := y], 0, 0, 0, next);
    case Raise =>
  }

  lemma JumpSimilar(i: Instr, a: Registers, b: Registers)
    requires (i.Branch? || i.Jump? || i.JumpRegister?) && RegsOk(a) && RegsOk(b) && Similar(a, b)
    ensures var r, r' := ExecuteRegisters(i, a), ExecuteRegisters(i, b);
            Similar(r.0, r'.0) && r.1 == r'.1
  {
    hide Finish, Wrap32;
    var next := Wrap32(a[NEXT_PC] + 4);
    var rd := if i.JumpRegister? then i.rd else R31;
    var a', b' := if i.link then a[rd := next] else a, if i.link then b[rd := next] else b;
    var after := match i
                 case Branch(rs, rt, taken, offset, _) => if taken(a'[rs], a'[rt]) then Wrap32(a[NEXT_PC] + offset) else next
                 case Jump(target, _) => target(next)
                 case JumpRegister(rs, _, _) => a'[rs];
    FinishSimilar(a', b', 0, 0, 0, after);
  }

  lemma DataSimilar(i: Instr, m: seq<Byte>, a: Registers, b: Registers)
    requires !RegisterOnly(i) && RegsOk(a) && RegsOk(b) && Similar(a, b)
    ensures var r, r' := FlatData(i, m, a), FlatData(i, m, b);
            r.0 == r'.0 && Similar(r.1, r'.1) && r.2 == r'.2
  {
    hide Finish, RaiseException, Wrap32;
    var addr, size := DataAddress(i, a), DataSize(i);
    RaiseSimilar(a, b, addr, addr);
    if Permitted(m, addr, size) {
      var next := Wrap32(a[NEXT_PC] + 4);
      if Stores(i) {
        FinishSimilar(a, b, 0, 0, 0, next);
      } else {
        var value := FlatRead(m, addr, size);
        FinishSimilar(a, b, i.rt, LoadedValue(i, a, value), LoadedValue(i, b, value), next);
      }
    }
  }

  /** The flat processor cannot tell similar registers apart. */
  lemma FlatSimilar(decode: Decoder, m: seq<Byte>, a: Registers, b: Registers)
    requires RegsOk(a) && RegsOk(b) && Similar(a, b)
    ensures var r, r' := FlatInstruction(decode, m, a), FlatInstruction(decode, m, b);
            r.0 == r'.0 && Similar(r.1, r'.1) && r.2 == r'.2
  {
    hide ExecuteRegisters, FlatData, RaiseException;
    RaiseSimilar(a, b, a[PC], b[PC]);
    if Permitted(m, a[PC], 4) {
      var i := decode(FlatRead(m, a[PC], 4));
      if i.Alu? || i.MulDiv? || i.Raise? {
        ComputeSimilar(i, a, b);
      } else if RegisterOnly(i) {
        JumpSimilar(i, a, b);
      } else {
        DataSimilar(i, m, a, b);
      }
    }
  }

  /** Agreeing registers lead to the same result. */
  lemma FlatAgree(decode: Decoder, m: seq<Byte>, want: Registers, have: Registers)
    requires RegsOk(want) && RegsOk(have) && Agree(decode, m, want, have)
    ensures var r, r' := FlatInstruction(decode, m, want), FlatInstruction(decode, m, have);
            r.0 == r'.0 && Similar(r.1, r'.1) && r.2 == r'.2
  {
    hide FlatInstruction, Similar, RaiseException, NextIndependent;
    if Similar(want, have) {
      FlatSimilar(decode, m, want, have);
    } else {
      var d := RaiseException(want, 0);
      FlatRestart(decode, m, want, 0);
      FlatSimilar(decode, m, d, have);
      SimilarChain(FlatInstruction(decode, m, want).1, FlatInstruction(decode, m, d).1, FlatInstruction(decode, m, have).1);
    }
  }

  /** A fault keeps them agreeing, if the instruction does not depend on the pending load. */
  lemma FaultAgrees(decode: Decoder, m: seq<Byte>, want: Registers, have: Registers, a: int)
    requires RegsOk(want) && RegsOk(have) && Agree(decode, m, want, have) && NextIndependent(decode, m, have)
    ensures Agree(decode, m, want, RaiseException(have, a))
  {
    if Similar(want, have) {
      RaiseSimilar(want, have, 0, a);
    } else {
      var d := RaiseException(want, 0);
      RaiseTwice(want, 0, a);
      RaiseSimilar(d, have, a, a);
      SimilarChain(d, RaiseException(d, a), RaiseException(have, a));
    }
  }

  /** Delivering the load and nothing else is what a fault at an address already recorded does. */
  lemma DeliveryIsRaise(regs: Registers)
    requires RegsOk(regs)
    ensures DelayedLoad(regs, 0, 0) == RaiseException(regs, regs[BAD_VADDR])
  {
    assert regs[BAD_VADDR := regs[BAD_VADDR]] == regs;
  }

  // ---------------------------------------------------------------- one event

  ghost predicate Related(decode: Decoder, p: Paged, m: Private) {
    && Inv(p.k) && p.k.frames < 0x1_0000_0000 && Refines(p.k, m.memory)
    && |p.regs| == |m.regs| == |m.memory| == |p.k.spaces|
    && forall s :: 0 <= s < |p.regs| ==> RegsOk(m.regs[s]) && RegsOk(p.regs[s]) && Agree(decode, m.memory[s], m.regs[s], p.regs[s])
  }

  /** A fault or an interrupt finds a next instruction that does not depend on the pending load. */
  ghost predicate DeliveryIsHarmless(decode: Decoder, p: Paged, m: Private, e: Event)
    requires Possible(p, e)
  {
    (e.Attempt? && Advance(decode, p, e).1 == PageFault) || e.Interrupt? ==>
      e.s < |m.memory| ==> NextIndependent(decode, m.memory[e.s], p.regs[e.s])
  }

  lemma AttemptKeeps(decode: Decoder, p: Paged, m: Private, s: nat)
    requires Related(decode, p, m) && Possible(p, Attempt(s)) && Matches(m, Attempt(s)) && DeliveryIsHarmless(decode, p, m, Attempt(s))
    ensures var (p', o) := Advance(decode, p, Attempt(s));
            && Related(decode, p', PrivateAdvance(decode, m, Attempt(s), o))
            && (o != PageFault ==> o == FlatInstruction(decode, m.memory[s], m.regs[s]).2)
  {
    hide OneInstruction, FlatInstruction, Agree, NextIndependent, Shape, CoreMatchesTables, UsedMatchesCore, CleanPagesBacked, FramesDistinct;
    var (k, regs, o) := OneInstruction(decode, p.k, s, p.regs[s]);
    InstructionRefines(decode, p.k, m.memory, s, p.regs[s]);
    FramesKept(decode, p.k, m.memory, s, p.regs[s]);
    if o == PageFault {
      var a :| regs == RaiseException(p.regs[s], a);
      FaultAgrees(decode, m.memory[s], m.regs[s], p.regs[s], a);
    } else {
      FlatAgree(decode, m.memory[s], m.regs[s], p.regs[s]);
      var want := FlatInstruction(decode, m.memory[s], m.regs[s]);
      assert Agree(decode, want.0, want.1, regs) by { SimilarAgrees(decode, want.0, want.1, regs); }
    }
  }

  lemma SimilarAgrees(decode: Decoder, mem: seq<Byte>, want: Registers, have: Registers)
    requires RegsOk(want) && RegsOk(have) && Similar(want, have)
    ensures Agree(decode, mem, want, have)
  {
  }

  lemma FramesKept(decode: Decoder, k: Kernel, f: Flat, s: nat, regs: Registers)
    requires Inv(k) && Refines(k, f) && s < |f| && RegsOk(regs) && k.frames < 0x1_0000_0000
    ensures OneInstruction(decode, k, s, regs).0.frames == k.frames && |OneInstruction(decode, k, s, regs).0.spaces| == |k.spaces|
  {
    InstructionRefines(decode, k, f, s, regs);
  }

  lemma StartKeeps(decode: Decoder, p: Paged, m: Private, e: Event)
    requires Related(decode, p, m) && e.Start? && Possible(p, e) && Matches(m, e)
    ensures Related(decode, Advance(decode, p, e).0, PrivateAdvance(decode, m, e, Completed))
  {
    hide Agree, Inv, Refines;
    ExecStep(p.k, m.memory, e.exe, e.swap);
    var p', m' := Advance(decode, p, e).0, PrivateAdvance(decode, m, e, Completed);
    SimilarAgrees(decode, Image(e.exe), e.initial, e.initial);
  }

  lemma InterruptKeeps(decode: Decoder, p: Paged, m: Private, e: Event)
    requires Related(decode, p, m) && e.Interrupt? && Possible(p, e) && Matches(m, e) && DeliveryIsHarmless(decode, p, m, e)
    ensures Related(decode, Advance(decode, p, e).0, PrivateAdvance(decode, m, e, Completed))
  {
    hide Agree, Inv, Refines, NextIndependent;
    DeliveryIsRaise(p.regs[e.s]);
    FaultAgrees(decode, m.memory[e.s], m.regs[e.s], p.regs[e.s], p.regs[e.s][BAD_VADDR]);
  }

  lemma SetRegsKeeps(decode: Decoder, p: Paged, m: Private, e: Event)
    requires Related(decode, p, m) && e.SetRegs? && Possible(p, e) && Matches(m, e)
    ensures Related(decode, Advance(decode, p, e).0, PrivateAdvance(decode, m, e, Completed))
  {
    hide Agree, Inv, Refines;
    SimilarAgrees(decode, m.memory[e.s], e.value, e.value);
  }

  lemma RelatedMatches(decode: Decoder, p: Paged, m: Private, e: Event)
    requires Related(decode, p, m) && Possible(p, e)
    ensures Matches(m, e)
  {
  }

  // ---------------------------------------------------------------- every execution

  /** `ps` and `ms` are the two machines side by side; no fault and no interrupt delivers a load that
      the next instruction uses. */
  ghost predicate IsExecution(decode: Decoder, policy: Policy, frames: nat, ps: seq<Paged>, ms: seq<Private>, es: seq<Event>) {
    && 0 < frames < 0x1_0000_0000 && |ps| == |ms| == |es| + 1
    && ps[0] == Paged(Boot(policy, frames), []) && ms[0] == Private([], [])
    && forall i, j :: 0 <= i < |es| && j == i + 1 ==> IsEvent(decode, ps[i], ms[i], es[i], ps[j], ms[j])
  }

  ghost predicate IsEvent(decode: Decoder, p: Paged, m: Private, e: Event, p': Paged, m': Private) {
    && Possible(p, e) && p' == Advance(decode, p, e).0
    && (Matches(m, e) ==> m' == PrivateAdvance(decode, m, e, Advance(decode, p, e).1))
    && DeliveryIsHarmless(decode, p, m, e)
  }

  /** An attempt that does not fault ends as the process's own processor ends it. */
  ghost predicate EndsAlike(decode: Decoder, p: Paged, m: Private, e: Event)
    requires Possible(p, e)
  {
    e.Attempt? && Advance(decode, p, e).1 != PageFault ==>
      && e.s < |m.memory| && e.s < |m.regs| && RegsOk(m.regs[e.s])
      && Advance(decode, p, e).1 == FlatInstruction(decode, m.memory[e.s], m.regs[e.s]).2
  }

  lemma EventKeeps(decode: Decoder, p: Paged, m: Private, e: Event, p': Paged, m': Private)
    requires Related(decode, p, m) && IsEvent(decode, p, m, e, p', m')
    ensures Related(decode, p', m') && EndsAlike(decode, p, m, e)
  {
    hide Inv, Refines, Agree, Advance, PrivateAdvance, DeliveryIsHarmless;
    RelatedMatches(decode, p, m, e);
    match e
    case Start(_, _, _) => StartKeeps(decode, p, m, e); assert Advance(decode, p, e).1 == Completed by { StartCompletes(decode, p, e); }
    case Attempt(s) => AttemptKeeps(decode, p, m, s);
    case Interrupt(_) => InterruptKeeps(decode, p, m, e); assert Advance(decode, p, e).1 == Completed by { StartCompletes(decode, p, e); }
    case SetRegs(_, _) => SetRegsKeeps(decode, p, m, e); assert Advance(decode, p, e).1 == Completed by { StartCompletes(decode, p, e); }
  }

  lemma StartCompletes(decode: Decoder, p: Paged, e: Event)
    requires Possible(p, e) && !e.Attempt?
    ensures Advance(decode, p, e).1 == Completed
  {
  }

  /** The main theorem: at every moment of every execution each process has the memory, and up to a
      load delivered early the registers, of a process that executed its instructions alone on a
      flat memory, and every instruction that did not fault ended as it did there. */
  lemma {:induction false} ProcessesRunAlone(decode: Decoder, policy: Policy, frames: nat, ps: seq<Paged>, ms: seq<Private>, es: seq<Event>, n: nat)
    requires IsExecution(decode, policy, frames, ps, ms, es) && n <= |es|
    ensures Related(decode, ps[n], ms[n])
    ensures n < |es| ==> Possible(ps[n], es[n]) && EndsAlike(decode, ps[n], ms[n], es[n])
  {
    hide Related, Advance, EndsAlike, Possible, DeliveryIsHarmless, PrivateAdvance;
    if n == 0 {
      assert Related(decode, ps[0], ms[0]) by { BootRelated(decode, policy, frames); }
    } else {
      ProcessesRunAlone(decode, policy, frames, ps, ms, es, n - 1);
      assert IsEvent(decode, ps[n - 1], ms[n - 1], es[n - 1], ps[n], ms[n]);
      EventKeeps(decode, ps[n - 1], ms[n - 1], es[n - 1], ps[n], ms[n]);
    }
    if n < |es| {
      assert IsEvent(decode, ps[n], ms[n], es[n], ps[n + 1], ms[n + 1]);
      EventKeeps(decode, ps[n], ms[n], es[n], ps[n + 1], ms[n + 1]);
    }
  }

  lemma BootRelated(decode: Decoder, policy: Policy, frames: nat)
    requires 0 < frames < 0x1_0000_0000
    ensures Related(decode, Paged(Boot(policy, frames), []), Private([], []))
  {
    BootIsCorrect(policy, frames);
  }
}
