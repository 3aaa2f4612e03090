/** Restarting an instruction after page faults has the same effect as never faulting, unless it
    uses the target of a load that is still pending. */
module Restart {
  import opened Bytes
  import opened PagedMemory
  import opened PagingInvariant
  import opened PagingRefinement
  import opened Cpu

  // ---------------------------------------------------------------- the reference processor

  function FlatData(i: Instr, m: seq<Byte>, regs: Registers): (r: (seq<Byte>, Registers, Outcome))
    requires !RegisterOnly(i) && RegsOk(regs)
    ensures RegsOk(r.1)
  {
    var addr, size := DataAddress(i, regs), DataSize(i);
    if !Permitted(m, addr, size) then (m, RaiseException(regs, addr), Trapped)
    else
      var value := FlatRead(m, addr, size);
      (if Stores(i) then FlatWrite(m, addr, size, ValueToStore(i, regs, value)) else m,
       AfterData(i, regs, value), Completed)
  }

  /** One instruction of a processor whose memory is a byte array: it cannot page-fault. */
  function FlatInstruction(decode: Decoder, m: seq<Byte>, regs: Registers): (r: (seq<Byte>, Registers, Outcome))
    requires RegsOk(regs)
    ensures RegsOk(r.1)
  {
    if !Permitted(m, regs[PC], 4) then (m, RaiseException(regs, regs[PC]), Trapped)
    else
      var i := decode(FlatRead(m, regs[PC], 4));
      if RegisterOnly(i) then
        var (regs1, o) := ExecuteRegisters(i, regs);
        (m, regs1, o)
      else FlatData(i, m, regs)
  }

  // ---------------------------------------------------------------- one attempt

  /** An attempt either faults, changing nothing a process can see and delivering only the
      pending load, or does to paged memory what the reference processor does to flat memory. */
  ghost predicate Attempted(f: Flat, s: nat, regs: Registers,
                            r: (Kernel, Registers, Outcome), flat: (seq<Byte>, Registers, Outcome))
    requires s < |f| && RegsOk(regs) && Shape(r.0)
  {
    && Inv(r.0)
    && (if r.2 == PageFault then Refines(r.0, f) && exists a :: r.1 == RaiseException(regs, a)
        else Refines(r.0, f[s := flat.0]) && (r.1, r.2) == (flat.1, flat.2))
  }

  lemma StoreDataRefines(k: Kernel, f: Flat, s: nat, regs: Registers, i: Instr, value: int)
    requires Inv(k) && Refines(k, f) && s < |f| && RegsOk(regs) && k.frames < 0x1_0000_0000
    requires Stores(i) && (i.StorePartial? ==> Permitted(f[s], DataAddress(i, regs), 4)
                                               && value == FlatRead(f[s], DataAddress(i, regs), 4))
    ensures Attempted(f, s, regs,
              StoreData(k, s, regs, DataAddress(i, regs), DataSize(i), ValueToStore(i, regs, value), i),
              FlatData(i, f[s], regs))
  {
    var addr, size := DataAddress(i, regs), DataSize(i);
    var op := Write(s, addr, size, ValueToStore(i, regs, value));
    StepRefines(k, f, op);
    var (k1, r1) := Step(k, op);
    if r1 == Faulted {
      assert StoreData(k, s, regs, addr, size, op.value, i).1 == RaiseException(regs, addr);
    } else if !Permitted(f[s], addr, size) {
      assert f[s := f[s]] == f;
    }
  }

  lemma DataRefines(i: Instr, k: Kernel, f: Flat, s: nat, regs: Registers)
    requires !RegisterOnly(i) && Inv(k) && Refines(k, f) && s < |f| && RegsOk(regs) && k.frames < 0x1_0000_0000
    ensures Attempted(f, s, regs, ExecuteData(i, k, s, regs), FlatData(i, f[s], regs))
  {
    if i.Store? {
      StoreDataRefines(k, f, s, regs, i, 0);
    } else {
      var addr, size := DataAddress(i, regs), DataSize(i);
      StepRefines(k, f, Read(s, addr, size));
      var (k1, r1) := Step(k, Read(s, addr, size));
      assert f[s := f[s]] == f;
      if r1 == Faulted {
        assert ExecuteData(i, k, s, regs).1 == RaiseException(regs, addr);
      } else if i.StorePartial? && r1.Loaded? {
        StoreDataRefines(k1, f, s, regs, i, r1.value);
      }
    }
  }

  lemma InstructionRefines(decode: Decoder, k: Kernel, f: Flat, s: nat, regs: Registers)
    requires Inv(k) && Refines(k, f) && s < |f| && RegsOk(regs) && k.frames < 0x1_0000_0000
    ensures Attempted(f, s, regs, OneInstruction(decode, k, s, regs), FlatInstruction(decode, f[s], regs))
  {
    var fetch := Read(s, regs[PC], 4);
    StepRefines(k, f, fetch);
    var (k1, r1) := Step(k, fetch);
    assert f[s := f[s]] == f;
    if !r1.Loaded? {
      assert OneInstruction(decode, k, s, regs).1 == RaiseException(regs, regs[PC]);
    } else {
      var i := decode(r1.value);
      if !RegisterOnly(i) {
        DataRefines(i, k1, f, s, regs);
      }
    }
  }

  // ---------------------------------------------------------------- restart

  /** Registers an instruction reads before the pending load is delivered.  The target of
      LWL/LWR is not among them: the pending value is forwarded to it. */
  function Reads(i: Instr): set<int> {
    match i
    case Alu(src1, src2, _, _, _) => {src1, src2}
    case MulDiv(rs, rt, _, _) => {rs, rt}
    case Branch(rs, rt, _, _, _) => {rs, rt}
    case Jump(_, _) => {}
    case JumpRegister(rs, _, _) => {rs}
    case Load(_, rs, _, _, _) => {rs}
    case LoadPartial(rs, _, _, _) => {rs}
    case Store(_, rs, rt, _) => {rs, rt}
    case StorePartial(rs, rt, _, _) => {rs, rt}
    case Raise => {}
  }

  /** Registers it writes at once; the target of a load is written one instruction later. */
  function Writes(i: Instr): set<int> {
    match i
    case Alu(_, _, dst, _, _) => {dst}
    case Branch(_, _, _, _, link) => if link then {R31} else {}
    case Jump(_, link) => if link then {R31} else {}
    case JumpRegister(_, rd, link) => if link then {rd} else {}
    case _ => {}
  }

  /** No load is pending, or the instruction neither reads nor writes its target. */
  predicate Independent(i: Instr, target: int) {
    target == 0 || (target !in Reads(i) && target !in Writes(i))
  }

  /** Equal registers, save the fault address and the value of a load that targets r0. */
  ghost predicate Similar(a: Registers, b: Registers)
    requires |a| == NUM_TOTAL_REGS && |b| == NUM_TOTAL_REGS
  {
    && (forall j :: 0 <= j < NUM_TOTAL_REGS && j != BAD_VADDR && j != LOAD_VALUE ==> a[j] == b[j])
    && (a[LOAD] != 0 ==> a[LOAD_VALUE] == b[LOAD_VALUE])
  }

  /** Delivering the pending load before the instruction's own effects or after them makes
      no difference when those effects leave its target alone. */
  lemma FinishAgrees(late: Registers, early: Registers, nextReg: Reg, v: int, v': int, pcAfter: int)
    requires |late| == NUM_TOTAL_REGS && |early| == NUM_TOTAL_REGS
    requires 0 <= late[LOAD] < 32 && early[LOAD] == 0
    requires forall j :: 0 < j < LOAD && j != late[LOAD] ==> early[j] == late[j]
    requires late[LOAD] != 0 ==> early[late[LOAD]] == late[LOAD_VALUE]
    requires nextReg != 0 ==> v == v'
    ensures Similar(Finish(late, nextReg, v, pcAfter), Finish(early, nextReg, v', pcAfter))
  {
  }

  lemma DeliveredAgrees(regs: Registers, a: int)
    requires RegsOk(regs)
    ensures var early := RaiseException(regs, a);
            && early[LOAD] == 0 && early[0] == 0
            && (forall j :: 0 <= j < LOAD && (regs[LOAD] == 0 || j != regs[LOAD]) ==> early[j] == regs[j])
            && (regs[LOAD] != 0 ==> early[regs[LOAD]] == regs[LOAD_VALUE])
            && forall b :: Similar(RaiseException(regs, b), RaiseException(early, b))
  {
  }

  lemma ComputeRestart(i: Instr, regs: Registers, a: int)
    requires (i.Alu? || i.MulDiv?) && RegsOk(regs) && Independent(i, regs[LOAD])
    ensures var r, r' := ExecuteRegisters(i, regs), ExecuteRegisters(i, RaiseException(regs, a));
            Similar(r.0, r'.0) && r.1 == r'.1
  {
    var early := RaiseException(regs, a);
    DeliveredAgrees(regs, a);
    var next := Wrap32(regs[NEXT_PC] + 4);
    match i
    case Alu(src1, src2, dst, op, overflows) =>
      var x := op(regs[src1], regs[src2]);
      FinishAgrees(regs[dst := x], early[dst := x], 0, 0, 0, next);
    case MulDiv(rs, rt, hi, lo) =>
      var x, y := hi(regs[rs], regs[rt]), lo(regs[rs], regs[rt]);
      FinishAgrees(regs[HI := x][LO := y], early[HI := x][LO := y], 0, 0, 0, next);
  }

  lemma JumpRestart(i: Instr, regs: Registers, a: int)
    requires (i.Branch? || i.Jump? || i.JumpRegister?) && RegsOk(regs) && Independent(i, regs[LOAD])
    ensures var r, r' := ExecuteRegisters(i, regs), ExecuteRegisters(i, RaiseException(regs, a));
            Similar(r.0, r'.0) && r.1 == r'.1
  {
    var early := RaiseException(regs, a);
    DeliveredAgrees(regs, a);
    var next := Wrap32(regs[NEXT_PC] + 4);
    var rd := if i.JumpRegister? then i.rd else R31;
    var late', early' := if i.link then regs[rd := next] else regs, if i.link then early[rd := next] else early;
    var after := match i
                 case Branch(rs, rt, taken, offset, _) =>
                   if taken(late'[rs], late'[rt]) then Wrap32(regs[NEXT_PC] + offset) else next
                 case Jump(target, _) => target(next)
                 case JumpRegister(rs, _, _) => late'[rs];
    hide Finish, Wrap32;
    FinishAgrees(late', early', 0, 0, 0, after);
  }

  lemma DataRestart(i: Instr, m: seq<Byte>, regs: Registers, a: int)
    requires !RegisterOnly(i) && RegsOk(regs) && Independent(i, regs[LOAD])
    ensures var r, r' := FlatData(i, m, regs), FlatData(i, m, RaiseException(regs, a));
            r.0 == r'.0 && Similar(r.1, r'.1) && r.2 == r'.2
  {
    var early := RaiseException(regs, a);
    DeliveredAgrees(regs, a);
    var addr, size := DataAddress(i, regs), DataSize(i);
    assert DataAddress(i, early) == addr;
    if Permitted(m, addr, size) {
      var value := FlatRead(m, addr, size);
      if Stores(i) {
        assert ValueToStore(i, early, value) == ValueToStore(i, regs, value);
        FinishAgrees(regs, early, 0, 0, 0, Wrap32(regs[NEXT_PC] + 4));
      } else {
        FinishAgrees(regs, early, i.rt, LoadedValue(i, regs, value), LoadedValue(i, early, value),
                     Wrap32(regs[NEXT_PC] + 4));
      }
    }
  }

  /** The instruction that the PC points at, if it can be fetched. */
  predicate NextIndependent(decode: Decoder, m: seq<Byte>, regs: Registers)
    requires RegsOk(regs)
  {
    Permitted(m, regs[PC], 4) ==> Independent(decode(FlatRead(m, regs[PC], 4)), regs[LOAD])
  }

  lemma FlatRestart(decode: Decoder, m: seq<Byte>, regs: Registers, a: int)
    requires RegsOk(regs) && NextIndependent(decode, m, regs)
    ensures var r, r' := FlatInstruction(decode, m, regs), FlatInstruction(decode, m, RaiseException(regs, a));
            r.0 == r'.0 && Similar(r.1, r'.1) && r.2 == r'.2
  {
    var regs' := RaiseException(regs, a);
    assert regs'[PC] == regs[PC];
    if Permitted(m, regs[PC], 4) {
      var i := decode(FlatRead(m, regs[PC], 4));
      if i.Alu? || i.MulDiv? {
        ComputeRestart(i, regs, a);
      } else if i.Raise? {
        DeliveredAgrees(regs, a);
      } else if RegisterOnly(i) {
        JumpRestart(i, regs, a);
      } else {
        DataRestart(i, m, regs, a);
      }
    }
  }

  /** `ks[j]` and `rs[j]` are the machine at the start of attempt `j`; every attempt but the
      last page-faults.  Between attempts other processes may do anything to the kernel that
      leaves process `s` its memory `fs[j][s] == m`. */
  ghost predicate AttemptsOf(decode: Decoder, s: nat, m: seq<Byte>,
                             ks: seq<Kernel>, fs: seq<Flat>, rs: seq<Registers>) {
    && |ks| == |fs| == |rs| > 0
    && (forall j :: 0 <= j < |ks| ==>
          && Inv(ks[j]) && ks[j].frames < 0x1_0000_0000 && Refines(ks[j], fs[j]) && s < |fs[j]| && fs[j][s] == m
          && RegsOk(rs[j]))
    && (forall j {:trigger ks[j]} :: 0 <= j < |ks| - 1 ==>
          OneInstruction(decode, ks[j], s, rs[j]).2 == PageFault
          && rs[j + 1] == OneInstruction(decode, ks[j], s, rs[j]).1)
    && OneInstruction(decode, ks[|ks| - 1], s, rs[|rs| - 1]).2 != PageFault
  }

  lemma FirstRestart(decode: Decoder, s: nat, m: seq<Byte>, ks: seq<Kernel>, fs: seq<Flat>, rs: seq<Registers>)
    requires AttemptsOf(decode, s, m, ks, fs, rs) && |ks| > 1
    requires NextIndependent(decode, m, rs[0])
    ensures AttemptsOf(decode, s, m, ks[1..], fs[1..], rs[1..]) && NextIndependent(decode, m, rs[1])
    ensures var r, r' := FlatInstruction(decode, m, rs[0]), FlatInstruction(decode, m, rs[1]);
            r.0 == r'.0 && Similar(r.1, r'.1) && r.2 == r'.2
  {
    hide OneInstruction, FlatInstruction, CoreMatchesTables, UsedMatchesCore, CleanPagesBacked, FramesDistinct;
    assert OneInstruction(decode, ks[0], s, rs[0]).2 == PageFault;
    assert OneInstruction(decode, ks[0], s, rs[0]).1 == rs[1];
    InstructionRefines(decode, ks[0], fs[0], s, rs[0]);
    var a :| rs[1] == RaiseException(rs[0], a);
    FlatRestart(decode, m, rs[0], a);
  }

  /** The main theorem: however often an instruction faults and restarts, it ends with the
      registers, PC chain and memory of an execution that never faulted. */
  lemma {:induction false} RestartIsTransparent(decode: Decoder, s: nat, m: seq<Byte>,
                                                ks: seq<Kernel>, fs: seq<Flat>, rs: seq<Registers>)
    requires AttemptsOf(decode, s, m, ks, fs, rs)
    requires NextIndependent(decode, m, rs[0])
    ensures var n := |ks| - 1;
            var r, flat := OneInstruction(decode, ks[n], s, rs[n]), FlatInstruction(decode, m, rs[0]);
            && Inv(r.0) && Refines(r.0, fs[n][s := flat.0])
            && Similar(flat.1, r.1) && r.2 == flat.2
    decreases |ks|
  {
    if |ks| == 1 {
      InstructionRefines(decode, ks[0], fs[0], s, rs[0]);
    } else {
      FirstRestart(decode, s, m, ks, fs, rs);
      RestartIsTransparent(decode, s, m, ks[1..], fs[1..], rs[1..]);
    }
  }
}
