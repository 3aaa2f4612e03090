/** The user-mode processor: delayed loads, the PC chain, and instructions that are
    abandoned by a page fault and executed again from the start. */
module Cpu {
  import opened Bytes
  import opened PagedMemory

  const HI := 32
  const LO := 33
  const PC := 34
  const NEXT_PC := 35
  const PREV_PC := 36
  const LOAD := 37
  const LOAD_VALUE := 38
  const BAD_VADDR := 39
  const NUM_TOTAL_REGS := 40
  const R31 := 31

  type Reg = r: int | 0 <= r < 32
  /** A general register, Hi or Lo. */
  type DataReg = r: int | 0 <= r < 34

  type Registers = seq<int>

  /** Instructions by the registers and memory they use; what they compute is arbitrary.
      `Alu` covers arithmetic, logic, shifts, comparisons and moves from or to Hi and Lo;
      `LoadPartial` and `StorePartial` are LWL/LWR and SWL/SWR on the aligned addresses
      they assert. */
  datatype Instr =
    | Alu(src1: DataReg, src2: DataReg, dst: DataReg, op: (int, int) -> int, overflows: (int, int) -> bool)
    | MulDiv(rs: Reg, rt: Reg, hi: (int, int) -> int, lo: (int, int) -> int)
    | Branch(rs: Reg, rt: Reg, taken: (int, int) -> bool, offset: int, link: bool)
    | Jump(target: int -> int, link: bool)
    | JumpRegister(rs: Reg, rd: Reg, link: bool)
    | Load(size: AccessSize, rs: Reg, rt: Reg, extra: int, extend: int -> int)
    | LoadPartial(rs: Reg, rt: Reg, extra: int, merge: (int, int) -> int)
    | Store(size: AccessSize, rs: Reg, rt: Reg, extra: int)
    | StorePartial(rs: Reg, rt: Reg, extra: int, combine: (int, int) -> int)
    | Raise

  /** r0 holds zero and the pending load, if any, targets a general register. */
  predicate RegsOk(regs: Registers) {
    |regs| == NUM_TOTAL_REGS && regs[0] == 0 && 0 <= regs[LOAD] < 32
  }

  function Wrap32(n: int): int { Signed(Unsigned(n), 0x1_0000_0000) }

  /** `Machine::DelayedLoad`. */
  function DelayedLoad(regs: Registers, nextReg: Reg, nextValue: int): (r: Registers)
    requires |regs| == NUM_TOTAL_REGS && 0 <= regs[LOAD] < 32
    ensures RegsOk(r)
  {
    regs[regs[LOAD] := regs[LOAD_VALUE]][LOAD := nextReg][LOAD_VALUE := nextValue][0 := 0]
  }

  /** The register effects of `Machine::RaiseException`. */
  function RaiseException(regs: Registers, badVAddr: int): (r: Registers)
    requires |regs| == NUM_TOTAL_REGS && 0 <= regs[LOAD] < 32
    ensures RegsOk(r)
  {
    DelayedLoad(regs[BAD_VADDR := badVAddr], 0, 0)
  }

  /** The end of a successful instruction: deliver the pending load, advance the PCs. */
  function Finish(regs: Registers, nextReg: Reg, nextValue: int, pcAfter: int): (r: Registers)
    requires |regs| == NUM_TOTAL_REGS && 0 <= regs[LOAD] < 32
    ensures RegsOk(r)
  {
    var d := DelayedLoad(regs, nextReg, nextValue);
    d[PREV_PC := d[PC]][PC := d[NEXT_PC]][NEXT_PC := pcAfter]
  }

  datatype Outcome = Completed | PageFault | Trapped

  function AbortOutcome(r: Result): Outcome {
    if r == Faulted then PageFault else Trapped
  }

  // ---------------------------------------------------------------- with any memory

  /** An instruction that uses no data memory. */
  predicate RegisterOnly(i: Instr) {
    i.Alu? || i.MulDiv? || i.Branch? || i.Jump? || i.JumpRegister? || i.Raise?
  }

  /** Register-only instructions: the new registers and whether the instruction completed. */
  function ExecuteRegisters(i: Instr, regs: Registers): (r: (Registers, Outcome))
    requires RegisterOnly(i) && RegsOk(regs)
    ensures RegsOk(r.0)
  {
    var next := regs[NEXT_PC];
    var pcAfter := Wrap32(next + 4);
    match i
    case Alu(src1, src2, dst, op, overflows) =>
      if overflows(regs[src1], regs[src2]) then (RaiseException(regs, 0), Trapped)
      else (Finish(regs[dst := op(regs[src1], regs[src2])], 0, 0, pcAfter), Completed)
    case MulDiv(rs, rt, hi, lo) =>
      (Finish(regs[HI := hi(regs[rs], regs[rt])][LO := lo(regs[rs], regs[rt])], 0, 0, pcAfter), Completed)
    case Branch(rs, rt, taken, offset, link) =>
      var linked := if link then regs[R31 := pcAfter] else regs;
      (Finish(linked, 0, 0, if taken(linked[rs], linked[rt]) then Wrap32(next + offset) else pcAfter), Completed)
    case Jump(target, link) =>
      (Finish(if link then regs[R31 := pcAfter] else regs, 0, 0, target(pcAfter)), Completed)
    case JumpRegister(rs, rd, link) =>
      var linked := if link then regs[rd := pcAfter] else regs;
      (Finish(linked, 0, 0, linked[rs]), Completed)
    case Raise => (RaiseException(regs, 0), Trapped)
  }

  /** The address a memory instruction uses. */
  function DataAddress(i: Instr, regs: Registers): int
    requires !RegisterOnly(i) && RegsOk(regs)
  {
    Wrap32(regs[i.rs] + i.extra)
  }

  function DataSize(i: Instr): AccessSize
    requires !RegisterOnly(i)
  {
    if i.Load? || i.Store? then i.size else 4
  }

  predicate Stores(i: Instr) { i.Store? || i.StorePartial? }

  /** What a load leaves for the next instruction, given the value read. */
  function LoadedValue(i: Instr, regs: Registers, value: int): int
    requires (i.Load? || i.LoadPartial?) && RegsOk(regs)
  {
    if i.Load? then i.extend(value)
    else i.merge(if regs[LOAD] == i.rt then regs[LOAD_VALUE] else regs[i.rt], value)
  }

  /** What a store puts in memory; `value` is the word a partial store read first. */
  function ValueToStore(i: Instr, regs: Registers, value: int): int
    requires Stores(i) && RegsOk(regs)
  {
    if i.Store? then regs[i.rt] else i.combine(regs[i.rt], value)
  }

  function AfterData(i: Instr, regs: Registers, value: int): (r: Registers)
    requires !RegisterOnly(i) && RegsOk(regs)
    ensures RegsOk(r)
  {
    var pcAfter := Wrap32(regs[NEXT_PC] + 4);
    if Stores(i) then Finish(regs, 0, 0, pcAfter)
    else Finish(regs, i.rt, LoadedValue(i, regs, value), pcAfter)
  }

  // ---------------------------------------------------------------- with paged memory

  type Decoder = int -> Instr

  /** The data access of instruction `i` on paged memory. */
  function ExecuteData(i: Instr, k: Kernel, s: nat, regs: Registers): (r: (Kernel, Registers, Outcome))
    requires !RegisterOnly(i) && Shape(k) && s < |k.spaces| && RegsOk(regs)
    ensures Shape(r.0) && RegsOk(r.1)
  {
    var addr := DataAddress(i, regs);
    if i.Store? then StoreData(k, s, regs, addr, i.size, regs[i.rt], i)
    else
      var (k1, r1) := Step(k, Read(s, addr, DataSize(i)));
      if !r1.Loaded? then (k1, RaiseException(regs, addr), AbortOutcome(r1))
      else if i.StorePartial? then
        StoreData(k1, s, regs, addr, 4, ValueToStore(i, regs, r1.value), i)
      else (k1, AfterData(i, regs, r1.value), Completed)
  }

  function StoreData(k: Kernel, s: nat, regs: Registers, addr: int, size: AccessSize, value: int, i: Instr)
    : (r: (Kernel, Registers, Outcome))
    requires Stores(i) && Shape(k) && s < |k.spaces| && RegsOk(regs)
    ensures Shape(r.0) && RegsOk(r.1)
  {
    var (k1, r1) := Step(k, Write(s, addr, size, value));
    if r1 != Stored then (k1, RaiseException(regs, addr), AbortOutcome(r1))
    else (k1, AfterData(i, regs, 0), Completed)
  }

  /** `Machine::OneInstruction` for a thread of process `s`. */
  function OneInstruction(decode: Decoder, k: Kernel, s: nat, regs: Registers): (r: (Kernel, Registers, Outcome))
    requires Shape(k) && s < |k.spaces| && RegsOk(regs)
    ensures Shape(r.0) && RegsOk(r.1)
  {
    var (k1, r1) := Step(k, Read(s, regs[PC], 4));
    if !r1.Loaded? then (k1, RaiseException(regs, regs[PC]), AbortOutcome(r1))
    else
      var i := decode(r1.value);
      if RegisterOnly(i) then
        var (regs1, o) := ExecuteRegisters(i, regs);
        (k1, regs1, o)
      else ExecuteData(i, k1, s, regs)
  }
}
