/** What every instruction does, register by register, on paged memory as on flat memory. */
module InstructionSet {
  import opened Bytes
  import opened PagedMemory
  import opened PagingInvariant
  import opened PagingRefinement
  import opened Cpu
  import opened Restart

  // ---------------------------------------------------------------- how an instruction ends

  /** A general register, Hi or Lo afterwards: a load that was pending is delivered last, and r0 is zero. */
  function Settled(regs: Registers, writes: map<int, int>, j: int): int
    requires RegsOk(regs) && 0 <= j < 34
  {
    if j == 0 then 0
    else if j == regs[LOAD] then regs[LOAD_VALUE]
    else if j in writes then writes[j]
    else regs[j]
  }

  /** The instruction wrote `writes`, leaves a load of `value` into `reg` pending, and goes on to the
      instruction after it and then to `target`. */
  ghost predicate Ends(regs: Registers, regs': Registers, writes: map<int, int>, reg: int, value: int, target: int)
    requires RegsOk(regs)
  {
    && |regs'| == NUM_TOTAL_REGS
    && (forall j :: 0 <= j < 34 ==> regs'[j] == Settled(regs, writes, j))
    && regs'[LOAD] == reg && regs'[LOAD_VALUE] == value
    && regs'[PC] == regs[NEXT_PC] && regs'[NEXT_PC] == target && regs'[PREV_PC] == regs[PC]
    && regs'[BAD_VADDR] == regs[BAD_VADDR]
  }

  /** It was abandoned: the pending load is delivered, the address recorded, and the PCs stay. */
  ghost predicate Abandoned(regs: Registers, regs': Registers, addr: int)
    requires RegsOk(regs)
  {
    && |regs'| == NUM_TOTAL_REGS
    && (forall j :: 0 <= j < 34 ==> regs'[j] == Settled(regs, map[], j))
    && regs'[LOAD] == 0 && regs'[LOAD_VALUE] == 0
    && regs'[PC] == regs[PC] && regs'[NEXT_PC] == regs[NEXT_PC] && regs'[PREV_PC] == regs[PREV_PC]
    && regs'[BAD_VADDR] == addr
  }

  /** The instruction four bytes further on. */
  function Following(regs: Registers): int
    requires RegsOk(regs)
  {
    Wrap32(regs[NEXT_PC] + 4)
  }

  /** A register once the return address is in `link`. */
  function Linked(regs: Registers, linking: bool, link: Reg, r: Reg): int
    requires RegsOk(regs)
  {
    if linking && r == link then Following(regs) else regs[r]
  }

  function Writes(linking: bool, link: Reg, regs: Registers): map<int, int>
    requires RegsOk(regs)
  {
    if linking then map[link := Following(regs)] else map[]
  }

  /** The effect of `i`, fetched at `regs[PC]`, on the memory `m` and the registers. */
  ghost predicate Means(i: Instr, m: seq<Byte>, regs: Registers, m': seq<Byte>, regs': Registers, o: Outcome)
    requires RegsOk(regs)
  {
    match i
    case Alu(src1, src2, dst, op, overflows) =>
      m' == m && if overflows(regs[src1], regs[src2]) then o == Trapped && Abandoned(regs, regs', 0)
                 else o == Completed && Ends(regs, regs', map[dst := op(regs[src1], regs[src2])], 0, 0, Following(regs))
    case MulDiv(rs, rt, hi, lo) =>
      && m' == m && o == Completed
      && Ends(regs, regs', map[HI := hi(regs[rs], regs[rt]), LO := lo(regs[rs], regs[rt])], 0, 0, Following(regs))
    case Branch(rs, rt, taken, offset, link) =>
      && m' == m && o == Completed
      && Ends(regs, regs', Writes(link, R31, regs), 0, 0,
              if taken(Linked(regs, link, R31, rs), Linked(regs, link, R31, rt)) then Wrap32(regs[NEXT_PC] + offset) else Following(regs))
    case Jump(target, link) =>
      m' == m && o == Completed && Ends(regs, regs', Writes(link, R31, regs), 0, 0, target(Following(regs)))
    case JumpRegister(rs, rd, link) =>
      m' == m && o == Completed && Ends(regs, regs', Writes(link, rd, regs), 0, 0, Linked(regs, link, rd, rs))
    case Load(size, rs, rt, extra, extend) =>
      LoadMeans(m, regs, Wrap32(regs[rs] + extra), size, rt, extend, m', regs', o)
    case LoadPartial(rs, rt, extra, merge) =>
      LoadMeans(m, regs, Wrap32(regs[rs] + extra), 4, rt,
                w => merge(if regs[LOAD] == rt then regs[LOAD_VALUE] else regs[rt], w), m', regs', o)
    case Store(size, rs, rt, extra) =>
      StoreMeans(m, regs, Wrap32(regs[rs] + extra), size, _ => regs[rt], m', regs', o)
    case StorePartial(rs, rt, extra, combine) =>
      StoreMeans(m, regs, Wrap32(regs[rs] + extra), 4, w => combine(regs[rt], w), m', regs', o)
    case Raise => m' == m && o == Trapped && Abandoned(regs, regs', 0)
  }

  ghost predicate LoadMeans(m: seq<Byte>, regs: Registers, addr: int, size: AccessSize, rt: Reg, extend: int -> int,
                            m': seq<Byte>, regs': Registers, o: Outcome)
    requires RegsOk(regs)
  {
    && m' == m
    && if Permitted(m, addr, size)
       then o == Completed && Ends(regs, regs', map[], rt, extend(FlatRead(m, addr, size)), Following(regs))
       else o == Trapped && Abandoned(regs, regs', addr)
  }

  ghost predicate StoreMeans(m: seq<Byte>, regs: Registers, addr: int, size: AccessSize, value: int -> int,
                             m': seq<Byte>, regs': Registers, o: Outcome)
    requires RegsOk(regs)
  {
    if Permitted(m, addr, size)
    then o == Completed && m' == FlatWrite(m, addr, size, value(FlatRead(m, addr, size))) && Ends(regs, regs', map[], 0, 0, Following(regs))
    else o == Trapped && m' == m && Abandoned(regs, regs', addr)
  }

  // ---------------------------------------------------------------- both processors

  lemma FinishEnds(regs: Registers, written: Registers, writes: map<int, int>, reg: Reg, value: int, target: int)
    requires RegsOk(regs) && |written| == NUM_TOTAL_REGS
    requires forall j :: 0 <= j < NUM_TOTAL_REGS ==> written[j] == if j in writes then writes[j] else regs[j]
    requires forall j :: j in writes ==> 0 <= j < 34
    ensures Ends(regs, Finish(written, reg, value, target), writes, reg, value, target)
  {
  }

  lemma RaiseAbandons(regs: Registers, addr: int)
    requires RegsOk(regs)
    ensures Abandoned(regs, RaiseException(regs, addr), addr)
  {
  }

  lemma RegistersMean(i: Instr, m: seq<Byte>, regs: Registers)
    requires RegisterOnly(i) && RegsOk(regs)
    ensures var (regs', o) := ExecuteRegisters(i, regs); Means(i, m, regs, m, regs', o)
  {
    hide Finish, RaiseException, Wrap32, Ends, Abandoned;
    RaiseAbandons(regs, 0);
    var next := Following(regs);
    match i
    case Alu(src1, src2, dst, op, _) =>
      var x := op(regs[src1], regs[src2]);
      FinishEnds(regs, regs[dst := x], map[dst := x], 0, 0, next);
    case MulDiv(rs, rt, hi, lo) =>
      var x, y := hi(regs[rs], regs[rt]), lo(regs[rs], regs[rt]);
      FinishEnds(regs, regs[HI := x][LO := y], map[HI := x, LO := y], 0, 0, next);
    case Branch(rs, rt, taken, offset, link) =>
      var linked := if link then regs[R31 := next] else regs;
      FinishEnds(regs, linked, Writes(link, R31, regs), 0, 0, if taken(linked[rs], linked[rt]) then Wrap32(regs[NEXT_PC] + offset) else next);
    case Jump(target, link) =>
      FinishEnds(regs, if link then regs[R31 := next] else regs, Writes(link, R31, regs), 0, 0, target(next));
    case JumpRegister(rs, rd, link) =>
      var linked := if link then regs[rd := next] else regs;
      FinishEnds(regs, linked, Writes(link, rd, regs), 0, 0, linked[rs]);
    case Raise =>
  }

  lemma DataMeans(i: Instr, m: seq<Byte>, regs: Registers)
    requires !RegisterOnly(i) && RegsOk(regs)
    ensures var (m', regs', o) := FlatData(i, m, regs); Means(i, m, regs, m', regs', o)
  {
    hide Finish, RaiseException, Wrap32, Ends, Abandoned, Permitted, FlatRead, FlatWrite;
    var addr := DataAddress(i, regs);
    RaiseAbandons(regs, addr);
    if Permitted(m, addr, DataSize(i)) {
      var value := FlatRead(m, addr, DataSize(i));
      if Stores(i) {
        FinishEnds(regs, regs, map[], 0, 0, Following(regs));
      } else {
        FinishEnds(regs, regs, map[], i.rt, LoadedValue(i, regs, value), Following(regs));
      }
    }
  }

  /** The flat processor fetches the word at its PC and does what it means. */
  lemma FlatMeans(decode: Decoder, m: seq<Byte>, regs: Registers)
    requires RegsOk(regs)
    ensures var (m', regs', o) := FlatInstruction(decode, m, regs);
            if Permitted(m, regs[PC], 4) then Means(decode(FlatRead(m, regs[PC], 4)), m, regs, m', regs', o)
            else m' == m && o == Trapped && Abandoned(regs, regs', regs[PC])
  {
    hide Means, FlatData, ExecuteRegisters, RaiseException, Abandoned;
    RaiseAbandons(regs, regs[PC]);
    if Permitted(m, regs[PC], 4) {
      var i := decode(FlatRead(m, regs[PC], 4));
      if RegisterOnly(i) { RegistersMean(i, m, regs); } else { DataMeans(i, m, regs); }
    }
  }

  /** An instruction on paged memory either page-faults, which changes nothing its process can see but
      delivers the pending load, or does to the process's memory and registers exactly what the word at
      its PC means. */
  lemma PagedInstructionMeans(decode: Decoder, k: Kernel, f: Flat, s: nat, regs: Registers) returns (m': seq<Byte>, addr: int)
    requires Inv(k) && Refines(k, f) && s < |f| && RegsOk(regs) && k.frames < 0x1_0000_0000
    ensures var (k', regs', o) := OneInstruction(decode, k, s, regs);
            && Inv(k') && Refines(k', f[s := m'])
            && if o == PageFault then m' == f[s] && Abandoned(regs, regs', addr)
               else if Permitted(f[s], regs[PC], 4) then Means(decode(FlatRead(f[s], regs[PC], 4)), f[s], regs, m', regs', o)
               else m' == f[s] && o == Trapped && Abandoned(regs, regs', regs[PC])
  {
    hide OneInstruction, FlatInstruction, RaiseException, CoreMatchesTables, UsedMatchesCore, CleanPagesBacked, FramesDistinct, Means, Abandoned;
    InstructionRefines(decode, k, f, s, regs);
    FlatMeans(decode, f[s], regs);
    var r := OneInstruction(decode, k, s, regs);
    if r.2 == PageFault {
      m' := f[s];
      addr :| r.1 == RaiseException(regs, addr);
      RaiseAbandons(regs, addr);
      assert f[s := m'] == f;
    } else {
      m', addr := FlatInstruction(decode, f[s], regs).0, 0;
    }
  }
}
