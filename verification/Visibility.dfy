/** Exactly when a restart after a page fault can be noticed, for every class of instruction and
    with the operations the processor has.  A fault delivers the pending load early, so what
    matters is whether the instruction uses the load's target. */
module Visibility {
  import opened Basics
  import opened Bytes
  import opened PagedMemory
  import opened PagingRefinement
  import opened Cpu
  import opened Restart

  /** Executing an instruction that has been fetched, on flat memory. */
  function Execute(i: Instr, m: seq<Byte>, regs: Registers): (r: (seq<Byte>, Registers, Outcome))
    requires RegsOk(regs)
    ensures RegsOk(r.1)
  {
    if RegisterOnly(i) then var (regs1, o) := ExecuteRegisters(i, regs); (m, regs1, o)
    else FlatData(i, m, regs)
  }

  predicate Fits(n: int) { -0x8000_0000 <= n < 0x8000_0000 }

  /** Register contents the machine can have, with a load into `target` pending. */
  ghost predicate Waiting(regs: Registers, target: Reg) {
    RegsOk(regs) && regs[LOAD] == target && forall j :: 0 <= j < NUM_TOTAL_REGS ==> Fits(regs[j])
  }

  /** Executing `i` at once and executing it after a fault end the same. */
  ghost predicate Agrees(i: Instr, m: seq<Byte>, regs: Registers, a: int)
    requires RegsOk(regs)
  {
    var r, r' := Execute(i, m, regs), Execute(i, m, RaiseException(regs, a));
    r.0 == r'.0 && Similar(r.1, r'.1) && r.2 == r'.2
  }

  /** Address spaces are whole pages, below the sign bit. */
  predicate IsSpace(m: seq<Byte>) { |m| % PAGE_SIZE == 0 && |m| < 0x8000_0000 }

  /** Whatever the registers and memory, a restart of `i` cannot be noticed. */
  ghost predicate Transparent(i: Instr, target: Reg) {
    forall m: seq<Byte>, regs: Registers, a: int :: IsSpace(m) && Waiting(regs, target) ==> Agrees(i, m, regs, a)
  }

  lemma IndependentIsTransparent(i: Instr, target: Reg)
    requires Independent(i, target)
    ensures Transparent(i, target)
  {
    hide Similar, RaiseException, ExecuteRegisters, FlatData;
    forall m: seq<Byte>, regs: Registers, a: int | Waiting(regs, target) ensures Agrees(i, m, regs, a) {
      if i.Alu? || i.MulDiv? {
        ComputeRestart(i, regs, a);
      } else if i.Raise? {
        RaiseRestart(i, regs, a);
      } else if RegisterOnly(i) {
        JumpRestart(i, regs, a);
      } else {
        DataRestart(i, m, regs, a);
      }
    }
  }

  lemma RaiseRestart(i: Instr, regs: Registers, a: int)
    requires i.Raise? && RegsOk(regs)
    ensures var r, r' := ExecuteRegisters(i, regs), ExecuteRegisters(i, RaiseException(regs, a));
            Similar(r.0, r'.0) && r.1 == r'.1
  {
    DeliveredAgrees(regs, a);
  }

  /** All registers zero, except that `o` holds `x` and a load of `v` into `target` is pending. */
  function State(target: Reg, v: int, o: Reg, x: int): (regs: Registers)
    requires Fits(v) && Fits(x)
    ensures Waiting(regs, target) && regs[LOAD_VALUE] == v
    ensures forall j :: 0 <= j < LOAD ==> regs[j] == if j == o && o != 0 then x else 0
  {
    seq(NUM_TOTAL_REGS, j => if j == LOAD then target else if j == LOAD_VALUE then v else if j == o && o != 0 then x else 0)
  }

  /** What the instruction sees when it starts over. */
  lemma StartOver(target: Reg, v: int, o: Reg, x: int)
    requires Fits(v) && Fits(x) && target != 0
    ensures var early := RaiseException(State(target, v, o, x), 0);
            && early[LOAD] == 0 && early[0] == 0 && early[target] == v
            && forall j :: 0 <= j < LOAD && j != target ==> early[j] == State(target, v, o, x)[j]
  {
  }

  lemma WrapFits(n: int)
    requires Fits(n)
    ensures Wrap32(n) == n
  {
  }

  // ---------------------------------------------------------------- computations

  /** What an operand register holds when the target holds `t` and the register otherwise `x`. */
  function Operand(src: DataReg, target: Reg, t: int, x: int): int {
    if src == 0 then 0 else if src == target then t else x
  }

  /** With `old` in the target and `v` to be delivered: both orders overflow alike, and if they do
      not the result is the same, is thrown away, or is what is delivered. */
  ghost predicate SameComputation(i: Instr, target: Reg, was: int, v: int, x: int, y: int)
    requires i.Alu?
  {
    var late1, late2 := Operand(i.src1, target, was, x), Operand(i.src2, target, was, y);
    var early1, early2 := Operand(i.src1, target, v, x), Operand(i.src2, target, v, y);
    && i.overflows(late1, late2) == i.overflows(early1, early2)
    && (!i.overflows(late1, late2) ==>
          if i.dst == target then i.op(early1, early2) == v
          else i.dst == 0 || i.op(late1, late2) == i.op(early1, early2))
  }

  /** Values that registers can hold at the same time. */
  predicate Possible(i: Instr, was: int, v: int, x: int, y: int)
    requires i.Alu?
  {
    Fits(was) && Fits(v) && Fits(x) && Fits(y) && (i.src1 == i.src2 ==> x == y)
  }

  /** The registers that hold these values, and zero elsewhere. */
  function Holding(i: Instr, target: Reg, was: int, v: int, x: int, y: int): (regs: Registers)
    requires i.Alu? && target != 0 && Possible(i, was, v, x, y)
    ensures Waiting(regs, target) && regs[LOAD_VALUE] == v && regs[target] == was && regs[0] == 0
    ensures regs[i.src1] == Operand(i.src1, target, was, x) && regs[i.src2] == Operand(i.src2, target, was, y)
  {
    seq(NUM_TOTAL_REGS, j requires 0 <= j =>
      if j == LOAD then target else if j == LOAD_VALUE then v else if j == 0 then 0 else if j == target then was
      else if j == i.src1 then x else if j == i.src2 then y else 0)
  }

  lemma ComputationAgrees(i: Instr, m: seq<Byte>, regs: Registers, a: int)
    requires i.Alu? && RegsOk(regs) && regs[LOAD] != 0
    requires SameComputation(i, regs[LOAD], regs[regs[LOAD]], regs[LOAD_VALUE], regs[i.src1], regs[i.src2])
    ensures Agrees(i, m, regs, a)
  {
    DeliveredAgrees(regs, a);
    var early, next := RaiseException(regs, a), Wrap32(regs[NEXT_PC] + 4);
    hide Wrap32, Finish, RaiseException, Similar;
    if !i.overflows(regs[i.src1], regs[i.src2]) {
      FinishAgrees(regs[i.dst := i.op(regs[i.src1], regs[i.src2])], early[i.dst := i.op(early[i.src1], early[i.src2])], 0, 0, 0, next);
    }
  }

  lemma AgreementIsSame(i: Instr, target: Reg, was: int, v: int, x: int, y: int)
    requires i.Alu? && target != 0 && Possible(i, was, v, x, y) && Agrees(i, [], Holding(i, target, was, v, x, y), 0)
    ensures SameComputation(i, target, was, v, x, y)
  {
    hide Wrap32;
    var regs := Holding(i, target, was, v, x, y);
    DeliveredAgrees(regs, 0);
    var early := RaiseException(regs, 0);
    var late', early' := ExecuteRegisters(i, regs), ExecuteRegisters(i, early);
    if !i.overflows(regs[i.src1], regs[i.src2]) && i.dst != 0 {
      assert late'.0[i.dst] == (if i.dst == target then v else i.op(regs[i.src1], regs[i.src2]));
      assert early'.1 == Completed && early'.0[i.dst] == i.op(early[i.src1], early[i.src2]);
    }
  }

  /** The exact condition for any one computation: it overflows alike and gives the same with the
      old and the delivered value of the pending target. */
  lemma AluTransparentIff(i: Instr, target: Reg)
    requires i.Alu? && target != 0
    ensures Transparent(i, target)
            <==> forall was, v, x, y :: Possible(i, was, v, x, y) ==> SameComputation(i, target, was, v, x, y)
  {
    hide Agrees, SameComputation, Holding;
    if Transparent(i, target) {
      forall was, v, x, y | Possible(i, was, v, x, y) ensures SameComputation(i, target, was, v, x, y) {
        assert IsSpace([]) && Waiting(Holding(i, target, was, v, x, y), target);
        AgreementIsSame(i, target, was, v, x, y);
      }
    } else {
      var m: seq<Byte>, regs: Registers, a: int :| IsSpace(m) && Waiting(regs, target) && !Agrees(i, m, regs, a);
      if SameComputation(i, target, regs[target], regs[LOAD_VALUE], regs[i.src1], regs[i.src2]) { ComputationAgrees(i, m, regs, a); }
      assert Possible(i, regs[target], regs[LOAD_VALUE], regs[i.src1], regs[i.src2]);
    }
  }

  type HiLo = r: int | r == HI || r == LO witness HI

  function MoveFrom(h: HiLo, rd: Reg): Instr { Alu(h, 0, rd, (x, y) => x, (x, y) => false) }

  function MoveTo(h: HiLo, rs: Reg): Instr { Alu(rs, 0, h, (x, y) => x, (x, y) => false) }

  lemma MoveTransparentIff(h: HiLo, r: Reg, target: Reg)
    ensures Transparent(MoveFrom(h, r), target) <==> target == 0 || target != r
    ensures Transparent(MoveTo(h, r), target) <==> target == 0 || target != r
  {
    if target == 0 || target != r {
      IndependentIsTransparent(MoveFrom(h, r), target);
      IndependentIsTransparent(MoveTo(h, r), target);
    } else {
      var regs := State(target, 1, 0, 0);
      StartOver(target, 1, 0, 0);
      assert ExecuteRegisters(MoveFrom(h, r), regs).0[r] == 1 && ExecuteRegisters(MoveFrom(h, r), RaiseException(regs, 0)).0[r] == 0;
      assert ExecuteRegisters(MoveTo(h, r), regs).0[h] == 0 && ExecuteRegisters(MoveTo(h, r), RaiseException(regs, 0)).0[h] == 1;
      assert IsSpace([]) && !Agrees(MoveFrom(h, r), [], regs, 0) && !Agrees(MoveTo(h, r), [], regs, 0);
    }
  }

  // ---------------------------------------------------------------- multiplication and division

  /** C division, which truncates; the processor defines division by zero as zero. */
  function Quotient(x: int, y: int): int {
    if y == 0 then 0 else if (x < 0) == (y < 0) then Magnitude(x) / Magnitude(y) else -(Magnitude(x) / Magnitude(y))
  }

  function Remainder(x: int, y: int): int { if y == 0 then 0 else x - Quotient(x, y) * y }

  datatype MulDivKind = MULT | MULTU | DIV | DIVU

  /** Hi and Lo. */
  function MulDivResult(n: MulDivKind, x: int, y: int): (int, int) {
    match n
    case MULT => (Wrap32(x * y / 0x1_0000_0000), Wrap32(x * y))
    case MULTU => var p := Unsigned(x) * Unsigned(y); (Wrap32(p / 0x1_0000_0000), Wrap32(p))
    case DIV => (Wrap32(Remainder(x, y)), Wrap32(Quotient(x, y)))
    case DIVU => var u, v := Unsigned(x), Unsigned(y); (Wrap32(Remainder(u, v)), Wrap32(Quotient(u, v)))
  }

  function MulDivInstr(n: MulDivKind, rs: Reg, rt: Reg): Instr {
    MulDiv(rs, rt, (x, y) => MulDivResult(n, x, y).0, (x, y) => MulDivResult(n, x, y).1)
  }

  predicate MulDivExact(rs: Reg, rt: Reg, target: Reg) {
    target == 0 || target !in {rs, rt} || rs == 0 || rt == 0
  }

  lemma ZeroOperand(i: Instr, regs: Registers, a: int)
    requires i.MulDiv? && RegsOk(regs)
    requires var early := RaiseException(regs, a);
             i.hi(regs[i.rs], regs[i.rt]) == i.hi(early[i.rs], early[i.rt]) && i.lo(regs[i.rs], regs[i.rt]) == i.lo(early[i.rs], early[i.rt])
    ensures Agrees(i, [], regs, a)
    ensures forall m :: Agrees(i, m, regs, a)
  {
    var early := RaiseException(regs, a);
    DeliveredAgrees(regs, a);
    var x, y := i.hi(regs[i.rs], regs[i.rt]), i.lo(regs[i.rs], regs[i.rt]);
    FinishAgrees(regs[HI := x][LO := y], early[HI := x][LO := y], 0, 0, 0, Wrap32(regs[NEXT_PC] + 4));
  }

  lemma QuotientOfZero(x: int, y: int)
    requires x == 0 || y == 0
    ensures x * y == 0 && Quotient(x, y) == 0 && Remainder(x, y) == 0
  {
  }

  lemma ResultOfZero(n: MulDivKind, x: int, y: int)
    requires x == 0 || y == 0
    ensures MulDivResult(n, x, y) == (0, 0)
  {
    hide Quotient, Remainder, Wrap32;
    WrapFits(0);
    QuotientOfZero(x, y);
    QuotientOfZero(Unsigned(x), Unsigned(y));
  }

  lemma ResultOfOnes(n: MulDivKind)
    ensures MulDivResult(n, 1, 1).1 == 1
  {
  }

  /** With r0 as an operand the result is zero whatever the other one holds. */
  lemma ZeroIsTransparent(n: MulDivKind, rs: Reg, rt: Reg, target: Reg)
    requires rs == 0 || rt == 0
    ensures Transparent(MulDivInstr(n, rs, rt), target)
  {
    hide MulDivResult, Agrees;
    var i := MulDivInstr(n, rs, rt);
    forall m: seq<Byte>, regs: Registers, a: int | Waiting(regs, target) ensures Agrees(i, m, regs, a) {
      DeliveredAgrees(regs, a);
      var early := RaiseException(regs, a);
      ResultOfZero(n, regs[rs], regs[rt]);
      ResultOfZero(n, early[rs], early[rt]);
      ZeroOperand(i, regs, a);
    }
  }

  /** An instruction whose low result is zero before the load is delivered and one after. */
  lemma LowIsVisible(i: Instr, target: Reg, regs: Registers)
    requires i.MulDiv? && Waiting(regs, target)
    requires var early := RaiseException(regs, 0);
             i.lo(regs[i.rs], regs[i.rt]) == 0 && i.lo(early[i.rs], early[i.rt]) == 1
    ensures !Transparent(i, target)
  {
    assert ExecuteRegisters(i, regs).0[LO] == 0 && ExecuteRegisters(i, RaiseException(regs, 0)).0[LO] == 1;
    assert IsSpace([]) && !Agrees(i, [], regs, 0);
  }

  lemma MulDivTransparentIff(n: MulDivKind, rs: Reg, rt: Reg, target: Reg)
    ensures Transparent(MulDivInstr(n, rs, rt), target) <==> MulDivExact(rs, rt, target)
  {
    hide Transparent, MulDivResult;
    var i := MulDivInstr(n, rs, rt);
    if target == 0 || target !in {rs, rt} {
      IndependentIsTransparent(i, target);
    } else if rs == 0 || rt == 0 {
      ZeroIsTransparent(n, rs, rt, target);
    } else {
      var other := if rs == target then rt else rs;
      var o := if other == target then 0 else other;
      var regs := State(target, 1, o, 1);
      StartOver(target, 1, o, 1);
      ResultOfZero(n, regs[rs], regs[rt]);
      ResultOfOnes(n);
      LowIsVisible(i, target, regs);
    }
  }

  // ---------------------------------------------------------------- branches and jumps

  /** `BEQ` and `BNE`. */
  function BranchEqual(eq: bool, rs: Reg, rt: Reg, offset: int): Instr {
    Branch(rs, rt, (x, y) => (x == y) == eq, offset, false)
  }

  predicate IsOffset(offset: int) { -0x2_0000 <= offset < 0x2_0000 }

  lemma SameRegisterBranch(eq: bool, rs: Reg, offset: int, regs: Registers, a: int, m: seq<Byte>)
    requires RegsOk(regs)
    ensures Agrees(BranchEqual(eq, rs, rs, offset), m, regs, a)
  {
    hide Finish, Wrap32, RaiseException, Similar;
    DeliveredAgrees(regs, a);
    FinishAgrees(regs, RaiseException(regs, a), 0, 0, 0, if eq then Wrap32(regs[NEXT_PC] + offset) else Wrap32(regs[NEXT_PC] + 4));
  }

  /** A branch to the next instruction goes there in any case. */
  lemma NextBranch(i: Instr, regs: Registers, a: int, m: seq<Byte>)
    requires RegsOk(regs) && i.Branch? && i.offset == 4 && (i.link ==> regs[LOAD] != R31)
    ensures Agrees(i, m, regs, a)
  {
    hide Finish, Wrap32, RaiseException, Similar;
    DeliveredAgrees(regs, a);
    var next := Wrap32(regs[NEXT_PC] + 4);
    var late, early := regs, RaiseException(regs, a);
    if i.link {
      FinishAgrees(late[R31 := next], early[R31 := next], 0, 0, 0, next);
    } else {
      FinishAgrees(late, early, 0, 0, 0, next);
    }
  }

  lemma ComparisonIsVisible(eq: bool, rs: Reg, rt: Reg, offset: int, target: Reg)
    requires IsOffset(offset) && offset != 4 && rs != rt && target != 0 && target in {rs, rt}
    ensures !Transparent(BranchEqual(eq, rs, rt, offset), target)
  {
    hide Wrap32, RaiseException;
    var i, regs := BranchEqual(eq, rs, rt, offset), State(target, 1, 0, 0);
    StartOver(target, 1, 0, 0);
    WrapFits(offset);
    WrapFits(4);
    assert ExecuteRegisters(i, regs).0[NEXT_PC] == if eq then offset else 4;
    assert ExecuteRegisters(i, RaiseException(regs, 0)).0[NEXT_PC] == if eq then 4 else offset;
    assert IsSpace([]) && !Agrees(i, [], regs, 0);
  }

  lemma SameRegisterIsTransparent(eq: bool, rs: Reg, offset: int, target: Reg)
    ensures Transparent(BranchEqual(eq, rs, rs, offset), target)
  {
    hide Agrees;
    forall m: seq<Byte>, regs: Registers, a: int | Waiting(regs, target) ensures Agrees(BranchEqual(eq, rs, rs, offset), m, regs, a) {
      SameRegisterBranch(eq, rs, offset, regs, a, m);
    }
  }

  lemma BranchEqualTransparentIff(eq: bool, rs: Reg, rt: Reg, offset: int, target: Reg)
    requires IsOffset(offset)
    ensures Transparent(BranchEqual(eq, rs, rt, offset), target)
            <==> target == 0 || target !in {rs, rt} || rs == rt || offset == 4
  {
    hide Transparent;
    var i := BranchEqual(eq, rs, rt, offset);
    if target == 0 || target !in {rs, rt} {
      IndependentIsTransparent(i, target);
    } else if rs == rt {
      SameRegisterIsTransparent(eq, rs, offset, target);
    } else if offset == 4 {
      NextIsTransparent(i, target);
    } else {
      ComparisonIsVisible(eq, rs, rt, offset, target);
    }
  }

  datatype Sign = LTZ | GEZ | LEZ | GTZ

  function Test(n: Sign, x: int): bool {
    match n
    case LTZ => x < 0
    case GEZ => x >= 0
    case LEZ => x <= 0
    case GTZ => x > 0
  }

  /** `BLTZ`, `BGEZ`, `BLEZ` and `BGTZ`; with `link`, `BLTZAL` and `BGEZAL`. */
  function BranchSign(n: Sign, rs: Reg, offset: int, link: bool): Instr {
    Branch(rs, 0, (x, y) => Test(n, x), offset, link)
  }

  lemma SignIsVisible(n: Sign, rs: Reg, offset: int, link: bool)
    requires rs != 0 && offset != 4 && IsOffset(offset) && (link ==> rs != R31)
    ensures !Transparent(BranchSign(n, rs, offset, link), rs)
  {
    var v := if n == LTZ || n == GEZ then -1 else 1;
    hide Wrap32, RaiseException;
    var i, regs := BranchSign(n, rs, offset, link), State(rs, v, 0, 0);
    StartOver(rs, v, 0, 0);
    WrapFits(offset);
    WrapFits(4);
    assert ExecuteRegisters(i, regs).0[NEXT_PC] == if Test(n, 0) then offset else 4;
    assert ExecuteRegisters(i, RaiseException(regs, 0)).0[NEXT_PC] == if Test(n, v) then offset else 4;
    assert IsSpace([]) && !Agrees(i, [], regs, 0);
  }

  /** Any instruction that links in the pending target. */
  lemma LinkIsVisible(i: Instr, target: Reg)
    requires target != 0 && (i.Branch? || i.Jump? || i.JumpRegister?) && i.link
    requires target == if i.JumpRegister? then i.rd else R31
    ensures !Transparent(i, target)
  {
    var regs := State(target, 1, 0, 0);
    StartOver(target, 1, 0, 0);
    assert ExecuteRegisters(i, regs).0[target] == 1;
    assert ExecuteRegisters(i, RaiseException(regs, 0)).0[target] == 4;
    assert IsSpace([]) && !Agrees(i, [], regs, 0);
  }

  lemma BranchSignTransparentIff(n: Sign, rs: Reg, offset: int, link: bool, target: Reg)
    requires IsOffset(offset)
    ensures Transparent(BranchSign(n, rs, offset, link), target)
            <==> target == 0 || ((link ==> target != R31) && (target != rs || offset == 4))
  {
    hide Transparent;
    var i := BranchSign(n, rs, offset, link);
    if target == 0 || (target != rs && (link ==> target != R31)) {
      IndependentIsTransparent(i, target);
    } else if link && target == R31 {
      LinkIsVisible(i, target);
    } else if offset != 4 {
      SignIsVisible(n, rs, offset, link);
    } else {
      NextIsTransparent(i, target);
    }
  }

  lemma NextIsTransparent(i: Instr, target: Reg)
    requires i.Branch? && i.offset == 4 && (i.link ==> target != R31)
    ensures Transparent(i, target)
  {
    hide Agrees;
    forall m: seq<Byte>, regs: Registers, a: int | Waiting(regs, target) ensures Agrees(i, m, regs, a) {
      NextBranch(i, regs, a, m);
    }
  }

  /** `J` and `JAL`, whatever the address; `JR` and `JALR`. */
  lemma JumpTransparentIff(i: Instr, target: Reg)
    requires i.Jump? || i.JumpRegister?
    ensures Transparent(i, target) <==> Independent(i, target)
  {
    hide Transparent;
    if Independent(i, target) {
      IndependentIsTransparent(i, target);
    } else if i.link && target == (if i.JumpRegister? then i.rd else R31) {
      LinkIsVisible(i, target);
    } else {
      AddressIsVisible(i);
    }
  }

  lemma AddressIsVisible(i: Instr)
    requires i.JumpRegister? && i.rs != 0 && (i.link ==> i.rd != i.rs)
    ensures !Transparent(i, i.rs)
  {
    var regs := State(i.rs, 8, 0, 0);
    StartOver(i.rs, 8, 0, 0);
    assert ExecuteRegisters(i, regs).0[NEXT_PC] == 0;
    assert ExecuteRegisters(i, RaiseException(regs, 0)).0[NEXT_PC] == 8;
    assert IsSpace([]) && !Agrees(i, [], regs, 0);
  }

  // ---------------------------------------------------------------- loads and stores

  predicate IsImmediate(extra: int) { -0x8000 <= extra < 0x8000 }

  function Zeros(n: nat): seq<Byte> { seq(n, _ => 0) }

  /** A base register that leaves memory once the load is delivered traps only after a restart. */
  lemma BaseIsVisible(i: Instr)
    requires !RegisterOnly(i) && i.rs != 0 && IsImmediate(i.extra)
    ensures !Transparent(i, i.rs)
  {
    var regs := State(i.rs, 4096 - i.extra, i.rs, -i.extra);
    StartOver(i.rs, 4096 - i.extra, i.rs, -i.extra);
    assert DataAddress(i, regs) == 0 && DataAddress(i, RaiseException(regs, 0)) == 4096;
    assert Permitted(Zeros(128), 0, DataSize(i)) && !Permitted(Zeros(128), 4096, DataSize(i));
    assert IsSpace(Zeros(128)) && !Agrees(i, Zeros(128), regs, 0);
  }

  /** Loads of every size and kind, LWL and LWR included. */
  lemma LoadTransparentIff(i: Instr, target: Reg)
    requires (i.Load? || i.LoadPartial?) && IsImmediate(i.extra)
    ensures Transparent(i, target) <==> target == 0 || target != i.rs
  {
    hide Transparent;
    if target == 0 || target != i.rs { IndependentIsTransparent(i, target); } else { BaseIsVisible(i); }
  }

  datatype StoreKind = Whole(size: AccessSize) | Left | Right

  /** `SB`, `SH` and `SW`, and `SWL` and `SWR` at the aligned addresses they assert. */
  function StoreInstr(n: StoreKind, rs: Reg, rt: Reg, extra: int): Instr {
    match n
    case Whole(size) => Store(size, rs, rt, extra)
    case Left => StorePartial(rs, rt, extra, (r, w) => r)
    case Right => StorePartial(rs, rt, extra, (r, w) => w % 0x100_0000 + r % 0x100 * 0x100_0000)
  }

  /** With r0 as base, a store that is misaligned or goes below zero, which is far above any address
      space, traps in any case. */
  predicate NeverStores(i: Instr)
    requires !RegisterOnly(i)
  {
    i.rs == 0 && (i.extra < 0 || Misaligned(i.extra, DataSize(i)))
  }

  lemma OutsideSpace(m: seq<Byte>, addr: int, size: AccessSize)
    requires IsSpace(m) && Fits(addr) && (addr < 0 || Misaligned(addr, size))
    ensures !Permitted(m, addr, size)
  {
  }

  lemma NeverStoresIsTransparent(i: Instr, target: Reg)
    requires Stores(i) && NeverStores(i) && IsImmediate(i.extra)
    ensures Transparent(i, target)
  {
    hide Wrap32, Similar, RaiseException, Permitted, Misaligned, FlatRead, FlatWrite, AfterData;
    WrapFits(i.extra);
    forall m: seq<Byte>, regs: Registers, a: int | IsSpace(m) && Waiting(regs, target) ensures Agrees(i, m, regs, a) {
      DeliveredAgrees(regs, a);
      OutsideSpace(m, i.extra, DataSize(i));
      assert DataAddress(i, regs) == i.extra && DataAddress(i, RaiseException(regs, a)) == i.extra;
    }
  }

  /** What a store of register value `r` leaves of zeros. */
  function Stored(n: StoreKind, m: seq<Byte>, u: nat, r: int): seq<Byte>
    requires u + (if n.Whole? then n.size else 4) <= |m|
  {
    match n
    case Whole(size) => Patch(m, u, ToBytes(size, r))
    case Left => Patch(m, u, ToBytes(4, r))
    case Right => Patch(m, u, ToBytes(4, r % 0x100 * 0x100_0000))
  }

  lemma StoreOverZeros(n: StoreKind, rs: Reg, rt: Reg, extra: int, addr: int, len: nat, regs: Registers)
    requires RegsOk(regs) && IsImmediate(extra) && Fits(addr) && Wrap32(regs[rs] + extra) == addr
    requires !Misaligned(addr, DataSize(StoreInstr(n, rs, rt, extra)))
    requires Unsigned(addr) + DataSize(StoreInstr(n, rs, rt, extra)) <= len
    ensures var i := StoreInstr(n, rs, rt, extra);
            Execute(i, Zeros(len), regs).0 == Stored(n, Zeros(len), Unsigned(addr), regs[rt])
  {
    hide Wrap32, ToBytes, Patch, Unsigned;
    var i := StoreInstr(n, rs, rt, extra);
    ZeroRead(Zeros(len), addr, DataSize(i));
  }

  /** The stored value shows in memory. */
  lemma ValueIsVisible(n: StoreKind, rs: Reg, target: Reg, extra: int)
    requires target != 0 && rs != target && IsImmediate(extra)
    requires !NeverStores(StoreInstr(n, rs, target, extra))
    ensures !Transparent(StoreInstr(n, rs, target, extra), target)
  {
    hide Execute, Stored, Zeros, RaiseException;
    var i := StoreInstr(n, rs, target, extra);
    var regs := State(target, 1, rs, -extra);
    StartOver(target, 1, rs, -extra);
    var early := RaiseException(regs, 0);
    var addr := if rs == 0 then extra else 0;
    var m := Zeros(0x8080);
    ZerosLength(0x8080);
    StoreOverZeros(n, rs, target, extra, addr, 0x8080, regs);
    StoreOverZeros(n, rs, target, extra, addr, 0x8080, early);
    StoredDiffer(n, m, Unsigned(addr));
    assert IsSpace(m) && !Agrees(i, m, regs, 0);
  }

  lemma ZerosLength(n: nat)
    ensures |Zeros(n)| == n
  {
  }

  lemma ZeroRead(m: seq<Byte>, addr: int, size: AccessSize)
    requires Permitted(m, addr, size) && m == Zeros(|m|)
    ensures FlatRead(m, addr, size) == 0
  {
  }

  lemma StoredDiffer(n: StoreKind, m: seq<Byte>, u: nat)
    requires u + (if n.Whole? then n.size else 4) <= |m|
    ensures Stored(n, m, u, 1) != Stored(n, m, u, 0)
  {
    var at := if n.Right? then u + 3 else u;
    assert Stored(n, m, u, 1)[at] == 1 && Stored(n, m, u, 0)[at] == 0;
  }

  lemma StoreTransparentIff(n: StoreKind, rs: Reg, rt: Reg, extra: int, target: Reg)
    requires IsImmediate(extra)
    ensures var i := StoreInstr(n, rs, rt, extra);
            Transparent(i, target) <==> target == 0 || target !in {rs, rt} || NeverStores(i)
  {
    hide Transparent;
    var i := StoreInstr(n, rs, rt, extra);
    if target == 0 || target !in {rs, rt} {
      IndependentIsTransparent(i, target);
    } else if target == rs {
      BaseIsVisible(i);
    } else if NeverStores(i) {
      NeverStoresIsTransparent(i, target);
    } else {
      ValueIsVisible(n, rs, target, extra);
    }
  }

  /** System calls and illegal instructions. */
  lemma RaiseIsTransparent(target: Reg)
    ensures Transparent(Raise, target)
  {
    IndependentIsTransparent(Raise, target);
  }
}
