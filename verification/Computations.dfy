/** The computational instructions one by one: for each, on given registers, exactly when a restart
    after a page fault can be noticed. */
module Computations {
  import opened Basics
  import opened Bytes
  import opened PagedMemory
  import opened Cpu
  import opened Visibility

  // ---------------------------------------------------------------- bitwise operations

  datatype Gate = AndGate | OrGate | XorGate | NorGate

  predicate Output(g: Gate, a: bool, b: bool) {
    match g
    case AndGate => a && b
    case OrGate => a || b
    case XorGate => a != b
    case NorGate => !(a || b)
  }

  /** The low `n` bits of a bitwise operation. */
  function Bits(g: Gate, x: nat, y: nat, n: nat): (r: nat)
    ensures r < Pow2(n)
  {
    if n == 0 then 0 else (if Output(g, x % 2 == 1, y % 2 == 1) then 1 else 0) + 2 * Bits(g, x / 2, y / 2, n - 1)
  }

  function Bitwise(g: Gate, x: int, y: int): (r: int)
    ensures Fits(r)
  {
    Pow2Of32();
    Signed(Bits(g, Unsigned(x), Unsigned(y), 32), 0x1_0000_0000)
  }

  lemma {:induction false} BitsCommute(g: Gate, x: nat, y: nat, n: nat)
    ensures Bits(g, x, y, n) == Bits(g, y, x, n)
  {
    if n > 0 { BitsCommute(g, x / 2, y / 2, n - 1); }
  }

  lemma {:induction false} BitsWithZero(x: nat, n: nat)
    requires x < Pow2(n)
    ensures Bits(AndGate, x, 0, n) == 0 && Bits(OrGate, x, 0, n) == x && Bits(XorGate, x, 0, n) == x
  {
    if n > 0 { BitsWithZero(x / 2, n - 1); }
  }

  lemma {:induction false} BitsWithSelf(x: nat, n: nat)
    requires x < Pow2(n)
    ensures Bits(AndGate, x, x, n) == x && Bits(XorGate, x, x, n) == 0
  {
    if n > 0 { BitsWithSelf(x / 2, n - 1); }
  }

  lemma {:induction false} BitsWithOnes(x: nat, n: nat)
    requires x < Pow2(n)
    ensures var ones := Pow2(n) - 1;
            Bits(AndGate, x, ones, n) == x && Bits(OrGate, x, ones, n) == ones && Bits(NorGate, x, ones, n) == 0
  {
    if n > 0 {
      BitsWithOnes(x / 2, n - 1);
      assert (Pow2(n) - 1) / 2 == Pow2(n - 1) - 1 && (Pow2(n) - 1) % 2 == 1;
    }
  }

  lemma {:induction false} NorOfZeros(n: nat)
    ensures Bits(NorGate, 0, 0, n) == Pow2(n) - 1
  {
    if n > 0 { NorOfZeros(n - 1); }
  }

  /** The identities that decide what can be noticed. */
  lemma BitwiseFacts(x: int)
    requires Fits(x)
    ensures Bitwise(AndGate, x, 0) == 0 == Bitwise(AndGate, 0, x) && Bitwise(AndGate, x, x) == x
    ensures Bitwise(AndGate, x, -1) == x == Bitwise(AndGate, -1, x)
    ensures Bitwise(OrGate, x, 0) == x == Bitwise(OrGate, 0, x) && Bitwise(OrGate, -1, x) == -1
    ensures Bitwise(XorGate, x, 0) == x == Bitwise(XorGate, 0, x) && Bitwise(XorGate, x, x) == 0
    ensures Bitwise(NorGate, 0, 0) == -1 && Bitwise(NorGate, x, -1) == 0 == Bitwise(NorGate, -1, x)
  {
    hide Bits, Pow2;
    Pow2Of32();
    var u := Unsigned(x);
    BitsWithZero(u, 32);
    BitsWithSelf(u, 32);
    BitsWithOnes(u, 32);
    NorOfZeros(32);
    forall g ensures Bits(g, u, 0, 32) == Bits(g, 0, u, 32) && Bits(g, u, 0xffff_ffff, 32) == Bits(g, 0xffff_ffff, u, 32) {
      BitsCommute(g, u, 0, 32);
      BitsCommute(g, u, 0xffff_ffff, 32);
    }
    assert Unsigned(-1) == 0xffff_ffff && Unsigned(0) == 0;
  }

  // ---------------------------------------------------------------- shifts

  function ShiftLeft(x: int, k: nat): int { Wrap32(x * Pow2(k)) }

  /** Arithmetic, also for SRL and SRLV, which shift an `int`. */
  function ShiftRight(x: int, k: nat): int { x / Pow2(k) }

  lemma {:induction false} Pow2Below(k: nat, n: nat)
    requires k <= n
    ensures Pow2(k) <= Pow2(n)
  {
    if k < n { Pow2Below(k, n - 1); }
  }

  lemma Pow2OfShift(k: nat)
    requires k < 32
    ensures 1 <= Pow2(k) <= 0x8000_0000 && (k > 0 ==> Pow2(k) >= 2) && Pow2(0) == 1
  {
    Pow2Of32();
    Pow2Below(k, 31);
    assert Pow2(32) == 2 * Pow2(31);
    if k > 0 { Pow2Below(1, k); }
  }

  lemma ShiftFacts(k: nat)
    requires k < 32
    ensures ShiftLeft(0, k) == 0 && ShiftRight(0, k) == 0
    ensures ShiftLeft(1, k) != 0 && ShiftRight(-1, k) == -1
    ensures k > 0 ==> ShiftLeft(1, k) != 1 && ShiftRight(1, k) == 0
    ensures forall x :: Fits(x) ==> ShiftLeft(x, 0) == x && ShiftRight(x, 0) == x
  {
    hide Pow2;
    Pow2OfShift(k);
    var p: int := Pow2(k);
    assert 1 * p == p && 0 * p == 0;
    assert Wrap32(p) == if p == 0x8000_0000 then -p else p;
    SmallQuotients(p);
    forall x | Fits(x) ensures ShiftLeft(x, 0) == x && ShiftRight(x, 0) == x {
      WrapFits(x);
      assert x * Pow2(0) == x;
    }
  }

  lemma SmallQuotients(p: int)
    requires p >= 1
    ensures 0 / p == 0 && -1 / p == -1 && (p >= 2 ==> 1 / p == 0)
  {
  }

  // ---------------------------------------------------------------- the instructions

  /** As the processor computes them: OR combines its first operand with itself. */
  datatype Mnemonic =
    | ADD | ADDU | SUB | SUBU | SLT | SLTU | AND | OR | XOR | NOR | SLLV | SRAV
    | ADDI(imm: int) | ADDIU(imm: int) | SLTI(imm: int) | SLTIU(imm: int) | ANDI(imm: int) | ORI(imm: int) | XORI(imm: int)
    | LUI(imm: int) | SLL(shift: nat) | SRA(shift: nat)

  function Truth(b: bool): int { if b then 1 else 0 }

  function Result(n: Mnemonic, x: int, y: int): int {
    match n
    case ADD => Wrap32(x + y)
    case ADDU => Wrap32(x + y)
    case SUB => Wrap32(x - y)
    case SUBU => Wrap32(x - y)
    case SLT => Truth(x < y)
    case SLTU => Truth(Unsigned(x) < Unsigned(y))
    case AND => Bitwise(AndGate, x, y)
    case OR => x
    case XOR => Bitwise(XorGate, x, y)
    case NOR => Bitwise(NorGate, x, y)
    case SLLV => ShiftLeft(y, x % 32)
    case SRAV => ShiftRight(y, x % 32)
    case ADDI(imm) => Wrap32(x + imm)
    case ADDIU(imm) => Wrap32(x + imm)
    case SLTI(imm) => Truth(x < imm)
    case SLTIU(imm) => Truth(Unsigned(x) < Unsigned(imm))
    case ANDI(imm) => Bitwise(AndGate, x, imm % 0x1_0000)
    case ORI(imm) => Bitwise(OrGate, x, imm % 0x1_0000)
    case XORI(imm) => Bitwise(XorGate, x, imm % 0x1_0000)
    case LUI(imm) => Wrap32(imm * 0x1_0000)
    case SLL(k) => ShiftLeft(x, k)
    case SRA(k) => ShiftRight(x, k)
  }

  predicate Overflow(n: Mnemonic, x: int, y: int) {
    match n
    case ADD => !Fits(x + y)
    case SUB => !Fits(x - y)
    case ADDI(imm) => !Fits(x + imm)
    case _ => false
  }

  function Encode(n: Mnemonic, s1: Reg, s2: Reg, d: Reg): Instr {
    Alu(s1, s2, d, (x, y) => Result(n, x, y), (x, y) => Overflow(n, x, y))
  }

  predicate IsImmediateForm(n: Mnemonic) {
    n.ADDI? || n.ADDIU? || n.SLTI? || n.SLTIU? || n.ANDI? || n.ORI? || n.XORI? || n.LUI?
  }

  /** Immediate forms and fixed shifts have one source register, LUI none. */
  predicate WellFormed(n: Mnemonic, s1: Reg, s2: Reg) {
    && (IsImmediateForm(n) ==> s2 == 0 && -0x8000 <= n.imm < 0x8000)
    && (n.SLL? || n.SRA? ==> s2 == 0 && n.shift < 32)
    && (n.LUI? ==> s1 == 0)
  }

  // ---------------------------------------------------------------- the exact conditions

  /** One operand is the register, the other r0. */
  predicate WithZero(s1: Reg, s2: Reg, t: Reg) { (s1 == t && s2 == 0) || (s1 == 0 && s2 == t) }

  predicate Both(s1: Reg, s2: Reg, t: Reg) { s1 == t && s2 == t }

  /** When a load pending into a register that the instruction names cannot be noticed all the same. */
  predicate Degenerate(n: Mnemonic, s1: Reg, s2: Reg, d: Reg, t: Reg) {
    match n
    case ADD => WithZero(s1, s2, t) && (d == 0 || d == t)
    case ADDU => d == 0 || (WithZero(s1, s2, t) && d == t)
    case SUB => (Both(s1, s2, t) && d != t) || (s1 == t && s2 == 0 && (d == 0 || d == t))
    case SUBU => d == 0 || (Both(s1, s2, t) && d != t) || (s1 == t && s2 == 0 && d == t)
    case SLT => d == 0 || (Both(s1, s2, t) && d != t)
    case SLTU => d == 0 || (d != t && s1 == t && (s2 == t || s2 == 0))
    case AND => d == 0 || (if d == t then Both(s1, s2, t) else WithZero(s1, s2, t))
    case OR => d == 0 || (s1 != t && d != t) || (s1 == t && d == t)
    case XOR => d == 0 || (if d == t then WithZero(s1, s2, t) else Both(s1, s2, t))
    case NOR => d == 0
    case SLLV => d == 0 || (if d == t then s1 == 0 && s2 == t else s2 == 0)
    case SRAV => d == 0 || (if d == t then s1 == 0 && s2 == t else s2 == 0)
    case ADDI(imm) => s1 == t && imm == 0 && (d == 0 || d == t)
    case ADDIU(imm) => d == 0 || (s1 == t && imm == 0 && d == t)
    case SLTI(_) => d == 0
    case SLTIU(imm) => d == 0 || (d != t && imm == 0)
    case ANDI(imm) => d == 0 || (d != t && imm == 0)
    case ORI(imm) => d == 0 || (s1 == t && d == t && imm == 0)
    case XORI(imm) => d == 0 || (s1 == t && d == t && imm == 0)
    case LUI(_) => false
    case SLL(k) => d == 0 || (s1 == t && d == t && k == 0)
    case SRA(k) => d == 0 || (s1 == t && d == t && k == 0)
  }

  /** The old value, the delivered value and the other operand of a state that tells the two apart. */
  function Witness(n: Mnemonic, s1: Reg, s2: Reg, d: Reg, t: Reg): (int, int, int) {
    match n
    case ADD => if WithZero(s1, s2, t) then (0, 1, 0) else (0, 0x7fff_ffff, 1)
    case SUB => if Both(s1, s2, t) || (s1 == t && s2 == 0) then (0, 1, 1) else (0, -0x8000_0000, 1)
    case SLT => (0, if s1 == t then -1 else 5, 0)
    case SLTU => (0, 5, 1)
    case AND => if d == t then (0, 1, 0) else (0, -1, -1)
    case OR => (0, 1, 0)
    case XOR => if d == t then (0, 1, 1) else (0, 1, 0)
    case NOR => (0, -1, 0)
    case SRAV => if d == t || s2 != t then (0, 1, 1) else (0, 32, 0)
    case ADDI(imm) => (0, if imm == 0 then 1 else if imm > 0 then 0x7fff_ffff else -0x8000_0000, 0)
    case SLTI(imm) => if d == t then (0, 5, 0) else (imm, imm - 1, 0)
    case SLTIU(_) => (0, if d == t then 5 else -1, 0)
    case ANDI(imm) => (0, if d == t then -1 else imm % 0x1_0000, 0)
    case ORI(_) => (0, if d == t then 0 else -1, 0)
    case XORI(imm) => (0, if d == t then 0 else if imm == 0 then 1 else imm % 0x1_0000, 0)
    case SRA(_) => (0, if d == t then 1 else -1, 0)
    case _ => (0, 1, 1)
  }

  ghost predicate TellsApart(n: Mnemonic, s1: Reg, s2: Reg, d: Reg, t: Reg, was: int, v: int, z: int) {
    Fits(was) && Fits(v) && Fits(z) && !SameComputation(Encode(n, s1, s2, d), t, was, v, z, z)
  }

  predicate IsArithmetic(n: Mnemonic) {
    n.ADD? || n.ADDU? || n.SUB? || n.SUBU? || n.ADDI? || n.ADDIU?
  }

  predicate IsComparison(n: Mnemonic) { n.SLT? || n.SLTU? || n.SLTI? || n.SLTIU? }

  predicate IsLogical(n: Mnemonic) { n.AND? || n.OR? || n.XOR? || n.NOR? || n.ANDI? || n.ORI? || n.XORI? }

  predicate IsShift(n: Mnemonic) { n.SLLV? || n.SRAV? || n.SLL? || n.SRA? }

  /** A register that is only written: the late load undoes the write. */
  lemma WriteTells(n: Mnemonic, s1: Reg, s2: Reg, t: Reg)
    requires WellFormed(n, s1, s2) && t != 0 && t != s1 && t != s2
    ensures TellsApart(n, s1, s2, t, t, 0, if Result(n, 0, 0) == 0 then 1 else 0, 0)
  {
    hide Result;
  }

  lemma ArithmeticTells(n: Mnemonic, s1: Reg, s2: Reg, d: Reg, t: Reg)
    requires IsArithmetic(n) && WellFormed(n, s1, s2) && t != 0 && (t == s1 || t == s2) && !Degenerate(n, s1, s2, d, t)
    ensures var (was, v, z) := Witness(n, s1, s2, d, t); TellsApart(n, s1, s2, d, t, was, v, z)
  {
  }

  lemma ComparisonTells(n: Mnemonic, s1: Reg, s2: Reg, d: Reg, t: Reg)
    requires IsComparison(n) && WellFormed(n, s1, s2) && t != 0 && (t == s1 || t == s2) && !Degenerate(n, s1, s2, d, t)
    ensures var (was, v, z) := Witness(n, s1, s2, d, t); TellsApart(n, s1, s2, d, t, was, v, z)
  {
  }

  lemma LogicalTells(n: Mnemonic, s1: Reg, s2: Reg, d: Reg, t: Reg)
    requires IsLogical(n) && WellFormed(n, s1, s2) && t != 0 && (t == s1 || t == s2) && !Degenerate(n, s1, s2, d, t)
    ensures var (was, v, z) := Witness(n, s1, s2, d, t); TellsApart(n, s1, s2, d, t, was, v, z)
  {
    hide Bitwise;
    BitwiseFacts(0);
    BitwiseFacts(1);
    BitwiseFacts(-1);
    if IsImmediateForm(n) { BitwiseFacts(n.imm % 0x1_0000); }
  }

  lemma ShiftTells(n: Mnemonic, s1: Reg, s2: Reg, d: Reg, t: Reg)
    requires IsShift(n) && WellFormed(n, s1, s2) && t != 0 && (t == s1 || t == s2) && !Degenerate(n, s1, s2, d, t)
    ensures var (was, v, z) := Witness(n, s1, s2, d, t); TellsApart(n, s1, s2, d, t, was, v, z)
  {
    hide ShiftLeft, ShiftRight;
    ShiftFacts(0);
    ShiftFacts(1);
    if n.SLL? || n.SRA? { ShiftFacts(n.shift); }
  }

  lemma ArithmeticSame(n: Mnemonic, s1: Reg, s2: Reg, d: Reg, t: Reg, was: int, v: int, x: int, y: int)
    requires (IsArithmetic(n) || IsComparison(n)) && WellFormed(n, s1, s2) && t != 0 && Degenerate(n, s1, s2, d, t)
    requires t == s1 || t == s2 || t == d
    requires Possible(Encode(n, s1, s2, d), was, v, x, y)
    ensures SameComputation(Encode(n, s1, s2, d), t, was, v, x, y)
  {
    WrapFits(v);
  }

  lemma LogicalSame(n: Mnemonic, s1: Reg, s2: Reg, d: Reg, t: Reg, was: int, v: int, x: int, y: int)
    requires IsLogical(n) && WellFormed(n, s1, s2) && t != 0 && Degenerate(n, s1, s2, d, t)
    requires Possible(Encode(n, s1, s2, d), was, v, x, y)
    ensures SameComputation(Encode(n, s1, s2, d), t, was, v, x, y)
  {
    hide Bitwise;
    BitwiseFacts(v);
    BitwiseFacts(was);
  }

  lemma ShiftSame(n: Mnemonic, s1: Reg, s2: Reg, d: Reg, t: Reg, was: int, v: int, x: int, y: int)
    requires IsShift(n) && WellFormed(n, s1, s2) && t != 0 && Degenerate(n, s1, s2, d, t)
    requires t == s1 || t == s2 || t == d
    requires Possible(Encode(n, s1, s2, d), was, v, x, y)
    ensures SameComputation(Encode(n, s1, s2, d), t, was, v, x, y)
  {
    hide ShiftLeft, ShiftRight;
    ShiftFacts(0);
    ShiftFacts(was % 32);
    ShiftFacts(v % 32);
    ShiftFacts(x % 32);
  }

  /** The exact condition for each instruction on given registers: a restart cannot be noticed, in any
      state, if and only if no load is pending, or none into its registers, or the instruction is one
      of the degenerate forms. */
  lemma ComputationTransparentIff(n: Mnemonic, s1: Reg, s2: Reg, d: Reg, t: Reg)
    requires WellFormed(n, s1, s2)
    ensures Transparent(Encode(n, s1, s2, d), t) <==> t == 0 || t !in {s1, s2, d} || Degenerate(n, s1, s2, d, t)
  {
    hide Transparent, Degenerate, SameComputation, Result, Overflow;
    var i := Encode(n, s1, s2, d);
    if t == 0 || t !in {s1, s2, d} {
      IndependentIsTransparent(i, t);
    } else {
      AluTransparentIff(i, t);
      if Degenerate(n, s1, s2, d, t) {
        forall was, v, x, y | Possible(i, was, v, x, y) ensures SameComputation(i, t, was, v, x, y) {
          DegenerateIsSame(n, s1, s2, d, t, was, v, x, y);
        }
      } else {
        var was, v, z := Distinguish(n, s1, s2, d, t);
        assert Possible(i, was, v, z, z);
      }
    }
  }

  lemma Distinguish(n: Mnemonic, s1: Reg, s2: Reg, d: Reg, t: Reg) returns (was: int, v: int, z: int)
    requires WellFormed(n, s1, s2) && t != 0 && t in {s1, s2, d} && !Degenerate(n, s1, s2, d, t)
    ensures TellsApart(n, s1, s2, d, t, was, v, z)
  {
    hide Degenerate, TellsApart, Result, Witness;
    if t != s1 && t != s2 {
      was, v, z := 0, if Result(n, 0, 0) == 0 then 1 else 0, 0;
      WriteTells(n, s1, s2, t);
    } else {
      var w := Witness(n, s1, s2, d, t);
      was, v, z := w.0, w.1, w.2;
      if IsArithmetic(n) {
        ArithmeticTells(n, s1, s2, d, t);
      } else if IsComparison(n) {
        ComparisonTells(n, s1, s2, d, t);
      } else if IsLogical(n) {
        LogicalTells(n, s1, s2, d, t);
      } else {
        ShiftTells(n, s1, s2, d, t);
      }
    }
  }

  lemma DegenerateIsSame(n: Mnemonic, s1: Reg, s2: Reg, d: Reg, t: Reg, was: int, v: int, x: int, y: int)
    requires WellFormed(n, s1, s2) && t != 0 && t in {s1, s2, d} && Degenerate(n, s1, s2, d, t)
    requires Possible(Encode(n, s1, s2, d), was, v, x, y)
    ensures SameComputation(Encode(n, s1, s2, d), t, was, v, x, y)
  {
    hide SameComputation, Possible, Result, Overflow;
    if IsArithmetic(n) || IsComparison(n) {
      ArithmeticSame(n, s1, s2, d, t, was, v, x, y);
    } else if IsLogical(n) {
      LogicalSame(n, s1, s2, d, t, was, v, x, y);
    } else {
      ShiftSame(n, s1, s2, d, t, was, v, x, y);
    }
  }
}
