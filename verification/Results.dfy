/** What the computational instructions compute, bit by bit or modulo 2^32. */
module Results {
  import opened Basics
  import opened Bytes
  import opened PagedMemory
  import opened Cpu
  import opened Visibility
  import opened InstructionSet
  import opened Mnemonics
  import C = Computations

  /** Bit `k` of a 32-bit word. */
  predicate Bit(x: int, k: nat) { Unsigned(x) / Pow2(k) % 2 == 1 }

  /** `v` is the result of `n` on `x` and `y`.  `OR` takes its first operand twice, and the right shifts
      are all arithmetic. */
  ghost predicate IsResult(n: C.Mnemonic, x: int, y: int, v: int) {
    Fits(v) && match n
    case ADD => Congruent(v, x + y)
    case ADDU => Congruent(v, x + y)
    case SUB => Congruent(v, x - y)
    case SUBU => Congruent(v, x - y)
    case SLT => v == if x < y then 1 else 0
    case SLTU => v == if Unsigned(x) < Unsigned(y) then 1 else 0
    case AND => forall k: nat :: k < 32 ==> (Bit(v, k) <==> Bit(x, k) && Bit(y, k))
    case OR => v == x
    case XOR => forall k: nat :: k < 32 ==> (Bit(v, k) <==> Bit(x, k) != Bit(y, k))
    case NOR => forall k: nat :: k < 32 ==> (Bit(v, k) <==> !Bit(x, k) && !Bit(y, k))
    case SLLV => Congruent(v, y * Pow2(x % 32))
    case SRAV => v * Pow2(x % 32) <= y < v * Pow2(x % 32) + Pow2(x % 32)
    case ADDI(imm) => Congruent(v, x + imm)
    case ADDIU(imm) => Congruent(v, x + imm)
    case SLTI(imm) => v == if x < imm then 1 else 0
    case SLTIU(imm) => v == if Unsigned(x) < Unsigned(imm) then 1 else 0
    case ANDI(imm) => forall k: nat :: k < 32 ==> (Bit(v, k) <==> Bit(x, k) && Bit(imm % 0x1_0000, k))
    case ORI(imm) => forall k: nat :: k < 32 ==> (Bit(v, k) <==> Bit(x, k) || Bit(imm % 0x1_0000, k))
    case XORI(imm) => forall k: nat :: k < 32 ==> (Bit(v, k) <==> Bit(x, k) != Bit(imm % 0x1_0000, k))
    case LUI(imm) => Congruent(v, imm * 0x1_0000)
    case SLL(s) => Congruent(v, x * Pow2(s))
    case SRA(s) => v * Pow2(s) <= x < v * Pow2(s) + Pow2(s)
  }

  // ---------------------------------------------------------------- bits

  lemma HalfThenRest(b: int, p: int)
    requires b >= 0 && p > 0
    ensures b / 2 / p == b / (2 * p)
  {
    var q := b / 2 / p;
    var r := b / 2 - q * p;
    assert 0 <= r < p;
    assert b == q * (2 * p) + (2 * r + b % 2);
    QuotientIs(b, 2 * p, q, 2 * r + b % 2);
  }

  lemma QuotientIs(b: int, d: int, q: int, r: int)
    requires d > 0 && b == q * d + r && 0 <= r < d
    ensures b / d == q
  {
    var e := b / d - q;
    assert e * d == r - b % d;
    TooLarge(e, d);
  }

  lemma TooLarge(e: int, d: int)
    requires d > 0
    ensures e >= 1 ==> e * d >= d
    ensures e <= -1 ==> e * d <= -d
  {
  }

  lemma {:induction false} BitsAt(g: C.Gate, x: nat, y: nat, n: nat, k: nat)
    requires k < n
    ensures C.Bits(g, x, y, n) / Pow2(k) % 2 == 1 <==> C.Output(g, x / Pow2(k) % 2 == 1, y / Pow2(k) % 2 == 1)
  {
    var b, rest := C.Bits(g, x, y, n), C.Bits(g, x / 2, y / 2, n - 1);
    assert b / 2 == rest;
    if k > 0 {
      BitsAt(g, x / 2, y / 2, n - 1, k - 1);
      HalfThenRest(b, Pow2(k - 1));
      HalfThenRest(x, Pow2(k - 1));
      HalfThenRest(y, Pow2(k - 1));
    }
  }

  /** Bitwise operations work bit by bit. */
  lemma BitwiseIs(g: C.Gate, x: int, y: int, k: nat)
    requires k < 32
    ensures Bit(C.Bitwise(g, x, y), k) <==> C.Output(g, Bit(x, k), Bit(y, k))
  {
    hide C.Bits, Pow2;
    Pow2Of32();
    BitsAt(g, Unsigned(x), Unsigned(y), 32, k);
    UnsignedOfSigned(C.Bits(g, Unsigned(x), Unsigned(y), 32));
  }

  lemma UnsignedOfSigned(u: int)
    requires 0 <= u < TWO32
    ensures Unsigned(Signed(u, TWO32)) == u
  {
  }

  lemma ShiftsAre(x: int, k: nat)
    requires Fits(x) && k < 32
    ensures Fits(C.ShiftLeft(x, k)) && Congruent(C.ShiftLeft(x, k), x * Pow2(k))
    ensures var v := C.ShiftRight(x, k); Fits(v) && v * Pow2(k) <= x < v * Pow2(k) + Pow2(k)
  {
    hide Wrap32, Pow2;
    var p: int := Pow2(k);
    WrapIs(x * p);
    assert x == x / p * p + x % p;
    QuotientFits(x, p);
  }

  lemma QuotientFits(x: int, p: int)
    requires Fits(x) && p > 0
    ensures Fits(x / p)
  {
    Smaller(x / p, p, x % p);
  }

  lemma Smaller(q: int, p: int, r: int)
    requires 0 <= r < p
    ensures q >= 0 ==> q * p + r >= q
    ensures q < 0 ==> q * p + r <= q
  {
    if q >= 0 {
      ProductSign(q, p - 1);
      ProductOfDifferences(q, 0, p, 1);
    } else {
      ProductSign(-1 - q, p - 1);
      ProductOfDifferences(-1, q, p, 1);
    }
  }

  // ---------------------------------------------------------------- instructions

  lemma ResultOf(n: C.Mnemonic, x: int, y: int)
    requires Fits(x) && Fits(y)
    requires C.WellFormed(n, 0, 0)
    ensures IsResult(n, x, y, C.Result(n, x, y))
  {
    hide Wrap32, C.Bitwise, C.ShiftLeft, C.ShiftRight, Bit, Pow2;
    WrapIs(x + y);
    WrapIs(x - y);
    match n
    case AND => forall k: nat | k < 32 { BitwiseIs(C.AndGate, x, y, k); }
    case XOR => forall k: nat | k < 32 { BitwiseIs(C.XorGate, x, y, k); }
    case NOR => forall k: nat | k < 32 { BitwiseIs(C.NorGate, x, y, k); }
    case SLLV => ShiftsAre(y, x % 32);
    case SRAV => ShiftsAre(y, x % 32);
    case ADDI(imm) => WrapIs(x + imm);
    case ADDIU(imm) => WrapIs(x + imm);
    case ANDI(imm) => forall k: nat | k < 32 { BitwiseIs(C.AndGate, x, imm % 0x1_0000, k); }
    case ORI(imm) => forall k: nat | k < 32 { BitwiseIs(C.OrGate, x, imm % 0x1_0000, k); }
    case XORI(imm) => forall k: nat | k < 32 { BitwiseIs(C.XorGate, x, imm % 0x1_0000, k); }
    case LUI(imm) => WrapIs(imm * 0x1_0000);
    case SLL(s) => ShiftsAre(x, s);
    case SRA(s) => ShiftsAre(x, s);
    case _ =>
  }

  /** Every computation: it traps if it is one that does and overflows; otherwise its result is in `d`, and
      the next instruction follows. */
  lemma ComputationIs(n: C.Mnemonic, s1: Reg, s2: Reg, d: Reg, m: seq<Byte>, regs: Registers, m': seq<Byte>, regs': Registers, o: Outcome)
    returns (v: int)
    requires RegsOk(regs) && C.WellFormed(n, s1, s2) && Fits(regs[s1]) && Fits(regs[s2])
    requires Means(C.Encode(n, s1, s2, d), m, regs, m', regs', o)
    ensures m' == m && IsResult(n, regs[s1], regs[s2], v)
    ensures var x, y := regs[s1], regs[s2];
            if (n.ADD? && !Fits(x + y)) || (n.SUB? && !Fits(x - y)) || (n.ADDI? && !Fits(x + n.imm))
            then o == Trapped && Abandoned(regs, regs', 0)
            else o == Completed && Ends(regs, regs', map[d as int := v], 0, 0, Wrap32(regs[NEXT_PC] + 4))
  {
    hide Wrap32, C.Result, IsResult, Ends, Abandoned;
    ResultOf(n, regs[s1], regs[s2]);
    v := C.Result(n, regs[s1], regs[s2]);
  }
}
