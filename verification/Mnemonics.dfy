/** The processor's instructions by name: what they compute, where they jump, and what they load and
    store, in plain arithmetic. */
module Mnemonics {
  import opened Basics
  import opened Bytes
  import opened PagedMemory
  import opened PagingRefinement
  import opened Cpu
  import opened Visibility
  import opened InstructionSet

  const TWO32 := 0x1_0000_0000

  /** Equal as 32-bit words. */
  predicate Congruent(a: int, b: int) { (a - b) % TWO32 == 0 }

  lemma WrapIs(n: int)
    ensures Fits(Wrap32(n)) && Congruent(Wrap32(n), n)
  {
  }

  // ---------------------------------------------------------------- branches and jumps

  /** `BEQ` and `BNE`. */
  lemma BranchEqualGoes(eq: bool, rs: Reg, rt: Reg, offset: int, m: seq<Byte>, regs: Registers, m': seq<Byte>, regs': Registers, o: Outcome)
    requires RegsOk(regs) && Means(BranchEqual(eq, rs, rt, offset), m, regs, m', regs', o)
    ensures m' == m && o == Completed && |regs'| == NUM_TOTAL_REGS && regs'[PC] == regs[NEXT_PC]
    ensures regs'[NEXT_PC] == if (regs[rs] == regs[rt]) == eq then Wrap32(regs[NEXT_PC] + offset) else Wrap32(regs[NEXT_PC] + 4)
    ensures Ends(regs, regs', map[], 0, 0, regs'[NEXT_PC])
  {
  }

  /** `BLTZ`, `BGEZ`, `BLEZ` and `BGTZ`, and `BLTZAL` and `BGEZAL`, which test after they link. */
  lemma BranchSignGoes(n: Sign, rs: Reg, offset: int, link: bool, m: seq<Byte>, regs: Registers, m': seq<Byte>, regs': Registers, o: Outcome)
    requires RegsOk(regs) && Means(BranchSign(n, rs, offset, link), m, regs, m', regs', o)
    ensures m' == m && o == Completed && |regs'| == NUM_TOTAL_REGS && regs'[PC] == regs[NEXT_PC]
    ensures var v := if link && rs == 31 then Wrap32(regs[NEXT_PC] + 4) else regs[rs];
            var jumps := (n == LTZ && v < 0) || (n == GEZ && v >= 0) || (n == LEZ && v <= 0) || (n == GTZ && v > 0);
            regs'[NEXT_PC] == if jumps then Wrap32(regs[NEXT_PC] + offset) else Wrap32(regs[NEXT_PC] + 4)
    ensures Ends(regs, regs', if link then map[31 := Wrap32(regs[NEXT_PC] + 4)] else map[], 0, 0, regs'[NEXT_PC])
  {
  }

  /** `J` and `JAL`: the target's 28 low bits come from the instruction. */
  function JumpInstr(index: nat, link: bool): Instr {
    Jump(x => Wrap32(Unsigned(x) / 0x1000_0000 * 0x1000_0000 + 4 * index), link)
  }

  lemma JumpGoes(index: nat, link: bool, m: seq<Byte>, regs: Registers, m': seq<Byte>, regs': Registers, o: Outcome)
    requires RegsOk(regs) && index < 0x400_0000 && Means(JumpInstr(index, link), m, regs, m', regs', o)
    ensures m' == m && o == Completed && |regs'| == NUM_TOTAL_REGS && regs'[PC] == regs[NEXT_PC]
    ensures Unsigned(regs'[NEXT_PC]) % 0x1000_0000 == 4 * index
    ensures Unsigned(regs'[NEXT_PC]) / 0x1000_0000 == Unsigned(regs[NEXT_PC] + 4) / 0x1000_0000
    ensures Ends(regs, regs', if link then map[31 := Wrap32(regs[NEXT_PC] + 4)] else map[], 0, 0, regs'[NEXT_PC])
  {
    hide Wrap32;
    WrapIs(regs[NEXT_PC] + 4);
    var x := Following(regs);
    SameWord(x, regs[NEXT_PC] + 4);
    SmallWord(Unsigned(x) / 0x1000_0000 * 0x1000_0000 + 4 * index);
  }

  lemma SameWord(a: int, b: int)
    requires Congruent(a, b)
    ensures Unsigned(a) == Unsigned(b)
  {
  }

  /** `JR` and `JALR`: the target is read after the return address is in place. */
  lemma JumpRegisterGoes(rs: Reg, rd: Reg, link: bool, m: seq<Byte>, regs: Registers, m': seq<Byte>, regs': Registers, o: Outcome)
    requires RegsOk(regs) && Means(JumpRegister(rs, rd, link), m, regs, m', regs', o)
    ensures m' == m && o == Completed && |regs'| == NUM_TOTAL_REGS && regs'[PC] == regs[NEXT_PC]
    ensures regs'[NEXT_PC] == if link && rs == rd then Wrap32(regs[NEXT_PC] + 4) else regs[rs]
    ensures Ends(regs, regs', if link then map[rd as int := Wrap32(regs[NEXT_PC] + 4)] else map[], 0, 0, regs'[NEXT_PC])
  {
  }

  // ---------------------------------------------------------------- multiplication, division, moves

  /** The low word and what is above it. */
  lemma Halves(p: int)
    ensures p == p / TWO32 * TWO32 + Unsigned(Wrap32(p))
  {
    WrapIs(p);
    SameWord(Wrap32(p), p);
  }

  lemma ProductBetween(x: int, y: int, b: int)
    requires -b <= x <= b && -b <= y <= b
    ensures -(b * b) <= x * y <= b * b
  {
    ProductSign(b - x, b - y);
    ProductSign(b + x, b + y);
    ProductSign(b - x, b + y);
    ProductSign(b + x, b - y);
    ProductOfDifferences(b, x, b, y);
    ProductOfDifferences(b, -x, b, -y);
    ProductOfDifferences(b, x, b, -y);
    ProductOfDifferences(b, -x, b, y);
  }

  lemma SignedProduct(x: int, y: int)
    requires Fits(x) && Fits(y)
    ensures var hi, lo := Wrap32(x * y / TWO32), Wrap32(x * y);
            Fits(hi) && Fits(lo) && hi * TWO32 + Unsigned(lo) == x * y
  {
    hide Wrap32;
    var p := x * y;
    Halves(p);
    WrapIs(p);
    ProductBetween(x, y, 0x8000_0000);
    WrapFits(p / TWO32);
  }

  lemma UnsignedProduct(u: int, v: int)
    requires 0 <= u < TWO32 && 0 <= v < TWO32
    ensures var hi, lo := Wrap32(u * v / TWO32), Wrap32(u * v);
            Fits(hi) && Fits(lo) && Unsigned(hi) * TWO32 + Unsigned(lo) == u * v
  {
    ProductSign(u, v);
    ProductBetween(u, v, TWO32 - 1);
    UnsignedHalves(u * v);
  }

  lemma UnsignedHalves(p: int)
    requires 0 <= p <= (TWO32 - 1) * (TWO32 - 1)
    ensures var hi, lo := Wrap32(p / TWO32), Wrap32(p);
            Fits(hi) && Fits(lo) && Unsigned(hi) * TWO32 + Unsigned(lo) == p
  {
    hide Wrap32;
    Halves(p);
    WrapIs(p);
    WrapIs(p / TWO32);
    SameWord(Wrap32(p / TWO32), p / TWO32);
    assert 0 <= p / TWO32 < TWO32;
  }

  lemma DivisionByZero(x: int)
    ensures Wrap32(Quotient(x, 0)) == 0 && Wrap32(Remainder(x, 0)) == 0
  {
    WrapFits(0);
  }

  lemma NaturalDivision(a: int, b: int)
    requires a >= 0 && b > 0
    ensures a == a / b * b + a % b && 0 <= a % b < b && 0 <= a / b <= a
    ensures b > 1 ==> 2 * (a / b) <= a
  {
    AtLeastTimes(a / b, b);
  }

  lemma AtLeastTimes(q: int, b: int)
    requires q >= 0 && b > 0
    ensures q <= q * b && (b > 1 ==> 2 * q <= q * b)
  {
    assert q * (b - 1) >= 0;
    if b > 1 { assert q * (b - 2) >= 0; }
  }

  /** Quotient and remainder by sign. */
  lemma SignedQuotient(x: int, y: int, a: int, b: int)
    requires y != 0 && a == Magnitude(x) && b == Magnitude(y)
    ensures Quotient(x, y) == if (x < 0) == (y < 0) then a / b else -(a / b)
    ensures Remainder(x, y) == if x < 0 then -(a - a / b * b) else a - a / b * b
  {
    assert -(a / b) * -b == a / b * b && -(a / b) * b == -(a / b * b) && a / b * -b == -(a / b * b);
  }

  lemma SignedDivision(x: int, y: int)
    requires Fits(x) && Fits(y) && y != 0 && !(x == -0x8000_0000 && y == -1)
    ensures var q, r := Wrap32(Quotient(x, y)), Wrap32(Remainder(x, y));
            x == q * y + r && Magnitude(r) < Magnitude(y) && (r == 0 || (r < 0 <==> x < 0))
  {
    var a: int, b: int := Magnitude(x), Magnitude(y);
    NaturalDivision(a, b);
    SignedQuotient(x, y, a, b);
    RemainderLeaves(x, y);
    hide Wrap32, Quotient, Remainder;
    WrapFits(Quotient(x, y));
    WrapFits(Remainder(x, y));
  }

  lemma RemainderLeaves(x: int, y: int)
    requires y != 0
    ensures x == Quotient(x, y) * y + Remainder(x, y)
  {
  }

  lemma SmallWord(n: int)
    requires 0 <= n < TWO32
    ensures Unsigned(Wrap32(n)) == n
  {
    hide Wrap32;
    WrapIs(n);
    SameWord(Wrap32(n), n);
  }

  lemma NaturalQuotient(u: int, v: int)
    requires u >= 0 && v > 0
    ensures Quotient(u, v) == u / v && Remainder(u, v) == u - u / v * v
  {
  }

  lemma UnsignedDivision(u: nat, v: nat)
    requires u < TWO32 && 0 < v < TWO32
    ensures var q, r := Wrap32(Quotient(u, v)), Wrap32(Remainder(u, v));
            u == Unsigned(q) * v + Unsigned(r) && Unsigned(r) < v
  {
    hide Wrap32, Quotient, Remainder, Unsigned;
    NaturalDivision(u, v);
    NaturalQuotient(u, v);
    SmallWord(u / v);
    SmallWord(u - u / v * v);
  }

  /** Hi and Lo are the halves of the product, or remainder and quotient: the quotient rounds to zero,
      and dividing by zero gives zeros. */
  lemma MulDivIs(n: MulDivKind, rs: Reg, rt: Reg, m: seq<Byte>, regs: Registers, m': seq<Byte>, regs': Registers, o: Outcome)
    requires RegsOk(regs) && Fits(regs[rs]) && Fits(regs[rt]) && Means(MulDivInstr(n, rs, rt), m, regs, m', regs', o)
    ensures m' == m && o == Completed && |regs'| == NUM_TOTAL_REGS && Fits(regs'[HI]) && Fits(regs'[LO])
    ensures var x, y, hi, lo := regs[rs], regs[rt], regs'[HI], regs'[LO];
            && (n == MULT ==> hi * TWO32 + Unsigned(lo) == x * y)
            && (n == MULTU ==> Unsigned(hi) * TWO32 + Unsigned(lo) == Unsigned(x) * Unsigned(y))
            && (n == DIV && y != 0 && !(x == -0x8000_0000 && y == -1) ==>
                  x == lo * y + hi && Magnitude(hi) < Magnitude(y) && (hi == 0 || (hi < 0 <==> x < 0)))
            && (n == DIVU && Unsigned(y) != 0 ==>
                  Unsigned(x) == Unsigned(lo) * Unsigned(y) + Unsigned(hi) && Unsigned(hi) < Unsigned(y))
            && ((n == DIV || n == DIVU) && y == 0 ==> hi == lo == 0)
    ensures Ends(regs, regs', map[32 := regs'[HI], 33 := regs'[LO]], 0, 0, Wrap32(regs[NEXT_PC] + 4))
  {
    hide MulDivResult, Wrap32;
    ResultIs(n, regs[rs], regs[rt]);
  }

  lemma ZeroWord()
    ensures Unsigned(0) == 0
  {
  }

  lemma ResultIs(n: MulDivKind, x: int, y: int)
    requires Fits(x) && Fits(y)
    ensures var (hi, lo) := MulDivResult(n, x, y);
            && Fits(hi) && Fits(lo)
            && (n == MULT ==> hi * TWO32 + Unsigned(lo) == x * y)
            && (n == MULTU ==> Unsigned(hi) * TWO32 + Unsigned(lo) == Unsigned(x) * Unsigned(y))
            && (n == DIV && y != 0 && !(x == -0x8000_0000 && y == -1) ==>
                  x == lo * y + hi && Magnitude(hi) < Magnitude(y) && (hi == 0 || (hi < 0 <==> x < 0)))
            && (n == DIVU && Unsigned(y) != 0 ==>
                  Unsigned(x) == Unsigned(lo) * Unsigned(y) + Unsigned(hi) && Unsigned(hi) < Unsigned(y))
            && ((n == DIV || n == DIVU) && y == 0 ==> hi == lo == 0)
  {
    hide Wrap32, Quotient, Remainder, Magnitude, Unsigned;
    assert Unsigned(0) == 0 by { ZeroWord(); }
    match n
    case MULT => SignedProduct(x, y);
    case MULTU => UnsignedProduct(Unsigned(x), Unsigned(y));
    case DIV =>
      WrapIs(Quotient(x, y));
      WrapIs(Remainder(x, y));
      if y != 0 && !(x == -0x8000_0000 && y == -1) { SignedDivision(x, y); }
      if y == 0 { DivisionByZero(x); }
    case DIVU =>
      WrapIs(Quotient(Unsigned(x), Unsigned(y)));
      WrapIs(Remainder(Unsigned(x), Unsigned(y)));
      if Unsigned(y) != 0 { UnsignedDivision(Unsigned(x), Unsigned(y)); }
      if y == 0 { DivisionByZero(Unsigned(x)); }
  }

  /** `MFHI`, `MFLO`, `MTHI` and `MTLO`. */
  lemma MoveIs(h: HiLo, r: Reg, m: seq<Byte>, regs: Registers, m': seq<Byte>, regs': Registers, o: Outcome)
    requires RegsOk(regs)
    ensures Means(MoveFrom(h, r), m, regs, m', regs', o) ==>
              m' == m && o == Completed && Ends(regs, regs', map[r as int := regs[h]], 0, 0, Wrap32(regs[NEXT_PC] + 4))
    ensures Means(MoveTo(h, r), m, regs, m', regs', o) ==>
              m' == m && o == Completed && Ends(regs, regs', map[h as int := regs[r]], 0, 0, Wrap32(regs[NEXT_PC] + 4))
  {
  }
}
