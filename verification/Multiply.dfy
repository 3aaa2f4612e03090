/** `Mult`: the R2000's 32 by 32 to 64 bit multiplication, done one bit of `a` at a time in
    32-bit registers. */
module Multiply {
  import opened Basics
  import opened Bytes

  const W := 0x1_0000_0000

  /** A host `int`. */
  type Int32 = n: int | -0x8000_0000 <= n < 0x8000_0000

  /** A host `unsigned int`. */
  type UInt32 = n: int | 0 <= n < 0x1_0000_0000

  function AsUnsigned(n: int): UInt32 { n % W }

  function AsSigned(u: UInt32): Int32 { Signed(u, W) }

  /** Two registers as one 64-bit number. */
  function Double(hi: UInt32, lo: UInt32): int { hi * W + lo }

  /** `-n` on a host `int`: the most negative value is its own negation. */
  function Negated(n: Int32): Int32 { if n == -0x8000_0000 then n else -n }

  /** Read as unsigned, `Negated` is the magnitude even of the most negative value. */
  lemma NegatedIsMagnitude(n: Int32)
    requires n < 0
    ensures AsUnsigned(Negated(n)) + n == 0
  {
  }

  // ---------------------------------------------------------------- double-word steps

  /** Adding with carry. */
  function AddLo(lo: UInt32, bLo: UInt32): UInt32 { (lo + bLo) % W }

  function AddHi(hi: UInt32, bHi: UInt32, lo: UInt32, bLo: UInt32): UInt32 {
    ((if AddLo(lo, bLo) < bLo then (hi + 1) % W else hi) + bHi) % W
  }

  lemma AddIsExact(hi: UInt32, lo: UInt32, bHi: UInt32, bLo: UInt32)
    requires Double(hi, lo) + Double(bHi, bLo) < W * W
    ensures Double(AddHi(hi, bHi, lo, bLo), AddLo(lo, bLo)) == Double(hi, lo) + Double(bHi, bLo)
  {
    assert AddLo(lo, bLo) == if lo + bLo < W then lo + bLo else lo + bLo - W;
    var carry := if lo + bLo < W then 0 else 1;
    assert (AddLo(lo, bLo) < bLo) == (carry == 1);
    assert (hi + bHi + carry) * W <= Double(hi, lo) + Double(bHi, bLo);
    assert hi + bHi + carry < W;
  }

  /** Shifting left by one. */
  function ShiftHi(bHi: UInt32, bLo: UInt32): UInt32 {
    (2 * bHi) % W + (if bLo >= 0x8000_0000 then 1 else 0)
  }

  function ShiftLo(bLo: UInt32): UInt32 { (2 * bLo) % W }

  lemma ShiftIsDoubling(bHi: UInt32, bLo: UInt32)
    requires 2 * Double(bHi, bLo) < W * W
    ensures Double(ShiftHi(bHi, bLo), ShiftLo(bLo)) == 2 * Double(bHi, bLo)
  {
    assert 2 * bHi < W;
  }

  /** Complementing and adding one. */
  function NegLo(lo: UInt32): UInt32 { (W - 1 - lo + 1) % W }

  function NegHi(hi: UInt32, lo: UInt32): UInt32 {
    if NegLo(lo) == 0 then (W - 1 - hi + 1) % W else W - 1 - hi
  }

  lemma NegIsComplement(hi: UInt32, lo: UInt32)
    requires Double(hi, lo) > 0
    ensures Double(NegHi(hi, lo), NegLo(lo)) == W * W - Double(hi, lo)
  {
  }

  // ---------------------------------------------------------------- the loop

  /** Where the loop stands after some bits of `a`: `left` is the rest of `a` as an unsigned
      number below `p`, of which the register `a` holds the low bits, sign-extended. */
  ghost predicate Progress(product: int, b: UInt32, a: int, left: int, p: int, acc: int, bb: int) {
    && 0 <= left < p && p > 0
    && (a == left || a == left - p)
    && acc >= 0 && bb >= 0
    && acc + left * bb == product
    && bb * p == b * W
  }

  lemma OddAdds(product: int, b: UInt32, a: int, left: int, p: int, acc: int, bb: int)
    requires Progress(product, b, a, left, p, acc, bb) && left % 2 == 1
    ensures Progress(product, b, a - 1, left - 1, p, acc + bb, bb)
  {
    assert left * bb == (left - 1) * bb + bb;
  }

  lemma EvenShifts(product: int, b: UInt32, a: int, left: int, p: int, acc: int, bb: int)
    requires Progress(product, b, a, left, p, acc, bb) && left % 2 == 0 && p % 2 == 0
    ensures Progress(product, b, a / 2, left / 2, p / 2, acc, 2 * bb)
  {
    assert left == 2 * (left / 2) && p == 2 * (p / 2);
    assert left * bb == (left / 2) * (2 * bb);
    assert bb * p == (2 * bb) * (p / 2);
  }

  lemma AtLeast(n: int, k: int, x: int)
    requires n >= k && x >= 0
    ensures n * x >= k * x && x * n == n * x
  {
    assert (n - k) * x >= 0;
  }

  /** The parts of a sum that the loop may need stay within 64 bits. */
  lemma InRange(product: int, b: UInt32, a: int, left: int, p: int, acc: int, bb: int)
    requires Progress(product, b, a, left, p, acc, bb) && product < W * W
    ensures left >= 1 ==> acc + bb < W * W
    ensures acc < W * W
    ensures p >= 2 ==> 2 * bb < W * W
  {
    AtLeast(left, 0, bb);
    if left >= 1 { AtLeast(left, 1, bb); }
    if p >= 2 { AtLeast(p, 2, bb); }
  }

  lemma ProductBound(x: int, y: int, m: int, n: int)
    requires 0 <= x <= m && 0 <= y <= n
    ensures 0 <= x * y <= m * n
    ensures x > 0 && y > 0 ==> x * y > 0
  {
    assert x * y <= m * y by { assert (m - x) * y >= 0; }
    assert m * y <= m * n by { assert m * (n - y) >= 0; }
  }

  lemma ProductFits(x: UInt32, y: UInt32)
    ensures 0 <= x * y < W * W
  {
    ProductBound(x, y, W - 1, W - 1);
  }

  /** At the start nothing of `a` is consumed. */
  lemma Begins(a: Int32, b: Int32)
    ensures Progress(AsUnsigned(a) * AsUnsigned(b), AsUnsigned(b), a, AsUnsigned(a), Pow2(32), Double(0, 0), Double(0, AsUnsigned(b)))
  {
    Pow2Of32();
  }

  /** The register and the unsigned rest agree in their low bit, and the loop may stop when the
      register is one. */
  lemma LowBit(product: int, b: UInt32, a: int, left: int, i: nat, acc: int, bb: int)
    requires i < 32 && Progress(product, b, a, left, Pow2(32 - i), acc, bb)
    ensures Pow2(32 - i) == 2 * Pow2(31 - i) && a % 2 == left % 2
    ensures a == 1 ==> acc + bb == product
    ensures a == 0 ==> acc == product
  {
    assert Pow2(32 - i) == 2 * Pow2(31 - i);
    if a == 1 { assert left == 1; }
    if a == 0 { assert left == 0; }
  }

  lemma Ends(product: int, b: UInt32, a: int, left: int, acc: int, bb: int)
    requires Progress(product, b, a, left, Pow2(0), acc, bb)
    ensures acc == product
  {
    Pow2Of32();
  }

  /** One turn of the loop without the early exit. */
  lemma Turn(product: int, b: UInt32, a: int, left: int, i: nat, acc: int, bb: int)
    requires i < 32 && Progress(product, b, a, left, Pow2(32 - i), acc, bb)
    ensures Progress(product, b, a / 2, left / 2, Pow2(31 - i), if a % 2 == 1 then acc + bb else acc, 2 * bb)
  {
    hide Progress, Pow2;
    LowBit(product, b, a, left, i, acc, bb);
    assert Pow2(32 - i) / 2 == Pow2(31 - i);
    if left % 2 == 1 {
      OddAdds(product, b, a, left, Pow2(32 - i), acc, bb);
      EvenShifts(product, b, a - 1, left - 1, Pow2(32 - i), acc + bb, bb);
      assert (a - 1) / 2 == a / 2 && (left - 1) / 2 == left / 2;
    } else {
      EvenShifts(product, b, a, left, Pow2(32 - i), acc, bb);
    }
  }

  lemma TurnInRange(product: int, b: UInt32, a: int, left: int, i: nat, acc: int, bb: int)
    requires i < 32 && Progress(product, b, a, left, Pow2(32 - i), acc, bb) && product < W * W
    ensures acc < W * W && 2 * bb < W * W && (a % 2 == 1 ==> acc + bb < W * W)
  {
    InRange(product, b, a, left, Pow2(32 - i), acc, bb);
    LowBit(product, b, a, left, i, acc, bb);
  }

  // ---------------------------------------------------------------- signs

  lemma MagnitudeFits(n: Int32)
    ensures Magnitude(n) <= 0x8000_0000
  {
  }

  lemma MagnitudeProduct(a: Int32, b: Int32)
    ensures a * b == if (a < 0) != (b < 0) then -(Magnitude(a) * Magnitude(b)) else Magnitude(a) * Magnitude(b)
  {
    var x: int, y: int := Magnitude(a), Magnitude(b);
    assert (-x) * y == -(x * y) && x * (-y) == -(x * y) && (-x) * (-y) == x * y;
  }

  /** A double word that stands for a signed product has the sign in its high word. */
  lemma SignedDouble(hi: UInt32, lo: UInt32, product: int)
    requires -0x4000_0000_0000_0000 <= product <= 0x4000_0000_0000_0000
    requires Double(hi, lo) == if product < 0 then W * W + product else product
    ensures AsSigned(hi) * W + lo == product
  {
  }

  /** Negating the product of the magnitudes when the signs differ gives the signed product. */
  lemma SignRestored(a: Int32, b: Int32, hi: UInt32, lo: UInt32)
    requires a != 0 && b != 0 && Double(hi, lo) == Magnitude(a) * Magnitude(b)
    ensures (a < 0) != (b < 0) ==> AsSigned(NegHi(hi, lo)) * W + NegLo(lo) == a * b
    ensures (a < 0) == (b < 0) ==> AsSigned(hi) * W + lo == a * b
  {
    hide Double, NegHi, NegLo, AsSigned, Magnitude;
    MagnitudeProduct(a, b);
    MagnitudeFits(a);
    MagnitudeFits(b);
    ProductBound(Magnitude(a), Magnitude(b), 0x8000_0000, 0x8000_0000);
    if (a < 0) != (b < 0) {
      NegIsComplement(hi, lo);
      SignedDouble(NegHi(hi, lo), NegLo(lo), a * b);
    } else {
      SignedDouble(hi, lo, a * b);
    }
  }

  lemma RegistersKeepBits(u: UInt32)
    ensures AsUnsigned(AsSigned(u)) == u
  {
  }

  /** The result registers hold the exact double-length product for all inputs: as a two's
      complement number for signed arithmetic, as an unsigned number otherwise. */
  method Mult(a0: Int32, b0: Int32, signedArith: bool) returns (hiReg: Int32, loReg: Int32)
    ensures signedArith ==> hiReg * W + AsUnsigned(loReg) == a0 * b0
    ensures !signedArith ==> AsUnsigned(hiReg) * W + AsUnsigned(loReg) == AsUnsigned(a0) * AsUnsigned(b0)
  {
    hide AsSigned;
    if a0 == 0 || b0 == 0 {
      RegistersKeepBits(0);
      return 0, 0;
    }
    var a: Int32, b: Int32 := a0, b0;
    var negative := false;
    if signedArith {
      if a < 0 {
        negative := !negative;
        NegatedIsMagnitude(a);
        a := Negated(a);
      }
      if b < 0 {
        negative := !negative;
        NegatedIsMagnitude(b);
        b := Negated(b);
      }
    }
    var hi, lo := ShiftAndAdd(a, b);
    if signedArith {
      assert AsUnsigned(a) == Magnitude(a0) && AsUnsigned(b) == Magnitude(b0);
      SignRestored(a0, b0, hi, lo);
    }
    if negative {
      ghost var negHi, negLo := NegHi(hi, lo), NegLo(lo);
      hi, lo := W - 1 - hi, W - 1 - lo;
      lo := (lo + 1) % W;
      if lo == 0 {
        hi := (hi + 1) % W;
      }
      assert hi == negHi && lo == negLo;
    }
    RegistersKeepBits(hi);
    RegistersKeepBits(lo);
    hiReg, loReg := AsSigned(hi), AsSigned(lo);
  }

  /** The main loop of `Mult`. */
  method ShiftAndAdd(a0: Int32, b: Int32) returns (hi: UInt32, lo: UInt32)
    ensures Double(hi, lo) == AsUnsigned(a0) * AsUnsigned(b)
  {
    hide Progress, Double, Pow2;
    var a: Int32 := a0;
    var bLo: UInt32 := AsUnsigned(b);
    var bHi: UInt32 := 0;
    lo, hi := 0, 0;
    ghost var product := AsUnsigned(a0) * AsUnsigned(b);
    ghost var left: int := AsUnsigned(a0);
    ProductFits(AsUnsigned(a0), AsUnsigned(b));
    Begins(a, b);
    for i := 0 to 32
      invariant Progress(product, AsUnsigned(b), a, left, Pow2(32 - i), Double(hi, lo), Double(bHi, bLo))
    {
      LowBit(product, AsUnsigned(b), a, left, i, Double(hi, lo), Double(bHi, bLo));
      Turn(product, AsUnsigned(b), a, left, i, Double(hi, lo), Double(bHi, bLo));
      TurnInRange(product, AsUnsigned(b), a, left, i, Double(hi, lo), Double(bHi, bLo));
      if a % 2 == 1 {
        AddIsExact(hi, lo, bHi, bLo);
        lo := (lo + bLo) % W;
        if lo < bLo {
          hi := (hi + 1) % W;
        }
        hi := (hi + bHi) % W;
        if a - 1 == 0 {
          return;
        }
      }
      ShiftIsDoubling(bHi, bLo);
      bHi := (2 * bHi) % W;
      if bLo >= 0x8000_0000 {
        bHi := bHi + 1;
      }
      bLo := (2 * bLo) % W;
      a, left := a / 2, left / 2;
    }
    Ends(product, AsUnsigned(b), a, left, Double(hi, lo), Double(bHi, bLo));
  }
}
