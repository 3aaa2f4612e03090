/** The loads and stores by name, byte by byte. */
module LoadsAndStores {
  import opened Basics
  import opened Bytes
  import opened PagedMemory
  import opened PagingRefinement
  import opened Cpu
  import opened Visibility
  import opened InstructionSet
  import opened Mnemonics

  /** `LWL` and `LWR` are at the aligned addresses they assert. */
  datatype LoadKind = LB | LBU | LH | LHU | LW | LWL | LWR

  function LoadSize(n: LoadKind): AccessSize {
    if n == LB || n == LBU then 1 else if n == LH || n == LHU then 2 else 4
  }

  function LoadInstr(n: LoadKind, rs: Reg, rt: Reg, extra: int): Instr {
    match n
    case LB => Load(1, rs, rt, extra, v => if v % 256 >= 128 then v % 256 - 256 else v % 256)
    case LBU => Load(1, rs, rt, extra, v => v % 256)
    case LH => Load(2, rs, rt, extra, v => if v % 65536 >= 32768 then v % 65536 - 65536 else v % 65536)
    case LHU => Load(2, rs, rt, extra, v => v % 65536)
    case LW => Load(4, rs, rt, extra, v => v)
    case LWL => LoadPartial(rs, rt, extra, (was, w) => w)
    case LWR => LoadPartial(rs, rt, extra, (was, w) => Wrap32(Unsigned(was) / 256 * 256 + Unsigned(w) / 0x100_0000))
  }

  /** Aligned and inside the address space. */
  predicate Reaches(m: seq<Byte>, addr: int, size: AccessSize) {
    addr % size == 0 && addr % TWO32 + size <= |m|
  }

  /** `n` bytes of memory as an unsigned number, least significant byte first. */
  function Number(m: seq<Byte>, u: nat, n: nat): nat
    requires u + n <= |m|
    decreases n
  {
    if n == 0 then 0 else m[u] as int + 256 * Number(m, u + 1, n - 1)
  }

  lemma NumberIs(m: seq<Byte>, u: nat)
    ensures u + 1 <= |m| ==> Number(m, u, 1) == m[u]
    ensures u + 2 <= |m| ==> Number(m, u, 2) == m[u] as int + 256 * (m[u + 1] as int)
    ensures u + 4 <= |m| ==> Number(m, u, 4) == Word(m[u..u + 4])
  {
    if u + 1 <= |m| { assert Number(m, u + 1, 0) == 0; }
    if u + 2 <= |m| { assert Number(m, u + 1, 1) == m[u + 1] as int + 256 * Number(m, u + 2, 0); }
    if u + 4 <= |m| {
      assert Number(m, u + 3, 1) == m[u + 3] as int + 256 * Number(m, u + 4, 0);
      assert Number(m, u + 2, 2) == m[u + 2] as int + 256 * Number(m, u + 3, 1);
      assert Number(m, u + 1, 3) == m[u + 1] as int + 256 * Number(m, u + 2, 2);
    }
  }

  /** What a load leaves pending, `was` being the register as `LWR` finds it. */
  function Loads(n: LoadKind, m: seq<Byte>, u: nat, was: int): int
    requires u + LoadSize(n) <= |m|
  {
    var x := Number(m, u, LoadSize(n));
    match n
    case LB => if x < 128 then x else x - 256
    case LBU => x
    case LH => if x < 32768 then x else x - 65536
    case LHU => x
    case LW => if x < 0x8000_0000 then x else x - TWO32
    case LWL => if x < 0x8000_0000 then x else x - TWO32
    case LWR => Wrap32(Unsigned(was) / 256 * 256 + m[u + 3])
  }

  lemma ReadIs(m: seq<Byte>, addr: int, size: AccessSize)
    requires Permitted(m, addr, size)
    ensures var x, v := Number(m, Unsigned(addr), size), FlatRead(m, addr, size);
            && (size == 1 ==> v == if x < 128 then x else x - 256)
            && (size == 2 ==> v == x < 65536)
            && (size == 4 ==> v == (if x < 0x8000_0000 then x else x - TWO32) && Unsigned(v) == x)
  {
    var u := Unsigned(addr);
    NumberIs(m, u);
    if size == 2 { assert m[u..u + 2][0] == m[u] && m[u..u + 2][1] == m[u + 1]; }
  }

  lemma ExtendedIs(n: LoadKind, m: seq<Byte>, addr: int, was: int)
    requires Permitted(m, addr, LoadSize(n))
    ensures var i, v := LoadInstr(n, 0, 0, 0), FlatRead(m, addr, LoadSize(n));
            (if i.Load? then i.extend(v) else i.merge(was, v)) == Loads(n, m, Unsigned(addr), was)
  {
    hide Wrap32, FlatRead, Number;
    ReadIs(m, addr, LoadSize(n));
    if n == LB || n == LBU { NumberIs(m, Unsigned(addr)); }
    if n == LWR { TopByte(m, Unsigned(addr)); }
  }

  /** Every load: the bytes at the address, extended as the instruction says, are pending for `rt`; or an
      address error. */
  lemma LoadIs(n: LoadKind, rs: Reg, rt: Reg, extra: int, m: seq<Byte>, regs: Registers, m': seq<Byte>, regs': Registers, o: Outcome)
    requires RegsOk(regs) && Means(LoadInstr(n, rs, rt, extra), m, regs, m', regs', o)
    ensures m' == m
    ensures var addr := Wrap32(regs[rs] + extra);
            var was := if regs[LOAD] == rt then regs[LOAD_VALUE] else regs[rt];
            if Reaches(m, addr, LoadSize(n)) then
              o == Completed && Ends(regs, regs', map[], rt, Loads(n, m, addr % TWO32, was), Wrap32(regs[NEXT_PC] + 4))
            else o == Trapped && Abandoned(regs, regs', addr)
  {
    hide Wrap32, FlatRead, Number, Ends, Abandoned;
    var addr, size := Wrap32(regs[rs] + extra), LoadSize(n);
    if Permitted(m, addr, size) {
      ExtendedIs(n, m, addr, if regs[LOAD] == rt then regs[LOAD_VALUE] else regs[rt]);
    }
  }

  lemma TopByte(m: seq<Byte>, u: nat)
    requires u + 4 <= |m|
    ensures Number(m, u, 4) / 0x100_0000 == m[u + 3]
  {
    NumberIs(m, u);
  }

  /** Every store: the bytes of the register, least significant first, or for `SWR` its lowest byte at the
      fourth place, and nothing else changes; or an address error. */
  lemma StoreIs(n: StoreKind, rs: Reg, rt: Reg, extra: int, m: seq<Byte>, regs: Registers, m': seq<Byte>, regs': Registers, o: Outcome)
    requires RegsOk(regs) && Means(StoreInstr(n, rs, rt, extra), m, regs, m', regs', o)
    ensures |m'| == |m|
    ensures var addr, size, r := Wrap32(regs[rs] + extra), if n.Whole? then n.size else 4, regs[rt];
            var u := addr % TWO32;
            if Reaches(m, addr, size) then
              && o == Completed && Ends(regs, regs', map[], 0, 0, Wrap32(regs[NEXT_PC] + 4))
              && (forall a :: 0 <= a < |m| && !(u <= a < u + size) ==> m'[a] == m[a])
              && (if n.Right? then m'[u + 3] == r % 256 && m'[u..u + 3] == m[u..u + 3]
                  else && m'[u] == r % 256 && (size > 1 ==> m'[u + 1] == r / 256 % 256)
                       && (size == 4 ==> m'[u + 2] == r / 65536 % 256 && m'[u + 3] == r / 16777216 % 256))
            else m' == m && o == Trapped && Abandoned(regs, regs', addr)
  {
    hide Wrap32, FlatRead, Ends, Abandoned, Number;
    var addr, size := Wrap32(regs[rs] + extra), if n.Whole? then n.size else 4;
    if Permitted(m, addr, size) {
      ReadIs(m, addr, size);
      if n.Right? { KeepsThree(m, Unsigned(addr), FlatRead(m, addr, 4), regs[rt]); }
    }
  }

  lemma LowPart(low: int, e: int)
    requires 0 <= low < 0x100_0000
    ensures (low + 0x100_0000 * e) % 0x100_0000 == low
  {
  }

  lemma LowBytes(w: int, a: int, b: int, c: int, d: int)
    requires 0 <= a < 256 && 0 <= b < 256 && 0 <= c < 256 && Unsigned(w) == a + 256 * b + 65536 * c + 0x100_0000 * d
    ensures w % 0x100_0000 == a + 256 * b + 65536 * c
  {
    LowPart(a + 256 * b + 65536 * c, 256 * (w / TWO32) + d);
  }

  lemma FourBytes(a: int, b: int, c: int, top: int)
    requires 0 <= a < 256 && 0 <= b < 256 && 0 <= c < 256 && 0 <= top < 256
    ensures ToBytes(4, a + 256 * b + 65536 * c + 0x100_0000 * top) == [a, b, c, top]
  {
    var v := a + 256 * b + 65536 * c + 0x100_0000 * top;
    assert v / 256 == b + 256 * c + 65536 * top;
    assert v / 65536 == c + 256 * top;
    assert v / 16777216 == top;
  }

  /** The value `SWR` stores has the three low bytes that were there. */
  lemma KeepsThree(m: seq<Byte>, u: nat, w: int, r: int)
    requires u + 4 <= |m| && Unsigned(w) == Number(m, u, 4)
    ensures ToBytes(4, w % 0x100_0000 + r % 0x100 * 0x100_0000) == [m[u], m[u + 1], m[u + 2], r % 256]
  {
    hide Number;
    NumberIs(m, u);
    LowBytes(w, m[u], m[u + 1], m[u + 2], m[u + 3]);
    FourBytes(m[u], m[u + 1], m[u + 2], r % 256);
  }
}
