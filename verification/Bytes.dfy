/** Bytes, and the little-endian layout of 1-, 2- and 4-byte quantities in the
    simulated machine's memory and on its disk. */
module Bytes {

  type Byte = b: int | 0 <= b < 256

  /** The transfer sizes `ReadMem` and `WriteMem` accept. */
  type AccessSize = s: int | s == 1 || s == 2 || s == 4 witness 1

  /** The part of `value` that a store of `size` bytes keeps, least significant byte first. */
  function ToBytes(size: AccessSize, value: int): (bs: seq<Byte>)
    ensures |bs| == size
  {
    if size == 1 then [value % 256]
    else if size == 2 then [value % 256, value / 256 % 256]
    else [value % 256, value / 256 % 256, value / 65536 % 256, value / 16777216 % 256]
  }

  /** The unsigned word stored in four bytes. */
  function Word(bs: seq<Byte>): (w: int)
    requires |bs| == 4
    ensures 0 <= w < 0x1_0000_0000
  {
    bs[0] as int + 256 * (bs[1] as int) + 65536 * (bs[2] as int) + 16777216 * (bs[3] as int)
  }

  /** The host `int` that a load of `size` bytes yields: one byte comes from a signed
      `char`, two from an `unsigned short`, four from a 32-bit word. */
  function FromBytes(size: AccessSize, bs: seq<Byte>): (value: int)
    requires |bs| == size
  {
    if size == 1 then Signed(bs[0], 256)
    else if size == 2 then bs[0] as int + 256 * (bs[1] as int)
    else Signed(Word(bs), 0x1_0000_0000)
  }

  /** Reinterpret `u` in [0, modulus) as a two's complement number. */
  function Signed(u: int, modulus: int): (v: int)
    requires 0 <= u < modulus
    ensures v == u || v == u - modulus
  {
    if 2 * u < modulus then u else u - modulus
  }

  /** What survives a store followed by a load of the same size. */
  function Truncated(size: AccessSize, value: int): (v: int)
  {
    if size == 1 then Signed(value % 256, 256)
    else if size == 2 then value % 65536
    else Signed(value % 0x1_0000_0000, 0x1_0000_0000)
  }

  lemma WordOfBytes(value: int)
    ensures Word(ToBytes(4, value)) == value % 0x1_0000_0000
  {
    var a, b, c := value / 256, value / 65536, value / 16777216;
    assert b == a / 256 && c == b / 256;
    assert value % 65536 == value % 256 + 256 * (a % 256);
    assert value % 0x1_0000_0000 == value % 65536 + 65536 * (b % 256) + 16777216 * (c % 256);
  }

  lemma LoadAfterStore(size: AccessSize, value: int)
    ensures FromBytes(size, ToBytes(size, value)) == Truncated(size, value)
  {
    if size == 4 {
      WordOfBytes(value);
    } else {
      assert value % 65536 == value % 256 + 256 * (value / 256 % 256);
    }
  }

  /** `s` with the elements from `at` on replaced by `part`. */
  function Patch<T>(s: seq<T>, at: nat, part: seq<T>): (r: seq<T>)
    requires at + |part| <= |s|
    ensures |r| == |s|
    ensures forall i :: 0 <= i < |s| ==> r[i] == if at <= i < at + |part| then part[i - at] else s[i]
  {
    s[..at] + part + s[at + |part|..]
  }
}
