/** `BitMap`: an array of 32-bit words addressed by `which / 32` and `which % 32`. */
module BitMap {
  import opened BitMapSpec

  const BITS_IN_WORD := 32

  class BitMap {
    const numBits: nat
    const words: array<seq<bool>>  // each word is its 32 bits

    ghost predicate Valid()
      reads words
    {
      && numBits <= words.Length * BITS_IN_WORD
      && forall w :: 0 <= w < words.Length ==> |words[w]| == BITS_IN_WORD
    }

    ghost function Bits(): (bits: seq<bool>)
      reads words
      requires Valid()
      ensures |bits| == numBits
    {
      seq(numBits, i requires 0 <= i < numBits && Valid() reads words => words[i / BITS_IN_WORD][i % BITS_IN_WORD])
    }

    constructor (nitems: nat)
      ensures Valid() && fresh(words) && numBits == nitems && Bits() == seq(nitems, _ => false)
    {
      numBits := nitems;
      var numWords := nitems / BITS_IN_WORD + if nitems % BITS_IN_WORD > 0 then 1 else 0;
      words := new seq<bool>[numWords](_ => seq(BITS_IN_WORD, _ => true));
      new;
      for i := 0 to nitems
        invariant Valid() && fresh(words)
        invariant forall j :: 0 <= j < i ==> !Bits()[j]
      {
        Clear(i);
      }
    }

    method Put(which: nat, value: bool)
      requires Valid() && which < numBits
      modifies words
      ensures Valid() && Bits() == old(Bits())[which := value]
    {
      var w, b := which / BITS_IN_WORD, which % BITS_IN_WORD;
      words[w] := words[w][b := value];
      forall i | 0 <= i < numBits && i != which ensures i / BITS_IN_WORD != w || i % BITS_IN_WORD != b {
      }
    }

    method Mark(which: nat)
      requires Valid() && which < numBits
      modifies words
      ensures Valid() && Bits() == old(Bits())[which := true]
    {
      Put(which, true);
    }

    method Clear(which: nat)
      requires Valid() && which < numBits
      modifies words
      ensures Valid() && Bits() == old(Bits())[which := false]
    {
      Put(which, false);
    }

    method Test(which: nat) returns (r: bool)
      requires Valid() && which < numBits
      ensures r == Bits()[which]
    {
      r := words[which / BITS_IN_WORD][which % BITS_IN_WORD];
    }

    method Find() returns (r: int)
      requires Valid()
      modifies words
      ensures Valid() && r == FirstClear(old(Bits()))
      ensures Bits() == if r == -1 then old(Bits()) else old(Bits())[r := true]
    {
      for i := 0 to numBits
        invariant Valid() && Bits() == old(Bits())
        invariant forall j :: 0 <= j < i ==> Bits()[j]
      {
        var marked := Test(i);
        if !marked {
          FirstClearIs(Bits(), i);
          Mark(i);
          return i;
        }
      }
      FirstClearIs(Bits(), -1);
      return -1;
    }

    method CountClear() returns (count: nat)
      requires Valid()
      ensures count == NumClear(Bits())
    {
      count := 0;
      for i := 0 to numBits
        invariant count == NumClear(Bits()[..i])
      {
        var marked := Test(i);
        assert Bits()[..i + 1][..i] == Bits()[..i];
        if !marked {
          count := count + 1;
        }
      }
      assert Bits()[..numBits] == Bits();
    }

    /** The bits in order, as `WriteBack` stores them. */
    method ToBits() returns (bits: seq<bool>)
      requires Valid()
      ensures bits == Bits()
    {
      bits := [];
      for i := 0 to numBits
        invariant bits == Bits()[..i]
      {
        var marked := Test(i);
        bits := bits + [marked];
      }
    }
  }

  /** A bitmap holding the bits that `FetchFrom` read. */
  method FromBits(bits: seq<bool>) returns (m: BitMap)
    ensures fresh(m) && fresh(m.words) && m.Valid() && m.numBits == |bits| && m.Bits() == bits
  {
    m := new BitMap(|bits|);
    for i := 0 to |bits|
      invariant fresh(m) && fresh(m.words) && m.Valid() && m.numBits == |bits|
      invariant forall j :: 0 <= j < i ==> m.Bits()[j] == bits[j]
      invariant forall j :: i <= j < |bits| ==> !m.Bits()[j]
    {
      if bits[i] {
        m.Mark(i);
      }
    }
    assert m.Bits() == bits;
  }
}
