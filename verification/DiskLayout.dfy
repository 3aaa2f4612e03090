/** How file headers, directory entries and the free map are laid out in disk bytes, with the
    proof that reading back what was written gives the same thing. */
module DiskLayout {
  import opened Basics
  import opened Bytes

  const SECTOR_SIZE := 128
  const NUM_SECTORS := 1024
  const NUM_DIRECT := 30                // (SectorSize - 2 * sizeof(int)) / sizeof(int)
  const MAX_FILE_SIZE := 3840           // NumDirect * SectorSize
  const FILE_NAME_MAX_LEN := 9
  const ENTRY_SIZE := 20                // sizeof(DirectoryEntry): flag, pad, sector, name[10], pad
  const NUM_DIR_ENTRIES := 10

  // ---------------------------------------------------------------- words

  function EncodeWords(ws: seq<nat>): (bs: seq<Byte>)
    ensures |bs| == 4 * |ws|
  {
    if ws == [] then [] else ToBytes(4, ws[0]) + EncodeWords(ws[1..])
  }

  function DecodeWords(bs: seq<Byte>): (ws: seq<nat>)
    ensures |ws| == |bs| / 4
  {
    if |bs| < 4 then [] else [Word(bs[..4])] + DecodeWords(bs[4..])
  }

  lemma WordRoundTrip(w: nat)
    requires w < 0x1_0000_0000
    ensures Word(ToBytes(4, w)) == w
  {
    WordOfBytes(w);
  }

  lemma {:induction false} WordsRoundTrip(ws: seq<nat>)
    requires forall i :: 0 <= i < |ws| ==> ws[i] < 0x1_0000_0000
    ensures DecodeWords(EncodeWords(ws)) == ws
  {
    if ws != [] {
      var bs := EncodeWords(ws);
      assert bs[..4] == ToBytes(4, ws[0]) && bs[4..] == EncodeWords(ws[1..]);
      WordRoundTrip(ws[0]);
      WordsRoundTrip(ws[1..]);
    }
  }

  // ---------------------------------------------------------------- file headers

  datatype Header = Header(numBytes: nat, dataSectors: seq<nat>)

  /** A header that `Allocate` can have produced. */
  predicate HeaderOk(h: Header) {
    && h.numBytes <= MAX_FILE_SIZE
    && |h.dataSectors| == DivRoundUp(h.numBytes, SECTOR_SIZE)
    && forall i :: 0 <= i < |h.dataSectors| ==> h.dataSectors[i] < NUM_SECTORS
  }

  lemma HeaderFits(h: Header)
    requires HeaderOk(h)
    ensures |h.dataSectors| <= NUM_DIRECT && h.numBytes <= |h.dataSectors| * SECTOR_SIZE
  {
  }

  /** The unused slots of `dataSectors` are arbitrary in the original; here they are zero. */
  function EncodeHeader(h: Header): (bs: seq<Byte>)
    requires |h.dataSectors| <= NUM_DIRECT
    ensures |bs| == SECTOR_SIZE
  {
    EncodeWords([h.numBytes, |h.dataSectors|] + h.dataSectors + seq(NUM_DIRECT - |h.dataSectors|, _ => 0))
  }

  function DecodeHeader(bs: seq<Byte>): Header
    requires |bs| == SECTOR_SIZE
  {
    var ws := DecodeWords(bs);
    Header(ws[0], ws[2..2 + if ws[1] <= NUM_DIRECT then ws[1] else NUM_DIRECT])
  }

  lemma HeaderRoundTrip(h: Header)
    requires HeaderOk(h)
    ensures |h.dataSectors| <= NUM_DIRECT && DecodeHeader(EncodeHeader(h)) == h
  {
    HeaderFits(h);
    var ws: seq<nat> := [h.numBytes, |h.dataSectors|] + h.dataSectors + seq(NUM_DIRECT - |h.dataSectors|, _ => 0);
    WordsRoundTrip(ws);
    assert ws[2..2 + |h.dataSectors|] == h.dataSectors;
  }

  // ---------------------------------------------------------------- the free map

  function EncodeBits(bits: seq<bool>): (n: nat)
  {
    if bits == [] then 0 else (if bits[0] then 1 else 0) + 2 * EncodeBits(bits[1..])
  }

  function DecodeBits(n: nat, len: nat): (bits: seq<bool>)
    ensures |bits| == len
  {
    if len == 0 then [] else [n % 2 == 1] + DecodeBits(n / 2, len - 1)
  }

  lemma {:induction false} BitsRoundTrip(bits: seq<bool>)
    ensures DecodeBits(EncodeBits(bits), |bits|) == bits
  {
    if bits != [] {
      BitsRoundTrip(bits[1..]);
    }
  }

  lemma BitsBound(bits: seq<bool>)
    ensures EncodeBits(bits) < Pow2(|bits|)
  {
  }

  lemma ByteOfEight(bits: seq<bool>)
    requires |bits| == 8
    ensures EncodeBits(bits) < 256
  {
    BitsBound(bits);
    assert Pow2(8) == 2 * Pow2(7) == 4 * Pow2(6) == 8 * Pow2(5) == 16 * Pow2(4) == 32 * Pow2(3) == 256;
  }

  /** Eight bits to a byte, lowest bit first. */
  function EncodeMap(bits: seq<bool>): (bs: seq<Byte>)
    ensures |bs| == |bits| / 8
  {
    if |bits| < 8 then []
    else
      ByteOfEight(bits[..8]);
      [EncodeBits(bits[..8])] + EncodeMap(bits[8..])
  }

  function DecodeMap(bs: seq<Byte>): (bits: seq<bool>)
    ensures |bits| == 8 * |bs|
  {
    if bs == [] then [] else DecodeBits(bs[0], 8) + DecodeMap(bs[1..])
  }

  lemma {:induction false} MapRoundTrip(bits: seq<bool>)
    requires |bits| % 8 == 0
    ensures DecodeMap(EncodeMap(bits)) == bits
  {
    if bits != [] {
      BitsRoundTrip(bits[..8]);
      MapRoundTrip(bits[8..]);
      assert EncodeMap(bits)[1..] == EncodeMap(bits[8..]);
    }
  }

  // ---------------------------------------------------------------- the directory

  datatype Entry = Entry(inUse: bool, sector: nat, name: seq<Byte>)

  predicate EntryOk(e: Entry) {
    e.sector < 0x1_0000_0000 && |e.name| == FILE_NAME_MAX_LEN
  }

  function EncodeEntry(e: Entry): (bs: seq<Byte>)
    requires EntryOk(e)
    ensures |bs| == ENTRY_SIZE
  {
    [if e.inUse then 1 else 0, 0, 0, 0] + ToBytes(4, e.sector) + e.name + [0, 0, 0]
  }

  function DecodeEntry(bs: seq<Byte>): (e: Entry)
    requires |bs| == ENTRY_SIZE
    ensures EntryOk(e)
  {
    Entry(bs[0] != 0, Word(bs[4..8]), bs[8..17])
  }

  lemma EntryRoundTrip(e: Entry)
    requires EntryOk(e)
    ensures DecodeEntry(EncodeEntry(e)) == e
  {
    var bs := EncodeEntry(e);
    assert bs[4..8] == ToBytes(4, e.sector) && bs[8..17] == e.name;
    WordRoundTrip(e.sector);
  }

  predicate TableOk(table: seq<Entry>) {
    forall i :: 0 <= i < |table| ==> EntryOk(table[i])
  }

  function EncodeTable(table: seq<Entry>): (bs: seq<Byte>)
    requires TableOk(table)
    ensures |bs| == ENTRY_SIZE * |table|
  {
    if table == [] then [] else EncodeEntry(table[0]) + EncodeTable(table[1..])
  }

  function DecodeTable(bs: seq<Byte>): (table: seq<Entry>)
    ensures |table| == |bs| / ENTRY_SIZE && TableOk(table)
  {
    if |bs| < ENTRY_SIZE then [] else [DecodeEntry(bs[..ENTRY_SIZE])] + DecodeTable(bs[ENTRY_SIZE..])
  }

  lemma {:induction false} TableRoundTrip(table: seq<Entry>)
    requires TableOk(table)
    ensures DecodeTable(EncodeTable(table)) == table
  {
    if table != [] {
      var bs := EncodeTable(table);
      assert bs[..ENTRY_SIZE] == EncodeEntry(table[0]) && bs[ENTRY_SIZE..] == EncodeTable(table[1..]);
      EntryRoundTrip(table[0]);
      TableRoundTrip(table[1..]);
    }
  }
}
