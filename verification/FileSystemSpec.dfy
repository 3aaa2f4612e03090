/** The file system as its disk holds it: what each operation does to the bytes of the disk,
    and the invariant that ties the free map, the directory and the file headers together. */
module FileSystemSpec {
  import opened Basics
  import opened Bytes
  import opened BitMapSpec
  import opened DiskLayout

  type Disk = seq<seq<Byte>>

  predicate DiskShape(d: Disk) {
    |d| == NUM_SECTORS && forall s :: 0 <= s < |d| ==> |d[s]| == SECTOR_SIZE
  }

  // ---------------------------------------------------------------- file contents

  lemma SectorOfByte(h: Header, p: int)
    requires HeaderOk(h) && 0 <= p < h.numBytes
    ensures 0 <= p / SECTOR_SIZE < |h.dataSectors|
  {
  }

  /** The contents of the file with header `h`. */
  function FileBytes(d: Disk, h: Header): (bs: seq<Byte>)
    requires DiskShape(d) && HeaderOk(h)
    ensures |bs| == h.numBytes
  {
    seq<Byte>(h.numBytes, p requires 0 <= p < h.numBytes => ByteAt(d, h, p))
  }

  function ByteAt(d: Disk, h: Header, p: int): Byte
    requires DiskShape(d) && HeaderOk(h) && 0 <= p < h.numBytes
  {
    SectorOfByte(h, p);
    d[h.dataSectors[p / SECTOR_SIZE]][p % SECTOR_SIZE]
  }

  /** `part` is written into the file at `at`; nothing outside its data sectors changes. */
  ghost predicate Wrote(d: Disk, h: Header, at: nat, part: seq<Byte>, d': Disk)
    requires DiskShape(d) && HeaderOk(h) && at + |part| <= h.numBytes
  {
    && DiskShape(d')
    && (forall s :: 0 <= s < NUM_SECTORS && s !in h.dataSectors ==> d'[s] == d[s])
    && FileBytes(d', h) == Patch(FileBytes(d, h), at, part)
  }

  /** Files whose sectors did not change have the same contents. */
  lemma SameSectorsSameBytes(d: Disk, d': Disk, h: Header)
    requires DiskShape(d) && DiskShape(d') && HeaderOk(h)
    requires forall s <- h.dataSectors :: d'[s] == d[s]
    ensures FileBytes(d', h) == FileBytes(d, h)
  {
  }

  // ---------------------------------------------------------------- the two system files

  const FREE_MAP_SECTOR := 0
  const DIRECTORY_SECTOR := 1
  const MAP_HEADER := Header(128, [2])
  const DIR_HEADER := Header(200, [3, 4])

  function FreeMap(d: Disk): (bits: seq<bool>)
    requires DiskShape(d)
    ensures |bits| == NUM_SECTORS
  {
    DecodeMap(FileBytes(d, MAP_HEADER))
  }

  function Dir(d: Disk): (table: seq<Entry>)
    requires DiskShape(d)
    ensures |table| == NUM_DIR_ENTRIES && TableOk(table)
  {
    DecodeTable(FileBytes(d, DIR_HEADER))
  }

  // ---------------------------------------------------------------- names

  /** A C string, without its terminating zero. */
  predicate IsName(name: seq<Byte>) { forall i :: 0 <= i < |name| ==> name[i] != 0 }

  function CharAt(s: seq<Byte>): Byte { if s == [] then 0 else s[0] }

  function Rest(s: seq<Byte>): seq<Byte> { if s == [] then [] else s[1..] }

  /** `strncmp(a, b, n) == 0`. */
  predicate SameString(a: seq<Byte>, b: seq<Byte>, n: nat) {
    n == 0 || (CharAt(a) == CharAt(b) && (CharAt(a) == 0 || SameString(Rest(a), Rest(b), n - 1)))
  }

  /** What `strncpy` stores: the first `n` characters, padded with zeros. */
  function Stored(name: seq<Byte>, n: nat): (s: seq<Byte>)
    ensures |s| == n
  {
    if n == 0 then [] else [CharAt(name)] + Stored(Rest(name), n - 1)
  }

  function Key(name: seq<Byte>): (key: seq<Byte>)
    ensures |key| == FILE_NAME_MAX_LEN
  {
    Stored(name, FILE_NAME_MAX_LEN)
  }

  /** Comparing a stored name finds exactly the names with the same first nine characters. */
  lemma {:induction false} SameStringIff(a: seq<Byte>, b: seq<Byte>, n: nat)
    requires IsName(a) && IsName(b)
    ensures SameString(Stored(a, n), b, n) <==> Stored(a, n) == Stored(b, n)
  {
    if n > 0 {
      var s := Stored(a, n);
      assert CharAt(s) == CharAt(a) && Rest(s) == Stored(Rest(a), n - 1);
      SameStringIff(Rest(a), Rest(b), n - 1);
      assert s == Stored(b, n) <==> CharAt(a) == CharAt(b) && Rest(s) == Stored(Rest(b), n - 1) by {
        assert Stored(b, n)[0] == CharAt(b) && Stored(b, n)[1..] == Stored(Rest(b), n - 1);
        assert s[0] == CharAt(a) && s[1..] == Rest(s);
      }
      if CharAt(a) == 0 && CharAt(b) == 0 {
        assert a == [] && b == [];
      }
    }
  }

  /** The first `n` characters, or all of them. */
  function Prefix(name: seq<Byte>, n: nat): seq<Byte> {
    if |name| <= n then name else name[..n]
  }

  lemma PrefixFront(a: seq<Byte>, b: seq<Byte>, n: nat)
    requires n > 0
    ensures a != [] && b != [] ==> (Prefix(a, n) == Prefix(b, n) <==> a[0] == b[0] && Prefix(a[1..], n - 1) == Prefix(b[1..], n - 1))
    ensures (a == []) != (b == []) ==> Prefix(a, n) != Prefix(b, n)
  {
    if a != [] && b != [] {
      assert Prefix(a, n) == [a[0]] + Prefix(a[1..], n - 1) && Prefix(b, n) == [b[0]] + Prefix(b[1..], n - 1);
      if Prefix(a, n) == Prefix(b, n) {
        assert Prefix(a, n)[1..] == Prefix(a[1..], n - 1) && Prefix(b, n)[1..] == Prefix(b[1..], n - 1);
      }
    }
  }

  lemma StoredFront(a: seq<Byte>, b: seq<Byte>, n: nat)
    requires n > 0
    ensures Stored(a, n) == Stored(b, n) <==> CharAt(a) == CharAt(b) && Stored(Rest(a), n - 1) == Stored(Rest(b), n - 1)
  {
    assert Stored(a, n)[0] == CharAt(a) && Stored(a, n)[1..] == Stored(Rest(a), n - 1);
    assert Stored(b, n)[0] == CharAt(b) && Stored(b, n)[1..] == Stored(Rest(b), n - 1);
  }

  lemma {:induction false} StoredIff(a: seq<Byte>, b: seq<Byte>, n: nat)
    requires IsName(a) && IsName(b)
    ensures Stored(a, n) == Stored(b, n) <==> Prefix(a, n) == Prefix(b, n)
  {
    if n > 0 {
      StoredFront(a, b, n);
      PrefixFront(a, b, n);
      StoredIff(Rest(a), Rest(b), n - 1);
      hide Stored;
    }
  }

  /** Two names are one to the file system exactly when their first nine characters are the same. */
  lemma KeyIff(a: seq<Byte>, b: seq<Byte>)
    requires IsName(a) && IsName(b)
    ensures Key(a) == Key(b) <==> Prefix(a, 9) == Prefix(b, 9)
  {
    StoredIff(a, b, 9);
  }

  // ---------------------------------------------------------------- directory operations

  predicate Matches(e: Entry, name: seq<Byte>) {
    e.inUse && SameString(e.name, name, FILE_NAME_MAX_LEN)
  }

  function Misses(table: seq<Entry>, name: seq<Byte>): (bits: seq<bool>)
    ensures |bits| == |table| && forall j :: 0 <= j < |table| ==> bits[j] == !Matches(table[j], name)
  {
    seq(|table|, j requires 0 <= j < |table| => !Matches(table[j], name))
  }

  /** `Directory::FindIndex`: the first match, or -1. */
  function FindIndex(table: seq<Entry>, name: seq<Byte>): (i: int)
    ensures -1 <= i < |table|
    ensures i >= 0 ==> Matches(table[i], name) && forall j :: 0 <= j < i ==> !Matches(table[j], name)
    ensures i == -1 ==> forall j :: 0 <= j < |table| ==> !Matches(table[j], name)
  {
    var bits := Misses(table, name);
    FirstClear(bits)
  }

  /** `Directory::Find`. */
  function Find(table: seq<Entry>, name: seq<Byte>): int {
    if FindIndex(table, name) == -1 then -1 else table[FindIndex(table, name)].sector
  }

  function InUse(table: seq<Entry>): (bits: seq<bool>)
    ensures |bits| == |table| && forall j :: 0 <= j < |table| ==> bits[j] == table[j].inUse
  {
    seq(|table|, j requires 0 <= j < |table| => table[j].inUse)
  }

  /** The slot `Directory::Add` takes, or -1. */
  function FirstFree(table: seq<Entry>): (i: int)
    ensures -1 <= i < |table|
    ensures i >= 0 ==> !table[i].inUse
    ensures i == -1 ==> forall j :: 0 <= j < |table| ==> table[j].inUse
  {
    var bits := InUse(table);
    FirstClear(bits)
  }

  // ---------------------------------------------------------------- file-system operations

  /** The disk right after formatting. */
  ghost predicate Formatted(d: Disk) {
    && DiskShape(d)
    && d[FREE_MAP_SECTOR] == EncodeHeader(MAP_HEADER)
    && d[DIRECTORY_SECTOR] == EncodeHeader(DIR_HEADER)
    && (forall s :: 0 <= s < NUM_SECTORS ==> FreeMap(d)[s] == (s < 5))
    && forall i :: 0 <= i < NUM_DIR_ENTRIES ==> !Dir(d)[i].inUse
  }

  /** The documented reasons for `Create` to fail are absent. */
  predicate CanCreate(d: Disk, name: seq<Byte>, size: nat)
    requires DiskShape(d)
  {
    && FindIndex(Dir(d), name) == -1
    && FirstFree(Dir(d)) >= 0
    && NumClear(FreeMap(d)) >= 1 + DivRoundUp(size, SECTOR_SIZE)
  }

  /** The sectors `Create` takes: one for the header, then the data sectors; and the new map. */
  function Allotment(bits: seq<bool>, size: nat): (r: (nat, Header, seq<bool>))
    requires |bits| == NUM_SECTORS && NumClear(bits) >= 1 + DivRoundUp(size, SECTOR_SIZE) && size <= MAX_FILE_SIZE
    ensures r.0 < NUM_SECTORS && !bits[r.0] && |r.1.dataSectors| <= NUM_DIRECT
  {
    FirstClearIff(bits);
    var hdr := FirstClear(bits);
    NumClearOfUpdate(bits, hdr);
    var (data, after) := FindMany(bits[hdr := true], DivRoundUp(size, SECTOR_SIZE));
    (hdr, Header(size, data), after)
  }

  predicate IsMetadata(s: int) { s == 2 || s == 3 || s == 4 }

  /** `FileSystem::Create`: all or nothing. */
  ghost predicate Created(d: Disk, name: seq<Byte>, size: nat, ok: bool, d': Disk)
    requires DiskShape(d) && size <= MAX_FILE_SIZE
  {
    && ok == CanCreate(d, name, size)
    && (!ok ==> d' == d)
    && (ok ==>
          var (hdr, h, bits) := Allotment(FreeMap(d), size);
          && DiskShape(d')
          && FreeMap(d') == bits
          && Dir(d') == Dir(d)[FirstFree(Dir(d)) := Entry(true, hdr, Key(name))]
          && d'[hdr] == EncodeHeader(h)
          && forall s :: 0 <= s < NUM_SECTORS && s != hdr && !IsMetadata(s) ==> d'[s] == d[s])
  }

  /** `FileSystem::Remove`. */
  ghost predicate Removed(d: Disk, name: seq<Byte>, ok: bool, d': Disk)
    requires DiskShape(d)
  {
    var i := FindIndex(Dir(d), name);
    && ok == (i != -1)
    && (!ok ==> d' == d)
    && (ok ==>
          var e := Dir(d)[i];
          && e.sector < NUM_SECTORS && HeaderOk(DecodeHeader(d[e.sector]))
          && DiskShape(d')
          && FreeMap(d') == ClearMany(FreeMap(d), DecodeHeader(d[e.sector]).dataSectors)[e.sector := false]
          && Dir(d') == Dir(d)[i := e.(inUse := false)]
          && forall s :: 0 <= s < NUM_SECTORS && !IsMetadata(s) ==> d'[s] == d[s])
  }

  /** A write to the open file of directory entry `i`. */
  ghost predicate WroteFile(d: Disk, i: int, at: nat, part: seq<Byte>, d': Disk)
    requires DiskShape(d)
  {
    && 0 <= i < NUM_DIR_ENTRIES && Dir(d)[i].inUse && Dir(d)[i].sector < NUM_SECTORS
    && var h := DecodeHeader(d[Dir(d)[i].sector]);
       HeaderOk(h) && at + |part| <= h.numBytes && Wrote(d, h, at, part, d')
  }
}
