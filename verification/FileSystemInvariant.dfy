/** Over every sequence of format, create, remove and file writes, every sector is free or
    belongs to exactly one file, the free map says which, and names stay distinct. */
module FileSystemInvariant {
  import opened Basics
  import opened Bytes
  import opened BitMapSpec
  import opened DiskLayout
  import opened FileSystemSpec

  // ---------------------------------------------------------------- ownership, abstractly

  ghost predicate Owned(files: seq<seq<nat>>, s: nat) {
    exists f :: 0 <= f < |files| && s in files[f]
  }

  /** No file lists a sector twice, no two files share one, and the set bits are exactly the
      sectors of some file. */
  ghost predicate Ownership(bits: seq<bool>, files: seq<seq<nat>>) {
    && (forall f :: 0 <= f < |files| ==> NoDup(files[f]))
    && (forall f, g, s :: 0 <= f < g < |files| && s in files[f] ==> s !in files[g])
    && (forall f, s :: 0 <= f < |files| && s in files[f] ==> s < |bits|)
    && (forall s :: 0 <= s < |bits| ==> (bits[s] <==> Owned(files, s)))
  }

  lemma AddFile(bits: seq<bool>, files: seq<seq<nat>>, f: nat, sectors: seq<nat>, bits': seq<bool>)
    requires Ownership(bits, files) && f < |files| && files[f] == [] && NoDup(sectors)
    requires |bits'| == |bits| && forall s <- sectors :: s < |bits| && !bits[s]
    requires forall s :: 0 <= s < |bits| ==> (bits'[s] <==> bits[s] || s in sectors)
    ensures Ownership(bits', files[f := sectors])
  {
    var files' := files[f := sectors];
    forall g, s | 0 <= g < |files| && s in files[g] ensures s !in sectors {
      assert Owned(files, s);
    }
    forall s | 0 <= s < |bits| ensures bits'[s] <==> Owned(files', s) {
      if Owned(files, s) {
        var g :| 0 <= g < |files| && s in files[g];
        assert s in files'[g];
      }
      if s in sectors { assert s in files'[f]; }
      if Owned(files', s) {
        var g :| 0 <= g < |files'| && s in files'[g];
        assert g != f ==> s in files[g];
      }
    }
  }

  lemma DropFile(bits: seq<bool>, files: seq<seq<nat>>, f: nat, bits': seq<bool>)
    requires Ownership(bits, files) && f < |files| && |bits'| == |bits|
    requires forall s :: 0 <= s < |bits| ==> (bits'[s] <==> bits[s] && s !in files[f])
    ensures Ownership(bits', files[f := []])
  {
    var files' := files[f := []];
    forall s | 0 <= s < |bits| ensures bits'[s] <==> Owned(files', s) {
      if Owned(files, s) && s !in files[f] {
        var g :| 0 <= g < |files| && s in files[g];
        assert s in files'[g];
      }
      if Owned(files', s) {
        var g :| 0 <= g < |files'| && s in files'[g];
        assert g != f && s in files[g];
      }
    }
  }

  // ---------------------------------------------------------------- the invariant on the disk

  /** Header sector and data sectors of a directory entry's file; none if it is not in use. */
  function EntrySectors(d: Disk, e: Entry): seq<nat>
    requires DiskShape(d)
  {
    if e.inUse && e.sector < NUM_SECTORS then [e.sector] + DecodeHeader(d[e.sector]).dataSectors else []
  }

  /** The sectors of file `f`: 0 is the free map, 1 the directory, 2 + i that of slot `i`. */
  function FileSectors(d: Disk, f: nat): seq<nat>
    requires DiskShape(d) && f < 2 + NUM_DIR_ENTRIES
  {
    if f == 0 then [FREE_MAP_SECTOR] + MAP_HEADER.dataSectors
    else if f == 1 then [DIRECTORY_SECTOR] + DIR_HEADER.dataSectors
    else EntrySectors(d, Dir(d)[f - 2])
  }

  function Files(d: Disk): (files: seq<seq<nat>>)
    requires DiskShape(d)
    ensures |files| == 2 + NUM_DIR_ENTRIES
    ensures forall f :: 0 <= f < |files| ==> files[f] == FileSectors(d, f)
  {
    seq(2 + NUM_DIR_ENTRIES, f requires 0 <= f < 2 + NUM_DIR_ENTRIES => FileSectors(d, f))
  }

  /** Stored names come from `strncpy`, and no two entries in use have the same one. */
  ghost predicate NamesDistinct(table: seq<Entry>) {
    && (forall i :: 0 <= i < |table| && table[i].inUse ==> exists name :: IsName(name) && table[i].name == Key(name))
    && (forall i, j :: 0 <= i < j < |table| && table[i].inUse && table[j].inUse ==> table[i].name != table[j].name)
  }

  ghost predicate EntryValid(d: Disk, e: Entry)
    requires DiskShape(d)
  {
    e.inUse ==> e.sector < NUM_SECTORS && HeaderOk(DecodeHeader(d[e.sector]))
  }

  ghost predicate FsInv(d: Disk) {
    && DiskShape(d)
    && DecodeHeader(d[FREE_MAP_SECTOR]) == MAP_HEADER
    && DecodeHeader(d[DIRECTORY_SECTOR]) == DIR_HEADER
    && (forall i :: 0 <= i < NUM_DIR_ENTRIES ==> EntryValid(d, Dir(d)[i]))
    && Ownership(FreeMap(d), Files(d))
    && NamesDistinct(Dir(d))
  }

  // ---------------------------------------------------------------- format

  lemma FormattedIsValid(d: Disk)
    requires Formatted(d)
    ensures FsInv(d)
  {
    hide FreeMap, Dir, DecodeHeader, EncodeHeader, HeaderOk, Ownership;
    HeaderRoundTrip(MAP_HEADER) by { assert HeaderOk(MAP_HEADER) by { SystemHeaders(); } }
    HeaderRoundTrip(DIR_HEADER) by { assert HeaderOk(DIR_HEADER) by { SystemHeaders(); } }
    var files := Files(d);
    assert files[0] == [0, 2] && files[1] == [1, 3, 4];
    forall f | 2 <= f < |files| ensures files[f] == [] {
      assert files[f] == FileSectors(d, f) && !Dir(d)[f - 2].inUse;
    }
    FreshOwnership(FreeMap(d), files);
  }

  lemma FreshOwnership(bits: seq<bool>, files: seq<seq<nat>>)
    requires |bits| >= 5 && forall s :: 0 <= s < |bits| ==> bits[s] == (s < 5)
    requires |files| >= 2 && files[0] == [0, 2] && files[1] == [1, 3, 4]
    requires forall f :: 2 <= f < |files| ==> files[f] == []
    ensures Ownership(bits, files)
  {
  }

  lemma SystemHeaders()
    ensures HeaderOk(MAP_HEADER) && HeaderOk(DIR_HEADER)
  {
  }

  // ---------------------------------------------------------------- what stays put

  /** The sectors of a directory entry's file are not those of the two system files. */
  lemma SectorsAreOwn(d: Disk, i: nat, s: nat)
    requires FsInv(d) && i < NUM_DIR_ENTRIES && s in EntrySectors(d, Dir(d)[i])
    ensures 5 <= s < NUM_SECTORS && FreeMap(d)[s]
  {
    hide FreeMap, Dir, DecodeHeader, EntrySectors, EntryValid, NamesDistinct;
    var files := Files(d);
    assert files[2 + i] == FileSectors(d, 2 + i);
    assert files[0] == [0, 2] && files[1] == [1, 3, 4];
    assert 0 in files[0] && 2 in files[0] && 1 in files[1] && 3 in files[1] && 4 in files[1];
    assert Owned(files, s);
  }

  /** Slot `i` keeps its file when its entry and its header sector stay the same. */
  lemma SlotKept(d: Disk, d': Disk, i: nat)
    requires FsInv(d) && DiskShape(d') && i < NUM_DIR_ENTRIES && Dir(d')[i] == Dir(d)[i]
    requires Dir(d)[i].inUse ==> Dir(d)[i].sector < NUM_SECTORS && d'[Dir(d)[i].sector] == d[Dir(d)[i].sector]
    ensures FileSectors(d', 2 + i) == FileSectors(d, 2 + i) && EntryValid(d', Dir(d')[i])
  {
  }

  // ---------------------------------------------------------------- create

  lemma AllotmentIsFresh(bits: seq<bool>, size: nat)
    requires |bits| == NUM_SECTORS && NumClear(bits) >= 1 + DivRoundUp(size, SECTOR_SIZE) && size <= MAX_FILE_SIZE
    ensures var (hdr, h, after) := Allotment(bits, size);
            && HeaderOk(h) && NoDup([hdr] + h.dataSectors)
            && (forall s <- [hdr] + h.dataSectors :: s < NUM_SECTORS && !bits[s])
            && |after| == NUM_SECTORS
            && (forall s :: 0 <= s < NUM_SECTORS ==> (after[s] <==> bits[s] || s in [hdr] + h.dataSectors))
  {
    hide FindMany, NumClear, FirstClear, DivRoundUp;
    FirstClearIff(bits);
    var hdr := FirstClear(bits);
    NumClearOfUpdate(bits, hdr);
    FindManyIsExact(bits[hdr := true], DivRoundUp(size, SECTOR_SIZE));
    var data := FindMany(bits[hdr := true], DivRoundUp(size, SECTOR_SIZE)).0;
    assert forall i :: 0 <= i < |data| ==> data[i] in data;
    assert forall s :: s in [hdr] + data <==> s == hdr || s in data;
  }

  lemma CreatedSlot(d: Disk, name: seq<Byte>, size: nat, d': Disk, i: nat)
    requires FsInv(d) && IsName(name) && size <= MAX_FILE_SIZE && Created(d, name, size, true, d')
    requires i < NUM_DIR_ENTRIES
    ensures var (hdr, h, bits) := Allotment(FreeMap(d), size);
            && EntryValid(d', Dir(d')[i])
            && FileSectors(d', 2 + i) == if i == FirstFree(Dir(d)) then [hdr] + h.dataSectors
                                         else FileSectors(d, 2 + i)
  {
    hide FreeMap, Dir, DecodeHeader, EncodeHeader, HeaderOk, Ownership, NamesDistinct, Allotment, FirstFree;
    var (hdr, h, bits) := Allotment(FreeMap(d), size);
    AllotmentIsFresh(FreeMap(d), size);
    HeaderRoundTrip(h);
    if i != FirstFree(Dir(d)) {
      assert EntryValid(d, Dir(d)[i]);
      if Dir(d)[i].inUse {
        SectorsAreOwn(d, i, Dir(d)[i].sector);
        assert hdr in [hdr] + h.dataSectors;
      }
      SlotKept(d, d', i);
    }
  }

  lemma NewNameIsDistinct(table: seq<Entry>, name: seq<Byte>, i: nat, sector: nat)
    requires NamesDistinct(table) && IsName(name) && FindIndex(table, name) == -1 && i < |table| && !table[i].inUse
    ensures NamesDistinct(table[i := Entry(true, sector, Key(name))])
  {
    hide Key, SameString, FindIndex;
    forall j | 0 <= j < |table| && table[j].inUse ensures table[j].name != Key(name) {
      var other :| IsName(other) && table[j].name == Key(other);
      KeysDiffer(other, name, table[j]);
    }
  }

  lemma KeysDiffer(other: seq<Byte>, name: seq<Byte>, e: Entry)
    requires IsName(other) && IsName(name) && e.inUse && e.name == Key(other) && !Matches(e, name)
    ensures e.name != Key(name)
  {
    SameStringIff(other, name, FILE_NAME_MAX_LEN);
  }

  /** The map and directory headers stay where they are. */
  lemma SystemSectorsTaken(d: Disk)
    requires FsInv(d)
    ensures forall s :: 0 <= s < 5 ==> FreeMap(d)[s]
  {
    hide FreeMap, Dir, DecodeHeader, EntryValid, NamesDistinct;
    var files := Files(d);
    assert files[0] == [0, 2] && files[1] == [1, 3, 4];
    assert 0 in files[0] && 2 in files[0] && 1 in files[1] && 3 in files[1] && 4 in files[1];
    assert Owned(files, 0) && Owned(files, 1) && Owned(files, 2) && Owned(files, 3) && Owned(files, 4);
  }

  lemma CreateKeeps(d: Disk, name: seq<Byte>, size: nat, ok: bool, d': Disk)
    requires FsInv(d) && IsName(name) && size <= MAX_FILE_SIZE && Created(d, name, size, ok, d')
    ensures FsInv(d')
  {
    hide FreeMap, Dir, DecodeHeader, EncodeHeader, HeaderOk, EntrySectors, EntryValid, Ownership, NamesDistinct,
         FirstFree, FindIndex, FileSectors, Allotment;
    if ok {
      var (hdr, h, bits) := Allotment(FreeMap(d), size);
      var f := FirstFree(Dir(d));
      AllotmentIsFresh(FreeMap(d), size);
      SystemSectorsTaken(d);
      assert hdr in [hdr] + h.dataSectors;
      var files := Files(d)[2 + f := [hdr] + h.dataSectors];
      forall i | 0 <= i < NUM_DIR_ENTRIES ensures EntryValid(d', Dir(d')[i]) {
        CreatedSlot(d, name, size, d', i);
      }
      forall g | 0 <= g < |files| ensures Files(d')[g] == files[g] {
        if g >= 2 { CreatedSlot(d, name, size, d', g - 2); } else { SystemFiles(d, d', g); }
      }
      EmptySlot(d, f);
      AddFile(FreeMap(d), Files(d), 2 + f, [hdr] + h.dataSectors, FreeMap(d'));
      assert Files(d') == files;
      NewNameIsDistinct(Dir(d), name, f, hdr);
    }
  }

  lemma SystemFiles(d: Disk, d': Disk, f: nat)
    requires DiskShape(d) && DiskShape(d') && f < 2
    ensures FileSectors(d, f) == FileSectors(d', f)
  {
  }

  lemma EmptySlot(d: Disk, i: nat)
    requires DiskShape(d) && i < NUM_DIR_ENTRIES && !Dir(d)[i].inUse
    ensures FileSectors(d, 2 + i) == []
  {
  }

  // ---------------------------------------------------------------- remove

  /** The entry in use for `name`, if there is one, is the one `FindIndex` returns. */
  lemma FindIndexIsSlot(table: seq<Entry>, name: seq<Byte>, i: nat)
    requires NamesDistinct(table) && IsName(name) && i < |table| && table[i].inUse
    ensures FindIndex(table, name) == i <==> table[i].name == Key(name)
  {
    hide Key, SameString;
    var j := FindIndex(table, name);
    var mine :| IsName(mine) && table[i].name == Key(mine);
    SameStringKey(mine, name);
    if j >= 0 {
      var other :| IsName(other) && table[j].name == Key(other);
      SameStringKey(other, name);
    }
  }

  lemma SameStringKey(other: seq<Byte>, name: seq<Byte>)
    requires IsName(other) && IsName(name)
    ensures SameString(Key(other), name, FILE_NAME_MAX_LEN) <==> Key(other) == Key(name)
  {
    SameStringIff(other, name, FILE_NAME_MAX_LEN);
  }

  lemma RemovedSlot(d: Disk, name: seq<Byte>, d': Disk, j: nat)
    requires FsInv(d) && Removed(d, name, true, d') && j < NUM_DIR_ENTRIES
    ensures EntryValid(d', Dir(d')[j])
    ensures FileSectors(d', 2 + j) == if j == FindIndex(Dir(d), name) then [] else FileSectors(d, 2 + j)
  {
    hide FreeMap, Dir, DecodeHeader, EncodeHeader, HeaderOk, Ownership, NamesDistinct, FindIndex;
    if j == FindIndex(Dir(d), name) {
      EmptySlot(d', j);
    } else {
      assert EntryValid(d, Dir(d)[j]);
      if Dir(d)[j].inUse {
        SectorsAreOwn(d, j, Dir(d)[j].sector);
      }
      SlotKept(d, d', j);
    }
  }

  lemma RemoveKeeps(d: Disk, name: seq<Byte>, ok: bool, d': Disk)
    requires FsInv(d) && Removed(d, name, ok, d')
    ensures FsInv(d')
  {
    hide FreeMap, Dir, DecodeHeader, EncodeHeader, HeaderOk, EntryValid, Ownership,
         FindIndex, FileSectors, ClearMany;
    if ok {
      var i := FindIndex(Dir(d), name);
      var files := Files(d)[2 + i := []];
      forall j | 0 <= j < NUM_DIR_ENTRIES ensures EntryValid(d', Dir(d')[j]) {
        RemovedSlot(d, name, d', j);
      }
      forall g | 0 <= g < |files| ensures Files(d')[g] == files[g] {
        if g >= 2 { RemovedSlot(d, name, d', g - 2); } else { SystemFiles(d, d', g); }
      }
      UsedSlot(d, i);
      DropFile(FreeMap(d), Files(d), 2 + i, FreeMap(d'));
      assert Files(d') == files;
    }
  }

  lemma UsedSlot(d: Disk, i: nat)
    requires DiskShape(d) && i < NUM_DIR_ENTRIES && Dir(d)[i].inUse && Dir(d)[i].sector < NUM_SECTORS
    ensures FileSectors(d, 2 + i) == [Dir(d)[i].sector] + DecodeHeader(d[Dir(d)[i].sector]).dataSectors
  {
  }

  // ---------------------------------------------------------------- file writes

  /** The free map and the directory live in sectors 2, 3 and 4. */
  lemma MetadataKept(d: Disk, d': Disk)
    requires DiskShape(d) && DiskShape(d') && d'[2] == d[2] && d'[3] == d[3] && d'[4] == d[4]
    ensures FreeMap(d') == FreeMap(d) && Dir(d') == Dir(d)
  {
    SameSectorsSameBytes(d, d', MAP_HEADER);
    SameSectorsSameBytes(d, d', DIR_HEADER);
  }

  /** A data sector of one file is not a header sector of any. */
  lemma DataIsNotHeader(d: Disk, i: nat, s: nat, j: nat)
    requires FsInv(d) && i < NUM_DIR_ENTRIES && j < NUM_DIR_ENTRIES
    requires Dir(d)[i].inUse && s in DecodeHeader(d[Dir(d)[i].sector]).dataSectors
    requires Dir(d)[j].inUse
    ensures s != Dir(d)[j].sector && s >= 5
    ensures i != j ==> s !in DecodeHeader(d[Dir(d)[j].sector]).dataSectors
  {
    hide FreeMap, Dir, DecodeHeader, HeaderOk, NamesDistinct, FileSectors;
    assert EntryValid(d, Dir(d)[i]) && EntryValid(d, Dir(d)[j]);
    var files := Files(d);
    UsedSlot(d, i);
    UsedSlot(d, j);
    assert files[2 + i] == FileSectors(d, 2 + i) && files[2 + j] == FileSectors(d, 2 + j);
    SectorsAreOwn(d, i, s);
    if i == j {
      var data := DecodeHeader(d[Dir(d)[i].sector]).dataSectors;
      var n :| 0 <= n < |data| && data[n] == s;
      assert files[2 + i][0] != files[2 + i][n + 1];
    }
  }

  /** A file write touches no header and none of the metadata. */
  lemma WrittenSlot(d: Disk, i: nat, at: nat, part: seq<Byte>, d': Disk, j: nat)
    requires FsInv(d) && WroteFile(d, i, at, part, d') && j < NUM_DIR_ENTRIES
    ensures FreeMap(d') == FreeMap(d) && Dir(d') == Dir(d)
    ensures Dir(d)[j].inUse ==> Dir(d)[j].sector < NUM_SECTORS && d'[Dir(d)[j].sector] == d[Dir(d)[j].sector]
    ensures FileSectors(d', 2 + j) == FileSectors(d, 2 + j) && EntryValid(d', Dir(d')[j])
  {
    hide FreeMap, Dir, DecodeHeader, HeaderOk, Ownership, NamesDistinct, FileSectors, FileBytes, Patch;
    var data := DecodeHeader(d[Dir(d)[i].sector]).dataSectors;
    forall s | s in data ensures s >= 5 { DataIsNotHeader(d, i, s, i); }
    MetadataKept(d, d');
    assert EntryValid(d, Dir(d)[j]);
    if Dir(d)[j].inUse && Dir(d)[j].sector in data { DataIsNotHeader(d, i, Dir(d)[j].sector, j); }
    SlotKept(d, d', j);
  }

  lemma WriteKeeps(d: Disk, i: nat, at: nat, part: seq<Byte>, d': Disk)
    requires FsInv(d) && WroteFile(d, i, at, part, d')
    ensures FsInv(d')
  {
    hide FreeMap, Dir, DecodeHeader, HeaderOk, Ownership, NamesDistinct, FileSectors, EntryValid, FileBytes, Patch;
    forall j | 0 <= j < NUM_DIR_ENTRIES ensures EntryValid(d', Dir(d')[j]) {
      WrittenSlot(d, i, at, part, d', j);
    }
    forall g | 0 <= g < 2 + NUM_DIR_ENTRIES ensures Files(d')[g] == Files(d)[g] {
      if g >= 2 { WrittenSlot(d, i, at, part, d', g - 2); } else { SystemFiles(d, d', g); }
    }
    assert Files(d') == Files(d);
    WrittenSlot(d, i, at, part, d', 0);
    var data := DecodeHeader(d[Dir(d)[i].sector]).dataSectors;
    forall s | s in data ensures s >= 5 { DataIsNotHeader(d, i, s, i); }
  }
}
