/** File headers, the directory and the file system as objects that fetch their state from the
    disk, change it in memory and write it back. */
module FileSystem {
  import opened Basics
  import opened Bytes
  import opened BitMapSpec
  import opened DiskLayout
  import opened FileSystemSpec
  import opened FileSystemInvariant
  import opened OpenFile
  import FilesByName = FileSystemRefinement
  import BitMap

  // ---------------------------------------------------------------- file headers

  lemma SizeFits(size: nat)
    requires size <= MAX_FILE_SIZE
    ensures DivRoundUp(size, SECTOR_SIZE) <= NUM_DIRECT
  {
  }

  /** One step of `FindMany`. */
  lemma FindOne(bits: seq<bool>, n: nat)
    requires 0 < n <= NumClear(bits)
    ensures var i := FirstClear(bits);
            && i >= 0 && n - 1 <= NumClear(bits[i := true])
            && FindMany(bits, n) == ([i] + FindMany(bits[i := true], n - 1).0, FindMany(bits[i := true], n - 1).1)
  {
    FirstClearIff(bits);
    NumClearOfUpdate(bits, FirstClear(bits));
  }

  lemma FindNone(bits: seq<bool>)
    ensures FindMany(bits, 0) == ([], bits)
  {
  }

  class FileHeader {
    var numBytes: nat
    var numSectors: nat
    const dataSectors: array<nat>

    ghost predicate Valid()
      reads this
    {
      dataSectors.Length == NUM_DIRECT && numSectors <= NUM_DIRECT
    }

    ghost function View(): Header
      reads this, dataSectors
      requires Valid()
    {
      Header(numBytes, dataSectors[..numSectors])
    }

    constructor ()
      ensures Valid() && fresh(dataSectors)
    {
      numBytes, numSectors := 0, 0;
      dataSectors := new nat[NUM_DIRECT];
    }

    method FetchFrom(disk: SynchDisk, sector: nat)
      requires Valid() && disk.Valid() && sector < NUM_SECTORS && disk.sectors as object != dataSectors
      modifies this, dataSectors
      ensures Valid() && View() == DecodeHeader(disk.View()[sector])
    {
      var data := disk.ReadSector(sector);
      var h := DecodeHeader(data);
      numBytes, numSectors := h.numBytes, |h.dataSectors|;
      for i := 0 to numSectors
        invariant Valid() && numSectors == |h.dataSectors| && numBytes == h.numBytes
        invariant disk.View() == old(disk.View())
        invariant forall j :: 0 <= j < i ==> dataSectors[j] == h.dataSectors[j]
      {
        dataSectors[i] := h.dataSectors[i];
      }
    }

    method WriteBack(disk: SynchDisk, sector: nat)
      requires Valid() && disk.Valid() && sector < NUM_SECTORS && disk.sectors as object != dataSectors
      modifies disk.sectors
      ensures disk.Valid() && disk.View() == old(disk.View())[sector := EncodeHeader(View())]
    {
      disk.WriteSector(sector, EncodeHeader(Header(numBytes, dataSectors[..numSectors])));
    }

    /** Takes sectors one by one; the count made first guarantees that each `Find` succeeds. */
    method Allocate(freeMap: BitMap.BitMap, fileSize: nat) returns (ok: bool)
      requires Valid() && freeMap.Valid() && fileSize <= MAX_FILE_SIZE
      modifies this, dataSectors, freeMap.words
      ensures Valid() && freeMap.Valid()
      ensures ok == (DivRoundUp(fileSize, SECTOR_SIZE) <= NumClear(old(freeMap.Bits())))
      ensures !ok ==> freeMap.Bits() == old(freeMap.Bits())
      ensures ok ==> (View().dataSectors, freeMap.Bits())
                     == FindMany(old(freeMap.Bits()), DivRoundUp(fileSize, SECTOR_SIZE))
      ensures ok ==> View().numBytes == fileSize
    {
      hide NumClear, FirstClear, FindMany, DivRoundUp, BitMap.BitMap.Valid, BitMap.BitMap.Bits;
      SizeFits(fileSize);
      numBytes := fileSize;
      var n := DivRoundUp(fileSize, SECTOR_SIZE);
      numSectors := n;
      var clear := freeMap.CountClear();
      if clear < n {
        return false;
      }
      ghost var bits := freeMap.Bits();
      ghost var rest := FindMany(bits, n);
      assert dataSectors[..0] + rest.0 == rest.0;
      for i := 0 to n
        invariant freeMap.Valid() && Valid() && numBytes == fileSize && numSectors == n
        invariant n - i <= NumClear(freeMap.Bits()) && rest == FindMany(freeMap.Bits(), n - i)
        invariant FindMany(bits, n).0 == dataSectors[..i] + rest.0 && FindMany(bits, n).1 == rest.1
      {
        FindOne(freeMap.Bits(), n - i);
        ghost var before := dataSectors[..i];
        var s := freeMap.Find();
        dataSectors[i] := s;
        rest := FindMany(freeMap.Bits(), n - i - 1);
        assert dataSectors[..i + 1] == before + [s];
        assert before + ([s] + rest.0) == (before + [s]) + rest.0;
      }
      assert dataSectors[..n] + rest.0 == dataSectors[..n] by { FindNone(freeMap.Bits()); }
      FindNone(freeMap.Bits());
      return true;
    }

    /** The assertion in the loop holds because the sectors are marked and distinct. */
    method Deallocate(freeMap: BitMap.BitMap)
      requires Valid() && freeMap.Valid() && freeMap.words as object != dataSectors
      requires forall i :: 0 <= i < numSectors ==> dataSectors[i] < freeMap.numBits && freeMap.Bits()[dataSectors[i]]
      requires NoDup(dataSectors[..numSectors])
      modifies freeMap.words
      ensures freeMap.Valid() && freeMap.Bits() == ClearMany(old(freeMap.Bits()), View().dataSectors)
    {
      hide BitMap.BitMap.Valid, BitMap.BitMap.Bits;
      ghost var bits, which := freeMap.Bits(), dataSectors[..numSectors];
      for i := 0 to numSectors
        invariant freeMap.Valid() && dataSectors[..numSectors] == which
        invariant freeMap.Bits() == ClearMany(bits, which[..i])
      {
        var marked := freeMap.Test(dataSectors[i]);
        assert marked;
        freeMap.Clear(dataSectors[i]);
        assert which[..i + 1][..i] == which[..i];
      }
    }
  }

  // ---------------------------------------------------------------- the directory

  class Directory {
    const table: array<Entry>

    ghost predicate Valid()
      reads table
    {
      table.Length == NUM_DIR_ENTRIES && TableOk(table[..])
    }

    constructor (entries: seq<Entry>)
      requires |entries| == NUM_DIR_ENTRIES && TableOk(entries)
      ensures Valid() && fresh(table) && table[..] == entries
    {
      table := new Entry[NUM_DIR_ENTRIES](i requires 0 <= i < NUM_DIR_ENTRIES => entries[i]);
    }

    method FindIndex(name: seq<Byte>) returns (i: int)
      requires Valid()
      ensures i == FileSystemSpec.FindIndex(table[..], name)
    {
      ghost var misses := Misses(table[..], name);
      for k := 0 to table.Length
        invariant forall j :: 0 <= j < k ==> misses[j]
      {
        if table[k].inUse && SameString(table[k].name, name, FILE_NAME_MAX_LEN) {
          assert Matches(table[..][k], name) && !misses[k];
          FirstClearIs(misses, k);
          return k;
        }
        assert !Matches(table[..][k], name);
      }
      FirstClearIs(misses, -1);
      return -1;
    }

    method Find(name: seq<Byte>) returns (sector: int)
      requires Valid()
      ensures sector == FileSystemSpec.Find(table[..], name)
    {
      var i := FindIndex(name);
      if i != -1 {
        return table[i].sector;
      }
      return -1;
    }

    method Add(name: seq<Byte>, newSector: nat) returns (ok: bool)
      requires Valid() && newSector < NUM_SECTORS
      modifies table
      ensures Valid()
      ensures ok == (FileSystemSpec.FindIndex(old(table[..]), name) == -1 && FirstFree(old(table[..])) >= 0)
      ensures table[..] == if ok then old(table[..])[FirstFree(old(table[..])) := Entry(true, newSector, Key(name))]
                           else old(table[..])
    {
      hide Key, SameString;
      var found := FindIndex(name);
      if found != -1 {
        return false;
      }
      ghost var used := InUse(table[..]);
      for i := 0 to table.Length
        invariant forall j :: 0 <= j < i ==> used[j]
        invariant table[..] == old(table[..])
      {
        if !table[i].inUse {
          FirstClearIs(used, i);
          table[i] := Entry(true, newSector, Key(name));
          return true;
        }
      }
      FirstClearIs(used, -1);
      return false;
    }

    method Remove(name: seq<Byte>) returns (ok: bool)
      requires Valid()
      modifies table
      ensures Valid()
      ensures ok == (FileSystemSpec.FindIndex(old(table[..]), name) != -1)
      ensures table[..] == if ok then var i := FileSystemSpec.FindIndex(old(table[..]), name);
                                      old(table[..])[i := old(table[..])[i].(inUse := false)]
                           else old(table[..])
    {
      var i := FindIndex(name);
      if i == -1 {
        return false;
      }
      table[i] := table[i].(inUse := false);
      return true;
    }
  }

  method EmptyDirectory() returns (directory: Directory)
    ensures fresh(directory.table) && directory.Valid()
    ensures forall i :: 0 <= i < NUM_DIR_ENTRIES ==> !directory.table[..][i].inUse
  {
    var unused := Entry(false, 0, seq(FILE_NAME_MAX_LEN, _ => 0));
    directory := new Directory(seq(NUM_DIR_ENTRIES, _ => unused));
  }

  // ---------------------------------------------------------------- the file system

  /** Writing the whole map, or the whole directory, leaves the other alone. */
  lemma MapStored(d: Disk, bits: seq<bool>, d': Disk)
    requires DiskShape(d) && |bits| == NUM_SECTORS && Wrote(d, MAP_HEADER, 0, EncodeMap(bits), d')
    ensures FreeMap(d') == bits && Dir(d') == Dir(d)
    ensures forall s :: 0 <= s < NUM_SECTORS && s != 2 ==> d'[s] == d[s]
  {
    MapRoundTrip(bits);
    assert Patch(FileBytes(d, MAP_HEADER), 0, EncodeMap(bits)) == EncodeMap(bits);
    SameSectorsSameBytes(d, d', DIR_HEADER);
  }

  lemma DirectoryStored(d: Disk, table: seq<Entry>, d': Disk)
    requires DiskShape(d) && |table| == NUM_DIR_ENTRIES && TableOk(table)
    requires Wrote(d, DIR_HEADER, 0, EncodeTable(table), d')
    ensures Dir(d') == table && FreeMap(d') == FreeMap(d)
    ensures forall s :: 0 <= s < NUM_SECTORS && s != 3 && s != 4 ==> d'[s] == d[s]
  {
    TableRoundTrip(table);
    assert Patch(FileBytes(d, DIR_HEADER), 0, EncodeTable(table)) == EncodeTable(table);
    SameSectorsSameBytes(d, d', MAP_HEADER);
  }

  ghost predicate OnlyFirst(bits: seq<bool>, k: nat) {
    forall s :: 0 <= s < |bits| ==> bits[s] == (s < k)
  }

  /** On a map whose first `k` bits are set, `n` calls of `Find` return the next `n` bits. */
  lemma {:induction false} FindNext(bits: seq<bool>, k: nat, n: nat)
    requires k + n <= |bits| && OnlyFirst(bits, k)
    ensures NumClear(bits) >= n
    ensures OnlyFirst(FindMany(bits, n).1, k + n)
    ensures forall i :: 0 <= i < n ==> FindMany(bits, n).0[i] == k + i
    decreases n
  {
    if n > 0 {
      FirstClearIs(bits, k);
      NumClearOfUpdate(bits, k);
      FindNext(bits[k := true], k + 1, n - 1);
    }
  }

  /** The in-memory half of formatting: sectors 0 and 1 for the headers, 2 for the free map,
      3 and 4 for the directory. */
  method AllocateSystemFiles() returns (freeMap: BitMap.BitMap, mapHdr: FileHeader, dirHdr: FileHeader)
    ensures fresh(freeMap.words) && freeMap.Valid() && freeMap.numBits == NUM_SECTORS
    ensures OnlyFirst(freeMap.Bits(), 5)
    ensures fresh(mapHdr) && fresh(mapHdr.dataSectors) && mapHdr.Valid() && mapHdr.View() == MAP_HEADER
    ensures fresh(dirHdr) && fresh(dirHdr.dataSectors) && dirHdr.Valid() && dirHdr.View() == DIR_HEADER
  {
    hide FindMany, NumClear, BitMap.BitMap.Valid, BitMap.BitMap.Bits;
    freeMap := new BitMap.BitMap(NUM_SECTORS);
    freeMap.Mark(FREE_MAP_SECTOR);
    freeMap.Mark(DIRECTORY_SECTOR);
    mapHdr := new FileHeader();
    FindNext(freeMap.Bits(), 2, 1);
    var mapOk := mapHdr.Allocate(freeMap, NUM_SECTORS / 8);
    assert mapOk && mapHdr.View().dataSectors == [2];
    dirHdr := new FileHeader();
    FindNext(freeMap.Bits(), 3, 2);
    var dirOk := dirHdr.Allocate(freeMap, ENTRY_SIZE * NUM_DIR_ENTRIES);
    assert dirOk && dirHdr.View().dataSectors == [3, 4];
  }

  /** `OpenFile::OpenFile`: the header is read from its sector. */
  method OpenSector(disk: SynchDisk, sector: nat, ghost hdr: Header) returns (file: OpenFile)
    requires disk.Valid() && sector < NUM_SECTORS && DecodeHeader(disk.View()[sector]) == hdr
    requires HeaderOk(hdr) && NoDup(hdr.dataSectors)
    ensures fresh(file) && file.Valid() && file.disk == disk && file.hdr == hdr && file.seekPosition == 0
  {
    var data := disk.ReadSector(sector);
    file := new OpenFile(disk, DecodeHeader(data));
  }

  lemma CreateRefines(d: Disk, name: seq<Byte>, size: nat, ok: bool, d': Disk)
    requires FsInv(d) && IsName(name) && size <= MAX_FILE_SIZE && Created(d, name, size, ok, d')
    ensures FsInv(d')
    ensures FilesByName.MapStep(FilesByName.Contents(d), FilesByName.Create(name, size, ok), FilesByName.Contents(d'))
  {
    hide FsInv, Created, FilesByName.MapStep, FilesByName.Contents;
    CreateKeeps(d, name, size, ok, d');
    assert DiskShape(d) by { HasShape(d); }
    FilesByName.StepRefinesMap(d, FilesByName.Create(name, size, ok), d');
  }

  lemma RemoveRefines(d: Disk, name: seq<Byte>, ok: bool, d': Disk)
    requires FsInv(d) && Removed(d, name, ok, d')
    ensures FsInv(d')
    ensures IsName(name) ==> FilesByName.MapStep(FilesByName.Contents(d), FilesByName.Remove(name, ok), FilesByName.Contents(d'))
  {
    hide FsInv, Removed, FilesByName.MapStep, FilesByName.Contents;
    RemoveKeeps(d, name, ok, d');
    assert DiskShape(d) by { HasShape(d); }
    if IsName(name) { FilesByName.StepRefinesMap(d, FilesByName.Remove(name, ok), d'); }
  }

  lemma HasShape(d: Disk)
    requires FsInv(d)
    ensures DiskShape(d)
  {
  }

  /** What a name finds. */
  lemma FoundContents(d: Disk, name: seq<Byte>)
    requires FsInv(d) && IsName(name)
    ensures var i := FileSystemSpec.FindIndex(Dir(d), name);
            && (i != -1 <==> Key(name) in FilesByName.Contents(d))
            && (i != -1 ==>
                  && Dir(d)[i].sector < NUM_SECTORS && HeaderOk(DecodeHeader(d[Dir(d)[i].sector]))
                  && FilesByName.Contents(d)[Key(name)] == FileBytes(d, DecodeHeader(d[Dir(d)[i].sector])))
  {
    hide FreeMap, Dir, DecodeHeader, Ownership, NamesDistinct, Key, FilesByName.Contents, HeaderOk, FileBytes;
    FilesByName.ContentsHold(d);
    FilesByName.FoundIffHeld(d, name, FilesByName.Contents(d));
    var i := FileSystemSpec.FindIndex(Dir(d), name);
    if i != -1 {
      assert EntryValid(d, Dir(d)[i]);
      assert FilesByName.SlotBytes(d, i) == FileBytes(d, DecodeHeader(d[Dir(d)[i].sector]));
    }
  }

  class FileSystem {
    const disk: SynchDisk
    const freeMapFile: OpenFile
    const directoryFile: OpenFile

    ghost predicate Valid()
      reads disk.sectors
    {
      && disk.Valid()
      && freeMapFile.disk == disk && freeMapFile.hdr == MAP_HEADER
      && directoryFile.disk == disk && directoryFile.hdr == DIR_HEADER
    }

    /** Formatting: the free map and the directory get the first free sectors. */
    constructor Format(disk: SynchDisk)
      requires disk.Valid()
      modifies disk.sectors
      ensures Valid() && this.disk == disk && Formatted(disk.View()) && FsInv(disk.View())
    {
      hide FsInv, EncodeHeader, FreeMap, Dir, BitMap.BitMap.Valid, BitMap.BitMap.Bits, TableOk;
      SystemHeaders();
      var freeMap, mapHdr, dirHdr := AllocateSystemFiles();
      mapHdr.WriteBack(disk, FREE_MAP_SECTOR);
      dirHdr.WriteBack(disk, DIRECTORY_SECTOR);
      var directory := EmptyDirectory();
      this.disk := disk;
      HeaderRoundTrip(MAP_HEADER);
      HeaderRoundTrip(DIR_HEADER);
      var mapFile := OpenSector(disk, FREE_MAP_SECTOR, MAP_HEADER);
      var dirFile := OpenSector(disk, DIRECTORY_SECTOR, DIR_HEADER);
      freeMapFile, directoryFile := mapFile, dirFile;
      new;
      StoreMap(freeMap);
      StoreDirectory(directory);
      FormattedIsValid(disk.View());
    }

    /** Starting on a disk that is already formatted: the two system files are opened. */
    constructor Mount(disk: SynchDisk)
      requires disk.Valid() && FsInv(disk.View())
      ensures Valid() && this.disk == disk
    {
      SystemHeaders();
      this.disk := disk;
      var mapFile := OpenSector(disk, FREE_MAP_SECTOR, MAP_HEADER);
      var dirFile := OpenSector(disk, DIRECTORY_SECTOR, DIR_HEADER);
      freeMapFile, directoryFile := mapFile, dirFile;
    }

    method FetchDirectory() returns (directory: Directory)
      requires Valid()
      ensures fresh(directory) && fresh(directory.table) && directory.Valid()
      ensures directory.table[..] == Dir(disk.View())
    {
      SystemHeaders();
      var bytes := directoryFile.ReadAt(ENTRY_SIZE * NUM_DIR_ENTRIES, 0);
      assert bytes == FileBytes(disk.View(), DIR_HEADER);
      directory := new Directory(DecodeTable(bytes));
    }

    method StoreDirectory(directory: Directory)
      requires Valid() && directory.Valid()
      modifies disk.sectors
      ensures Valid() && Dir(disk.View()) == directory.table[..] && FreeMap(disk.View()) == FreeMap(old(disk.View()))
      ensures forall s :: 0 <= s < NUM_SECTORS && s != 3 && s != 4 ==> disk.View()[s] == old(disk.View())[s]
    {
      SystemHeaders();
      var bytes := EncodeTable(directory.table[..]);
      var n := directoryFile.WriteAt(bytes, 0);
      assert bytes[..n] == bytes;
      DirectoryStored(old(disk.View()), directory.table[..], disk.View());
    }

    method FetchMap() returns (freeMap: BitMap.BitMap)
      requires Valid()
      ensures fresh(freeMap) && fresh(freeMap.words) && freeMap.Valid()
      ensures freeMap.numBits == NUM_SECTORS && freeMap.Bits() == FreeMap(disk.View())
    {
      SystemHeaders();
      var bytes := freeMapFile.ReadAt(NUM_SECTORS / 8, 0);
      assert bytes == FileBytes(disk.View(), MAP_HEADER);
      freeMap := BitMap.FromBits(DecodeMap(bytes));
    }

    method StoreMap(freeMap: BitMap.BitMap)
      requires Valid() && freeMap.Valid() && freeMap.numBits == NUM_SECTORS
      modifies disk.sectors
      ensures Valid() && FreeMap(disk.View()) == freeMap.Bits() == old(freeMap.Bits())
      ensures Dir(disk.View()) == Dir(old(disk.View()))
      ensures forall s :: 0 <= s < NUM_SECTORS && s != 2 ==> disk.View()[s] == old(disk.View())[s]
    {
      SystemHeaders();
      var bits := freeMap.ToBits();
      var bytes := EncodeMap(bits);
      var n := freeMapFile.WriteAt(bytes, 0);
      assert bytes[..n] == bytes;
      MapStored(old(disk.View()), bits, disk.View());
    }

    /** `FileSystem::Create`. */
    method Create(name: seq<Byte>, initialSize: nat) returns (success: bool)
      requires Valid() && FsInv(disk.View()) && IsName(name) && initialSize <= MAX_FILE_SIZE
      modifies disk.sectors
      ensures Valid() && Created(old(disk.View()), name, initialSize, success, disk.View()) && FsInv(disk.View())
      ensures FilesByName.MapStep(FilesByName.Contents(old(disk.View())), FilesByName.Create(name, initialSize, success),
                                  FilesByName.Contents(disk.View()))
    {
      hide FsInv, FreeMap, Dir, FileSystemSpec.FindIndex, FirstFree, FirstClear, NumClear, FindMany,
           BitMap.BitMap.Valid, BitMap.BitMap.Bits, Directory.Valid, DivRoundUp;
      ghost var d := disk.View();
      var directory := FetchDirectory();
      var there := directory.Find(name);
      FindMinusOne(Dir(d), name);
      success := false;
      if there == -1 {
        var freeMap := FetchMap();
        FirstClearIff(FreeMap(d));
        var sector := freeMap.Find();
        if sector != -1 {
          NumClearOfUpdate(FreeMap(d), sector);
          var added := directory.Add(name, sector);
          if added {
            var hdr := new FileHeader();
            success := hdr.Allocate(freeMap, initialSize);
            if success {
              Commit(hdr, sector, directory, freeMap);
            }
          }
        }
      }
      CreateRefines(d, name, initialSize, success, disk.View());
    }

    /** `FileSystem::Open`. */
    method Open(name: seq<Byte>) returns (file: OpenFile?)
      requires Valid() && FsInv(disk.View())
      ensures IsName(name) ==> (file != null <==> Key(name) in FilesByName.Contents(disk.View()))
      ensures IsName(name) && file != null ==> file.Valid() && file.Contents() == FilesByName.Contents(disk.View())[Key(name)]
      ensures Valid() && (file == null <==> FileSystemSpec.FindIndex(Dir(disk.View()), name) == -1)
      ensures file != null ==>
                && fresh(file) && file.Valid() && file.disk == disk && file.seekPosition == 0
                && var e := Dir(disk.View())[FileSystemSpec.FindIndex(Dir(disk.View()), name)];
                   e.sector < NUM_SECTORS && file.hdr == DecodeHeader(disk.View()[e.sector])
    {
      hide FsInv, FreeMap, Dir, FileSystemSpec.FindIndex, DecodeHeader, Directory.Valid;
      var directory := FetchDirectory();
      var sector := directory.Find(name);
      FindMinusOne(Dir(disk.View()), name);
      if IsName(name) { FoundContents(disk.View(), name); }
      if sector < 0 {
        return null;
      }
      FileIsMarked(disk.View(), FileSystemSpec.FindIndex(Dir(disk.View()), name));
      file := OpenSector(disk, sector, DecodeHeader(disk.View()[sector]));
    }

    /** `FileSystem::Remove`. */
    method Remove(name: seq<Byte>) returns (ok: bool)
      requires Valid() && FsInv(disk.View())
      modifies disk.sectors
      ensures Valid() && Removed(old(disk.View()), name, ok, disk.View()) && FsInv(disk.View())
      ensures IsName(name) ==>
                FilesByName.MapStep(FilesByName.Contents(old(disk.View())), FilesByName.Remove(name, ok),
                                    FilesByName.Contents(disk.View()))
    {
      hide FsInv, FreeMap, Dir, FileSystemSpec.FindIndex, DecodeHeader, HeaderOk, Directory.Valid, ClearMany,
           BitMap.BitMap.Valid, BitMap.BitMap.Bits;
      ghost var d := disk.View();
      var directory := FetchDirectory();
      var sector := directory.Find(name);
      FindMinusOne(Dir(d), name);
      if sector == -1 {
        RemoveRefines(d, name, false, d);
        return false;
      }
      ghost var i := FileSystemSpec.FindIndex(Dir(d), name);
      FileIsMarked(d, i);
      var fileHdr := new FileHeader();
      fileHdr.FetchFrom(disk, sector);
      var freeMap := FetchMap();
      ghost var h := DecodeHeader(d[sector]);
      assert fileHdr.dataSectors[..fileHdr.numSectors] == h.dataSectors;
      assert forall k :: 0 <= k < fileHdr.numSectors ==> fileHdr.dataSectors[k] == h.dataSectors[k];
      fileHdr.Deallocate(freeMap);
      freeMap.Clear(sector);
      ok := directory.Remove(name);
      StoreMap(freeMap);
      StoreDirectory(directory);
      RemoveRefines(d, name, ok, disk.View());
    }

    /** Write the new header, then the directory and the free map, back to disk. */
    method Commit(hdr: FileHeader, sector: nat, directory: Directory, freeMap: BitMap.BitMap)
      requires Valid() && FsInv(disk.View()) && sector < NUM_SECTORS && !FreeMap(disk.View())[sector]
      requires hdr.Valid() && disk.sectors as object != hdr.dataSectors
      requires directory.Valid() && freeMap.Valid() && freeMap.numBits == NUM_SECTORS
      modifies disk.sectors
      ensures Valid() && FreeMap(disk.View()) == freeMap.Bits() && Dir(disk.View()) == directory.table[..]
      ensures disk.View()[sector] == EncodeHeader(hdr.View())
      ensures forall s :: 0 <= s < NUM_SECTORS && s != sector && !IsMetadata(s) ==> disk.View()[s] == old(disk.View())[s]
    {
      hide FsInv, FreeMap, Dir, EncodeHeader, BitMap.BitMap.Valid, BitMap.BitMap.Bits, Directory.Valid;
      SystemSectorsTaken(disk.View());
      hdr.WriteBack(disk, sector);
      MetadataKept(old(disk.View()), disk.View());
      StoreDirectory(directory);
      StoreMap(freeMap);
    }
  }

  /** The data sectors of a file in the directory are marked and distinct, so `Deallocate` can
      clear them and the header's assertion holds. */
  lemma FileIsMarked(d: Disk, i: nat)
    requires FsInv(d) && i < NUM_DIR_ENTRIES && Dir(d)[i].inUse
    ensures Dir(d)[i].sector < NUM_SECTORS
    ensures var h := DecodeHeader(d[Dir(d)[i].sector]);
            && HeaderOk(h) && NoDup(h.dataSectors)
            && forall k :: 0 <= k < |h.dataSectors| ==> h.dataSectors[k] < NUM_SECTORS && FreeMap(d)[h.dataSectors[k]]
  {
    hide FreeMap, Dir, DecodeHeader, NamesDistinct, FileSectors, HeaderOk;
    assert EntryValid(d, Dir(d)[i]);
    UsedSlot(d, i);
    assert Files(d)[2 + i] == FileSectors(d, 2 + i);
    var e, data := Dir(d)[i], DecodeHeader(d[Dir(d)[i].sector]).dataSectors;
    var all := [e.sector] + data;
    assert NoDup(all);
    forall k | 0 <= k < |data| ensures data[k] < NUM_SECTORS && FreeMap(d)[data[k]] {
      assert data[k] in EntrySectors(d, e);
      SectorsAreOwn(d, i, data[k]);
    }
    forall j, k | 0 <= j < k < |data| ensures data[j] != data[k] {
      assert all[j + 1] != all[k + 1];
    }
  }

  /** A stored sector number is never negative, so -1 means "not found". */
  lemma FindMinusOne(table: seq<Entry>, name: seq<Byte>)
    ensures FileSystemSpec.Find(table, name) == -1 <==> FileSystemSpec.FindIndex(table, name) == -1
  {
  }
}
