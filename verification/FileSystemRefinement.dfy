/** The file system refines a map from names to byte arrays. */
module FileSystemRefinement {
  import opened Basics
  import opened Bytes
  import opened BitMapSpec
  import opened DiskLayout
  import opened FileSystemSpec
  import opened FileSystemInvariant
  import opened FileSystemCapacity

  /** The file of slot `i`. */
  ghost function SlotBytes(d: Disk, i: nat): (bs: seq<Byte>)
    requires FsInv(d) && i < NUM_DIR_ENTRIES && Dir(d)[i].inUse
  {
    assert EntryValid(d, Dir(d)[i]);
    FileBytes(d, DecodeHeader(d[Dir(d)[i].sector]))
  }

  ghost predicate NamedBy(d: Disk, key: seq<Byte>, i: int)
    requires DiskShape(d)
  {
    0 <= i < NUM_DIR_ENTRIES && Dir(d)[i].inUse && Dir(d)[i].name == key
  }

  /** What users of the file system see: the contents of each named file. */
  ghost predicate Holds(d: Disk, files: map<seq<Byte>, seq<Byte>>)
    requires FsInv(d)
  {
    && (forall i :: 0 <= i < NUM_DIR_ENTRIES && Dir(d)[i].inUse ==>
          Dir(d)[i].name in files && files[Dir(d)[i].name] == SlotBytes(d, i))
    && (forall key :: key in files ==> exists i :: NamedBy(d, key, i))
  }

  /** No other file's contents change when its slot and its sectors do not. */
  lemma ContentsKept(d: Disk, d': Disk, i: nat)
    requires FsInv(d) && FsInv(d') && i < NUM_DIR_ENTRIES && Dir(d)[i].inUse && Dir(d')[i] == Dir(d)[i]
    requires forall s <- EntrySectors(d, Dir(d)[i]) :: s < NUM_SECTORS ==> d'[s] == d[s]
    ensures SlotBytes(d', i) == SlotBytes(d, i)
  {
  }

  /** The slots other than `f` and their contents are the same in both disks. */
  ghost predicate SameExcept(d: Disk, d': Disk, f: int)
    requires FsInv(d) && FsInv(d')
  {
    forall i :: 0 <= i < NUM_DIR_ENTRIES && i != f ==>
      Dir(d')[i] == Dir(d)[i] && (Dir(d)[i].inUse ==> SlotBytes(d', i) == SlotBytes(d, i))
  }

  lemma NameIsUnique(table: seq<Entry>, f: nat)
    requires NamesDistinct(table) && f < |table| && table[f].inUse
    ensures forall i :: 0 <= i < |table| && i != f && table[i].inUse ==> table[i].name != table[f].name
  {
  }

  lemma HoldsWithSlot(d: Disk, d': Disk, f: nat, key: seq<Byte>, files: map<seq<Byte>, seq<Byte>>)
    requires FsInv(d) && FsInv(d') && Holds(d, files) && SameExcept(d, d', f) && NamedBy(d', key, f)
    requires Dir(d)[f].inUse ==> Dir(d)[f].name == key
    ensures Holds(d', files[key := SlotBytes(d', f)])
  {
    hide FreeMap, Dir, DecodeHeader, HeaderOk, Ownership, SlotBytes, EntryValid;
    var files' := files[key := SlotBytes(d', f)];
    forall k | k in files' ensures exists i :: NamedBy(d', k, i) {
      if k != key {
        var i :| NamedBy(d, k, i);
        assert NamedBy(d', k, i);
      }
    }
  }

  lemma HoldsWithoutSlot(d: Disk, d': Disk, f: nat, key: seq<Byte>, files: map<seq<Byte>, seq<Byte>>)
    requires FsInv(d) && FsInv(d') && Holds(d, files) && SameExcept(d, d', f) && NamedBy(d, key, f)
    requires !Dir(d')[f].inUse
    ensures Holds(d', files - {key})
  {
    hide FreeMap, Dir, DecodeHeader, HeaderOk, Ownership, SlotBytes, EntryValid, NamesDistinct;
    NameIsUnique(Dir(d), f);
    var files' := files - {key};
    forall k | k in files' ensures exists i :: NamedBy(d', k, i) {
      var i :| NamedBy(d, k, i);
      assert NamedBy(d', k, i);
    }
  }

  // ---------------------------------------------------------------- create

  lemma CreateLeavesOthers(d: Disk, name: seq<Byte>, size: nat, d': Disk)
    requires FsInv(d) && FsInv(d') && IsName(name) && size <= MAX_FILE_SIZE && Created(d, name, size, true, d')
    ensures SameExcept(d, d', FirstFree(Dir(d)))
  {
    hide FreeMap, Dir, DecodeHeader, EncodeHeader, HeaderOk, FirstFree, FindIndex, Allotment, Key, EntrySectors, SlotBytes, NamesDistinct, Ownership;
    var (hdr, h, bits) := Allotment(FreeMap(d), size);
    AllotmentIsFresh(FreeMap(d), size);
    assert hdr in [hdr] + h.dataSectors;
    forall i | 0 <= i < NUM_DIR_ENTRIES && i != FirstFree(Dir(d)) && Dir(d)[i].inUse
      ensures SlotBytes(d', i) == SlotBytes(d, i)
    {
      forall s | s in EntrySectors(d, Dir(d)[i]) ensures s < NUM_SECTORS && d'[s] == d[s] {
        SectorsAreOwn(d, i, s);
      }
      ContentsKept(d, d', i);
    }
  }

  lemma CreatedLength(d: Disk, name: seq<Byte>, size: nat, d': Disk)
    requires FsInv(d) && FsInv(d') && size <= MAX_FILE_SIZE && Created(d, name, size, true, d')
    ensures Dir(d')[FirstFree(Dir(d))].inUse && |SlotBytes(d', FirstFree(Dir(d)))| == size
  {
    hide FreeMap, Dir, DecodeHeader, EncodeHeader, FirstFree, FindIndex, Allotment, Key, NamesDistinct, Ownership;
    AllotmentIsFresh(FreeMap(d), size);
    HeaderRoundTrip(Allotment(FreeMap(d), size).1);
    AllotmentSize(FreeMap(d), size);
  }

  lemma AllotmentSize(bits: seq<bool>, size: nat)
    requires |bits| == NUM_SECTORS && NumClear(bits) >= 1 + DivRoundUp(size, SECTOR_SIZE) && size <= MAX_FILE_SIZE
    ensures Allotment(bits, size).1.numBytes == size
  {
  }

  /** `name` has an entry exactly when the map has its key. */
  lemma FoundIffHeld(d: Disk, name: seq<Byte>, files: map<seq<Byte>, seq<Byte>>)
    requires FsInv(d) && Holds(d, files) && IsName(name)
    ensures FindIndex(Dir(d), name) != -1 <==> Key(name) in files
    ensures FindIndex(Dir(d), name) != -1 ==> NamedBy(d, Key(name), FindIndex(Dir(d), name))
  {
    hide FreeMap, Dir, DecodeHeader, HeaderOk, Ownership, SlotBytes, Key;
    var i := FindIndex(Dir(d), name);
    if i != -1 {
      FindIndexIsSlot(Dir(d), name, i);
    } else if Key(name) in files {
      var j :| NamedBy(d, Key(name), j);
      FindIndexIsSlot(Dir(d), name, j);
    }
  }

  /** A successful create adds a file of the requested length under a new name and leaves
      every other file's contents alone. */
  lemma CreateAddsFile(d: Disk, name: seq<Byte>, size: nat, d': Disk, files: map<seq<Byte>, seq<Byte>>)
    requires FsInv(d) && Holds(d, files) && IsName(name) && size <= MAX_FILE_SIZE
    requires Created(d, name, size, true, d')
    ensures FsInv(d') && Key(name) !in files
    ensures exists contents :: |contents| == size && Holds(d', files[Key(name) := contents])
  {
    hide FreeMap, Dir, DecodeHeader, EncodeHeader, HeaderOk, FirstFree, FindIndex, Allotment, Key, NamesDistinct, Ownership, SlotBytes, Holds, SameExcept;
    CreateKeeps(d, name, size, true, d');
    CreateLeavesOthers(d, name, size, d');
    CreatedLength(d, name, size, d');
    FoundIffHeld(d, name, files);
    HoldsWithSlot(d, d', FirstFree(Dir(d)), Key(name), files);
  }

  // ---------------------------------------------------------------- remove

  lemma RemoveLeavesOthers(d: Disk, name: seq<Byte>, d': Disk)
    requires FsInv(d) && FsInv(d') && Removed(d, name, true, d')
    ensures SameExcept(d, d', FindIndex(Dir(d), name))
  {
    hide FreeMap, Dir, DecodeHeader, EncodeHeader, HeaderOk, FindIndex, EntrySectors, SlotBytes, NamesDistinct, Ownership, ClearMany;
    forall i | 0 <= i < NUM_DIR_ENTRIES && i != FindIndex(Dir(d), name) && Dir(d)[i].inUse
      ensures SlotBytes(d', i) == SlotBytes(d, i)
    {
      forall s | s in EntrySectors(d, Dir(d)[i]) ensures s < NUM_SECTORS && d'[s] == d[s] {
        SectorsAreOwn(d, i, s);
      }
      ContentsKept(d, d', i);
    }
  }

  /** A successful remove takes exactly the named file away; it succeeds when there is one. */
  lemma RemoveDropsFile(d: Disk, name: seq<Byte>, ok: bool, d': Disk, files: map<seq<Byte>, seq<Byte>>)
    requires FsInv(d) && Holds(d, files) && IsName(name) && Removed(d, name, ok, d')
    ensures FsInv(d') && (ok <==> Key(name) in files)
    ensures Holds(d', files - {Key(name)})
  {
    hide FreeMap, Dir, DecodeHeader, EncodeHeader, HeaderOk, FindIndex, Key, NamesDistinct, Ownership, SlotBytes, Holds, SameExcept, ClearMany;
    RemoveKeeps(d, name, ok, d');
    FoundIffHeld(d, name, files);
    if ok {
      RemoveLeavesOthers(d, name, d');
      HoldsWithoutSlot(d, d', FindIndex(Dir(d), name), Key(name), files);
    } else {
      assert files - {Key(name)} == files;
    }
  }

  // ---------------------------------------------------------------- writes

  lemma WriteLeavesOthers(d: Disk, i: nat, at: nat, part: seq<Byte>, d': Disk)
    requires FsInv(d) && FsInv(d') && WroteFile(d, i, at, part, d')
    ensures SameExcept(d, d', i)
  {
    hide FreeMap, Dir, DecodeHeader, HeaderOk, SlotBytes, NamesDistinct, Ownership, Patch, FileBytes;
    forall j | 0 <= j < NUM_DIR_ENTRIES && j != i
      ensures Dir(d')[j] == Dir(d)[j] && (Dir(d)[j].inUse ==> SlotBytes(d', j) == SlotBytes(d, j))
    {
      WrittenSlot(d, i, at, part, d', j);
      if Dir(d)[j].inUse {
        forall s | s in EntrySectors(d, Dir(d)[j]) ensures s < NUM_SECTORS && d'[s] == d[s] {
          SectorsAreOwn(d, j, s);
          if s in DecodeHeader(d[Dir(d)[i].sector]).dataSectors { DataIsNotHeader(d, i, s, j); }
        }
        ContentsKept(d, d', j);
      }
    }
  }

  lemma WrittenBytes(d: Disk, i: nat, at: nat, part: seq<Byte>, d': Disk)
    requires FsInv(d) && FsInv(d') && WroteFile(d, i, at, part, d')
    ensures Dir(d')[i] == Dir(d)[i]
    ensures at + |part| <= |SlotBytes(d, i)| && SlotBytes(d', i) == Patch(SlotBytes(d, i), at, part)
  {
    hide FreeMap, Dir, DecodeHeader, HeaderOk, NamesDistinct, Ownership, Patch, FileBytes;
    WrittenSlot(d, i, at, part, d', i);
  }

  /** Writing to an open file patches that file's bytes and nothing else on the disk. */
  lemma WritePatchesFile(d: Disk, i: nat, at: nat, part: seq<Byte>, d': Disk, files: map<seq<Byte>, seq<Byte>>)
    requires FsInv(d) && Holds(d, files) && WroteFile(d, i, at, part, d')
    ensures FsInv(d')
    ensures var key := Dir(d)[i].name;
            && key in files && at + |part| <= |files[key]|
            && Holds(d', files[key := Patch(files[key], at, part)])
  {
    hide FreeMap, Dir, DecodeHeader, HeaderOk, NamesDistinct, Ownership, Patch, FileBytes, SlotBytes, SameExcept, Wrote;
    WriteKeeps(d, i, at, part, d');
    WriteLeavesOthers(d, i, at, part, d');
    WrittenBytes(d, i, at, part, d');
    HoldsWithSlot(d, d', i, Dir(d)[i].name, files);
  }

  // ---------------------------------------------------------------- the map itself

  ghost function Names(d: Disk): set<seq<Byte>>
    requires DiskShape(d)
  {
    set i | 0 <= i < NUM_DIR_ENTRIES && Dir(d)[i].inUse :: Dir(d)[i].name
  }

  ghost function SlotOf(d: Disk, key: seq<Byte>): (i: nat)
    requires DiskShape(d) && key in Names(d)
    ensures NamedBy(d, key, i)
  {
    assert exists i :: NamedBy(d, key, i) by {
      var j :| 0 <= j < NUM_DIR_ENTRIES && Dir(d)[j].inUse && Dir(d)[j].name == key;
      assert NamedBy(d, key, j);
    }
    var i :| NamedBy(d, key, i);
    i
  }

  /** The files on the disk, by name. */
  ghost function Contents(d: Disk): map<seq<Byte>, seq<Byte>>
    requires FsInv(d)
  {
    map key | key in Names(d) :: SlotBytes(d, SlotOf(d, key))
  }

  lemma ContentsHold(d: Disk)
    requires FsInv(d)
    ensures Holds(d, Contents(d))
  {
    hide FreeMap, Dir, DecodeHeader, HeaderOk, Ownership, SlotBytes, EntryValid;
    forall i | 0 <= i < NUM_DIR_ENTRIES && Dir(d)[i].inUse
      ensures Dir(d)[i].name in Contents(d) && Contents(d)[Dir(d)[i].name] == SlotBytes(d, i)
    {
      assert Dir(d)[i].name in Names(d);
      NameIsUnique(Dir(d), i);
    }
    forall key | key in Contents(d) ensures exists i :: NamedBy(d, key, i) {
      assert NamedBy(d, key, SlotOf(d, key));
    }
  }

  lemma ContentsUnique(d: Disk, files: map<seq<Byte>, seq<Byte>>)
    requires FsInv(d) && Holds(d, files)
    ensures files == Contents(d)
  {
    hide FreeMap, Dir, DecodeHeader, HeaderOk, Ownership, SlotBytes, EntryValid, NamesDistinct, Contents, Names;
    ContentsHold(d);
    var held := Contents(d);
    forall key | key in files || key in held ensures key in files && key in held && files[key] == held[key] {
      var i :| NamedBy(d, key, i);
    }
  }

  // ---------------------------------------------------------------- room

  ghost function Slots(d: Disk): (slots: seq<Slot>)
    requires FsInv(d)
    ensures |slots| == NUM_DIR_ENTRIES
    ensures forall i :: 0 <= i < NUM_DIR_ENTRIES ==>
              slots[i] == if Dir(d)[i].inUse then Holding(Dir(d)[i].name, SlotBytes(d, i)) else Empty
  {
    seq(NUM_DIR_ENTRIES, i requires 0 <= i < NUM_DIR_ENTRIES =>
      if Dir(d)[i].inUse then Holding(Dir(d)[i].name, SlotBytes(d, i)) else Empty)
  }

  lemma SlotCost(d: Disk, i: nat)
    requires FsInv(d) && i < NUM_DIR_ENTRIES
    ensures |FileSectors(d, 2 + i)| == if Dir(d)[i].inUse then Cost(|SlotBytes(d, i)|) else 0
  {
    assert EntryValid(d, Dir(d)[i]);
  }

  /** The sectors of the two system files and of the first `n` slots. */
  lemma {:induction false} SectorsOfSlots(d: Disk, n: nat)
    requires FsInv(d) && n <= NUM_DIR_ENTRIES
    ensures TotalLength(Files(d)[..2 + n]) == 5 + SlotsSpace(Slots(d)[..n])
  {
    hide EntryValid, Ownership, NamesDistinct, FreeMap, Dir, DecodeHeader, SlotBytes, Cost, FileSectors;
    var files, slots := Files(d), Slots(d);
    if n == 0 {
      SystemFilesTake(d);
      assert files[..2] == [files[0], files[1]];
      TotalOfTwo(files[0], files[1]);
    } else {
      SectorsOfSlots(d, n - 1);
      SlotCost(d, n - 1);
      assert files[..2 + n][..1 + n] == files[..1 + n] && files[..2 + n][1 + n] == files[1 + n];
      assert slots[..n][..n - 1] == slots[..n - 1] && slots[..n][n - 1] == slots[n - 1];
    }
  }

  lemma SystemFilesTake(d: Disk)
    requires FsInv(d)
    ensures |FileSectors(d, 0)| == 2 && |FileSectors(d, 1)| == 3
  {
  }

  lemma TotalOfTwo(a: seq<nat>, b: seq<nat>)
    ensures TotalLength([a, b]) == |a| + |b|
  {
    assert [a, b][..1] == [a] && [a][..0] == [];
    assert TotalLength([a]) == |a|;
  }

  /** Free sectors and the sectors of all files add up, and a slot is free while there are fewer than
      ten files. */
  lemma RoomLeft(d: Disk)
    requires FsInv(d)
    ensures NumClear(FreeMap(d)) + Space(Contents(d)) == 1019
    ensures |Contents(d)| < 10 <==> FirstFree(Dir(d)) >= 0
  {
    hide FreeMap, Dir, DecodeHeader, SlotBytes, Space, EntryValid, Ownership, NamesDistinct, Contents;
    var slots := Slots(d);
    ContentsHold(d);
    assert KeysDistinct(slots) by { DistinctSlots(d); }
    assert IsMapOf(Contents(d), slots) by { HeldBySlots(d); }
    MapOfSlots(Contents(d), slots);
    FullIff(slots);
    FreeAndOwned(FreeMap(d), Files(d));
    SectorsOfSlots(d, NUM_DIR_ENTRIES);
    assert Files(d)[..2 + NUM_DIR_ENTRIES] == Files(d) && slots[..NUM_DIR_ENTRIES] == slots;
  }

  lemma DistinctSlots(d: Disk)
    requires FsInv(d)
    ensures KeysDistinct(Slots(d))
  {
    hide FreeMap, Dir, DecodeHeader, SlotBytes, Ownership, EntryValid;
  }

  lemma HeldBySlots(d: Disk)
    requires FsInv(d) && Holds(d, Contents(d))
    ensures IsMapOf(Contents(d), Slots(d))
  {
    hide FreeMap, Dir, DecodeHeader, SlotBytes, Ownership, EntryValid, NamesDistinct, Contents;
    var slots := Slots(d);
    forall key | key in Contents(d) ensures exists i :: 0 <= i < |slots| && slots[i].Holding? && slots[i].key == key {
      var i :| NamedBy(d, key, i);
      assert slots[i].key == key;
    }
  }

  /** There is a free name, a free slot and enough room, as users can count them. */
  ghost predicate HasRoom(files: FileMap, key: seq<Byte>, size: nat) {
    key !in files && |files| < 10 && Space(files) + 1 + DivRoundUp(size, 128) <= 1019
  }

  lemma CanCreateIff(d: Disk, name: seq<Byte>, size: nat)
    requires FsInv(d) && IsName(name)
    ensures CanCreate(d, name, size) <==> HasRoom(Contents(d), Key(name), size)
  {
    hide FreeMap, Dir, FsInv, Space, Contents, Key, FindIndex, Holds, FirstFree, NamedBy;
    RoomLeft(d);
    ContentsHold(d);
    FoundIffHeld(d, name, Contents(d));
  }

  // ---------------------------------------------------------------- every run

  datatype FsOp =
    | Create(name: seq<Byte>, size: nat, ok: bool)
    | Remove(name: seq<Byte>, ok: bool)
    | Write(name: seq<Byte>, at: nat, part: seq<Byte>)

  ghost predicate FsStep(d: Disk, op: FsOp, d': Disk)
    requires DiskShape(d)
  {
    && IsName(op.name)
    && match op
       case Create(name, size, ok) => size <= MAX_FILE_SIZE && Created(d, name, size, ok, d')
       case Remove(name, ok) => Removed(d, name, ok, d')
       case Write(name, at, part) => WroteFile(d, FindIndex(Dir(d), name), at, part, d')
  }

  /** The same operations on a map from names to byte arrays. */
  ghost predicate MapStep(files: map<seq<Byte>, seq<Byte>>, op: FsOp, files': map<seq<Byte>, seq<Byte>>) {
    var key := Key(op.name);
    match op
    case Create(_, size, ok) =>
      && ok == HasRoom(files, key, size)
      && if ok then key in files' && |files'[key]| == size && files' == files[key := files'[key]]
      else files' == files
    case Remove(_, ok) => ok == (key in files) && files' == files - {key}
    case Write(_, at, part) =>
      key in files && at + |part| <= |files[key]| && files' == files[key := Patch(files[key], at, part)]
  }

  lemma StepRefinesMap(d: Disk, op: FsOp, d': Disk)
    requires FsInv(d) && FsStep(d, op, d')
    ensures FsInv(d') && MapStep(Contents(d), op, Contents(d'))
  {
    hide EntryValid, Ownership, NamesDistinct, FreeMap, DecodeHeader, Holds, Contents, Key, IsName, Created, Removed, WroteFile, FindIndex, Patch, NamedBy, Dir, Names;
    ContentsHold(d);
    var files := Contents(d);
    match op
    case Create(name, size, ok) =>
      CreatedIff(d, name, size, ok, d');
      if ok {
        CreateAddsFile(d, name, size, d', files);
        var contents :| |contents| == size && Holds(d', files[Key(name) := contents]);
        ContentsUnique(d', files[Key(name) := contents]);
      } else {
        FailedCreate(d, name, size, d');
      }
    case Remove(name, ok) =>
      RemoveDropsFile(d, name, ok, d', files);
      ContentsUnique(d', files - {Key(name)});
    case Write(name, at, part) =>
      FoundIffHeld(d, name, files);
      WriteByName(d, name, at, part, d', files);
  }

  lemma CreatedIff(d: Disk, name: seq<Byte>, size: nat, ok: bool, d': Disk)
    requires FsInv(d) && IsName(name) && size <= MAX_FILE_SIZE && Created(d, name, size, ok, d')
    ensures ok == HasRoom(Contents(d), Key(name), size)
  {
    hide CanCreate, HasRoom, Contents, Key, Allotment, FreeMap, Dir;
    CanCreateIff(d, name, size);
  }

  lemma FailedCreate(d: Disk, name: seq<Byte>, size: nat, d': Disk)
    requires DiskShape(d) && size <= MAX_FILE_SIZE && Created(d, name, size, false, d')
    ensures d' == d
  {
  }

  lemma WriteByName(d: Disk, name: seq<Byte>, at: nat, part: seq<Byte>, d': Disk, files: map<seq<Byte>, seq<Byte>>)
    requires FsInv(d) && Holds(d, files) && IsName(name)
    requires WroteFile(d, FindIndex(Dir(d), name), at, part, d')
    ensures FsInv(d') && Key(name) in files && at + |part| <= |files[Key(name)]|
    ensures Contents(d') == files[Key(name) := Patch(files[Key(name)], at, part)]
  {
    hide FreeMap, Dir, DecodeHeader, HeaderOk, NamesDistinct, Ownership, Patch, Holds, Wrote, Contents, Key, EntryValid;
    var i := FindIndex(Dir(d), name);
    FoundIffHeld(d, name, files);
    WritePatchesFile(d, i, at, part, d', files);
    ContentsUnique(d', files[Key(name) := Patch(files[Key(name)], at, part)]);
  }

  lemma FormattedIsEmpty(d: Disk)
    requires Formatted(d) && FsInv(d)
    ensures Contents(d) == map[]
  {
  }

  /** A run of the file system from a freshly formatted disk. */
  ghost predicate FsRun(ds: seq<Disk>, ops: seq<FsOp>) {
    && |ds| == |ops| + 1
    && Formatted(ds[0])
    && forall i :: 0 <= i < |ops| ==> DiskShape(ds[i]) && FsStep(ds[i], ops[i], ds[i + 1])
  }

  /** The main theorem: after every run each sector is free or owned by exactly one file and
      the free map says so, and every operation acted on a map from names to byte arrays. */
  lemma {:induction false} FsRunRefinesMap(ds: seq<Disk>, ops: seq<FsOp>, n: nat)
    requires FsRun(ds, ops) && n <= |ops|
    ensures FsInv(ds[n])
    ensures n == 0 ==> Contents(ds[n]) == map[]
    ensures n < |ops| ==> FsInv(ds[n + 1]) && MapStep(Contents(ds[n]), ops[n], Contents(ds[n + 1]))
  {
    hide FsInv, FsStep, Formatted, MapStep, Contents;
    if n == 0 {
      FormattedIsValid(ds[0]);
      FormattedIsEmpty(ds[0]);
    } else {
      FsRunRefinesMap(ds, ops, n - 1);
    }
    if n < |ops| {
      StepRefinesMap(ds[n], ops[n], ds[n + 1]);
    }
  }

  // ---------------------------------------------------------------- create, then remove

  /** Removing a file just created succeeds and gives back its sectors and its directory slot. */
  lemma RemoveUndoesCreate(d: Disk, name: seq<Byte>, size: nat, d1: Disk, ok: bool, d2: Disk, other: seq<Byte>)
    requires FsInv(d) && IsName(name) && size <= MAX_FILE_SIZE
    requires Created(d, name, size, true, d1)
    requires DiskShape(d1) && Removed(d1, name, ok, d2)
    ensures ok && DiskShape(d2) && FreeMap(d2) == FreeMap(d)
    ensures Find(Dir(d2), other) == Find(Dir(d), other)
  {
    hide FreeMap, Dir, DecodeHeader, EncodeHeader, HeaderOk, FirstFree, FindIndex, Allotment, Key, NamesDistinct, Ownership, ClearMany;
    var f := FirstFree(Dir(d));
    var (hdr, h, bits) := Allotment(FreeMap(d), size);
    CreateKeeps(d, name, size, true, d1);
    AllotmentIsFresh(FreeMap(d), size);
    HeaderRoundTrip(h);
    FindIndexIsSlot(Dir(d1), name, f);
    assert hdr in [hdr] + h.dataSectors;
    assert FreeMap(d2) == FreeMap(d);
    SameFind(Dir(d), Dir(d2), f, other);
  }

  lemma SameFind(table: seq<Entry>, table': seq<Entry>, f: nat, name: seq<Byte>)
    requires |table'| == |table| && f < |table| && !table[f].inUse && !table'[f].inUse
    requires forall i :: 0 <= i < |table| && i != f ==> table'[i] == table[i]
    ensures Find(table', name) == Find(table, name)
  {
  }
}
