/** Files that are open while the directory changes.  An open file keeps the header it read when it
    was opened; after a `Remove` its sectors may belong to other files, even to one with an equal
    header.  A file is therefore known by its directory slot and by how often that slot has been
    created or removed in, not by its header.  This is exactly when writing through it is safe. */
module OpenHandles {
  import opened Basics
  import opened Bytes
  import opened BitMapSpec
  import opened DiskLayout
  import opened FileSystemSpec
  import opened FileSystemInvariant
  import opened FileSystemRefinement
  import FileSystem

  /** Headers that `Open` can have read: sectors are distinct and none belongs to the system. */
  ghost predicate IsHandle(h: Header) {
    HeaderOk(h) && NoDup(h.dataSectors) && forall s <- h.dataSectors :: 5 <= s
  }

  ghost function HeaderOf(d: Disk, j: nat): Header
    requires FsInv(d) && j < NUM_DIR_ENTRIES && Dir(d)[j].inUse
  {
    assert EntryValid(d, Dir(d)[j]);
    DecodeHeader(d[Dir(d)[j].sector])
  }

  lemma OpenGivesHandle(d: Disk, j: nat)
    requires FsInv(d) && j < NUM_DIR_ENTRIES && Dir(d)[j].inUse
    ensures IsHandle(HeaderOf(d, j))
  {
    hide FsInv, Dir, DecodeHeader;
    FileSystem.FileIsMarked(d, j);
    forall s | s in HeaderOf(d, j).dataSectors ensures 5 <= s {
      DataIsNotHeader(d, j, s, j);
    }
  }

  /** `own` is the slot of the file that was opened, as long as it is in the directory, and -1 after. */
  ghost predicate IsOwn(d: Disk, h: Header, own: int)
    requires FsInv(d)
  {
    own == -1 || (0 <= own < NUM_DIR_ENTRIES && Dir(d)[own].inUse && HeaderOf(d, own) == h)
  }

  /** The file is still in the directory, or no file there has one of its sectors. */
  ghost predicate Harmless(d: Disk, h: Header, own: int)
    requires FsInv(d)
  {
    own != -1 || forall j :: 0 <= j < NUM_DIR_ENTRIES && Dir(d)[j].inUse ==> Apart(d, h, j)
  }

  ghost predicate Apart(d: Disk, h: Header, j: nat)
    requires FsInv(d) && j < NUM_DIR_ENTRIES
  {
    forall s <- EntrySectors(d, Dir(d)[j]) :: s !in h.dataSectors
  }

  ghost predicate HandleWrote(d: Disk, h: Header, at: nat, part: seq<Byte>, d': Disk)
    requires DiskShape(d)
  {
    HeaderOk(h) && at + |part| <= h.numBytes && Wrote(d, h, at, part, d')
  }

  /** The write keeps the file system in order and changes the file that was opened, and nothing if it
      is gone. */
  ghost predicate IsSafe(d: Disk, h: Header, own: int, at: nat, part: seq<Byte>, d': Disk)
    requires FsInv(d) && IsOwn(d, h, own) && HeaderOk(h) && at + |part| <= h.numBytes
  {
    && FsInv(d') && Dir(d') == Dir(d) && FreeMap(d') == FreeMap(d)
    && forall j :: 0 <= j < NUM_DIR_ENTRIES && Dir(d)[j].inUse ==>
         && |SlotBytes(d, j)| == HeaderOf(d, j).numBytes
         && SlotBytes(d', j) == if j == own then Patch(SlotBytes(d, j), at, part) else SlotBytes(d, j)
  }

  // ---------------------------------------------------------------- harmless writes are safe

  /** Files in the directory own their sectors, so the others are apart from the one opened. */
  lemma OthersApart(d: Disk, h: Header, own: int, j: nat)
    requires FsInv(d) && IsOwn(d, h, own) && Harmless(d, h, own) && j < NUM_DIR_ENTRIES && Dir(d)[j].inUse && j != own
    ensures Apart(d, h, j)
  {
    hide FreeMap, Dir, DecodeHeader, HeaderOk, Ownership, NamesDistinct, FileSectors;
    assert EntryValid(d, Dir(d)[j]);
    if own != -1 {
      forall s | s in EntrySectors(d, Dir(d)[j]) ensures s !in h.dataSectors {
        if s in h.dataSectors { DataIsNotHeader(d, own, s, j); }
      }
    }
  }

  /** A harmless handle has no header sector among its data. */
  lemma HeadersKept(d: Disk, h: Header, own: int, at: nat, part: seq<Byte>, d': Disk, j: nat)
    requires FsInv(d) && IsHandle(h) && IsOwn(d, h, own) && Harmless(d, h, own) && HandleWrote(d, h, at, part, d')
    requires j < NUM_DIR_ENTRIES && Dir(d)[j].inUse
    ensures Dir(d)[j].sector < NUM_SECTORS && d'[Dir(d)[j].sector] == d[Dir(d)[j].sector]
  {
    hide FreeMap, Dir, DecodeHeader, HeaderOk, Ownership, NamesDistinct, FileSectors, FileBytes, Patch, Harmless;
    assert EntryValid(d, Dir(d)[j]);
    var s := Dir(d)[j].sector;
    if j != own {
      OthersApart(d, h, own, j);
      assert s in EntrySectors(d, Dir(d)[j]);
    } else if s in h.dataSectors {
      DataIsNotHeader(d, j, s, j);
    }
  }

  lemma SlotStays(d: Disk, h: Header, own: int, at: nat, part: seq<Byte>, d': Disk, j: nat)
    requires FsInv(d) && IsHandle(h) && IsOwn(d, h, own) && Harmless(d, h, own) && HandleWrote(d, h, at, part, d') && Dir(d') == Dir(d) && j < NUM_DIR_ENTRIES
    ensures EntryValid(d', Dir(d')[j]) && FileSectors(d', 2 + j) == FileSectors(d, 2 + j)
  {
    hide FreeMap, Dir, DecodeHeader, HeaderOk, Ownership, NamesDistinct, FileSectors, FileBytes, Patch, Harmless;
    if Dir(d)[j].inUse { HeadersKept(d, h, own, at, part, d', j); }
    SlotKept(d, d', j);
  }

  lemma HarmlessKeeps(d: Disk, h: Header, own: int, at: nat, part: seq<Byte>, d': Disk)
    requires FsInv(d) && IsHandle(h) && IsOwn(d, h, own) && Harmless(d, h, own) && HandleWrote(d, h, at, part, d')
    ensures FsInv(d') && Dir(d') == Dir(d) && FreeMap(d') == FreeMap(d)
  {
    hide FreeMap, Dir, DecodeHeader, HeaderOk, Ownership, NamesDistinct, FileSectors, EntryValid, FileBytes, Patch, Harmless;
    assert forall s :: 0 <= s < 5 ==> s !in h.dataSectors;
    MetadataKept(d, d');
    forall j | 0 <= j < NUM_DIR_ENTRIES ensures EntryValid(d', Dir(d')[j]) {
      SlotStays(d, h, own, at, part, d', j);
    }
    forall g | 0 <= g < 2 + NUM_DIR_ENTRIES ensures Files(d')[g] == Files(d)[g] {
      if g < 2 { SystemFiles(d, d', g); } else { SlotStays(d, h, own, at, part, d', g - 2); }
    }
    assert Files(d') == Files(d);
  }

  lemma HarmlessIsSafe(d: Disk, h: Header, own: int, at: nat, part: seq<Byte>, d': Disk)
    requires FsInv(d) && IsHandle(h) && IsOwn(d, h, own) && Harmless(d, h, own) && HandleWrote(d, h, at, part, d')
    ensures IsSafe(d, h, own, at, part, d')
  {
    hide FreeMap, Dir, DecodeHeader, HeaderOk, FileBytes, Patch, Ownership, NamesDistinct, FileSectors;
    HarmlessKeeps(d, h, own, at, part, d');
    forall j | 0 <= j < NUM_DIR_ENTRIES && Dir(d)[j].inUse
      ensures |SlotBytes(d, j)| == HeaderOf(d, j).numBytes
      ensures SlotBytes(d', j) == if j == own then Patch(SlotBytes(d, j), at, part) else SlotBytes(d, j)
    {
      HeadersKept(d, h, own, at, part, d', j);
      if j != own {
        OthersApart(d, h, own, j);
        forall s | s in EntrySectors(d, Dir(d)[j]) ensures s < NUM_SECTORS && d'[s] == d[s] {
          SectorsAreOwn(d, j, s);
        }
        ContentsKept(d, d', j);
      }
    }
  }

  // ---------------------------------------------------------------- others are not

  /** The disk after one byte is written at the start of the handle's `q`-th sector. */
  function Poked(d: Disk, h: Header, q: nat, x: Byte): (d': Disk)
    requires DiskShape(d) && HeaderOk(h) && q < |h.dataSectors|
    ensures DiskShape(d')
  {
    var s := h.dataSectors[q];
    d[s := Patch(d[s], 0, [x])]
  }

  lemma SectorHasByte(h: Header, q: nat)
    requires HeaderOk(h) && q < |h.dataSectors|
    ensures q * SECTOR_SIZE < h.numBytes
  {
  }

  lemma PokeIsWrite(d: Disk, h: Header, q: nat, x: Byte)
    requires DiskShape(d) && IsHandle(h) && q < |h.dataSectors|
    ensures HandleWrote(d, h, q * SECTOR_SIZE, [x], Poked(d, h, q, x))
  {
    SectorHasByte(h, q);
    var d', at := Poked(d, h, q, x), q * SECTOR_SIZE;
    forall p | 0 <= p < h.numBytes ensures ByteAt(d', h, p) == Patch(FileBytes(d, h), at, [x])[p] {
      SectorOfByte(h, p);
      if p / SECTOR_SIZE != q {
        assert h.dataSectors[p / SECTOR_SIZE] != h.dataSectors[q];
      }
    }
    assert FileBytes(d', h) == Patch(FileBytes(d, h), at, [x]);
  }

  /** Another first byte makes another file length. */
  lemma OtherLength(bs: seq<Byte>, x: Byte)
    requires |bs| == SECTOR_SIZE && x != bs[0]
    ensures DecodeHeader(Patch(bs, 0, [x])).numBytes != DecodeHeader(bs).numBytes
  {
    var w, w' := bs[..4], Patch(bs, 0, [x])[..4];
    assert w'[0] == x && w'[1] == w[1] && w'[2] == w[2] && w'[3] == w[3];
  }

  /** Another first byte of a data sector makes other contents. */
  lemma OtherContents(d: Disk, g: Header, s: nat, x: Byte)
    requires DiskShape(d) && HeaderOk(g) && s in g.dataSectors && s < NUM_SECTORS && x != d[s][0]
    ensures DiskShape(d[s := Patch(d[s], 0, [x])]) && FileBytes(d[s := Patch(d[s], 0, [x])], g) != FileBytes(d, g)
  {
    var d' := d[s := Patch(d[s], 0, [x])];
    var p :| 0 <= p < |g.dataSectors| && g.dataSectors[p] == s;
    SectorHasByte(g, p);
    assert ByteAt(d, g, p * SECTOR_SIZE) == d[s][0] && ByteAt(d', g, p * SECTOR_SIZE) == x;
    assert FileBytes(d, g)[p * SECTOR_SIZE] != FileBytes(d', g)[p * SECTOR_SIZE];
  }

  /** The byte shows in the file that owns the sector now: in its length, if it is the header, or in
      its contents. */
  lemma PokeShows(d: Disk, h: Header, q: nat, x: Byte, j: nat)
    requires FsInv(d) && IsHandle(h) && q < |h.dataSectors| && j < NUM_DIR_ENTRIES && Dir(d)[j].inUse
    requires h.dataSectors[q] in EntrySectors(d, Dir(d)[j]) && x != d[h.dataSectors[q]][0]
    ensures var d' := Poked(d, h, q, x); FsInv(d') && Dir(d') == Dir(d) ==> SlotBytes(d', j) != SlotBytes(d, j)
  {
    hide FreeMap, Dir, Ownership, NamesDistinct, FileSectors, DecodeHeader, FileBytes, Patch, DivRoundUp;
    var d', s := Poked(d, h, q, x), h.dataSectors[q];
    assert EntryValid(d, Dir(d)[j]);
    if FsInv(d') && Dir(d') == Dir(d) {
      assert EntryValid(d', Dir(d')[j]);
      if s == Dir(d)[j].sector {
        OtherLength(d[s], x);
      } else {
        OtherContents(d, HeaderOf(d, j), s, x);
      }
    }
  }

  lemma HarmfulIsUnsafe(d: Disk, h: Header, j: nat) returns (at: nat, part: seq<Byte>, d': Disk)
    requires FsInv(d) && IsHandle(h) && j < NUM_DIR_ENTRIES && Dir(d)[j].inUse && !Apart(d, h, j)
    ensures HandleWrote(d, h, at, part, d') && !IsSafe(d, h, -1, at, part, d')
  {
    hide FreeMap, Dir, DecodeHeader, Ownership, NamesDistinct, FileSectors, EntrySectors, FileBytes;
    var s :| s in EntrySectors(d, Dir(d)[j]) && s in h.dataSectors;
    var q :| 0 <= q < |h.dataSectors| && h.dataSectors[q] == s;
    var x: Byte := if d[s][0] == 0 then 1 else 0;
    at, part, d' := q * SECTOR_SIZE, [x], Poked(d, h, q, x);
    PokeIsWrite(d, h, q, x);
    PokeShows(d, h, q, x, j);
  }

  /** The exact condition: every write through an open file changes that file and no other, and
      nothing if it is gone, if and only if it is still in the directory or every file there is apart
      from it. */
  lemma WritesAreSafeIff(d: Disk, h: Header, own: int)
    requires FsInv(d) && IsHandle(h) && IsOwn(d, h, own)
    ensures (forall at: nat, part: seq<Byte>, d': Disk :: HandleWrote(d, h, at, part, d') ==> IsSafe(d, h, own, at, part, d'))
            <==> Harmless(d, h, own)
  {
    hide FreeMap, Dir, IsSafe, IsHandle, Apart, Wrote, HeaderOk, Ownership, NamesDistinct, EntryValid, DecodeHeader;
    if Harmless(d, h, own) {
      forall at: nat, part: seq<Byte>, d': Disk | HandleWrote(d, h, at, part, d') ensures IsSafe(d, h, own, at, part, d') {
        HarmlessIsSafe(d, h, own, at, part, d');
      }
    } else {
      var j :| 0 <= j < NUM_DIR_ENTRIES && Dir(d)[j].inUse && !Apart(d, h, j);
      var at, part, d' := HarmfulIsUnsafe(d, h, j);
    }
  }

  // ---------------------------------------------------------------- every run with open files

  /** An open file: the slot it was opened in, the count of that slot then, and its header. */
  datatype Opened = Opened(slot: nat, birth: nat, header: Header)

  /** `births` counts, for each slot, the creations and removals in it. */
  datatype System = System(disk: Disk, births: seq<nat>, open: seq<Opened>)

  datatype HandleOp = Plain(op: FsOp) | OpenSlot(i: nat) | WriteThrough(n: nat, at: nat, part: seq<Byte>)

  /** The slot whose file a successful Create or Remove replaces. */
  function Replaces(d: Disk, op: FsOp): int
    requires DiskShape(d)
  {
    match op
    case Create(_, _, ok) => if ok then FirstFree(Dir(d)) else -1
    case Remove(name, ok) => if ok then FindIndex(Dir(d), name) else -1
    case Write(_, _, _) => -1
  }

  function Counted(births: seq<nat>, i: int): seq<nat> {
    if 0 <= i < |births| then births[i := births[i] + 1] else births
  }

  /** Where the file that was opened is now, or -1 if it has been removed. */
  function OwnSlot(s: System, f: Opened): int {
    if f.slot < |s.births| && s.births[f.slot] == f.birth then f.slot else -1
  }

  /** Writes go through files opened at any time before, as long as they are harmless. */
  ghost predicate HandleStep(s: System, op: HandleOp, s': System)
    requires FsInv(s.disk) && |s.births| == NUM_DIR_ENTRIES
  {
    match op
    case Plain(o) => FsStep(s.disk, o, s'.disk) && s'.births == Counted(s.births, Replaces(s.disk, o)) && s'.open == s.open
    case OpenSlot(i) =>
      i < NUM_DIR_ENTRIES && Dir(s.disk)[i].inUse && s' == s.(open := s.open + [Opened(i, s.births[i], HeaderOf(s.disk, i))])
    case WriteThrough(n, at, part) =>
      && n < |s.open| && HandleWrote(s.disk, s.open[n].header, at, part, s'.disk) && s'.births == s.births && s'.open == s.open
      && Harmless(s.disk, s.open[n].header, OwnSlot(s, s.open[n]))
  }

  /** An open file has a possible header, and while its slot's count is what it was, it is there. */
  ghost predicate OpenOk(s: System, f: Opened)
    requires FsInv(s.disk) && |s.births| == NUM_DIR_ENTRIES
  {
    && IsHandle(f.header) && f.slot < NUM_DIR_ENTRIES && f.birth <= s.births[f.slot]
    && IsOwn(s.disk, f.header, OwnSlot(s, f))
  }

  ghost predicate InOrder(s: System) {
    && FsInv(s.disk) && |s.births| == NUM_DIR_ENTRIES
    && forall n :: 0 <= n < |s.open| ==> OpenOk(s, s.open[n])
  }

  /** An operation leaves the files in all other slots where they are, with their headers. */
  lemma OthersStay(d: Disk, op: FsOp, d': Disk, i: nat)
    requires FsInv(d) && FsInv(d') && FsStep(d, op, d') && i < NUM_DIR_ENTRIES && Dir(d)[i].inUse && i != Replaces(d, op)
    ensures Dir(d')[i] == Dir(d)[i] && HeaderOf(d', i) == HeaderOf(d, i)
  {
    hide FreeMap, Dir, DecodeHeader, EncodeHeader, HeaderOk, Ownership, NamesDistinct, FileSectors, Key, FindIndex, FirstFree, Wrote;
    assert EntryValid(d, Dir(d)[i]);
    var s := Dir(d)[i].sector;
    assert s in EntrySectors(d, Dir(d)[i]);
    SectorsAreOwn(d, i, s);
    match op
    case Create(name, size, ok) => if ok { AllotmentIsFresh(FreeMap(d), size); FreshHeader(FreeMap(d), size); }
    case Remove(_, _) =>
    case Write(name, at, part) => WrittenSlot(d, FindIndex(Dir(d), name), at, part, d', i);
  }

  lemma FreshHeader(bits: seq<bool>, size: nat)
    requires |bits| == NUM_SECTORS && NumClear(bits) >= 1 + DivRoundUp(size, SECTOR_SIZE) && size <= MAX_FILE_SIZE
    ensures !bits[Allotment(bits, size).0]
  {
  }

  lemma PlainKeepsOpen(s: System, o: FsOp, s': System, f: Opened)
    requires FsInv(s.disk) && |s.births| == NUM_DIR_ENTRIES && HandleStep(s, Plain(o), s') && FsInv(s'.disk) && OpenOk(s, f)
    ensures OpenOk(s', f)
  {
    hide FreeMap, Dir, FsStep, IsHandle, Ownership, NamesDistinct, EntryValid, DecodeHeader, Replaces;
    if OwnSlot(s', f) != -1 {
      assert f.slot != Replaces(s.disk, o);
      OthersStay(s.disk, o, s'.disk, f.slot);
    }
  }

  lemma WriteKeepsOpen(s: System, op: HandleOp, s': System, f: Opened)
    requires InOrder(s) && op.WriteThrough? && HandleStep(s, op, s') && OpenOk(s, f)
    ensures FsInv(s'.disk) && OpenOk(s', f)
  {
    hide FreeMap, Dir, Ownership, NamesDistinct, DecodeHeader, Wrote, HeaderOk, Harmless, FileSectors, FileBytes;
    var g := s.open[op.n];
    assert OpenOk(s, g);
    var own := OwnSlot(s, g);
    HarmlessIsSafe(s.disk, g.header, own, op.at, op.part, s'.disk);
    if OwnSlot(s, f) != -1 { HeadersKept(s.disk, g.header, own, op.at, op.part, s'.disk, f.slot); }
  }

  lemma OpenKeeps(s: System, i: nat, s': System)
    requires InOrder(s) && HandleStep(s, OpenSlot(i), s')
    ensures InOrder(s')
  {
    hide FsInv, Dir, IsHandle;
    OpenGivesHandle(s.disk, i);
    assert forall f: Opened :: OwnSlot(s', f) == OwnSlot(s, f);
    forall n | 0 <= n < |s'.open| ensures OpenOk(s', s'.open[n]) {
      if n < |s.open| { assert s'.open[n] == s.open[n] && OpenOk(s, s.open[n]); }
    }
  }

  lemma HandleStepKeeps(s: System, op: HandleOp, s': System)
    requires InOrder(s) && HandleStep(s, op, s')
    ensures InOrder(s')
    ensures op.Plain? ==> MapStep(Contents(s.disk), op.op, Contents(s'.disk))
    ensures op.OpenSlot? ==> s'.disk == s.disk
    ensures op.WriteThrough? ==>
              var f := s.open[op.n];
              IsOwn(s.disk, f.header, OwnSlot(s, f)) && IsSafe(s.disk, f.header, OwnSlot(s, f), op.at, op.part, s'.disk)
  {
    hide FreeMap, Dir, Ownership, NamesDistinct, EntryValid, DecodeHeader, FsStep, MapStep, Contents, Wrote, IsHandle, Harmless, HeaderOk, OpenOk, Replaces;
    match op
    case Plain(o) =>
      StepRefinesMap(s.disk, o, s'.disk);
      forall n | 0 <= n < |s.open| ensures OpenOk(s', s.open[n]) { PlainKeepsOpen(s, o, s', s.open[n]); }
    case OpenSlot(i) => OpenKeeps(s, i, s');
    case WriteThrough(n, at, part) =>
      assert OpenOk(s, s.open[n]);
      OpenFacts(s, s.open[n]);
      HarmlessIsSafe(s.disk, s.open[n].header, OwnSlot(s, s.open[n]), at, part, s'.disk);
      forall k | 0 <= k < |s.open| ensures OpenOk(s', s.open[k]) { WriteKeepsOpen(s, op, s', s.open[k]); }
  }

  lemma OpenFacts(s: System, f: Opened)
    requires FsInv(s.disk) && |s.births| == NUM_DIR_ENTRIES && OpenOk(s, f)
    ensures IsHandle(f.header) && IsOwn(s.disk, f.header, OwnSlot(s, f))
  {
  }

  ghost predicate HandleRun(run: seq<System>, ops: seq<HandleOp>) {
    && |run| == |ops| + 1 && Formatted(run[0].disk) && run[0].births == seq(NUM_DIR_ENTRIES, _ => 0) && run[0].open == []
    && forall i, j :: 0 <= i < |ops| && j == i + 1 && InOrder(run[i]) ==> HandleStep(run[i], ops[i], run[j])
  }

  /** In every run of creating, removing, opening and writing, by name or through files opened earlier
      that are still harmless: the file system stays in order, and each write changes the very file
      that was opened, wherever other files have come and gone, and no other. */
  lemma {:induction false} HandleRunIsSafe(run: seq<System>, ops: seq<HandleOp>, n: nat)
    requires HandleRun(run, ops) && n <= |ops|
    ensures InOrder(run[n])
    ensures n < |ops| && ops[n].WriteThrough? ==>
              var s, s', op := run[n], run[n + 1], ops[n];
              op.n < |s.open|
              && var f := s.open[op.n];
                 IsOwn(s.disk, f.header, OwnSlot(s, f)) && HandleWrote(s.disk, f.header, op.at, op.part, s'.disk)
                 && IsSafe(s.disk, f.header, OwnSlot(s, f), op.at, op.part, s'.disk)
    ensures n < |ops| && ops[n].Plain? ==> FsInv(run[n + 1].disk) && MapStep(Contents(run[n].disk), ops[n].op, Contents(run[n + 1].disk))
  {
    hide Formatted, MapStep, Contents, IsHandle, IsSafe, IsOwn, Dir, FreeMap, Wrote, FsStep, Harmless, Ownership, NamesDistinct, EntryValid, OpenOk;
    if n == 0 {
      FormattedIsValid(run[0].disk);
    } else {
      HandleRunIsSafe(run, ops, n - 1);
      assert HandleStep(run[n - 1], ops[n - 1], run[n]);
      HandleStepKeeps(run[n - 1], ops[n - 1], run[n]);
    }
    if n < |ops| {
      assert HandleStep(run[n], ops[n], run[n + 1]);
      HandleStepKeeps(run[n], ops[n], run[n + 1]);
    }
  }

  // ---------------------------------------------------------------- stale handles arise

  lemma CreatedHeader(d: Disk, name: seq<Byte>, size: nat, d': Disk)
    requires FsInv(d) && IsName(name) && size <= MAX_FILE_SIZE && Created(d, name, size, true, d')
    ensures FsInv(d')
    ensures var (hdr, h, _) := Allotment(FreeMap(d), size); var f := FirstFree(Dir(d));
            Dir(d')[f].inUse && Dir(d')[f].sector == hdr && HeaderOf(d', f) == h
            && h.numBytes == size && h.dataSectors == Allotted(FreeMap(d), DivRoundUp(size, SECTOR_SIZE))
  {
    hide FreeMap, Dir, DecodeHeader, EncodeHeader, FirstFree, FindIndex, Key, NamesDistinct, Ownership, DivRoundUp;
    CreateKeeps(d, name, size, true, d');
    AllotmentIsFresh(FreeMap(d), size);
    HeaderRoundTrip(Allotment(FreeMap(d), size).1);
  }

  /** The data sectors taken depend on how many, not on the length in bytes. */
  function Allotted(bits: seq<bool>, sectors: nat): seq<nat>
    requires |bits| == NUM_SECTORS && NumClear(bits) >= 1 + sectors
  {
    FirstClearIff(bits);
    var hdr := FirstClear(bits);
    NumClearOfUpdate(bits, hdr);
    FindMany(bits[hdr := true], sectors).0
  }

  /** Allotment is first-fit, so any two files of at least one sector would begin in the same one. */
  lemma SameFirstSector(bits: seq<bool>, k: nat, n: nat)
    requires |bits| == NUM_SECTORS && NumClear(bits) >= 1 + k && NumClear(bits) >= 1 + n && k > 0 && n > 0
    ensures |Allotted(bits, k)| == k && |Allotted(bits, n)| == n && Allotted(bits, k)[0] == Allotted(bits, n)[0]
  {
  }

  lemma SomeSector(size: nat)
    requires size > 0
    ensures DivRoundUp(size, SECTOR_SIZE) > 0
  {
  }

  /** A file that is not empty is created and removed and another one is created: the two begin in the
      same sector. */
  lemma SectorIsReused(d: Disk, a: seq<Byte>, n: nat, d1: Disk, ok: bool, d2: Disk, b: seq<Byte>, m: nat, d3: Disk)
    requires FsInv(d) && IsName(a) && IsName(b) && 0 < n <= MAX_FILE_SIZE && 0 < m <= MAX_FILE_SIZE
    requires Created(d, a, n, true, d1) && DiskShape(d1) && Removed(d1, a, ok, d2) && DiskShape(d2) && Created(d2, b, m, true, d3)
    ensures ok && FsInv(d1) && FsInv(d2) && FsInv(d3) && 0 <= FirstFree(Dir(d2)) < NUM_DIR_ENTRIES
    ensures var f, g := FirstFree(Dir(d)), FirstFree(Dir(d2));
            Dir(d1)[f].inUse && Dir(d3)[g].inUse && FindIndex(Dir(d1), a) == f && !Apart(d3, HeaderOf(d1, f), g)
  {
    hide FreeMap, Dir, DecodeHeader, EncodeHeader, FirstFree, FindIndex, Key, NamesDistinct, Ownership, HeaderOk, FindMany, Allotment, Allotted, DivRoundUp;
    CreatedHeader(d, a, n, d1);
    RemoveUndoesCreate(d, a, n, d1, ok, d2, a);
    RemoveKeeps(d1, a, ok, d2);
    CreatedHeader(d2, b, m, d3);
    var f, g := FirstFree(Dir(d)), FirstFree(Dir(d2));
    var h := HeaderOf(d1, f);
    SomeSector(n);
    SomeSector(m);
    SameFirstSector(FreeMap(d), DivRoundUp(n, SECTOR_SIZE), DivRoundUp(m, SECTOR_SIZE));
    assert h.dataSectors[0] in EntrySectors(d3, Dir(d3)[g]);
    FindIndexIsSlot(Dir(d1), a, f);
  }

  /** In any state of any run, with space for them: create a file that is not empty, open it, remove it
      and create any other that is not empty, of the same length or not.  The open file is then gone
      from the directory, and some write through it changes the new one. */
  lemma StaleHandleIsHarmful(s0: System, a: seq<Byte>, n: nat, s1: System, i: nat, s2: System, ok: bool, s3: System, b: seq<Byte>, m: nat, s4: System)
    returns (at: nat, part: seq<Byte>, d': Disk)
    requires InOrder(s0) && n > 0 && m > 0 && i == FirstFree(Dir(s0.disk))
    requires HandleStep(s0, Plain(Create(a, n, true)), s1) && InOrder(s1) && HandleStep(s1, OpenSlot(i), s2) && InOrder(s2)
    requires HandleStep(s2, Plain(Remove(a, ok)), s3) && InOrder(s3) && HandleStep(s3, Plain(Create(b, m, true)), s4)
    ensures InOrder(s4) && |s4.open| == |s0.open| + 1
    ensures var f := s4.open[|s0.open|];
            && OwnSlot(s4, f) == -1 && !Harmless(s4.disk, f.header, -1)
            && HandleWrote(s4.disk, f.header, at, part, d') && !IsSafe(s4.disk, f.header, -1, at, part, d')
  {
    hide FreeMap, Dir, DecodeHeader, NamesDistinct, Ownership, FirstFree, FindIndex, IsSafe, IsHandle, Apart, Created, Removed, MapStep, Contents, EntryValid;
    HandleStepKeeps(s3, Plain(Create(b, m, true)), s4);
    SectorIsReused(s0.disk, a, n, s1.disk, ok, s3.disk, b, m, s4.disk);
    var f := s4.open[|s0.open|];
    OpenFacts(s4, f);
    at, part, d' := HarmfulIsUnsafe(s4.disk, f.header, FirstFree(Dir(s3.disk)));
  }
}
