/** Demand-paged virtual memory as a state machine over values: page tables, the core
    map, the frame bitmap, main memory, the executables and the swap files.  The methods
    of module `Machine` compute these functions in place. */
module PagedMemory {
  import opened Basics
  import opened Bytes
  import opened BitMapSpec

  const PAGE_SIZE := 128
  const USER_STACK_SIZE := 1024
  const ARGUMENT_SIZE := 512

  // ---------------------------------------------------------------- executables

  datatype Segment = Segment(size: nat, virtualAddr: nat, inFileAddr: nat)

  datatype Executable = Executable(file: seq<Byte>, code: Segment, initData: Segment, uninitSize: nat)

  function PagesNeeded(exe: Executable): nat {
    DivRoundUp(exe.code.size + exe.initData.size + exe.uninitSize + USER_STACK_SIZE + ARGUMENT_SIZE, PAGE_SIZE)
  }

  predicate InSegment(seg: Segment, a: int) {
    seg.size > 0 && seg.virtualAddr <= a < seg.virtualAddr + seg.size
  }

  /** One byte of the file; a read past the end leaves the zeroed memory alone. */
  function FileByte(file: seq<Byte>, position: nat): Byte {
    if position < |file| then file[position] else 0
  }

  /** What a never-written byte of the address space holds: code, else data, else zero. */
  function ImageByte(exe: Executable, a: nat): Byte {
    if InSegment(exe.code, a) then FileByte(exe.file, exe.code.inFileAddr + (a - exe.code.virtualAddr))
    else if InSegment(exe.initData, a) then FileByte(exe.file, exe.initData.inFileAddr + (a - exe.initData.virtualAddr))
    else 0
  }

  function ImagePage(exe: Executable, v: nat): (p: seq<Byte>)
    ensures |p| == PAGE_SIZE
  {
    seq<Byte>(PAGE_SIZE, o requires 0 <= o < PAGE_SIZE => ImageByte(exe, v * PAGE_SIZE + o))
  }

  // ---------------------------------------------------------------- kernel state

  datatype TranslationEntry =
    TranslationEntry(physicalPage: int, valid: bool, use: bool, dirty: bool, readOnly: bool)

  /** An address space with its backing store: `stored` is the store's bitmap of written
      pages, `swap` the contents of its file. */
  datatype Space = Space(exe: Executable, table: seq<TranslationEntry>, stored: seq<bool>, swap: seq<Byte>)

  datatype CorePage = CorePage(space: nat, physicalPage: nat, virtualPage: nat)

  datatype Policy = Fifo | Clock

  /** `frames` is the number of physical pages (32 as shipped, 2 in the authors' tests). */
  datatype Kernel = Kernel(
    policy: Policy, frames: nat, memory: seq<Byte>, used: seq<bool>, core: seq<CorePage>, spaces: seq<Space>)

  predicate SpaceShape(sp: Space, frames: nat) {
    && |sp.stored| == |sp.table|
    && |sp.swap| == |sp.table| * PAGE_SIZE
    && forall v :: 0 <= v < |sp.table| ==> EntryShape(sp.table[v], frames)
  }

  predicate EntryShape(e: TranslationEntry, frames: nat) {
    && !e.readOnly
    && (e.valid ==> 0 <= e.physicalPage < frames)
    && (e.dirty ==> e.valid)
  }

  predicate InCoreRange(c: CorePage, frames: nat, spaces: seq<Space>) {
    && c.physicalPage < frames
    && c.space < |spaces|
    && c.virtualPage < |spaces[c.space].table|
  }

  /** Sizes and ranges only; every operation keeps it without any deeper reason. */
  predicate Shape(k: Kernel) {
    && k.frames > 0
    && |k.memory| == k.frames * PAGE_SIZE
    && |k.used| == k.frames
    && |k.core| <= k.frames
    && (forall s :: 0 <= s < |k.spaces| ==> SpaceShape(k.spaces[s], k.frames))
    && (forall i :: 0 <= i < |k.core| ==> InCoreRange(k.core[i], k.frames, k.spaces))
  }

  predicate HasPage(k: Kernel, s: int, v: int) {
    0 <= s < |k.spaces| && 0 <= v < |k.spaces[s].table|
  }

  function EntryOf(k: Kernel, s: nat, v: nat): TranslationEntry
    requires HasPage(k, s, v)
  {
    k.spaces[s].table[v]
  }

  function WithEntry(sp: Space, v: nat, e: TranslationEntry): Space
    requires v < |sp.table|
  {
    sp.(table := sp.table[v := e])
  }

  function FrameBytes(memory: seq<Byte>, f: nat): (p: seq<Byte>)
    requires (f + 1) * PAGE_SIZE <= |memory|
    ensures |p| == PAGE_SIZE
  {
    memory[f * PAGE_SIZE..(f + 1) * PAGE_SIZE]
  }

  /** The copy of page `v` outside main memory. */
  function BackedPage(sp: Space, v: nat): (p: seq<Byte>)
    requires v < |sp.table| == |sp.stored| && |sp.swap| == |sp.table| * PAGE_SIZE
    ensures |p| == PAGE_SIZE
  {
    if sp.stored[v] then FrameBytes(sp.swap, v) else ImagePage(sp.exe, v)
  }

  /** The page the process sees: its frame when resident, its backing copy otherwise. */
  function TruePage(k: Kernel, s: nat, v: nat): (p: seq<Byte>)
    requires Shape(k) && HasPage(k, s, v)
    ensures |p| == PAGE_SIZE
  {
    if EntryOf(k, s, v).valid then FrameBytes(k.memory, EntryOf(k, s, v).physicalPage)
    else BackedPage(k.spaces[s], v)
  }

  // ---------------------------------------------------------------- starting

  function Boot(policy: Policy, frames: nat): Kernel {
    Kernel(policy, frames, seq(frames * PAGE_SIZE, _ => 0), seq(frames, _ => false), [], [])
  }

  const UNMAPPED := TranslationEntry(-2, false, false, false, false)

  /** `AddrSpace::Initialize` and `BackingStore::Initialize`: nothing is loaded. */
  function NewSpace(exe: Executable, swap: seq<Byte>): Space
    requires |swap| == PagesNeeded(exe) * PAGE_SIZE
  {
    Space(exe, seq(PagesNeeded(exe), _ => UNMAPPED), seq(PagesNeeded(exe), _ => false), swap)
  }

  // ---------------------------------------------------------------- eviction

  predicate InUse(c: CorePage, spaces: seq<Space>)
    requires c.space < |spaces| && c.virtualPage < |spaces[c.space].table|
  {
    spaces[c.space].table[c.virtualPage].use
  }

  function ClearUse(spaces: seq<Space>, c: CorePage): (r: seq<Space>)
    requires c.space < |spaces| && c.virtualPage < |spaces[c.space].table|
    ensures |r| == |spaces|
    ensures forall s :: 0 <= s < |spaces| ==> |r[s].table| == |spaces[s].table|
  {
    var sp := spaces[c.space];
    spaces[c.space := WithEntry(sp, c.virtualPage, sp.table[c.virtualPage].(use := false))]
  }

  predicate CoreInRange(core: seq<CorePage>, frames: nat, spaces: seq<Space>) {
    forall i :: 0 <= i < |core| ==> InCoreRange(core[i], frames, spaces)
  }

  /** How many entries the clock hand passes over: those before the first one not in use. */
  function PassedOver(core: seq<CorePage>, frames: nat, spaces: seq<Space>): (n: nat)
    requires CoreInRange(core, frames, spaces)
    ensures n <= |core|
    ensures forall i :: 0 <= i < n ==> InUse(core[i], spaces)
    ensures n < |core| ==> !InUse(core[n], spaces)
  {
    if core == [] || !InUse(core[0], spaces) then 0 else 1 + PassedOver(core[1..], frames, spaces)
  }

  /** Clear the use bits of all of `core`, front to back. */
  function Swept(core: seq<CorePage>, frames: nat, spaces: seq<Space>): (r: seq<Space>)
    requires CoreInRange(core, frames, spaces)
    ensures |r| == |spaces|
    ensures forall s :: 0 <= s < |spaces| ==> |r[s].table| == |spaces[s].table|
  {
    if core == [] then spaces
    else ClearUse(Swept(core[..|core| - 1], frames, spaces), core[|core| - 1])
  }

  /** The node `CoreMap::evictCorePage` removes from a non-empty map: the oldest one under
      FIFO; under clock the first not in use, or the oldest if all are in use. */
  function Victim(policy: Policy, core: seq<CorePage>, frames: nat, spaces: seq<Space>): (i: nat)
    requires CoreInRange(core, frames, spaces) && |core| > 0
    ensures i < |core|
  {
    if policy == Fifo || |core| == 1 then 0
    else
      var n := PassedOver(core, frames, spaces);
      if n == |core| then 0 else n
  }

  /** The use bits it leaves behind. */
  function AfterSweep(policy: Policy, core: seq<CorePage>, frames: nat, spaces: seq<Space>): (r: seq<Space>)
    requires CoreInRange(core, frames, spaces)
    ensures |r| == |spaces|
    ensures forall s :: 0 <= s < |r| ==> |r[s].table| == |spaces[s].table|
  {
    if policy == Fifo || |core| == 1 then spaces
    else Swept(core[..PassedOver(core, frames, spaces)], frames, spaces)
  }

  function VictimIndex(k: Kernel): (i: nat)
    requires Shape(k) && |k.core| > 0
    ensures i < |k.core|
  {
    Victim(k.policy, k.core, k.frames, k.spaces)
  }

  function SpacesAfterSweep(k: Kernel): (r: seq<Space>)
    requires Shape(k) && |k.core| > 0
    ensures |r| == |k.spaces|
    ensures forall s :: 0 <= s < |r| ==> SpaceShape(r[s], k.frames) && |r[s].table| == |k.spaces[s].table|
  {
    SweptShape(k.core[..PassedOver(k.core, k.frames, k.spaces)], k.frames, k.spaces);
    AfterSweep(k.policy, k.core, k.frames, k.spaces)
  }

  /** `BackingStore::pageOut`: a dirty page is saved, a clean one is dropped. */
  function PageOut(sp: Space, memory: seq<Byte>, frames: nat, v: nat): (r: Space)
    requires SpaceShape(sp, frames) && v < |sp.table| && |memory| == frames * PAGE_SIZE
    ensures SpaceShape(r, frames) && |r.table| == |sp.table|
  {
    var e := sp.table[v];
    var saved := if e.dirty
                 then sp.(stored := sp.stored[v := true],
                          swap := Patch(sp.swap, v * PAGE_SIZE, FrameBytes(memory, e.physicalPage)))
                 else sp;
    WithEntry(saved, v, e.(valid := false, dirty := false))
  }

  /** Use bits do not matter to `Shape`. */
  lemma SweptShape(core: seq<CorePage>, frames: nat, spaces: seq<Space>)
    requires CoreInRange(core, frames, spaces)
    requires forall s :: 0 <= s < |spaces| ==> SpaceShape(spaces[s], frames)
    ensures forall s :: 0 <= s < |spaces| ==> SpaceShape(Swept(core, frames, spaces)[s], frames)
  {
  }

  /** Take the page of `core[i]` out of memory and free its frame. */
  function WithoutPage(k: Kernel, i: nat): (r: Kernel)
    requires Shape(k) && i < |k.core|
    ensures Shape(r) && r.frames == k.frames && |r.core| == |k.core| - 1
    ensures |r.spaces| == |k.spaces|
    ensures forall s :: 0 <= s < |k.spaces| ==> |r.spaces[s].table| == |k.spaces[s].table|
  {
    var c := k.core[i];
    k.(core := k.core[..i] + k.core[i + 1..],
       spaces := k.spaces[c.space := PageOut(k.spaces[c.space], k.memory, k.frames, c.virtualPage)],
       used := k.used[c.physicalPage := false])
  }

  /** The eviction half of the page-fault handler, run when the core map is full. */
  function EvictOne(k: Kernel): (r: Kernel)
    requires Shape(k) && |k.core| > 0
    ensures Shape(r) && r.frames == k.frames && |r.core| == |k.core| - 1
    ensures |r.spaces| == |k.spaces|
    ensures forall s :: 0 <= s < |k.spaces| ==> |r.spaces[s].table| == |k.spaces[s].table|
  {
    WithoutPage(k.(spaces := SpacesAfterSweep(k)), VictimIndex(k))
  }

  // ---------------------------------------------------------------- page faults

  /** `AddrSpace::allocVirtualPage` with `CoreMap::addCorePage`; `f` is the frame that
      `MemoryManager::AllocPage` found. */
  function LoadPage(k: Kernel, s: nat, v: nat, f: nat): (r: Kernel)
    requires Shape(k) && HasPage(k, s, v) && f < k.frames
    ensures Shape(r) && r.frames == k.frames && |r.spaces| == |k.spaces|
  {
    var sp := k.spaces[s];
    k.(used := k.used[f := true],
       core := if |k.core| == k.frames then k.core else k.core + [CorePage(s, f, v)],
       memory := Patch(k.memory, f * PAGE_SIZE, BackedPage(sp, v)),
       spaces := k.spaces[s := WithEntry(sp, v, sp.table[v].(physicalPage := f, valid := true))])
  }

  function MakeRoom(k: Kernel): (r: Kernel)
    requires Shape(k)
    ensures Shape(r) && r.frames == k.frames && |r.spaces| == |k.spaces|
    ensures forall s :: 0 <= s < |k.spaces| ==> |r.spaces[s].table| == |k.spaces[s].table|
  {
    if |k.core| == k.frames then EvictOne(k) else k
  }

  /** The handler found a frame and the core map had room for it. */
  predicate RoomAfterEviction(k: Kernel)
    requires Shape(k)
  {
    FirstClear(MakeRoom(k).used) >= 0 && |MakeRoom(k).core| < k.frames
  }

  /** The page-fault branch of `ExceptionHandler`. */
  function HandleFault(k: Kernel, s: nat, v: nat): (r: Kernel)
    requires Shape(k) && HasPage(k, s, v) && RoomAfterEviction(k)
    ensures Shape(r) && r.frames == k.frames && |r.spaces| == |k.spaces|
  {
    LoadPage(MakeRoom(k), s, v, FirstClear(MakeRoom(k).used))
  }

  // ---------------------------------------------------------------- translation

  datatype Trap = NoException | PageFaultException | ReadOnlyException | BusErrorException | AddressErrorException

  function Unsigned(a: int): (u: nat)
    ensures u < 0x1_0000_0000
  {
    a % 0x1_0000_0000
  }

  function VirtualPage(addr: int): nat { Unsigned(addr) / PAGE_SIZE }

  function Offset(addr: int): (o: nat)
    ensures o < PAGE_SIZE
  {
    Unsigned(addr) % PAGE_SIZE
  }

  predicate Misaligned(addr: int, size: AccessSize) {
    (size == 4 && addr % 4 != 0) || (size == 2 && addr % 2 != 0)
  }

  function Translate(sp: Space, frames: nat, addr: int, size: AccessSize, writing: bool): Trap {
    if Misaligned(addr, size) then AddressErrorException
    else if VirtualPage(addr) >= |sp.table| then AddressErrorException
    else
      var e := sp.table[VirtualPage(addr)];
      if !e.valid then PageFaultException
      else if e.readOnly && writing then ReadOnlyException
      else if Unsigned(e.physicalPage) >= frames then BusErrorException
      else NoException
  }

  lemma ShiftMod4(x: int, y: int)
    ensures (x + 4 * y) % 4 == x % 4
  {
  }

  lemma ShiftMod2(x: int, y: int)
    ensures (x + 2 * y) % 2 == x % 2
  {
  }

  /** An aligned access does not cross a page boundary. */
  lemma OffsetFits(addr: int, size: AccessSize)
    requires !Misaligned(addr, size)
    ensures Offset(addr) + size <= PAGE_SIZE
  {
    var q, p := addr / 0x1_0000_0000, Unsigned(addr) / PAGE_SIZE;
    var y := 0x4000_0000 * q + 32 * p;
    assert addr == Offset(addr) + 4 * y;
    ShiftMod4(Offset(addr), y);
    ShiftMod2(Offset(addr), 2 * y);
  }

  /** Setting the use bit, and the dirty bit of a write. */
  function Touched(sp: Space, v: nat, writing: bool): Space
    requires v < |sp.table|
  {
    var e := sp.table[v];
    WithEntry(sp, v, e.(use := true, dirty := e.dirty || writing))
  }

  // ---------------------------------------------------------------- memory operations

  datatype Result =
    | Loaded(value: int)    // ReadMem returned TRUE
    | Stored                // WriteMem returned TRUE
    | Faulted               // returned FALSE after the page was brought in
    | Rejected(trap: Trap)  // returned FALSE; the handler kills the process
    | Panic                 // no frame or no room in the core map

  datatype Op =
    | Exec(exe: Executable, swap: seq<Byte>)
    | Read(space: nat, addr: int, size: AccessSize)
    | Write(space: nat, addr: int, size: AccessSize, value: int)

  /** `Exec` finds a file of the right length; memory is used only by existing spaces. */
  predicate Enabled(k: Kernel, op: Op) {
    match op
    case Exec(exe, swap) => |swap| == PagesNeeded(exe) * PAGE_SIZE
    case Read(s, _, _) => s < |k.spaces|
    case Write(s, _, _, _) => s < |k.spaces|
  }

  function Trapped(k: Kernel, s: nat, addr: int, trap: Trap): (r: (Kernel, Result))
    requires Shape(k) && s < |k.spaces|
    requires trap == PageFaultException ==> VirtualPage(addr) < |k.spaces[s].table|
    ensures Shape(r.0) && r.0.frames == k.frames && |r.0.spaces| == |k.spaces|
  {
    if trap != PageFaultException then (k, Rejected(trap))
    else if !RoomAfterEviction(k) then (k, Panic)
    else (HandleFault(k, s, VirtualPage(addr)), Faulted)
  }

  function Step(k: Kernel, op: Op): (r: (Kernel, Result))
    requires Shape(k) && Enabled(k, op)
    ensures Shape(r.0) && r.0.frames == k.frames && |r.0.spaces| >= |k.spaces|
  {
    match op
    case Exec(exe, swap) => (k.(spaces := k.spaces + [NewSpace(exe, swap)]), Stored)
    case Read(s, addr, size) =>
      var sp := k.spaces[s];
      var trap := Translate(sp, k.frames, addr, size, false);
      if trap != NoException then Trapped(k, s, addr, trap)
      else
        OffsetFits(addr, size);
        var at := sp.table[VirtualPage(addr)].physicalPage * PAGE_SIZE + Offset(addr);
        (k.(spaces := k.spaces[s := Touched(sp, VirtualPage(addr), false)]),
         Loaded(FromBytes(size, k.memory[at..at + size])))
    case Write(s, addr, size, value) =>
      var sp := k.spaces[s];
      var trap := Translate(sp, k.frames, addr, size, true);
      if trap != NoException then Trapped(k, s, addr, trap)
      else
        OffsetFits(addr, size);
        var at := sp.table[VirtualPage(addr)].physicalPage * PAGE_SIZE + Offset(addr);
        (k.(spaces := k.spaces[s := Touched(sp, VirtualPage(addr), true)],
            memory := Patch(k.memory, at, ToBytes(size, value))),
         Stored)
  }
}
