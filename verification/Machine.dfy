/** The simulated machine and its page-fault handler as they run: main memory and the
    registers are arrays, the core map is the linked list, and each operation is proved to
    compute the corresponding function of the state machine. */
module Machine {
  import opened Bytes
  import opened BitMapSpec
  import opened PagedMemory
  import opened PagingInvariant
  import opened PagingRefinement
  import CoreMap
  import Cpu

  class Machine {
    const policy: Policy
    const frames: nat
    const mainMemory: array<Byte>
    const registers: array<int>
    const coreMap: CoreMap.CoreMap
    var used: seq<bool>      // the memory manager's bitmap
    var spaces: seq<Space>   // page tables and backing stores

    /** Sizes, and a core map whose nodes hang together; nothing about its tail and its count. */
    ghost predicate Rep()
      reads this, mainMemory, coreMap, coreMap.nodes
    {
      && mainMemory as object != registers
      && registers.Length == Cpu.NUM_TOTAL_REGS
      && coreMap.Linked() && coreMap.capacity == frames && 0 < frames < 0x1_0000_0000
      && Shape(View())
    }

    ghost predicate Valid()
      reads this, mainMemory, coreMap, coreMap.nodes
      ensures Valid() ==> Shape(View()) && registers.Length == Cpu.NUM_TOTAL_REGS && mainMemory as object != registers
    {
      Rep() && coreMap.TailIsLast() && coreMap.size == |coreMap.nodes| && Inv(View())
    }

    /** The page brought in for page `v` of `s` is in memory but not in the core map, which counts it
        all the same: nothing will ever evict it. */
    ghost predicate LostPage(k: Kernel, s: nat, v: nat)
      reads this, mainMemory, coreMap, coreMap.nodes
    {
      && Shape(k) && HasPage(k, s, v) && RoomAfterEviction(k) && |k.core| > 0
      && Rep() && coreMap.size == |coreMap.nodes| + 1 == frames && !coreMap.TailIsLast()
      && View() == HandleFault(k, s, v).(core := EvictOne(k).core)
    }

    /** Nodes come from the list or are new. */
    twostate predicate NodesGrow()
      reads coreMap
    {
      fresh(coreMap.Footprint() - old(coreMap.Footprint()))
    }

    ghost function View(): Kernel
      reads this, mainMemory, coreMap
    {
      Kernel(policy, frames, mainMemory[..], used, coreMap.Pages(), spaces)
    }

    constructor (policy: Policy, frames: nat)
      requires 0 < frames < 0x1_0000_0000
      ensures Valid() && View() == Boot(policy, frames) && registers[..] == seq(Cpu.NUM_TOTAL_REGS, _ => 0)
      ensures fresh(mainMemory) && fresh(registers) && fresh(coreMap) && coreMap.nodes == []
    {
      this.policy, this.frames := policy, frames;
      mainMemory := new Byte[frames * PAGE_SIZE](_ => 0);
      registers := new int[Cpu.NUM_TOTAL_REGS](_ => 0);
      coreMap := new CoreMap.CoreMap(frames);
      used, spaces := seq(frames, _ => false), [];
      new;
      assert View() == Boot(policy, frames);
    }

    // -------------------------------------------------------------- page-in

    /** Fill frame `f` with a page not yet in the backing store: zero it, then copy the bytes
        that fall in the code or data segment, one at a time. */
    method LoadFromExecutable(exe: Executable, v: nat, f: nat)
      requires (f + 1) * PAGE_SIZE <= mainMemory.Length
      modifies mainMemory
      ensures mainMemory[..] == Patch(old(mainMemory[..]), f * PAGE_SIZE, ImagePage(exe, v))
    {
      Zero(f);
      var base := f * PAGE_SIZE;
      var written := 0;
      while written < PAGE_SIZE
        invariant 0 <= written <= PAGE_SIZE
        invariant forall i :: 0 <= i < mainMemory.Length && !(base <= i < base + PAGE_SIZE) ==>
                    mainMemory[i] == old(mainMemory[i])
        invariant forall i :: base <= i < base + PAGE_SIZE ==>
                    mainMemory[i] == if i < base + written then ImagePage(exe, v)[i - base] else 0
      {
        var address := v * PAGE_SIZE + written;
        assert ImagePage(exe, v)[written] == ImageByte(exe, address);
        if InSegment(exe.code, address) {
          ReadByte(exe, exe.code, address, base + written);
        } else if InSegment(exe.initData, address) {
          ReadByte(exe, exe.initData, address, base + written);
        }
        written := written + 1;
      }
    }

    /** A one-byte read from the executable; past the end of the file nothing is read. */
    method ReadByte(exe: Executable, seg: Segment, address: nat, at: nat)
      requires seg.virtualAddr <= address && at < mainMemory.Length
      modifies mainMemory
      ensures forall i :: 0 <= i < mainMemory.Length && i != at ==> mainMemory[i] == old(mainMemory[i])
      ensures var p := seg.inFileAddr + (address - seg.virtualAddr);
              mainMemory[at] == if p < |exe.file| then exe.file[p] else old(mainMemory[at])
    {
      var p := seg.inFileAddr + (address - seg.virtualAddr);
      if p < |exe.file| {
        mainMemory[at] := exe.file[p];
      }
    }

    method Zero(f: nat)
      requires (f + 1) * PAGE_SIZE <= mainMemory.Length
      modifies mainMemory
      ensures forall i :: 0 <= i < mainMemory.Length ==>
                mainMemory[i] == if f * PAGE_SIZE <= i < (f + 1) * PAGE_SIZE then 0 else old(mainMemory[i])
    {
      var i := f * PAGE_SIZE;
      while i < (f + 1) * PAGE_SIZE
        invariant f * PAGE_SIZE <= i <= (f + 1) * PAGE_SIZE
        invariant forall j :: 0 <= j < mainMemory.Length ==>
                    mainMemory[j] == if f * PAGE_SIZE <= j < i then 0 else old(mainMemory[j])
      {
        mainMemory[i] := 0;
        i := i + 1;
      }
    }

    /** `BackingStore::pageIn`: read the page back from the swap file. */
    method PageIn(sp: Space, v: nat, f: nat)
      requires v < |sp.table| && |sp.swap| == |sp.table| * PAGE_SIZE
      requires (f + 1) * PAGE_SIZE <= mainMemory.Length
      modifies mainMemory
      ensures mainMemory[..] == Patch(old(mainMemory[..]), f * PAGE_SIZE, FrameBytes(sp.swap, v))
    {
      var o := 0;
      while o < PAGE_SIZE
        invariant 0 <= o <= PAGE_SIZE
        invariant forall i :: 0 <= i < mainMemory.Length ==>
                    mainMemory[i] == if f * PAGE_SIZE <= i < f * PAGE_SIZE + o
                                     then FrameBytes(sp.swap, v)[i - f * PAGE_SIZE] else old(mainMemory[i])
      {
        mainMemory[f * PAGE_SIZE + o] := sp.swap[v * PAGE_SIZE + o];
        o := o + 1;
      }
    }

    /** Bring page `v` into frame `f` from wherever its current copy is. */
    method FillFrame(sp: Space, v: nat, f: nat)
      requires v < |sp.table| == |sp.stored| && |sp.swap| == |sp.table| * PAGE_SIZE
      requires (f + 1) * PAGE_SIZE <= mainMemory.Length
      modifies mainMemory
      ensures mainMemory[..] == Patch(old(mainMemory[..]), f * PAGE_SIZE, BackedPage(sp, v))
    {
      if sp.stored[v] {
        PageIn(sp, v, f);
      } else {
        LoadFromExecutable(sp.exe, v, f);
      }
    }

    /** `AddrSpace::allocVirtualPage`, once a frame is known to be free. */
    method AllocVirtualPage(s: nat, v: nat)
      requires Rep() && HasPage(View(), s, v)
      requires FirstClear(used) >= 0 && coreMap.size == |coreMap.nodes| < frames
      requires coreMap.TailIsLast() || (coreMap.nodes != [] && coreMap.tail != null && coreMap.tail !in coreMap.nodes)
      modifies this, mainMemory, coreMap, coreMap.tail
      ensures Rep() && NodesGrow() && coreMap.TailIsLast() == old(coreMap.TailIsLast()) && coreMap.size == old(coreMap.size) + 1
      ensures old(coreMap.TailIsLast()) ==> View() == LoadPage(old(View()), s, v, FirstClear(old(used))) && coreMap.size == |coreMap.nodes|
      ensures !old(coreMap.TailIsLast()) ==>
                View() == LoadPage(old(View()), s, v, FirstClear(old(used))).(core := old(View()).core) && coreMap.nodes == old(coreMap.nodes)
    {
      hide Patch, BackedPage, EntryShape, InCoreRange, FirstClear, CoreMap.PagesOf;
      var f := FirstClear(used);
      assert SpaceShape(spaces[s], frames);
      used := used[f := true];
      var node := new CoreMap.Node(CorePage(s, f, v));
      ghost var core := coreMap.Pages();
      var r := coreMap.AddCorePage(node);
      assert old(coreMap.TailIsLast()) ==> coreMap.Pages() == core + [node.page];
      var sp := spaces[s];
      FillFrame(sp, v, f);
      spaces := spaces[s := WithEntry(sp, v, sp.table[v].(physicalPage := f, valid := true))];
      assert View() == LoadPage(old(View()), s, v, f).(core := coreMap.Pages());
      ShapeWithoutNode(old(View()), s, v, f);
    }

    /** The eviction half of the handler. */
    method EvictPage()
      requires Valid() && |coreMap.nodes| == frames
      modifies this, coreMap, coreMap.Footprint()
      ensures coreMap.Footprint() <= old(coreMap.Footprint()) && (coreMap.tail != null ==> coreMap.tail in old(coreMap.Footprint()))
      ensures Rep() && View() == EvictOne(old(View())) && coreMap.size == |coreMap.nodes| == frames - 1
      ensures coreMap.TailIsLast() <==> KeepsTail(old(View()))
      ensures !coreMap.TailIsLast() ==> coreMap.nodes != [] && coreMap.tail != null && coreMap.tail !in coreMap.nodes
    {
      hide PageOut, Shape, CoreInRange, CoreMap.PagesOf, Victim, AfterSweep, CoreMap.DistinctPages,
           CoreMatchesTables, FramesDistinct, UsedMatchesCore, CleanPagesBacked;
      ghost var k := View();
      EvictionSetup(k);
      var node, after := coreMap.EvictCorePage(policy, frames, spaces);
      var c := node.page;
      ghost var i := VictimIndex(k);
      assert coreMap.Pages() == k.core[..i] + k.core[i + 1..];
      spaces := after[c.space := PageOut(after[c.space], mainMemory[..], frames, c.virtualPage)];
      used := used[c.physicalPage := false];
      assert View() == EvictOne(k);
    }

    /** The page-fault branch of `ExceptionHandler`. */
    method HandlePageFault(s: nat, v: nat)
      requires Valid() && HasPage(View(), s, v) && !EntryOf(View(), s, v).valid
      modifies this, mainMemory, coreMap, coreMap.Footprint()
      ensures NodesGrow() && RoomAfterEviction(old(View())) && Shape(old(View()))
      ensures KeepsTail(old(View())) ==> Valid() && View() == HandleFault(old(View()), s, v)
      ensures !KeepsTail(old(View())) ==> LostPage(old(View()), s, v)
    {
      hide EvictOne, LoadPage, Shape, FirstClear,
           CoreMatchesTables, FramesDistinct, UsedMatchesCore, CleanPagesBacked;
      ghost var k := View();
      HandleFaultKeeps(k, s, v);
      if coreMap.size == coreMap.capacity {
        EvictPage();
      }
      assert coreMap.tail != null ==> coreMap.tail in old(coreMap.Footprint());
      assert View() == MakeRoom(k);
      AllocVirtualPage(s, v);
    }

    // -------------------------------------------------------------- translation and memory access

    /** `Machine::Translate`: sets the use and dirty bits when the translation succeeds. */
    method Translate(s: nat, addr: int, size: AccessSize, writing: bool) returns (trap: Trap, physAddr: int)
      requires Rep() && s < |spaces|
      modifies this`spaces
      ensures trap == PagedMemory.Translate(old(spaces[s]), frames, addr, size, writing)
      ensures trap == NoException ==>
                && physAddr == old(spaces[s].table[VirtualPage(addr)].physicalPage) * PAGE_SIZE + Offset(addr)
                && 0 <= physAddr && physAddr + size <= mainMemory.Length
                && spaces == old(spaces)[s := Touched(old(spaces[s]), VirtualPage(addr), writing)]
      ensures trap != NoException ==> spaces == old(spaces)
    {
      physAddr := 0;
      if Misaligned(addr, size) {
        return AddressErrorException, 0;
      }
      var vpn, offset := VirtualPage(addr), Offset(addr);
      if vpn >= |spaces[s].table| {
        return AddressErrorException, 0;
      }
      var entry := spaces[s].table[vpn];
      if !entry.valid {
        return PageFaultException, 0;
      }
      if entry.readOnly && writing {
        return ReadOnlyException, 0;
      }
      if Unsigned(entry.physicalPage) >= frames {
        return BusErrorException, 0;
      }
      assert SpaceShape(spaces[s], frames) && EntryShape(entry, frames);
      OffsetFits(addr, size);
      hide Unsigned, VirtualPage, Offset;
      spaces := spaces[s := Touched(spaces[s], vpn, writing)];
      trap, physAddr := NoException, entry.physicalPage * PAGE_SIZE + offset;
    }

    /** `Machine::DelayedLoad` on the register array. */
    method DelayedLoad(nextReg: Cpu.Reg, nextValue: int)
      requires registers.Length == Cpu.NUM_TOTAL_REGS && 0 <= registers[Cpu.LOAD] < 32
      modifies registers
      ensures registers[..] == Cpu.DelayedLoad(old(registers[..]), nextReg, nextValue)
    {
      registers[registers[Cpu.LOAD]] := registers[Cpu.LOAD_VALUE];
      registers[Cpu.LOAD] := nextReg;
      registers[Cpu.LOAD_VALUE] := nextValue;
      registers[0] := 0;
    }

    ghost predicate Running(s: nat)
      reads this, mainMemory, registers, coreMap, coreMap.nodes
    {
      Valid() && s < |spaces| && Cpu.RegsOk(registers[..])
    }

    /** `Machine::RaiseException` for a failed translation: finish the pending load, then let
        the handler bring the page in; other traps kill the process. */
    method RaiseException(s: nat, trap: Trap, addr: int)
      requires Running(s)
      requires trap == PageFaultException ==>
                 HasPage(View(), s, VirtualPage(addr)) && !EntryOf(View(), s, VirtualPage(addr)).valid
      modifies this, mainMemory, registers, coreMap, coreMap.Footprint()
      ensures NodesGrow() && registers[..] == Cpu.RaiseException(old(registers[..]), addr)
      ensures trap == PageFaultException ==> RoomAfterEviction(old(View()))
      ensures trap != PageFaultException || KeepsTail(old(View())) ==> Running(s) && View() == Trapped(old(View()), s, addr, trap).0
      ensures trap == PageFaultException && !KeepsTail(old(View())) ==> LostPage(old(View()), s, VirtualPage(addr))
    {
      hide Shape, CoreMatchesTables, FramesDistinct, UsedMatchesCore, CleanPagesBacked, EvictOne, MakeRoom;
      registers[Cpu.BAD_VADDR] := addr;
      DelayedLoad(0, 0);
      assert View() == old(View());
      if trap == PageFaultException {
        HandlePageFault(s, VirtualPage(addr));
      }
    }

    /** `Machine::ReadMem`; `r` is `Loaded` exactly when the original returns TRUE. */
    method ReadMem(s: nat, addr: int, size: AccessSize) returns (r: Result)
      requires Running(s)
      modifies this, mainMemory, registers, coreMap, coreMap.Footprint()
      ensures NodesGrow() && r == Step(old(View()), Read(s, addr, size)).1
      ensures r == Faulted ==> HasPage(old(View()), s, VirtualPage(addr)) && RoomAfterEviction(old(View()))
      ensures r != Faulted || KeepsTail(old(View())) ==> Running(s) && View() == Step(old(View()), Read(s, addr, size)).0
      ensures r == Faulted && !KeepsTail(old(View())) ==> LostPage(old(View()), s, VirtualPage(addr))
      ensures registers[..] == if r.Loaded? then old(registers[..]) else Cpu.RaiseException(old(registers[..]), addr)
    {
      hide Shape, CoreMatchesTables, FramesDistinct, UsedMatchesCore, CleanPagesBacked, HandleFault, RoomAfterEviction,
           PagedMemory.Translate, VirtualPage, Offset, FromBytes, LostPage, KeepsTail;
      ghost var k := View();
      TranslationFacts(k, s, addr, size, false);
      var trap, physAddr := Translate(s, addr, size, false);
      assert View() == k.(spaces := spaces);
      if trap != NoException {
        RaiseException(s, trap, addr);
        r := if trap == PageFaultException then Faulted else Rejected(trap);
      } else {
        LoadKeeps(k, s, VirtualPage(addr));
        r := Loaded(FromBytes(size, mainMemory[physAddr..physAddr + size]));
        assert mainMemory[..][physAddr..physAddr + size] == mainMemory[physAddr..physAddr + size];
      }
    }

    /** `Machine::WriteMem`; `r` is `Stored` exactly when the original returns TRUE. */
    method WriteMem(s: nat, addr: int, size: AccessSize, value: int) returns (r: Result)
      requires Running(s)
      modifies this, mainMemory, registers, coreMap, coreMap.Footprint()
      ensures NodesGrow() && r == Step(old(View()), Write(s, addr, size, value)).1
      ensures r == Faulted ==> HasPage(old(View()), s, VirtualPage(addr)) && RoomAfterEviction(old(View()))
      ensures r != Faulted || KeepsTail(old(View())) ==> Running(s) && View() == Step(old(View()), Write(s, addr, size, value)).0
      ensures r == Faulted && !KeepsTail(old(View())) ==> LostPage(old(View()), s, VirtualPage(addr))
      ensures registers[..] == if r == Stored then old(registers[..]) else Cpu.RaiseException(old(registers[..]), addr)
    {
      hide Shape, CoreMatchesTables, FramesDistinct, UsedMatchesCore, CleanPagesBacked, HandleFault, RoomAfterEviction,
           PagedMemory.Translate, VirtualPage, Offset, ToBytes, LostPage, KeepsTail, Cpu.RaiseException, Patch, Step;
      ghost var k := View();
      TranslationFacts(k, s, addr, size, true);
      WriteCases(k, s, addr, size, value);
      var trap, physAddr := Translate(s, addr, size, true);
      assert View() == k.(spaces := spaces);
      if trap != NoException {
        RaiseException(s, trap, addr);
        r := if trap == PageFaultException then Faulted else Rejected(trap);
      } else {
        StoreKeeps(k, s, VirtualPage(addr), Offset(addr), ToBytes(size, value));
        PutBytes(physAddr, ToBytes(size, value));
        r := Stored;
      }
    }

    method PutBytes(at: nat, bs: seq<Byte>)
      requires at + |bs| <= mainMemory.Length
      modifies mainMemory
      ensures mainMemory[..] == Patch(old(mainMemory[..]), at, bs)
    {
      for j := 0 to |bs|
        invariant forall i :: 0 <= i < mainMemory.Length ==>
                    mainMemory[i] == if at <= i < at + j then bs[i - at] else old(mainMemory[i])
      {
        mainMemory[at + j] := bs[j];
      }
    }

    // -------------------------------------------------------------- one instruction

    method Finish(nextReg: Cpu.Reg, nextValue: int, pcAfter: int)
      requires registers.Length == Cpu.NUM_TOTAL_REGS && 0 <= registers[Cpu.LOAD] < 32
      modifies registers
      ensures registers[..] == Cpu.Finish(old(registers[..]), nextReg, nextValue, pcAfter)
    {
      DelayedLoad(nextReg, nextValue);
      registers[Cpu.PREV_PC] := registers[Cpu.PC];
      registers[Cpu.PC] := registers[Cpu.NEXT_PC];
      registers[Cpu.NEXT_PC] := pcAfter;
    }

    /** The register-only cases of the big switch. */
    method ExecuteRegisters(i: Cpu.Instr) returns (outcome: Cpu.Outcome)
      requires Cpu.RegisterOnly(i) && registers.Length == Cpu.NUM_TOTAL_REGS && Cpu.RegsOk(registers[..])
      modifies registers
      ensures (registers[..], outcome) == Cpu.ExecuteRegisters(i, old(registers[..]))
      ensures outcome != Cpu.PageFault
    {
      hide Cpu.Finish, Cpu.DelayedLoad, Cpu.Wrap32;
      var next := registers[Cpu.NEXT_PC];
      var pcAfter := Cpu.Wrap32(next + 4);
      ghost var regs := registers[..];
      match i {
        case Alu(src1, src2, dst, op, overflows) =>
          if overflows(registers[src1], registers[src2]) {
            registers[Cpu.BAD_VADDR] := 0;
            DelayedLoad(0, 0);
            return Cpu.Trapped;
          }
          registers[dst] := op(registers[src1], registers[src2]);
        case MulDiv(rs, rt, hi, lo) =>
          registers[Cpu.HI], registers[Cpu.LO] :=
            hi(registers[rs], registers[rt]), lo(registers[rs], registers[rt]);
          assert registers[..] == regs[Cpu.HI := hi(regs[rs], regs[rt])][Cpu.LO := lo(regs[rs], regs[rt])];
        case Branch(rs, rt, taken, offset, link) =>
          if link { registers[Cpu.R31] := pcAfter; }
          if taken(registers[rs], registers[rt]) { pcAfter := Cpu.Wrap32(next + offset); }
        case Jump(target, link) =>
          if link { registers[Cpu.R31] := pcAfter; }
          pcAfter := target(pcAfter);
        case JumpRegister(rs, rd, link) =>
          if link { registers[rd] := pcAfter; }
          pcAfter := registers[rs];
        case Raise =>
          registers[Cpu.BAD_VADDR] := 0;
          DelayedLoad(0, 0);
          return Cpu.Trapped;
      }
      Finish(0, 0, pcAfter);
      outcome := Cpu.Completed;
    }

    lemma RunningFacts(s: nat)
      requires Running(s)
      ensures Inv(View()) && s < |View().spaces| && View().frames < 0x1_0000_0000 && Shape(View())
    {
    }

    /** The store of a store instruction, and its end. */
    method StoreData(i: Cpu.Instr, s: nat, addr: int, value: int) returns (outcome: Cpu.Outcome)
      requires Running(s) && Cpu.Stores(i)
      modifies this, mainMemory, registers, coreMap, coreMap.Footprint()
      ensures NodesGrow()
      ensures (registers[..], outcome) == RegistersOf(Cpu.StoreData(old(View()), s, old(registers[..]), addr, Cpu.DataSize(i), value, i))
      ensures outcome == Cpu.PageFault <==> Step(old(View()), Write(s, addr, Cpu.DataSize(i), value)).1 == Faulted
      ensures outcome != Cpu.PageFault || KeepsTail(old(View())) ==>
                Running(s) && View() == Cpu.StoreData(old(View()), s, old(registers[..]), addr, Cpu.DataSize(i), value, i).0
      ensures outcome == Cpu.PageFault && !KeepsTail(old(View())) ==>
                LostPage(old(View()), s, VirtualPage(addr))
    {
      hide Step, Shape, Valid, LostPage, KeepsTail, Cpu.RaiseException, Cpu.Finish, Cpu.Wrap32, RoomAfterEviction;
      RunningFacts(s);
      var r := WriteMem(s, addr, Cpu.DataSize(i), value);
      if r != Stored {
        return Cpu.AbortOutcome(r);
      }
      Finish(0, 0, Cpu.Wrap32(registers[Cpu.NEXT_PC] + 4));
      outcome := Cpu.Completed;
    }

    /** The loads and stores of the big switch. */
    method ExecuteData(i: Cpu.Instr, s: nat) returns (outcome: Cpu.Outcome)
      requires Running(s) && !Cpu.RegisterOnly(i)
      modifies this, mainMemory, registers, coreMap, coreMap.Footprint()
      ensures NodesGrow() && (registers[..], outcome) == RegistersOf(Cpu.ExecuteData(i, old(View()), s, old(registers[..])))
      ensures outcome != Cpu.PageFault || KeepsTail(old(View())) ==>
                Running(s) && View() == Cpu.ExecuteData(i, old(View()), s, old(registers[..])).0
      ensures outcome == Cpu.PageFault && !KeepsTail(old(View())) ==>
                LostPage(old(View()), s, VirtualPage(Cpu.DataAddress(i, old(registers[..]))))
    {
      hide Step, Shape, Valid, LostPage, KeepsTail, Cpu.RaiseException, Cpu.Finish, Cpu.Wrap32, Cpu.StoreData, RoomAfterEviction;
      ghost var k := View();
      RunningFacts(s);
      var addr := Cpu.Wrap32(registers[i.rs] + i.extra);
      if i.Store? {
        outcome := StoreData(i, s, addr, registers[i.rt]);
        return;
      }
      var r := ReadMem(s, addr, Cpu.DataSize(i));
      if !r.Loaded? {
        return Cpu.AbortOutcome(r);
      }
      if i.StorePartial? {
        StoreAfterLoad(k, s, addr, i.combine(registers[i.rt], r.value));
        outcome := StoreData(i, s, addr, i.combine(registers[i.rt], r.value));
      } else {
        var merged := Cpu.LoadedValue(i, registers[..], r.value);
        Finish(i.rt, merged, Cpu.Wrap32(registers[Cpu.NEXT_PC] + 4));
        outcome := Cpu.Completed;
      }
    }

    /** `Machine::OneInstruction`. */
    method OneInstruction(decode: Cpu.Decoder, s: nat) returns (outcome: Cpu.Outcome)
      requires Running(s)
      modifies this, mainMemory, registers, coreMap, coreMap.Footprint()
      ensures NodesGrow() && (registers[..], outcome) == RegistersOf(Cpu.OneInstruction(decode, old(View()), s, old(registers[..])))
      ensures var k := FaultingKernel(old(View()), s, old(registers[..]));
              && (outcome != Cpu.PageFault || KeepsTail(k) ==>
                    Running(s) && View() == Cpu.OneInstruction(decode, old(View()), s, old(registers[..])).0)
              && (outcome == Cpu.PageFault && !KeepsTail(k) ==>
                    exists v :: LostPage(k, s, v))
    {
      hide Step, Shape, Valid, LostPage, KeepsTail, RoomAfterEviction, Cpu.RaiseException, Cpu.ExecuteData, Cpu.ExecuteRegisters;
      RunningFacts(s);
      ghost var k := View();
      var pc := registers[Cpu.PC];
      var fetched := ReadMem(s, pc, 4);
      if !fetched.Loaded? {
        assert fetched == Faulted && !KeepsTail(k) ==> LostPage(k, s, VirtualPage(pc));
        return Cpu.AbortOutcome(fetched);
      }
      ghost var k1 := View();
      var i := decode(fetched.value);
      if Cpu.RegisterOnly(i) {
        assert k1 == Step(k, Read(s, pc, 4)).0;
        outcome := ExecuteRegisters(i);
      } else {
        ghost var v := VirtualPage(Cpu.DataAddress(i, registers[..]));
        outcome := ExecuteData(i, s);
        assert outcome == Cpu.PageFault && !KeepsTail(k1) ==> LostPage(k1, s, v);
      }
    }
  }

  /** Eviction leaves the core map's tail right: it picks the last of several pages only under the
      clock policy, and that is when it does not. */
  predicate KeepsTail(k: Kernel)
    requires Shape(k)
  {
    |k.core| == k.frames && k.frames > 1 && k.policy == Clock ==> VictimIndex(k) < k.frames - 1
  }

  lemma ShapeWithoutNode(k: Kernel, s: nat, v: nat, f: nat)
    requires Shape(k) && HasPage(k, s, v) && f < k.frames
    ensures Shape(LoadPage(k, s, v, f).(core := k.core))
  {
  }

  function RegistersOf(r: (Kernel, Cpu.Registers, Cpu.Outcome)): (Cpu.Registers, Cpu.Outcome) { (r.1, r.2) }

  /** The kernel at the access of an instruction that faults: the fetch, or else the data access. */
  function FaultingKernel(k: Kernel, s: nat, regs: Cpu.Registers): (r: Kernel)
    requires Shape(k) && s < |k.spaces| && Cpu.RegsOk(regs)
    ensures Shape(r)
  {
    var (k1, r1) := Step(k, Read(s, regs[Cpu.PC], 4));
    if r1 == Faulted then k else k1
  }

  /** A word that was read can be written. */
  lemma StoreAfterLoad(k: Kernel, s: nat, addr: int, value: int)
    requires Inv(k) && s < |k.spaces| && k.frames < 0x1_0000_0000 && Step(k, Read(s, addr, 4)).1.Loaded?
    ensures Step(Step(k, Read(s, addr, 4)).0, Write(s, addr, 4, value)).1 == Stored
  {
    TrapIff(k, s, addr, 4, false);
    TrapIff(Step(k, Read(s, addr, 4)).0, s, addr, 4, true);
  }

  lemma TranslationFacts(k: Kernel, s: nat, addr: int, size: AccessSize, writing: bool)
    requires Inv(k) && s < |k.spaces| && k.frames < 0x1_0000_0000
    ensures var t := PagedMemory.Translate(k.spaces[s], k.frames, addr, size, writing);
            && (t == NoException || t == PageFaultException ==>
                  HasPage(k, s, VirtualPage(addr)) && EntryOf(k, s, VirtualPage(addr)).valid == (t == NoException))
            && (t == PageFaultException ==> RoomAfterEviction(k))
            && (t == NoException ==> Offset(addr) + size <= PAGE_SIZE)
  {
    TrapIff(k, s, addr, size, writing);
    var t := PagedMemory.Translate(k.spaces[s], k.frames, addr, size, writing);
    if t == PageFaultException {
      HandleFaultKeeps(k, s, VirtualPage(addr));
    } else if t == NoException {
      OffsetFits(addr, size);
    }
  }

  /** The step that a write is, by what translation says. */
  lemma WriteCases(k: Kernel, s: nat, addr: int, size: AccessSize, value: int)
    requires Inv(k) && s < |k.spaces| && k.frames < 0x1_0000_0000
    ensures var t, v := PagedMemory.Translate(k.spaces[s], k.frames, addr, size, true), VirtualPage(addr);
            && (t == NoException ==>
                  && HasPage(k, s, v) && EntryOf(k, s, v).valid && Offset(addr) + size <= PAGE_SIZE
                  && Step(k, Write(s, addr, size, value)) == (AfterStore(k, s, v, Offset(addr), ToBytes(size, value)), Stored))
            && (t == PageFaultException ==>
                  HasPage(k, s, v) && RoomAfterEviction(k) && Step(k, Write(s, addr, size, value)) == (HandleFault(k, s, v), Faulted))
            && (t != NoException && t != PageFaultException ==> Step(k, Write(s, addr, size, value)) == (k, Rejected(t)))
  {
    hide RoomAfterEviction, HandleFault, PagedMemory.Translate, ToBytes, Patch;
    TranslationFacts(k, s, addr, size, true);
  }

  lemma LoadKeeps(k: Kernel, s: nat, v: nat)
    requires Inv(k) && HasPage(k, s, v)
    ensures Inv(k.(spaces := k.spaces[s := Touched(k.spaces[s], v, false)]))
  {
    UseBitsDoNotMatter(k, k.spaces[s := Touched(k.spaces[s], v, false)]);
  }

  /** What the eviction code relies on. */
  lemma EvictionSetup(k: Kernel)
    requires Inv(k) && |k.core| > 0
    ensures CoreInRange(k.core, k.frames, k.spaces) && CoreMap.DistinctPages(k.core)
    ensures var c, after := k.core[Victim(k.policy, k.core, k.frames, k.spaces)], SpacesAfterSweep(k);
            && after == AfterSweep(k.policy, k.core, k.frames, k.spaces)
            && c.space < |after| && c.physicalPage < |k.used|
            && SpaceShape(after[c.space], k.frames) && c.virtualPage < |after[c.space].table|
            && |k.memory| == k.frames * PAGE_SIZE
  {
    assert InCoreRange(k.core[VictimIndex(k)], k.frames, k.spaces);
    forall i, j | 0 <= i < j < |k.core|
      ensures k.core[i].space != k.core[j].space || k.core[i].virtualPage != k.core[j].virtualPage
    {
      assert k.core[i] in k.core && k.core[j] in k.core;
      assert IsResident(k, k.core[i]) && IsResident(k, k.core[j]);
    }
  }
}
