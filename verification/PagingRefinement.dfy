/** Paged memory refines one private flat byte array per process, over every run. */
module PagingRefinement {
  import opened Bytes
  import opened PagedMemory
  import opened PagingInvariant

  // ---------------------------------------------------------------- the flat machine

  /** What the processes are meant to see: one byte array each, and no paging at all. */
  type Flat = seq<seq<Byte>>

  function Image(exe: Executable): (m: seq<Byte>)
    ensures |m| == PagesNeeded(exe) * PAGE_SIZE
  {
    seq<Byte>(PagesNeeded(exe) * PAGE_SIZE, a requires 0 <= a => ImageByte(exe, a))
  }

  /** Accesses that can succeed: aligned and inside the array. */
  predicate Permitted(m: seq<Byte>, addr: int, size: AccessSize) {
    !Misaligned(addr, size) && Unsigned(addr) + size <= |m|
  }

  function FlatRead(m: seq<Byte>, addr: int, size: AccessSize): int
    requires Permitted(m, addr, size)
  {
    FromBytes(size, m[Unsigned(addr)..Unsigned(addr) + size])
  }

  function FlatWrite(m: seq<Byte>, addr: int, size: AccessSize, value: int): seq<Byte>
    requires Permitted(m, addr, size)
  {
    Patch(m, Unsigned(addr), ToBytes(size, value))
  }

  /** Only an `Exec` and a store that reported success change the flat machine. */
  function FlatStep(f: Flat, op: Op, r: Result): Flat {
    match op
    case Exec(exe, _) => f + [Image(exe)]
    case Read(_, _, _) => f
    case Write(s, addr, size, value) =>
      if r == Stored && s < |f| && Permitted(f[s], addr, size)
      then f[s := FlatWrite(f[s], addr, size, value)] else f
  }

  function FlatRun(ops: seq<Op>, rs: seq<Result>): Flat
    requires |ops| == |rs|
  {
    if ops == [] then []
    else FlatStep(FlatRun(ops[..|ops| - 1], rs[..|ops| - 1]), ops[|ops| - 1], rs[|ops| - 1])
  }

  // ---------------------------------------------------------------- one step

  ghost predicate Refines(k: Kernel, f: Flat)
    requires Shape(k)
  {
    && |f| == |k.spaces|
    && (forall s :: 0 <= s < |f| ==> |f[s]| == |k.spaces[s].table| * PAGE_SIZE)
    && (forall s, v :: HasPage(k, s, v) ==> FrameBytes(f[s], v) == TruePage(k, s, v))
  }

  lemma SameViewRefines(k: Kernel, k': Kernel, f: Flat)
    requires Shape(k) && Shape(k') && SameView(k, k') && Refines(k, f)
    ensures Refines(k', f)
  {
  }

  lemma AddressSplit(addr: int)
    ensures Unsigned(addr) == VirtualPage(addr) * PAGE_SIZE + Offset(addr)
  {
  }

  lemma PermittedIff(k: Kernel, f: Flat, s: nat, addr: int, size: AccessSize)
    requires Shape(k) && Refines(k, f) && s < |f|
    ensures Permitted(f[s], addr, size)
            <==> !Misaligned(addr, size) && VirtualPage(addr) < |k.spaces[s].table|
  {
    hide Unsigned, VirtualPage, Offset, Misaligned;
    if !Misaligned(addr, size) { OffsetFits(addr, size); }
    AddressSplit(addr);
  }

  /** The state after a store of `bs` at offset `o` of resident page `v`. */
  ghost function AfterStore(k: Kernel, s: nat, v: nat, o: nat, bs: seq<Byte>): (k': Kernel)
    requires Shape(k) && HasPage(k, s, v) && EntryOf(k, s, v).valid && o + |bs| <= PAGE_SIZE
    ensures Shape(k')
  {
    k.(spaces := k.spaces[s := Touched(k.spaces[s], v, true)],
       memory := Patch(k.memory, EntryOf(k, s, v).physicalPage * PAGE_SIZE + o, bs))
  }

  /** A store changes no entry's frame and no backing copy. */
  lemma StoreTables(k: Kernel, s: nat, v: nat, o: nat, bs: seq<Byte>, s': nat, v': nat)
    requires Inv(k) && HasPage(k, s, v) && EntryOf(k, s, v).valid && o + |bs| <= PAGE_SIZE
    requires HasPage(k, s', v')
    ensures var k' := AfterStore(k, s, v, o, bs);
            && EntryOf(k', s', v').valid == EntryOf(k, s', v').valid
            && EntryOf(k', s', v').physicalPage == EntryOf(k, s', v').physicalPage
            && (EntryOf(k', s', v').dirty == EntryOf(k, s', v').dirty || (s' == s && v' == v && EntryOf(k', s, v).dirty))
            && BackedPage(k'.spaces[s'], v') == BackedPage(k.spaces[s'], v')
  {
  }

  /** Only the stored-to page of the storing process looks different. */
  lemma StoreViews(k: Kernel, s: nat, v: nat, o: nat, bs: seq<Byte>, s': nat, v': nat)
    requires Inv(k) && HasPage(k, s, v) && EntryOf(k, s, v).valid && o + |bs| <= PAGE_SIZE
    requires HasPage(k, s', v')
    ensures TruePage(AfterStore(k, s, v, o, bs), s', v')
         == if s' == s && v' == v then Patch(TruePage(k, s, v), o, bs) else TruePage(k, s', v')
  {
    StoreTables(k, s, v, o, bs, s', v');
    if EntryOf(k, s', v').valid {
      PatchFrame(k.memory, EntryOf(k, s, v).physicalPage, o, bs, EntryOf(k, s', v').physicalPage);
      if EntryOf(k, s', v').physicalPage == EntryOf(k, s, v).physicalPage {
        FrameHasOneOwner(k, s, v, s', v');
      }
    }
  }

  lemma StoreKeeps(k: Kernel, s: nat, v: nat, o: nat, bs: seq<Byte>)
    requires Inv(k) && HasPage(k, s, v) && EntryOf(k, s, v).valid && o + |bs| <= PAGE_SIZE
    ensures Inv(AfterStore(k, s, v, o, bs))
  {
    var k' := AfterStore(k, s, v, o, bs);
    forall s', v' | HasPage(k', s', v')
      ensures EntryOf(k', s', v').valid ==> CorePage(s', EntryOf(k', s', v').physicalPage, v') in k.core
      ensures EntryOf(k', s', v').valid && !EntryOf(k', s', v').dirty ==>
                FrameBytes(k'.memory, EntryOf(k', s', v').physicalPage) == BackedPage(k'.spaces[s'], v')
    {
      assert HasPage(k, s', v');
      StoreTables(k, s, v, o, bs, s', v');
      StoreViews(k, s, v, o, bs, s', v');
    }
    forall c | c in k.core ensures IsResident(k', c) {
      assert IsResident(k, c);
      StoreTables(k, s, v, o, bs, c.space, c.virtualPage);
    }
  }

  /** A valid entry always translates: no bus error and no read-only trap is possible. */
  lemma TrapIff(k: Kernel, s: nat, addr: int, size: AccessSize, writing: bool)
    requires Shape(k) && s < |k.spaces|
    ensures var t := Translate(k.spaces[s], k.frames, addr, size, writing);
            && (t == AddressErrorException <==> Misaligned(addr, size) || VirtualPage(addr) >= |k.spaces[s].table|)
            && (t != AddressErrorException ==>
                  t == if EntryOf(k, s, VirtualPage(addr)).valid then NoException else PageFaultException)
    requires k.frames < 0x1_0000_0000
  {
  }

  /** What one operation promises, in terms of the flat machine alone. */
  ghost predicate Correct(f: Flat, op: Op, r: Result) {
    match op
    case Exec(_, _) => r == Stored
    case Read(s, addr, size) =>
      && s < |f|
      && (r == Rejected(AddressErrorException) <==> !Permitted(f[s], addr, size))
      && (Permitted(f[s], addr, size) ==> r == Faulted || r == Loaded(FlatRead(f[s], addr, size)))
    case Write(s, addr, size, _) =>
      && s < |f|
      && (r == Rejected(AddressErrorException) <==> !Permitted(f[s], addr, size))
      && (Permitted(f[s], addr, size) ==> r == Faulted || r == Stored)
  }

  /** A trap leaves the flat machine alone, and only an illegal address is rejected. */
  lemma TrappedKeeps(k: Kernel, f: Flat, s: nat, addr: int, trap: Trap)
    requires Inv(k) && Refines(k, f) && s < |k.spaces|
    requires trap == PageFaultException ==>
               VirtualPage(addr) < |k.spaces[s].table| && !EntryOf(k, s, VirtualPage(addr)).valid
    ensures var (k', r) := Trapped(k, s, addr, trap);
            && Inv(k') && Refines(k', f)
            && r == if trap == PageFaultException then Faulted else Rejected(trap)
  {
    if trap == PageFaultException {
      HandleFaultKeeps(k, s, VirtualPage(addr));
      SameViewRefines(k, HandleFault(k, s, VirtualPage(addr)), f);
    }
  }

  lemma FrameSlice(memory: seq<Byte>, f: nat, o: nat, n: nat)
    requires (f + 1) * PAGE_SIZE <= |memory| && o + n <= PAGE_SIZE
    ensures memory[f * PAGE_SIZE + o..f * PAGE_SIZE + o + n] == FrameBytes(memory, f)[o..o + n]
  {
    var a, b := memory[f * PAGE_SIZE + o..f * PAGE_SIZE + o + n], FrameBytes(memory, f)[o..o + n];
    assert forall i :: 0 <= i < n ==> a[i] == memory[f * PAGE_SIZE + (o + i)] == b[i];
  }

  /** A load from a resident page, seen from the flat machine. */
  lemma LoadHit(k: Kernel, f: Flat, s: nat, addr: int, size: AccessSize)
    requires Shape(k) && Refines(k, f) && s < |k.spaces| && Permitted(f[s], addr, size)
    requires Translate(k.spaces[s], k.frames, addr, size, false) == NoException
    ensures Step(k, Read(s, addr, size))
         == (k.(spaces := k.spaces[s := Touched(k.spaces[s], VirtualPage(addr), false)]),
             Loaded(FlatRead(f[s], addr, size)))
  {
    hide Unsigned, VirtualPage, Offset, FromBytes, Trapped;
    var v := VirtualPage(addr);
    OffsetFits(addr, size);
    AddressSplit(addr);
    FrameSlice(k.memory, EntryOf(k, s, v).physicalPage, Offset(addr), size);
    FrameSlice(f[s], v, Offset(addr), size);
  }

  lemma ReadStep(k: Kernel, f: Flat, s: nat, addr: int, size: AccessSize)
    requires Inv(k) && Refines(k, f) && s < |k.spaces| && k.frames < 0x1_0000_0000
    ensures var (k', r) := Step(k, Read(s, addr, size));
            Inv(k') && Refines(k', f) && Correct(f, Read(s, addr, size), r)
  {
    var v := VirtualPage(addr);
    TrapIff(k, s, addr, size, false);
    PermittedIff(k, f, s, addr, size);
    var trap := Translate(k.spaces[s], k.frames, addr, size, false);
    if trap != NoException {
      TrappedKeeps(k, f, s, addr, trap);
    } else {
      LoadHit(k, f, s, addr, size);
      UseBitsDoNotMatter(k, k.spaces[s := Touched(k.spaces[s], v, false)]);
      SameViewRefines(k, k.(spaces := k.spaces[s := Touched(k.spaces[s], v, false)]), f);
    }
  }

  lemma StoreRefines(k: Kernel, f: Flat, s: nat, v: nat, o: nat, bs: seq<Byte>)
    requires Inv(k) && Refines(k, f) && HasPage(k, s, v) && EntryOf(k, s, v).valid
    requires o + |bs| <= PAGE_SIZE
    ensures Refines(AfterStore(k, s, v, o, bs), f[s := Patch(f[s], v * PAGE_SIZE + o, bs)])
  {
    var k', f' := AfterStore(k, s, v, o, bs), f[s := Patch(f[s], v * PAGE_SIZE + o, bs)];
    forall s', v' | HasPage(k', s', v') ensures FrameBytes(f'[s'], v') == TruePage(k', s', v') {
      assert HasPage(k, s', v');
      StoreViews(k, s, v, o, bs, s', v');
      if s' == s {
        PatchFrame(f[s], v, o, bs, v');
      }
    }
  }

  /** A store to a resident page, seen from the flat machine. */
  lemma StoreHit(k: Kernel, f: Flat, s: nat, addr: int, size: AccessSize, value: int)
    requires Shape(k) && Refines(k, f) && s < |k.spaces| && Permitted(f[s], addr, size)
    requires Translate(k.spaces[s], k.frames, addr, size, true) == NoException
    ensures Offset(addr) + size <= PAGE_SIZE && HasPage(k, s, VirtualPage(addr))
    ensures var v, o, bs := VirtualPage(addr), Offset(addr), ToBytes(size, value);
            && Step(k, Write(s, addr, size, value)) == (AfterStore(k, s, v, o, bs), Stored)
            && FlatStep(f, Write(s, addr, size, value), Stored) == f[s := Patch(f[s], v * PAGE_SIZE + o, bs)]
  {
    hide Unsigned, VirtualPage, Offset, FromBytes, ToBytes, Trapped, Translate, TruePage;
    OffsetFits(addr, size);
    AddressSplit(addr);
  }

  lemma WriteStep(k: Kernel, f: Flat, s: nat, addr: int, size: AccessSize, value: int)
    requires Inv(k) && Refines(k, f) && s < |k.spaces| && k.frames < 0x1_0000_0000
    ensures var op := Write(s, addr, size, value);
            var (k', r) := Step(k, op);
            Inv(k') && Refines(k', FlatStep(f, op, r)) && Correct(f, op, r)
  {
    var v := VirtualPage(addr);
    TrapIff(k, s, addr, size, true);
    PermittedIff(k, f, s, addr, size);
    var trap := Translate(k.spaces[s], k.frames, addr, size, true);
    if trap != NoException {
      TrappedKeeps(k, f, s, addr, trap);
    } else {
      StoreHit(k, f, s, addr, size, value);
      StoreKeeps(k, s, v, Offset(addr), ToBytes(size, value));
      StoreRefines(k, f, s, v, Offset(addr), ToBytes(size, value));
    }
  }

  lemma ExecStep(k: Kernel, f: Flat, exe: Executable, swap: seq<Byte>)
    requires Inv(k) && Refines(k, f) && |swap| == PagesNeeded(exe) * PAGE_SIZE
    ensures var op := Exec(exe, swap);
            Inv(Step(k, op).0) && Refines(Step(k, op).0, FlatStep(f, op, Stored))
  {
    var k' := Step(k, Exec(exe, swap)).0;
    var f' := f + [Image(exe)];
    forall s, v | HasPage(k', s, v)
      ensures s < |k.spaces| ==> HasPage(k, s, v) && EntryOf(k', s, v) == EntryOf(k, s, v)
      ensures s == |k.spaces| ==> !EntryOf(k', s, v).valid
      ensures FrameBytes(f'[s], v) == TruePage(k', s, v)
    {
      if s == |k.spaces| {
        assert FrameBytes(Image(exe), v) == ImagePage(exe, v);
      }
    }
    forall c | c in k.core ensures IsResident(k', c) {
      assert IsResident(k, c);
    }
  }

  // ---------------------------------------------------------------- whole runs

  /** A run from a freshly started kernel: `ks[i]` is the state before `ops[i]`, `rs[i]` its result. */
  ghost predicate IsRun(policy: Policy, frames: nat, ks: seq<Kernel>, ops: seq<Op>, rs: seq<Result>) {
    && 0 < frames < 0x1_0000_0000
    && |ks| == |ops| + 1 && |rs| == |ops|
    && ks[0] == Boot(policy, frames)
    && forall i :: 0 <= i < |ops| ==> IsStep(ks[i], ops[i], ks[i + 1], rs[i])
  }

  ghost predicate IsStep(k: Kernel, op: Op, k': Kernel, r: Result) {
    Shape(k) && Enabled(k, op) && (k', r) == Step(k, op)
  }

  lemma StepRefines(k: Kernel, f: Flat, op: Op)
    requires Inv(k) && Refines(k, f) && Enabled(k, op) && k.frames < 0x1_0000_0000
    ensures var (k', r) := Step(k, op);
            && Inv(k') && k'.frames == k.frames
            && Refines(k', FlatStep(f, op, r)) && Correct(f, op, r)
  {
    match op
    case Exec(exe, swap) => ExecStep(k, f, exe, swap);
    case Read(s, addr, size) => ReadStep(k, f, s, addr, size);
    case Write(s, addr, size, value) => WriteStep(k, f, s, addr, size, value);
  }

  lemma NextRefines(k: Kernel, f: Flat, op: Op, k': Kernel, r: Result)
    requires Inv(k) && Refines(k, f) && k.frames < 0x1_0000_0000 && IsStep(k, op, k', r)
    ensures Inv(k') && k'.frames == k.frames && Refines(k', FlatStep(f, op, r)) && Correct(f, op, r)
  {
    StepRefines(k, f, op);
  }

  lemma BootIsCorrect(policy: Policy, frames: nat)
    requires frames > 0
    ensures Inv(Boot(policy, frames)) && Refines(Boot(policy, frames), [])
  {
  }

  /** Every state of every run satisfies the invariant and shows each process its flat memory. */
  lemma {:induction false} RunRefines(policy: Policy, frames: nat, ks: seq<Kernel>, ops: seq<Op>, rs: seq<Result>, n: nat)
    requires IsRun(policy, frames, ks, ops, rs) && n <= |ops|
    ensures Inv(ks[n]) && ks[n].frames == frames
    ensures Refines(ks[n], FlatRun(ops[..n], rs[..n]))
    ensures n > 0 ==> Correct(FlatRun(ops[..n - 1], rs[..n - 1]), ops[n - 1], rs[n - 1])
  {
    hide IsStep, Correct, Refines, Shape, CoreMatchesTables, FramesDistinct, UsedMatchesCore, CleanPagesBacked;
    if n == 0 {
      BootIsCorrect(policy, frames);
    } else {
      var m := n - 1;
      RunRefines(policy, frames, ks, ops, rs, m);
      assert IsStep(ks[m], ops[m], ks[m + 1], rs[m]);
      NextRefines(ks[m], FlatRun(ops[..m], rs[..m]), ops[m], ks[n], rs[m]);
      assert ops[..n][..m] == ops[..m] && rs[..n][..m] == rs[..m];
    }
  }

  // ---------------------------------------------------------------- the last write

  function Execs(ops: seq<Op>): (n: nat)
  {
    if ops == [] then 0
    else Execs(ops[..|ops| - 1]) + if ops[|ops| - 1].Exec? then 1 else 0
  }

  /** Did `op`, with result `r`, store to address `a` of process `s`? */
  predicate StoredTo(op: Op, r: Result, s: nat, a: nat) {
    op.Write? && r == Stored && op.space == s && Unsigned(op.addr) <= a < Unsigned(op.addr) + op.size
  }

  /** The byte most recently stored at `a` by process `s`, or else the byte of its executable. */
  ghost function LastByte(ops: seq<Op>, rs: seq<Result>, s: nat, a: nat): Byte
    requires |ops| == |rs| && s < Execs(ops)
  {
    var n := |ops| - 1;
    var op := ops[n];
    if op.Exec? && s == Execs(ops[..n]) then ImageByte(op.exe, a)
    else if StoredTo(op, rs[n], s, a) then ToBytes(op.size, op.value)[a - Unsigned(op.addr)]
    else LastByte(ops[..n], rs[..n], s, a)
  }

  ghost function LastBytes(ops: seq<Op>, rs: seq<Result>, s: nat, a: nat, n: nat): (bs: seq<Byte>)
    requires |ops| == |rs| && s < Execs(ops)
    ensures |bs| == n
  {
    seq<Byte>(n, j requires 0 <= j => LastByte(ops, rs, s, a + j))
  }

  lemma FlatCount(ops: seq<Op>, rs: seq<Result>)
    requires |ops| == |rs|
    ensures |FlatRun(ops, rs)| == Execs(ops)
  {
  }

  /** Every store that succeeded was permitted. */
  ghost predicate StoresPermitted(ops: seq<Op>, rs: seq<Result>)
    requires |ops| == |rs|
  {
    forall i :: 0 <= i < |ops| ==> Correct(FlatRun(ops[..i], rs[..i]), ops[i], rs[i])
  }

  /** The flat machine holds at every address what was last stored there. */
  lemma {:induction false} FlatIsLastWrite(ops: seq<Op>, rs: seq<Result>, s: nat, a: nat)
    requires |ops| == |rs| && StoresPermitted(ops, rs)
    requires s < |FlatRun(ops, rs)| && a < |FlatRun(ops, rs)[s]|
    ensures s < Execs(ops) && FlatRun(ops, rs)[s][a] == LastByte(ops, rs, s, a)
  {
    FlatCount(ops, rs);
    var n := |ops| - 1;
    FlatCount(ops[..n], rs[..n]);
    var f := FlatRun(ops[..n], rs[..n]);
    assert Correct(f, ops[n], rs[n]);
    if s < |f| && a < |f[s]| {
      forall i | 0 <= i < n ensures Correct(FlatRun(ops[..n][..i], rs[..n][..i]), ops[..n][i], rs[..n][i]) {
        assert ops[..n][..i] == ops[..i] && rs[..n][..i] == rs[..i];
      }
      FlatIsLastWrite(ops[..n], rs[..n], s, a);
    }
  }

  lemma {:induction false} LastStoredBytes(ops: seq<Op>, rs: seq<Result>, s: nat, a: nat, n: nat)
    requires |ops| == |rs| && StoresPermitted(ops, rs)
    requires s < |FlatRun(ops, rs)| && a + n <= |FlatRun(ops, rs)[s]|
    ensures s < Execs(ops) && FlatRun(ops, rs)[s][a..a + n] == LastBytes(ops, rs, s, a, n)
  {
    hide FlatRun, LastByte, StoresPermitted, Execs;
    FlatCount(ops, rs);
    var m, last := FlatRun(ops, rs)[s], LastBytes(ops, rs, s, a, n);
    forall j | 0 <= j < n ensures m[a..a + n][j] == last[j] {
      FlatIsLastWrite(ops, rs, s, a + j);
    }
  }

  lemma RunIsCorrect(policy: Policy, frames: nat, ks: seq<Kernel>, ops: seq<Op>, rs: seq<Result>, n: nat)
    requires IsRun(policy, frames, ks, ops, rs) && n <= |ops|
    ensures StoresPermitted(ops[..n], rs[..n])
  {
    forall i | 0 <= i < n ensures Correct(FlatRun(ops[..n][..i], rs[..n][..i]), ops[..n][i], rs[..n][i]) {
      RunRefines(policy, frames, ks, ops, rs, i + 1);
      assert ops[..n][..i] == ops[..i] && rs[..n][..i] == rs[..i];
    }
  }

  /** The main theorem: over every run, a load returns what was last stored at its
      addresses by the same process, or else the executable's bytes. */
  lemma LoadsReturnLastStored(policy: Policy, frames: nat, ks: seq<Kernel>, ops: seq<Op>, rs: seq<Result>, n: nat)
    requires IsRun(policy, frames, ks, ops, rs) && n < |ops|
    requires ops[n].Read? && rs[n].Loaded?
    ensures ops[n].space < Execs(ops[..n])
    ensures var a := Unsigned(ops[n].addr);
            rs[n].value == FromBytes(ops[n].size, LastBytes(ops[..n], rs[..n], ops[n].space, a, ops[n].size))
  {
    RunIsCorrect(policy, frames, ks, ops, rs, n);
    RunRefines(policy, frames, ks, ops, rs, n + 1);
    LastStoredBytes(ops[..n], rs[..n], ops[n].space, Unsigned(ops[n].addr), ops[n].size);
  }

  lemma NodesDistinct(k: Kernel)
    requires Inv(k)
    ensures forall i, j :: 0 <= i < j < |k.core| ==>
              k.core[i].physicalPage != k.core[j].physicalPage
              && (k.core[i].space, k.core[i].virtualPage) != (k.core[j].space, k.core[j].virtualPage)
  {
    forall i, j | 0 <= i < j < |k.core|
      ensures (k.core[i].space, k.core[i].virtualPage) != (k.core[j].space, k.core[j].virtualPage)
    {
      assert k.core[i] in k.core && k.core[j] in k.core;
      assert IsResident(k, k.core[i]) && IsResident(k, k.core[j]);
    }
  }

  /** Over every run the frames, the core map, the tables and the frame bitmap agree, and the
      handler never runs out of frames or of room in the core map. */
  lemma FramesAreOwnedOnce(policy: Policy, frames: nat, ks: seq<Kernel>, ops: seq<Op>, rs: seq<Result>, n: nat)
    requires IsRun(policy, frames, ks, ops, rs) && n <= |ops|
    ensures Inv(ks[n]) && |ks[n].core| <= frames
    ensures forall i, j :: 0 <= i < j < |ks[n].core| ==>
              ks[n].core[i].physicalPage != ks[n].core[j].physicalPage
              && (ks[n].core[i].space, ks[n].core[i].virtualPage) != (ks[n].core[j].space, ks[n].core[j].virtualPage)
    ensures n < |ops| ==> rs[n] != Panic
    ensures n < |ops| ==> rs[n] != Rejected(BusErrorException) && rs[n] != Rejected(ReadOnlyException)
  {
    hide IsStep, Refines, CoreMatchesTables, UsedMatchesCore, CleanPagesBacked;
    RunRefines(policy, frames, ks, ops, rs, n);
    NodesDistinct(ks[n]);
    if n < |ops| {
      RunRefines(policy, frames, ks, ops, rs, n + 1);
    }
  }
}
