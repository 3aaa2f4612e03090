/** Demand paging with FIFO replacement never starves an instruction when there are two
    frames, and always starves one that needs two pages when there is a single frame. */
module Progress {
  import opened Bytes
  import opened PagedMemory
  import opened PagingInvariant
  import opened PagingRefinement
  import opened Cpu
  import opened Restart

  predicate Resident(k: Kernel, s: int, v: int) {
    HasPage(k, s, v) && EntryOf(k, s, v).valid
  }

  /** Page `v` of `s` is the newest in the core map, so FIFO replaces it last. */
  predicate Newest(k: Kernel, s: int, v: int) {
    |k.core| > 0 && k.core[|k.core| - 1].space == s && k.core[|k.core| - 1].virtualPage == v
  }

  /** What one access does to residency: a hit leaves it alone; a fault makes its page the
      newest and, with two frames, keeps the page that was newest before. */
  ghost predicate PagesMoved(k: Kernel, k': Kernel, s: nat, v: nat, faulted: bool) {
    && k'.policy == k.policy && k'.frames == k.frames
    && (if faulted then
          && !Resident(k, s, v) && Newest(k', s, v) && Resident(k', s, v)
          && (k.policy == Fifo && k.frames >= 2 ==>
                forall u :: Newest(k, s, u) && u != v ==> Resident(k', s, u))
        else k'.core == k.core && forall u :: Resident(k, s, u) <==> Resident(k', s, u))
  }

  lemma NewestIsResident(k: Kernel, s: nat, v: nat)
    requires Inv(k) && Newest(k, s, v)
    ensures Resident(k, s, v)
  {
    assert k.core[|k.core| - 1] in k.core;
    assert IsResident(k, k.core[|k.core| - 1]);
  }

  /** FIFO takes the oldest page, which with two frames is not the newest. */
  lemma NewestSurvives(k: Kernel, s: nat, u: nat)
    requires Inv(k) && Newest(k, s, u) && k.policy == Fifo && k.frames >= 2
    ensures Resident(MakeRoom(k), s, u)
  {
    NewestIsResident(k, s, u);
    if |k.core| == k.frames {
      EvictOneKeeps(k);
      assert EvictOne(k).core == k.core[1..];
      NewestIsResident(EvictOne(k), s, u);
    }
  }

  lemma FaultMoves(k: Kernel, s: nat, v: nat)
    requires Inv(k) && HasPage(k, s, v) && !Resident(k, s, v)
    ensures RoomAfterEviction(k) && PagesMoved(k, HandleFault(k, s, v), s, v, true)
  {
    HandleFaultKeeps(k, s, v);
    NewestIsResident(HandleFault(k, s, v), s, v);
    if k.policy == Fifo && k.frames >= 2 {
      forall u | Newest(k, s, u) && u != v ensures Resident(HandleFault(k, s, v), s, u) {
        NewestSurvives(k, s, u);
      }
    }
  }

  lemma AccessMoves(k: Kernel, op: Op)
    requires Inv(k) && Enabled(k, op) && !op.Exec? && k.frames < 0x1_0000_0000
    ensures PagesMoved(k, Step(k, op).0, op.space, VirtualPage(op.addr), Step(k, op).1 == Faulted)
  {
    var s, v := op.space, VirtualPage(op.addr);
    TrapIff(k, s, op.addr, op.size, op.Write?);
    if Translate(k.spaces[s], k.frames, op.addr, op.size, op.Write?) == PageFaultException {
      FaultMoves(k, s, v);
    }
  }

  // ---------------------------------------------------------------- one attempt

  /** The machine is about to run an instruction of process `s`, whose memory is `f[s]`. */
  ghost predicate Started(k: Kernel, f: Flat, s: nat, regs: Registers) {
    Inv(k) && Refines(k, f) && s < |f| && RegsOk(regs) && k.frames < 0x1_0000_0000
  }

  /** And the instruction does not depend on the pending load. */
  ghost predicate Ready(decode: Decoder, k: Kernel, f: Flat, s: nat, regs: Registers) {
    Started(k, f, s, regs) && NextIndependent(decode, f[s], regs)
  }

  function CodePage(regs: Registers): nat
    requires RegsOk(regs)
  {
    VirtualPage(regs[PC])
  }

  /** The pages the next instruction needs: its own, and that of its data if it has any.  An access
      that is not permitted traps and needs no page. */
  function Needed(decode: Decoder, m: seq<Byte>, regs: Registers): set<nat>
    requires RegsOk(regs)
  {
    if !Permitted(m, regs[PC], 4) then {}
    else
      var i := decode(FlatRead(m, regs[PC], 4));
      if RegisterOnly(i) || !Permitted(m, DataAddress(i, regs), DataSize(i)) then {CodePage(regs)}
      else {CodePage(regs), VirtualPage(DataAddress(i, regs))}
  }

  lemma DataMoves(i: Instr, k: Kernel, f: Flat, s: nat, regs: Registers)
    requires !RegisterOnly(i) && Inv(k) && Refines(k, f) && s < |f| && RegsOk(regs) && k.frames < 0x1_0000_0000
    ensures var r := ExecuteData(i, k, s, regs);
            r.2 == PageFault ==> PagesMoved(k, r.0, s, VirtualPage(DataAddress(i, regs)), true)
  {
    hide HandleFault, RoomAfterEviction;
    var addr := DataAddress(i, regs);
    if i.Store? {
      AccessMoves(k, Write(s, addr, i.size, regs[i.rt]));
    } else {
      var op := Read(s, addr, DataSize(i));
      AccessMoves(k, op);
      StepRefines(k, f, op);
      var (k1, r1) := Step(k, op);
      if r1.Loaded? && i.StorePartial? {
        AccessMoves(k1, Write(s, addr, 4, ValueToStore(i, regs, r1.value)));
        assert Resident(k1, s, VirtualPage(addr));
      }
    }
  }

  lemma AttemptMoves(decode: Decoder, k: Kernel, f: Flat, s: nat, regs: Registers)
    requires Inv(k) && Refines(k, f) && s < |f| && RegsOk(regs) && k.frames < 0x1_0000_0000
    requires OneInstruction(decode, k, s, regs).2 == PageFault
    ensures exists v <- Needed(decode, f[s], regs) :: PagesMoved(k, OneInstruction(decode, k, s, regs).0, s, v, true)
  {
    hide Step, ExecuteData, ExecuteRegisters, FlatRead, Permitted;
    var fetch := Read(s, regs[PC], 4);
    AccessMoves(k, fetch);
    StepRefines(k, f, fetch);
    var (k1, r1) := Step(k, fetch);
    var k' := OneInstruction(decode, k, s, regs).0;
    if r1 == Faulted {
      assert PagesMoved(k, k', s, CodePage(regs), true);
    } else {
      var i := decode(r1.value);
      NotPageFault(i, regs);
      DataMoves(i, k1, f, s, regs);
      DataAttemptIff(i, k1, f, s, regs);
      assert PagesMoved(k, k', s, VirtualPage(DataAddress(i, regs)), true);
    }
  }

  /** The data access of an instruction records its own address when it faults. */
  lemma DataFaultAddress(i: Instr, k: Kernel, s: nat, regs: Registers)
    requires !RegisterOnly(i) && Shape(k) && s < |k.spaces| && RegsOk(regs) && ExecuteData(i, k, s, regs).2 == PageFault
    ensures ExecuteData(i, k, s, regs).1 == RaiseException(regs, DataAddress(i, regs))
  {
    hide Step, RaiseException, AfterData;
  }

  /** A page fault records the address whose page was missing, and that page is brought in: the
      instruction's own, or that of its data. */
  lemma FaultIsRecorded(decode: Decoder, k: Kernel, f: Flat, s: nat, regs: Registers) returns (addr: int)
    requires Inv(k) && Refines(k, f) && s < |f| && RegsOk(regs) && k.frames < 0x1_0000_0000
    requires OneInstruction(decode, k, s, regs).2 == PageFault
    ensures var (k', regs', o) := OneInstruction(decode, k, s, regs);
            && regs'[BAD_VADDR] == addr
            && !Resident(k, s, VirtualPage(addr)) && Resident(k', s, VirtualPage(addr))
    ensures addr != regs[PC] ==> Permitted(f[s], regs[PC], 4)
    ensures addr != regs[PC] ==>
              var i := decode(FlatRead(f[s], regs[PC], 4)); !RegisterOnly(i) && addr == Wrap32(regs[i.rs] + i.extra)
  {
    hide Step, ExecuteData, ExecuteRegisters, FlatRead, Permitted, Resident;
    var fetch := Read(s, regs[PC], 4);
    AccessMoves(k, fetch);
    StepRefines(k, f, fetch);
    var (k1, r1) := Step(k, fetch);
    addr := regs[PC];
    if r1 != Faulted {
      var i := decode(r1.value);
      NotPageFault(i, regs);
      DataMoves(i, k1, f, s, regs);
      DataFaultAddress(i, k1, s, regs);
      addr := DataAddress(i, regs);
    }
  }

  lemma NotPageFault(i: Instr, regs: Registers)
    requires RegsOk(regs)
    ensures RegisterOnly(i) ==> ExecuteRegisters(i, regs).1 != PageFault
  {
  }

  /** After a fault the restarted instruction needs the same pages. */
  lemma NeededAfterFault(decode: Decoder, m: seq<Byte>, regs: Registers, a: int)
    requires RegsOk(regs) && NextIndependent(decode, m, regs)
    ensures var regs' := RaiseException(regs, a);
            && NextIndependent(decode, m, regs')
            && CodePage(regs') == CodePage(regs) && Needed(decode, m, regs') == Needed(decode, m, regs)
  {
  }

  /** A faulting attempt brings in a needed page and leaves the machine ready to restart. */
  lemma FaultedAttempt(decode: Decoder, k: Kernel, f: Flat, s: nat, regs: Registers)
    requires Ready(decode, k, f, s, regs)
    requires OneInstruction(decode, k, s, regs).2 == PageFault
    ensures var r := OneInstruction(decode, k, s, regs);
            && Ready(decode, r.0, f, s, r.1)
            && CodePage(r.1) == CodePage(regs) && Needed(decode, f[s], r.1) == Needed(decode, f[s], regs)
            && exists v <- Needed(decode, f[s], regs) :: PagesMoved(k, r.0, s, v, true)
  {
    hide OneInstruction, Shape, CoreMatchesTables, UsedMatchesCore, CleanPagesBacked, FramesDistinct;
    InstructionRefines(decode, k, f, s, regs);
    AttemptMoves(decode, k, f, s, regs);
    var a :| OneInstruction(decode, k, s, regs).1 == RaiseException(regs, a);
    NeededAfterFault(decode, f[s], regs, a);
  }

  /** An instruction that does not fault leaves residency alone. */
  lemma HitsKeepPages(decode: Decoder, k: Kernel, f: Flat, s: nat, regs: Registers)
    requires Started(k, f, s, regs) && OneInstruction(decode, k, s, regs).2 != PageFault
    ensures forall v :: Resident(k, s, v) <==> Resident(OneInstruction(decode, k, s, regs).0, s, v)
  {
    hide HandleFault, RoomAfterEviction;
    var fetch := Read(s, regs[PC], 4);
    AccessMoves(k, fetch);
    StepRefines(k, f, fetch);
    var (k1, r1) := Step(k, fetch);
    if r1.Loaded? {
      var i := decode(r1.value);
      if !RegisterOnly(i) { DataKeepsPages(i, k1, f, s, regs); }
    }
  }

  lemma DataKeepsPages(i: Instr, k: Kernel, f: Flat, s: nat, regs: Registers)
    requires !RegisterOnly(i) && Started(k, f, s, regs) && ExecuteData(i, k, s, regs).2 != PageFault
    ensures forall v :: Resident(k, s, v) <==> Resident(ExecuteData(i, k, s, regs).0, s, v)
  {
    hide HandleFault, RoomAfterEviction;
    var addr := DataAddress(i, regs);
    if i.Store? {
      AccessMoves(k, Write(s, addr, i.size, regs[i.rt]));
    } else {
      var op := Read(s, addr, DataSize(i));
      AccessMoves(k, op);
      StepRefines(k, f, op);
      var (k1, r1) := Step(k, op);
      if r1.Loaded? && i.StorePartial? {
        AccessMoves(k1, Write(s, addr, 4, ValueToStore(i, regs, r1.value)));
      }
    }
  }

  // ---------------------------------------------------------------- retrying

  /** At most `n` restarts after the first attempt. */
  function Retry(decode: Decoder, k: Kernel, s: nat, regs: Registers, n: nat): (r: (Kernel, Registers, Outcome))
    requires Shape(k) && s < |k.spaces| && RegsOk(regs)
    ensures Shape(r.0) && RegsOk(r.1)
    decreases n
  {
    var r := OneInstruction(decode, k, s, regs);
    if r.2 != PageFault || n == 0 then r else Retry(decode, r.0, s, r.1, n - 1)
  }

  /** The instruction completes, or traps, after at most `n` restarts. */
  predicate CompletesIn(decode: Decoder, k: Kernel, s: nat, regs: Registers, n: nat)
    requires Shape(k) && s < |k.spaces| && RegsOk(regs)
  {
    Retry(decode, k, s, regs, n).2 != PageFault
  }

  lemma StartedCanRun(k: Kernel, f: Flat, s: nat, regs: Registers)
    requires Started(k, f, s, regs)
    ensures k.frames > 0 && Shape(k) && s < |k.spaces| && RegsOk(regs) && s < |f|
  {
  }

  lemma ReadyCanRun(decode: Decoder, k: Kernel, f: Flat, s: nat, regs: Registers)
    requires Ready(decode, k, f, s, regs)
    ensures k.frames > 0 && Shape(k) && s < |k.spaces| && RegsOk(regs) && s < |f|
  {
  }

  /** No three of the pages are distinct. */
  predicate AtMostTwo(pages: set<nat>) {
    forall u, v, w :: u in pages && v in pages && w in pages ==> u == v || v == w || u == w
  }

  /** Two restarts are enough when there are two frames and two pages to bring in, or a single one. */
  lemma SettledSuffice(decode: Decoder, k: Kernel, f: Flat, s: nat, regs: Registers)
    requires Ready(decode, k, f, s, regs) && k.policy == Fifo
    requires k.frames >= 2 || Needed(decode, f[s], regs) <= {CodePage(regs)}
    ensures Retry(decode, k, s, regs, 2).2 != PageFault
  {
    hide Ready, OneInstruction, Needed, CodePage, Shape, RegsOk, Newest, Resident;
    ReadyCanRun(decode, k, f, s, regs);
    var needed := Needed(decode, f[s], regs);
    NeededAtMostTwo(decode, f[s], regs);
    var r1 := OneInstruction(decode, k, s, regs);
    if r1.2 == PageFault {
      FaultedAttempt(decode, k, f, s, regs);
      ReadyCanRun(decode, r1.0, f, s, r1.1);
      var v1 :| v1 in needed && PagesMoved(k, r1.0, s, v1, true);
      var r2 := OneInstruction(decode, r1.0, s, r1.1);
      if r2.2 == PageFault {
        FaultedAttempt(decode, r1.0, f, s, r1.1);
        ReadyCanRun(decode, r2.0, f, s, r2.1);
        var v2 :| v2 in needed && PagesMoved(r1.0, r2.0, s, v2, true);
        var r3 := OneInstruction(decode, r2.0, s, r2.1);
        if r3.2 == PageFault {
          FaultedAttempt(decode, r2.0, f, s, r2.1);
          assert false;
        }
        assert Retry(decode, r1.0, s, r1.1, 1).2 != PageFault;
      }
    }
  }

  /** Among needed pages, one that is not the first and not the second is neither. */
  lemma NeededAtMostTwo(decode: Decoder, m: seq<Byte>, regs: Registers)
    requires RegsOk(regs)
    ensures AtMostTwo(Needed(decode, m, regs))
  {
  }

  lemma HitIff(k: Kernel, f: Flat, op: Op)
    requires Inv(k) && Refines(k, f) && Enabled(k, op) && !op.Exec? && k.frames < 0x1_0000_0000
    requires Permitted(f[op.space], op.addr, op.size)
    ensures Step(k, op).1 == Faulted <==> !Resident(k, op.space, VirtualPage(op.addr))
  {
    StepRefines(k, f, op);
    AccessMoves(k, op);
    PermittedIff(k, f, op.space, op.addr, op.size);
    TrapIff(k, op.space, op.addr, op.size, op.Write?);
  }

  /** With one frame at most one page is resident. */
  lemma OneFrameOnePage(k: Kernel, s: nat, u: nat, v: nat)
    requires Inv(k) && k.frames == 1 && Resident(k, s, u) && Resident(k, s, v)
    ensures u == v
  {
  }

  lemma SingleFrameFaults(decode: Decoder, k: Kernel, f: Flat, s: nat, regs: Registers)
    requires Ready(decode, k, f, s, regs) && k.frames == 1 && !(Needed(decode, f[s], regs) <= {CodePage(regs)})
    ensures OneInstruction(decode, k, s, regs).2 == PageFault
  {
    hide HandleFault, RoomAfterEviction;
    var fetch := Read(s, regs[PC], 4);
    HitIff(k, f, fetch);
    StepRefines(k, f, fetch);
    AccessMoves(k, fetch);
    var (k1, r1) := Step(k, fetch);
    if r1 != Faulted {
      var i := decode(r1.value);
      var addr := DataAddress(i, regs);
      if Resident(k1, s, VirtualPage(addr)) {
        OneFrameOnePage(k1, s, VirtualPage(addr), CodePage(regs));
      }
      HitIff(k1, f, if i.Store? then Write(s, addr, i.size, regs[i.rt]) else Read(s, addr, DataSize(i)));
    }
  }

  /** With one frame an instruction whose data is not on its own page never completes. */
  lemma {:induction false} SingleFrameStarves(decode: Decoder, k: Kernel, f: Flat, s: nat, regs: Registers, n: nat)
    requires Ready(decode, k, f, s, regs) && k.frames == 1 && !(Needed(decode, f[s], regs) <= {CodePage(regs)})
    ensures Retry(decode, k, s, regs, n).2 == PageFault
    decreases n
  {
    hide OneInstruction, Shape, CoreMatchesTables, UsedMatchesCore, CleanPagesBacked, FramesDistinct, Needed;
    ReadyCanRun(decode, k, f, s, regs);
    SingleFrameFaults(decode, k, f, s, regs);
    if n > 0 {
      FaultedAttempt(decode, k, f, s, regs);
      var r := OneInstruction(decode, k, s, regs);
      SingleFrameStarves(decode, r.0, f, s, r.1, n - 1);
    }
  }

  /** Without a load that matters, an instruction completes exactly when there are two frames or its
      code and data share a page. */
  lemma SettledIff(decode: Decoder, k: Kernel, f: Flat, s: nat, regs: Registers)
    requires Ready(decode, k, f, s, regs) && k.policy == Fifo
    ensures (exists n: nat :: CompletesIn(decode, k, s, regs, n))
            <==> k.frames >= 2 || Needed(decode, f[s], regs) <= {CodePage(regs)}
  {
    hide Ready, OneInstruction, Needed, CodePage, Shape, RegsOk, Retry;
    ReadyCanRun(decode, k, f, s, regs);
    if k.frames >= 2 || Needed(decode, f[s], regs) <= {CodePage(regs)} {
      SettledSuffice(decode, k, f, s, regs);
      assert CompletesIn(decode, k, s, regs, 2);
    } else {
      forall n: nat ensures !CompletesIn(decode, k, s, regs, n) {
        SingleFrameStarves(decode, k, f, s, regs, n);
      }
    }
  }

  // ---------------------------------------------------------------- whatever load is pending

  /** The registers once the pending load is delivered, as it is by any fault. */
  function Delivered(regs: Registers): (r: Registers)
    requires RegsOk(regs)
    ensures RegsOk(r) && r[LOAD] == 0
  {
    RaiseException(regs, 0)
  }

  /** A fault settles the instruction: the load is delivered, and what is needed from now on is
      what the delivered registers say. */
  lemma FaultSettles(decode: Decoder, m: seq<Byte>, regs: Registers, a: int)
    requires RegsOk(regs)
    ensures var regs', d := RaiseException(regs, a), Delivered(regs);
            && NextIndependent(decode, m, regs') && CodePage(regs') == CodePage(regs) == CodePage(d)
            && Needed(decode, m, regs') == Needed(decode, m, d)
  {
  }

  lemma FirstFault(decode: Decoder, k: Kernel, f: Flat, s: nat, regs: Registers)
    requires Started(k, f, s, regs) && OneInstruction(decode, k, s, regs).2 == PageFault
    ensures var r, d := OneInstruction(decode, k, s, regs), Delivered(regs);
            && Ready(decode, r.0, f, s, r.1) && r.0.frames == k.frames && r.0.policy == k.policy
            && CodePage(r.1) == CodePage(regs) && Needed(decode, f[s], r.1) == Needed(decode, f[s], d)
            && exists v <- Needed(decode, f[s], regs) :: PagesMoved(k, r.0, s, v, true)
  {
    hide OneInstruction, Shape, CoreMatchesTables, UsedMatchesCore, CleanPagesBacked, FramesDistinct, Needed, RaiseException;
    InstructionRefines(decode, k, f, s, regs);
    AttemptMoves(decode, k, f, s, regs);
    var a :| OneInstruction(decode, k, s, regs).1 == RaiseException(regs, a);
    FaultSettles(decode, f[s], regs, a);
  }

  /** With two frames every instruction completes after at most three faults, whatever load is
      pending: its address can change once, when the first fault delivers the load. */
  lemma ThreeFaultsSuffice(decode: Decoder, k: Kernel, f: Flat, s: nat, regs: Registers)
    requires Started(k, f, s, regs) && k.policy == Fifo && k.frames >= 2
    ensures Retry(decode, k, s, regs, 3).2 != PageFault
  {
    hide OneInstruction, Needed, CodePage, Ready, Refines;
    StartedCanRun(k, f, s, regs);
    var r := OneInstruction(decode, k, s, regs);
    if r.2 == PageFault {
      FirstFault(decode, k, f, s, regs);
      ReadyCanRun(decode, r.0, f, s, r.1);
      SettledSuffice(decode, r.0, f, s, r.1);
    }
  }

  /** Two faults are enough when the pages needed before and after the pending load is delivered are
      at most two, as they are for every instruction that does not use the load's target. */
  lemma TwoFaultsSuffice(decode: Decoder, k: Kernel, f: Flat, s: nat, regs: Registers)
    requires Started(k, f, s, regs) && k.policy == Fifo && k.frames >= 2
    requires AtMostTwo(Needed(decode, f[s], regs) + Needed(decode, f[s], Delivered(regs)))
    ensures Retry(decode, k, s, regs, 2).2 != PageFault
  {
    hide OneInstruction, Needed, CodePage, Ready, Refines, Newest, Resident, Delivered;
    StartedCanRun(k, f, s, regs);
    var r1 := OneInstruction(decode, k, s, regs);
    if r1.2 == PageFault {
      FirstFault(decode, k, f, s, regs);
      ReadyCanRun(decode, r1.0, f, s, r1.1);
      var v1 :| v1 in Needed(decode, f[s], regs) && PagesMoved(k, r1.0, s, v1, true);
      var r2 := OneInstruction(decode, r1.0, s, r1.1);
      if r2.2 == PageFault {
        FaultedAttempt(decode, r1.0, f, s, r1.1);
        ReadyCanRun(decode, r2.0, f, s, r2.1);
        var v2 :| v2 in Needed(decode, f[s], r1.1) && PagesMoved(r1.0, r2.0, s, v2, true);
        var r3 := OneInstruction(decode, r2.0, s, r2.1);
        if r3.2 == PageFault {
          FaultedAttempt(decode, r2.0, f, s, r2.1);
          assert false;
        }
        assert Retry(decode, r1.0, s, r1.1, 1).2 != PageFault;
      }
    }
  }

  /** An instruction that does not use the pending load's target is one of these. */
  lemma IndependentNeedsTwo(decode: Decoder, m: seq<Byte>, regs: Registers)
    requires RegsOk(regs) && NextIndependent(decode, m, regs)
    ensures AtMostTwo(Needed(decode, m, regs) + Needed(decode, m, Delivered(regs)))
  {
    NeededAfterFault(decode, m, regs, 0);
    NeededAtMostTwo(decode, m, regs);
    assert Needed(decode, m, regs) + Needed(decode, m, Delivered(regs)) == Needed(decode, m, regs);
  }

  /** With one frame the first attempt succeeds only if all it needs is the page in that frame. */
  lemma FirstAttemptIff(decode: Decoder, k: Kernel, f: Flat, s: nat, regs: Registers)
    requires Started(k, f, s, regs) && k.frames == 1
    ensures OneInstruction(decode, k, s, regs).2 != PageFault
            <==> forall v <- Needed(decode, f[s], regs) :: v == CodePage(regs) && Resident(k, s, v)
  {
    hide Step, ExecuteData, ExecuteRegisters, FlatRead, Permitted;
    var fetch := Read(s, regs[PC], 4);
    StepRefines(k, f, fetch);
    AccessMoves(k, fetch);
    if Permitted(f[s], regs[PC], 4) { HitIff(k, f, fetch); }
    var (k1, r1) := Step(k, fetch);
    if r1.Loaded? {
      var i := decode(r1.value);
      NotPageFault(i, regs);
      if !RegisterOnly(i) {
        DataAttemptIff(i, k1, f, s, regs);
        if Resident(k1, s, VirtualPage(DataAddress(i, regs))) {
          OneFrameOnePage(k1, s, VirtualPage(DataAddress(i, regs)), CodePage(regs));
        }
      }
    }
  }

  lemma DataAttemptIff(i: Instr, k: Kernel, f: Flat, s: nat, regs: Registers)
    requires !RegisterOnly(i) && Started(k, f, s, regs)
    ensures ExecuteData(i, k, s, regs).2 == PageFault
            <==> Permitted(f[s], DataAddress(i, regs), DataSize(i)) && !Resident(k, s, VirtualPage(DataAddress(i, regs)))
  {
    hide HandleFault, RoomAfterEviction;
    var addr := DataAddress(i, regs);
    if i.Store? {
      var op := Write(s, addr, i.size, regs[i.rt]);
      StepRefines(k, f, op);
      if Permitted(f[s], addr, i.size) { HitIff(k, f, op); }
    } else {
      var op := Read(s, addr, DataSize(i));
      StepRefines(k, f, op);
      if Permitted(f[s], addr, DataSize(i)) { HitIff(k, f, op); }
      var (k1, r1) := Step(k, op);
      if r1.Loaded? && i.StorePartial? {
        AccessMoves(k, op);
        var store := Write(s, addr, 4, ValueToStore(i, regs, r1.value));
        HitIff(k1, f, store);
        StepRefines(k1, f, store);
      }
    }
  }

  /** FIFO demand paging lets an instruction end exactly when there are two frames, or all it needs
      once the pending load is delivered is its own page, or all it needs before is its own page and
      that is in memory. */
  lemma CompletesIff(decode: Decoder, k: Kernel, f: Flat, s: nat, regs: Registers)
    requires Started(k, f, s, regs) && k.policy == Fifo
    ensures (exists n: nat :: CompletesIn(decode, k, s, regs, n))
            <==> || k.frames >= 2
                 || Needed(decode, f[s], Delivered(regs)) <= {CodePage(regs)}
                 || forall v <- Needed(decode, f[s], regs) :: v == CodePage(regs) && Resident(k, s, v)
  {
    hide OneInstruction, Needed, CodePage, Ready, Refines, Resident, Delivered;
    StartedCanRun(k, f, s, regs);
    var r := OneInstruction(decode, k, s, regs);
    if k.frames >= 2 {
      ThreeFaultsSuffice(decode, k, f, s, regs);
      assert CompletesIn(decode, k, s, regs, 3);
    } else {
      FirstAttemptIff(decode, k, f, s, regs);
      if r.2 != PageFault {
        assert CompletesIn(decode, k, s, regs, 0);
      } else {
        FirstFault(decode, k, f, s, regs);
        ReadyCanRun(decode, r.0, f, s, r.1);
        SettledIff(decode, r.0, f, s, r.1);
        RetryAfterFault(decode, k, s, regs);
      }
    }
  }

  lemma RetryAfterFault(decode: Decoder, k: Kernel, s: nat, regs: Registers)
    requires Shape(k) && s < |k.spaces| && RegsOk(regs) && OneInstruction(decode, k, s, regs).2 == PageFault
    requires var r := OneInstruction(decode, k, s, regs); Shape(r.0) && s < |r.0.spaces| && RegsOk(r.1)
    ensures var r := OneInstruction(decode, k, s, regs);
            (exists n: nat :: CompletesIn(decode, k, s, regs, n)) <==> (exists n: nat :: CompletesIn(decode, r.0, s, r.1, n))
  {
    hide OneInstruction, Shape;
    var r := OneInstruction(decode, k, s, regs);
    forall n: nat ensures CompletesIn(decode, r.0, s, r.1, n) == CompletesIn(decode, k, s, regs, n + 1) {
    }
    if n: nat :| CompletesIn(decode, k, s, regs, n) {
      assert CompletesIn(decode, r.0, s, r.1, n - 1);
    }
  }
}
