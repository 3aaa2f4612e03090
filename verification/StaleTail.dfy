/** How clock replacement comes to lose a page: a run of the paging system in which it picks the
    last node of the core map, and what the next page added then meets. */
module StaleTail {
  import opened Bytes
  import opened BitMapSpec
  import opened PagedMemory
  import opened PagingInvariant
  import opened PagingRefinement
  import opened CoreMap

  /** A program with no code and no data, only its stack and arguments. */
  const PROGRAM := Executable([], Segment(0, 0, 0), Segment(0, 0, 0), 0)

  function Ops(swap: seq<Byte>): seq<Op> { [Exec(PROGRAM, swap), Read(0, 0, 4), Read(0, 0, 4), Read(0, 128, 4)] }

  function Entry(f: int, use: bool): TranslationEntry { TranslationEntry(f, true, use, false, false) }

  /** A single process with pages 0 and 1 as given, and no other page resident. */
  ghost predicate Pages(k: Kernel, core: seq<CorePage>, used: seq<bool>, first: TranslationEntry, second: TranslationEntry) {
    && Inv(k) && k.policy == Clock && k.frames == 2 && k.core == core && k.used == used
    && |k.spaces| == 1 && |k.spaces[0].table| == 12
    && k.spaces[0].table[0] == first && k.spaces[0].table[1] == second
  }

  /** The next frame is taken for a page that is not resident. */
  lemma FaultLoads(k: Kernel, v: nat, core: seq<CorePage>, used: seq<bool>, first: TranslationEntry, second: TranslationEntry, f: nat)
    requires Pages(k, core, used, first, second) && v < 2 && |core| < 2 && FirstClear(used) == f
    requires !(if v == 0 then first else second).valid
    ensures var (k', r) := Step(k, Read(0, v * 128, 4));
            && r == Faulted
            && Pages(k', core + [CorePage(0, f, v)], used[f := true],
                     if v == 0 then first.(physicalPage := f, valid := true) else first,
                     if v == 1 then second.(physicalPage := f, valid := true) else second)
  {
    hide Inv, LoadPage;
    HandleFaultKeeps(k, 0, v);
    LoadFacts(k, v, f);
  }

  lemma LoadFacts(k: Kernel, v: nat, f: nat)
    requires Shape(k) && HasPage(k, 0, v) && f < k.frames && |k.core| < k.frames
    ensures var k', e := LoadPage(k, 0, v, f), k.spaces[0].table[v];
            && k'.policy == k.policy && k'.frames == k.frames && k'.core == k.core + [CorePage(0, f, v)] && k'.used == k.used[f := true]
            && |k'.spaces| == |k.spaces| && k'.spaces[0].table == k.spaces[0].table[v := e.(physicalPage := f, valid := true)]
  {
  }

  /** A resident page is read and marked used. */
  lemma HitMarks(k: Kernel, core: seq<CorePage>, used: seq<bool>, first: TranslationEntry, second: TranslationEntry)
    requires Pages(k, core, used, first, second) && first.valid
    ensures var (k', r) := Step(k, Read(0, 0, 4));
            r.Loaded? && Pages(k', core, used, first.(use := true), second)
  {
    hide Inv;
    assert Shape(k) by { InvShape(k); }
    assert SpaceShape(k.spaces[0], k.frames) && EntryShape(k.spaces[0].table[0], k.frames);
    var sp := Touched(k.spaces[0], 0, false);
    assert SameButUse(k.spaces[0], sp);
    UseBitsDoNotMatter(k, k.spaces[0 := sp]);
  }

  lemma InvShape(k: Kernel)
    requires Inv(k)
    ensures Shape(k)
  {
  }

  lemma StartedPages(swap: seq<Byte>)
    requires |swap| == 1536
    ensures PagesNeeded(PROGRAM) == 12
    ensures var k := Step(Boot(Clock, 2), Exec(PROGRAM, swap)).0; Pages(k, [], [false, false], UNMAPPED, UNMAPPED)
  {
    BootIsCorrect(Clock, 2);
    ExecStep(Boot(Clock, 2), [], PROGRAM, swap);
    assert Boot(Clock, 2).used == [false, false];
  }

  /** The run: one process touches page 0 twice and page 1 once.  Memory is then full, page 0 is in
      use and page 1, the last node, is not: the next fault evicts the last node. */
  lemma ClockPicksLast(swap: seq<Byte>) returns (ks: seq<Kernel>, rs: seq<Result>)
    requires |swap| == 1536
    ensures IsRun(Clock, 2, ks, Ops(swap), rs)
    ensures var k := ks[4]; Inv(k) && |k.core| == k.frames && VictimIndex(k) == |k.core| - 1 > 0
  {
    hide Inv, Step;
    var k0 := Boot(Clock, 2);
    StartedPages(swap);
    BootIsCorrect(Clock, 2);
    InvShape(k0);
    var (k1, r1) := Step(k0, Exec(PROGRAM, swap));
    InvShape(k1);
    FaultLoads(k1, 0, [], [false, false], UNMAPPED, UNMAPPED, 0);
    var (k2, r2) := Step(k1, Read(0, 0, 4));
    InvShape(k2);
    HitMarks(k2, [CorePage(0, 0, 0)], [true, false], Entry(0, false), UNMAPPED);
    var (k3, r3) := Step(k2, Read(0, 0, 4));
    InvShape(k3);
    FaultLoads(k3, 1, [CorePage(0, 0, 0)], [true, false], Entry(0, true), UNMAPPED, 1);
    var (k4, r4) := Step(k3, Read(0, 128, 4));
    InvShape(k4);
    ks, rs := [k0, k1, k2, k3, k4], [r1, r2, r3, r4];
    assert k4.core == [CorePage(0, 0, 0), CorePage(0, 1, 1)];
    assert CoreInRange(k4.core, 2, k4.spaces);
    PassedOverIs(k4.core, 2, k4.spaces, 1);
  }

  /** The core map then: the last node is evicted, and the page brought in instead is counted but
      not in the list, so it can never be evicted again. */
  method LosePage(cm: CoreMap, frames: nat, spaces: seq<Space>, node: Node) returns (victim: Node?)
    requires cm.Valid() && |cm.nodes| >= 2 && |cm.nodes| == cm.capacity
    requires CoreInRange(cm.Pages(), frames, spaces) && DistinctPages(cm.Pages())
    requires Victim(Clock, cm.Pages(), frames, spaces) == |cm.nodes| - 1
    requires node !in cm.nodes && node.next == null
    modifies cm, cm.Footprint()
    ensures victim == old(cm.nodes)[|old(cm.nodes)| - 1]
    ensures cm.nodes == old(cm.nodes)[..|old(cm.nodes)| - 1] && node !in cm.nodes
    ensures cm.size == |cm.nodes| + 1 && cm.tail == node
  {
    ghost var last := |cm.nodes| - 1;
    var after;
    victim, after := cm.EvictCorePage(Clock, frames, spaces);
    var r := cm.AddCorePage(node);
  }
}
