/** Which pages are in memory, over every run with FIFO replacement: those brought in last.  And which
    bits an access leaves behind, which is all that clock replacement looks at. */
module Replacement {
  import opened Bytes
  import opened BitMapSpec
  import opened PagedMemory
  import opened PagingInvariant
  import opened PagingRefinement

  /** A page of an address space. */
  type PageId = (nat, nat)

  function PageOf(op: Op): PageId
    requires !op.Exec?
  {
    (op.space, op.addr % 0x1_0000_0000 / 128)
  }

  /** The pages that faults brought in, oldest first. */
  function Brought(ops: seq<Op>, rs: seq<Result>): seq<PageId>
    requires |ops| == |rs|
  {
    if ops == [] then []
    else
      var n := |ops| - 1;
      Brought(ops[..n], rs[..n]) + if !ops[n].Exec? && rs[n] == Faulted then [PageOf(ops[n])] else []
  }

  /** The last `n` elements, or all of them. */
  function Last<T>(s: seq<T>, n: nat): (r: seq<T>)
    ensures |r| == if |s| <= n then |s| else n
  {
    if |s| <= n then s else s[|s| - n..]
  }

  lemma LastOfMore<T>(s: seq<T>, x: T, n: nat)
    requires n > 0
    ensures Last(s + [x], n) == (if |s| >= n then Last(s, n)[1..] else Last(s, n)) + [x]
  {
  }

  function Listed(core: seq<CorePage>): (pages: seq<PageId>)
    ensures |pages| == |core|
    ensures forall i :: 0 <= i < |core| ==> pages[i] == (core[i].space, core[i].virtualPage)
  {
    seq(|core|, i requires 0 <= i < |core| => (core[i].space, core[i].virtualPage))
  }

  predicate InMemory(k: Kernel, p: PageId) {
    HasPage(k, p.0, p.1) && EntryOf(k, p.0, p.1).valid
  }

  lemma ListedAreInMemory(k: Kernel, p: PageId)
    requires Inv(k)
    ensures p in Listed(k.core) <==> InMemory(k, p)
  {
    if p in Listed(k.core) {
      var i :| 0 <= i < |k.core| && Listed(k.core)[i] == p;
      assert IsResident(k, k.core[i]);
    }
    if InMemory(k, p) {
      var c := CorePage(p.0, EntryOf(k, p.0, p.1).physicalPage, p.1);
      assert c in k.core;
      var i :| 0 <= i < |k.core| && k.core[i] == c;
      assert Listed(k.core)[i] == p;
    }
  }

  // ---------------------------------------------------------------- one step

  /** A fault evicts only when memory is full, and then under FIFO the page that was brought in
      first; the new page is the last. */
  lemma FaultQueues(k: Kernel, s: nat, v: nat)
    requires Shape(k) && HasPage(k, s, v) && RoomAfterEviction(k) && k.policy == Fifo
    ensures var k' := HandleFault(k, s, v);
            && Listed(k'.core) == (if |k.core| == k.frames then Listed(k.core)[1..] else Listed(k.core)) + [(s, v)]
            && k'.policy == Fifo
  {
    if |k.core| == k.frames {
      assert MakeRoom(k).core == k.core[1..];
    }
  }

  /** Whatever the policy, a fault evicts nothing while there is a free frame; clock replacement, with
      two or more pages, takes the first that is not in use, or the oldest if all are. */
  lemma ClockFaultQueues(k: Kernel, s: nat, v: nat) returns (i: nat)
    requires Shape(k) && HasPage(k, s, v) && RoomAfterEviction(k) && k.policy == Clock && k.frames >= 2
    ensures var before, after := Listed(k.core), Listed(HandleFault(k, s, v).core);
            if |k.core| < k.frames then after == before + [(s, v)]
            else i < |before| && after == before[..i] + before[i + 1..] + [(s, v)]
    ensures |k.core| == k.frames ==>
              if forall j :: 0 <= j < |k.core| ==> InUse(k.core[j], k.spaces) then i == 0
              else !InUse(k.core[i], k.spaces) && forall j :: 0 <= j < i ==> InUse(k.core[j], k.spaces)
  {
    hide Listed, MakeRoom, VictimIndex, Victim, LoadPage, InUse, RoomAfterEviction;
    i := 0;
    var room := MakeRoom(k);
    assert FirstClear(room.used) >= 0 && |room.core| < k.frames by { FoundRoom(k); }
    assert HandleFault(k, s, v) == LoadPage(room, s, v, FirstClear(room.used));
    if |k.core| == k.frames {
      i := VictimIndex(k);
      RoomMade(k, i);
      ListedWithout(k.core, i);
      ClockVictim(k, i);
    } else {
      assert room == k by { StillRoom(k); }
    }
    LoadedLast(room, s, v, FirstClear(room.used));
  }

  lemma FoundRoom(k: Kernel)
    requires Shape(k) && RoomAfterEviction(k)
    ensures FirstClear(MakeRoom(k).used) >= 0 && |MakeRoom(k).core| < k.frames
  {
  }

  lemma StillRoom(k: Kernel)
    requires Shape(k) && |k.core| < k.frames
    ensures MakeRoom(k) == k
  {
  }

  lemma ClockVictim(k: Kernel, i: nat)
    requires Shape(k) && k.policy == Clock && |k.core| == k.frames >= 2 && i == VictimIndex(k)
    ensures if forall j :: 0 <= j < |k.core| ==> InUse(k.core[j], k.spaces) then i == 0
            else !InUse(k.core[i], k.spaces) && forall j :: 0 <= j < i ==> InUse(k.core[j], k.spaces)
  {
  }

  lemma RoomMade(k: Kernel, i: nat)
    requires Shape(k) && |k.core| == k.frames && i == VictimIndex(k)
    ensures MakeRoom(k).core == k.core[..i] + k.core[i + 1..]
  {
  }

  lemma ListedWithout(core: seq<CorePage>, i: nat)
    requires i < |core|
    ensures Listed(core[..i] + core[i + 1..]) == Listed(core)[..i] + Listed(core)[i + 1..]
  {
  }

  lemma LoadedLast(k: Kernel, s: nat, v: nat, f: nat)
    requires Shape(k) && HasPage(k, s, v) && f < k.frames && |k.core| < k.frames
    ensures Listed(LoadPage(k, s, v, f).core) == Listed(k.core) + [(s, v)]
  {
  }

  lemma StepQueues(k: Kernel, op: Op)
    requires Inv(k) && Enabled(k, op) && k.policy == Fifo && k.frames < 0x1_0000_0000
    ensures var (k', r) := Step(k, op);
            && k'.policy == Fifo
            && Listed(k'.core) == if !op.Exec? && r == Faulted
                                  then (if |k.core| == k.frames then Listed(k.core)[1..] else Listed(k.core)) + [PageOf(op)]
                                  else Listed(k.core)
  {
    hide HandleFault, RoomAfterEviction, Listed, FromBytes, ToBytes, Patch;
    if !op.Exec? {
      TrapIff(k, op.space, op.addr, op.size, op.Write?);
      if Translate(k.spaces[op.space], k.frames, op.addr, op.size, op.Write?) == PageFaultException {
        HandleFaultKeeps(k, op.space, VirtualPage(op.addr));
        FaultQueues(k, op.space, VirtualPage(op.addr));
      }
    }
  }

  /** What a fault under FIFO does to the tables: the page gets the victim's frame, or the first free one;
      the victim is no longer valid or dirty; all else, use bits included, stays. */
  lemma FaultTables(k: Kernel, s: nat, v: nat, s': nat, v': nat)
    requires Inv(k) && HasPage(k, s, v) && !EntryOf(k, s, v).valid && HasPage(k, s', v') && k.policy == Fifo
    ensures RoomAfterEviction(k) && HasPage(HandleFault(k, s, v), s', v')
    ensures var e, e' := EntryOf(k, s', v'), EntryOf(HandleFault(k, s, v), s', v');
            var full := |k.core| == k.frames;
            e' == if (s', v') == (s, v) then
                    e.(valid := true, physicalPage := if full then k.core[0].physicalPage else FirstClear(k.used))
                  else if full && (s', v') == (k.core[0].space, k.core[0].virtualPage) then e.(valid := false, dirty := false)
                  else e
  {
    hide CleanPagesBacked;
    HandleFaultKeeps(k, s, v);
    if |k.core| == k.frames {
      OneFrameIsFree(k);
      assert IsResident(k, k.core[0]);
    }
  }

  /** A full memory has no free frame, so eviction frees the one that is taken. */
  lemma OneFrameIsFree(k: Kernel)
    requires Inv(k) && |k.core| == k.frames && k.policy == Fifo
    ensures MakeRoom(k).used == k.used[k.core[0].physicalPage := false]
    ensures FirstClear(MakeRoom(k).used) == k.core[0].physicalPage
  {
    hide CleanPagesBacked;
    AllUsed(k);
    var f := k.core[0].physicalPage;
    FirstClearIs(k.used[f := false], f);
  }

  lemma AllUsed(k: Kernel)
    requires Inv(k) && |k.core| == k.frames
    ensures forall f :: 0 <= f < k.frames ==> k.used[f]
  {
    hide CleanPagesBacked, CoreMatchesTables;
    var frames := CoreFrames(k.core);
    FrameCount(k.core);
    AllBelow(frames, k.frames);
  }

  lemma {:induction false} FrameCount(core: seq<CorePage>)
    requires FramesDistinct(core)
    ensures |CoreFrames(core)| == |core|
  {
    if core == [] {
      assert CoreFrames(core) == {};
    } else {
      var rest, last := core[..|core| - 1], core[|core| - 1];
      FrameCount(rest);
      assert core == rest + [last];
      assert CoreFrames(core) == CoreFrames(rest) + {last.physicalPage};
    }
  }

  lemma {:induction false} AllBelow(s: set<int>, n: nat)
    requires |s| == n && forall x :: x in s ==> 0 <= x < n
    ensures forall x :: 0 <= x < n ==> x in s
  {
    if n > 0 {
      if n - 1 !in s {
        assert forall x :: x in s ==> x < n - 1;
        TooMany(s, n - 1);
      } else {
        AllBelow(s - {n - 1}, n - 1);
      }
    }
  }

  lemma {:induction false} TooMany(s: set<int>, n: nat)
    requires forall x :: x in s ==> 0 <= x < n
    ensures |s| <= n
  {
    if n > 0 {
      TooMany(s - {n - 1}, n - 1);
    } else {
      assert forall x :: x !in s;
      assert s == {};
    }
  }

  /** An access in memory sets the use bit of its page, and a write its dirty bit; it changes no other
      entry and brings nothing in or out. */
  lemma AccessTouches(k: Kernel, op: Op, s: nat, v: nat)
    requires Inv(k) && Enabled(k, op) && !op.Exec? && HasPage(k, s, v)
    requires Step(k, op).1.Loaded? || Step(k, op).1 == Stored
    ensures var k', e := Step(k, op).0, EntryOf(k, s, v);
            && HasPage(k', s, v) && k'.core == k.core && k'.used == k.used
            && EntryOf(k', s, v) == if (s, v) == PageOf(op) then e.(use := true, dirty := e.dirty || op.Write?) else e
  {
    hide HandleFault, RoomAfterEviction, FromBytes, ToBytes, Patch, CleanPagesBacked, UsedMatchesCore, FramesDistinct, CoreMatchesTables;
  }

  lemma NextQueues(frames: nat, k: Kernel, op: Op, k': Kernel, r: Result)
    requires Inv(k) && k.policy == Fifo && k.frames == frames < 0x1_0000_0000 && IsStep(k, op, k', r)
    ensures k'.policy == Fifo && |k.core| <= frames
    ensures Listed(k'.core) == if !op.Exec? && r == Faulted
                               then (if |k.core| == frames then Listed(k.core)[1..] else Listed(k.core)) + [PageOf(op)]
                               else Listed(k.core)
  {
    hide Listed;
    StepQueues(k, op);
  }

  /** A permitted access faults exactly when its page is not in memory. */
  lemma FaultsIffAway(k: Kernel, op: Op, k': Kernel, r: Result)
    requires Inv(k) && k.frames < 0x1_0000_0000 && IsStep(k, op, k', r) && !op.Exec? && !r.Rejected?
    ensures r == Faulted <==> !InMemory(k, PageOf(op))
  {
    hide HandleFault, RoomAfterEviction, FromBytes, ToBytes, Patch;
    TrapIff(k, op.space, op.addr, op.size, op.Write?);
    if Translate(k.spaces[op.space], k.frames, op.addr, op.size, op.Write?) == PageFaultException {
      HandleFaultKeeps(k, op.space, VirtualPage(op.addr));
    }
  }

  lemma NextBrought(ops: seq<Op>, rs: seq<Result>, m: nat)
    requires m < |ops| == |rs|
    ensures Brought(ops[..m + 1], rs[..m + 1])
         == if !ops[m].Exec? && rs[m] == Faulted then Brought(ops[..m], rs[..m]) + [PageOf(ops[m])] else Brought(ops[..m], rs[..m])
  {
    assert ops[..m + 1][..m] == ops[..m] && rs[..m + 1][..m] == rs[..m];
  }

  lemma NothingBrought(ops: seq<Op>, rs: seq<Result>)
    requires |ops| == |rs|
    ensures Brought(ops[..0], rs[..0]) == []
  {
  }

  lemma NothingListed(frames: nat)
    requires frames > 0
    ensures Listed(Boot(Fifo, frames).core) == Last([], frames)
  {
  }

  // ---------------------------------------------------------------- every run

  /** Over every run with FIFO replacement, memory holds exactly the pages brought in last, as many as
      there are frames, in the order in which they came; and a permitted access faults exactly when its
      page is not one of them. */
  lemma {:induction false} FifoKeepsNewest(frames: nat, ks: seq<Kernel>, ops: seq<Op>, rs: seq<Result>, n: nat)
    requires IsRun(Fifo, frames, ks, ops, rs) && n <= |ops|
    ensures Inv(ks[n]) && ks[n].frames == frames && ks[n].policy == Fifo
    ensures Listed(ks[n].core) == Last(Brought(ops[..n], rs[..n]), frames)
    ensures forall p: PageId :: InMemory(ks[n], p) <==> p in Last(Brought(ops[..n], rs[..n]), frames)
    ensures n < |ops| && !ops[n].Exec? && !rs[n].Rejected? ==>
              (rs[n] == Faulted <==> PageOf(ops[n]) !in Last(Brought(ops[..n], rs[..n]), frames))
  {
    hide IsStep, Refines, CoreMatchesTables, UsedMatchesCore, CleanPagesBacked, FramesDistinct, Listed, InMemory, Last, Correct, FlatRun, Brought, PageOf;
    RunRefines(Fifo, frames, ks, ops, rs, n);
    if n == 0 {
      assert Listed(ks[0].core) == Last(Brought(ops[..0], rs[..0]), frames) by { NothingListed(frames); NothingBrought(ops, rs); }
    } else {
      var m := n - 1;
      FifoKeepsNewest(frames, ks, ops, rs, m);
      assert IsStep(ks[m], ops[m], ks[m + 1], rs[m]);
      NextQueues(frames, ks[m], ops[m], ks[n], rs[m]);
      NextBrought(ops, rs, m);
      if !ops[m].Exec? { LastOfMore(Brought(ops[..m], rs[..m]), PageOf(ops[m]), frames); }
    }
    forall p: PageId ensures InMemory(ks[n], p) <==> p in Last(Brought(ops[..n], rs[..n]), frames) {
      ListedAreInMemory(ks[n], p);
    }
    if n < |ops| && !ops[n].Exec? && !rs[n].Rejected? {
      assert IsStep(ks[n], ops[n], ks[n + 1], rs[n]);
      FaultsIffAway(ks[n], ops[n], ks[n + 1], rs[n]);
    }
  }
}
