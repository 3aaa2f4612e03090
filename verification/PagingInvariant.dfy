/** What holds in every reachable state of the paging system, and the refinement of paged
    memory to one private flat memory per process. */
module PagingInvariant {
  import opened Basics
  import opened Bytes
  import opened BitMapSpec
  import opened PagedMemory

  // ---------------------------------------------------------------- the invariant

  /** Core-map nodes describe resident pages, and every resident page has its node. */
  ghost predicate CoreMatchesTables(k: Kernel)
    requires Shape(k)
  {
    && (forall c <- k.core :: IsResident(k, c))
    && (forall s, v :: HasPage(k, s, v) && EntryOf(k, s, v).valid ==>
          CorePage(s, EntryOf(k, s, v).physicalPage, v) in k.core)
  }

  ghost predicate IsResident(k: Kernel, c: CorePage) {
    && HasPage(k, c.space, c.virtualPage)
    && EntryOf(k, c.space, c.virtualPage).valid
    && EntryOf(k, c.space, c.virtualPage).physicalPage == c.physicalPage
  }

  ghost predicate FramesDistinct(core: seq<CorePage>) {
    forall i, j :: 0 <= i < j < |core| ==> core[i].physicalPage != core[j].physicalPage
  }

  ghost function CoreFrames(core: seq<CorePage>): set<int> {
    set c | c in core :: c.physicalPage
  }

  /** The memory manager's set bits are exactly the frames in the core map. */
  ghost predicate UsedMatchesCore(k: Kernel)
    requires Shape(k)
  {
    forall f :: 0 <= f < k.frames ==> (k.used[f] <==> f in CoreFrames(k.core))
  }

  /** A resident page that is not dirty equals its copy in the swap file or the executable. */
  ghost predicate CleanPagesBacked(k: Kernel)
    requires Shape(k)
  {
    forall s, v :: HasPage(k, s, v) && EntryOf(k, s, v).valid && !EntryOf(k, s, v).dirty ==>
      FrameBytes(k.memory, EntryOf(k, s, v).physicalPage) == BackedPage(k.spaces[s], v)
  }

  ghost predicate Inv(k: Kernel) {
    && Shape(k)
    && CoreMatchesTables(k)
    && FramesDistinct(k.core)
    && UsedMatchesCore(k)
    && CleanPagesBacked(k)
  }

  /** No process can tell the two states apart. */
  ghost predicate SameView(k: Kernel, k': Kernel)
    requires Shape(k) && Shape(k')
  {
    && |k'.spaces| == |k.spaces|
    && (forall s :: 0 <= s < |k.spaces| ==> |k'.spaces[s].table| == |k.spaces[s].table|)
    && (forall s, v :: HasPage(k, s, v) ==> TruePage(k', s, v) == TruePage(k, s, v))
  }

  /** Two resident pages in one frame are one page of one process. */
  lemma FrameHasOneOwner(k: Kernel, s: nat, v: nat, s': nat, v': nat)
    requires Inv(k) && HasPage(k, s, v) && HasPage(k, s', v')
    requires EntryOf(k, s, v).valid && EntryOf(k, s', v').valid
    requires EntryOf(k, s, v).physicalPage == EntryOf(k, s', v').physicalPage
    ensures s == s' && v == v'
  {
    var c := CorePage(s, EntryOf(k, s, v).physicalPage, v);
    var c' := CorePage(s', EntryOf(k, s', v').physicalPage, v');
    assert c in k.core && c' in k.core;
    var i :| 0 <= i < |k.core| && k.core[i] == c;
    var j :| 0 <= j < |k.core| && k.core[j] == c';
  }

  lemma PatchFrame(memory: seq<Byte>, f: nat, o: nat, bs: seq<Byte>, g: nat)
    requires o + |bs| <= PAGE_SIZE
    requires (f + 1) * PAGE_SIZE <= |memory| && (g + 1) * PAGE_SIZE <= |memory|
    ensures FrameBytes(Patch(memory, f * PAGE_SIZE + o, bs), g)
         == if g == f then Patch(FrameBytes(memory, f), o, bs) else FrameBytes(memory, g)
  {
  }

  lemma ReplaceFrame(memory: seq<Byte>, f: nat, page: seq<Byte>, g: nat)
    requires |page| == PAGE_SIZE
    requires (f + 1) * PAGE_SIZE <= |memory| && (g + 1) * PAGE_SIZE <= |memory|
    ensures FrameBytes(Patch(memory, f * PAGE_SIZE, page), g) == if g == f then page else FrameBytes(memory, g)
  {
  }

  // ---------------------------------------------------------------- use bits

  /** `b` is `a` up to use bits. */
  ghost predicate SameButUse(a: Space, b: Space) {
    && b.exe == a.exe && b.stored == a.stored && b.swap == a.swap && |b.table| == |a.table|
    && forall v :: 0 <= v < |a.table| ==> b.table[v] == a.table[v].(use := b.table[v].use)
  }

  lemma SweptKeepsAllButUse(core: seq<CorePage>, frames: nat, spaces: seq<Space>)
    requires CoreInRange(core, frames, spaces)
    ensures forall s :: 0 <= s < |spaces| ==> SameButUse(spaces[s], Swept(core, frames, spaces)[s])
  {
    if core != [] {
      SweptKeepsAllButUse(core[..|core| - 1], frames, spaces);
    }
  }

  lemma SweepKeepsAllButUse(k: Kernel)
    requires Shape(k) && |k.core| > 0
    ensures forall s :: 0 <= s < |k.spaces| ==> SameButUse(k.spaces[s], SpacesAfterSweep(k)[s])
  {
    SweptKeepsAllButUse(k.core[..PassedOver(k.core, k.frames, k.spaces)], k.frames, k.spaces);
  }

  lemma UseBitsDoNotMatter(k: Kernel, spaces: seq<Space>)
    requires Inv(k) && |spaces| == |k.spaces|
    requires forall s :: 0 <= s < |spaces| ==> SameButUse(k.spaces[s], spaces[s])
    ensures Inv(k.(spaces := spaces)) && SameView(k, k.(spaces := spaces))
  {
    var k' := k.(spaces := spaces);
    forall s | 0 <= s < |spaces| ensures SpaceShape(spaces[s], k.frames) {
      assert SameButUse(k.spaces[s], spaces[s]);
    }
    assert forall s, v :: HasPage(k', s, v) ==> HasPage(k, s, v);
    assert forall c <- k.core :: IsResident(k, c);
    forall s, v | HasPage(k', s, v)
      ensures EntryOf(k', s, v) == EntryOf(k, s, v).(use := EntryOf(k', s, v).use)
      ensures BackedPage(spaces[s], v) == BackedPage(k.spaces[s], v)
    {
      assert SameButUse(k.spaces[s], spaces[s]);
    }
  }

  // ---------------------------------------------------------------- eviction

  lemma RemoveIndex(core: seq<CorePage>, i: nat)
    requires i < |core| && FramesDistinct(core)
    ensures var rest := core[..i] + core[i + 1..];
            && FramesDistinct(rest)
            && CoreFrames(rest) == CoreFrames(core) - {core[i].physicalPage}
            && (forall c :: c in rest <==> c in core && c != core[i])
  {
    var rest := core[..i] + core[i + 1..];
    forall c | c in core && c != core[i] ensures c in rest {
      var j :| 0 <= j < |core| && core[j] == c;
      assert rest[if j < i then j else j - 1] == c;
    }
    forall c | c in rest ensures c in core && c.physicalPage != core[i].physicalPage {
      var j :| 0 <= j < |rest| && rest[j] == c;
      assert c == core[if j < i then j else j + 1];
    }
    forall f | f in CoreFrames(core) && f != core[i].physicalPage ensures f in CoreFrames(rest) {
      var c :| c in core && c.physicalPage == f;
    }
  }

  /** `pageOut` leaves the true contents of `v` in its backing copy and the other pages alone. */
  lemma PageOutBacks(sp: Space, memory: seq<Byte>, frames: nat, v: nat, u: nat)
    requires SpaceShape(sp, frames) && v < |sp.table| && u < |sp.table| && |memory| == frames * PAGE_SIZE
    ensures var out := PageOut(sp, memory, frames, v);
            && (u != v ==> out.table[u] == sp.table[u])
            && BackedPage(out, u) ==
               if u == v && sp.table[v].dirty then FrameBytes(memory, sp.table[v].physicalPage) else BackedPage(sp, u)
  {
    if sp.table[v].dirty {
      ReplaceFrame(sp.swap, v, FrameBytes(memory, sp.table[v].physicalPage), u);
    }
  }

  lemma WithoutPageTables(k: Kernel, i: nat, s: nat, v: nat)
    requires Inv(k) && i < |k.core| && HasPage(k, s, v)
    ensures var c, k' := k.core[i], WithoutPage(k, i);
            && HasPage(k', s, v)
            && (if s == c.space && v == c.virtualPage then !EntryOf(k', s, v).valid
                else EntryOf(k', s, v) == EntryOf(k, s, v) && BackedPage(k'.spaces[s], v) == BackedPage(k.spaces[s], v))
            && TruePage(k', s, v) == TruePage(k, s, v)
  {
    var c := k.core[i];
    assert c in k.core && IsResident(k, c);
    if s == c.space {
      PageOutBacks(k.spaces[s], k.memory, k.frames, c.virtualPage, v);
    }
  }

  /** Paging out a page hides nothing from any process. */
  lemma PageOutKeeps(k: Kernel, i: nat)
    requires Inv(k) && i < |k.core|
    ensures Inv(WithoutPage(k, i)) && SameView(k, WithoutPage(k, i))
  {
    var c, k' := k.core[i], WithoutPage(k, i);
    RemoveIndex(k.core, i);
    forall s, v | HasPage(k', s, v)
      ensures HasPage(k, s, v) && TruePage(k', s, v) == TruePage(k, s, v)
      ensures EntryOf(k', s, v).valid ==> CorePage(s, EntryOf(k', s, v).physicalPage, v) in k'.core
      ensures EntryOf(k', s, v).valid && !EntryOf(k', s, v).dirty ==>
                FrameBytes(k'.memory, EntryOf(k', s, v).physicalPage) == BackedPage(k'.spaces[s], v)
    {
      WithoutPageTables(k, i, s, v);
    }
    forall d | d in k'.core ensures IsResident(k', d) {
      assert IsResident(k, d);
      WithoutPageTables(k, i, d.space, d.virtualPage);
      assert c in k.core && IsResident(k, c);
    }
  }

  lemma EvictOneKeeps(k: Kernel)
    requires Inv(k) && |k.core| > 0
    ensures Inv(EvictOne(k)) && SameView(k, EvictOne(k))
  {
    var spaces := SpacesAfterSweep(k);
    SweepKeepsAllButUse(k);
    UseBitsDoNotMatter(k, spaces);
    PageOutKeeps(k.(spaces := spaces), VictimIndex(k));
  }

  // ---------------------------------------------------------------- page-in

  ghost function Below(n: nat): (r: set<int>)
    ensures |r| == n && forall f :: f in r <==> 0 <= f < n
  {
    if n == 0 then {} else Below(n - 1) + {n - 1}
  }

  /** Distinct frames below `frames` leave a clear bit when there are fewer than `frames`. */
  lemma FreeFrameExists(k: Kernel)
    requires Inv(k) && |k.core| < k.frames
    ensures FirstClear(k.used) >= 0
  {
    if FirstClear(k.used) == -1 {
      FramesAtMost(k.core);
      SubsetSize(Below(k.frames), CoreFrames(k.core));
    }
  }

  lemma FramesAtMost(core: seq<CorePage>)
    ensures |CoreFrames(core)| <= |core|
  {
    if core != [] {
      FramesAtMost(core[1..]);
      assert CoreFrames(core) == CoreFrames(core[1..]) + {core[0].physicalPage};
    }
  }

  lemma LoadPageTables(k: Kernel, s: nat, v: nat, f: nat, s': nat, v': nat)
    requires Inv(k) && HasPage(k, s, v) && f < k.frames && !k.used[f] && !EntryOf(k, s, v).valid
    requires HasPage(k, s', v')
    ensures var k' := LoadPage(k, s, v, f);
            && HasPage(k', s', v')
            && BackedPage(k'.spaces[s'], v') == BackedPage(k.spaces[s'], v')
            && TruePage(k', s', v') == TruePage(k, s', v')
            && EntryOf(k', s', v') == if s' == s && v' == v
                                      then EntryOf(k, s, v).(physicalPage := f, valid := true)
                                      else EntryOf(k, s', v')
  {
    var e, page := EntryOf(k, s', v'), BackedPage(k.spaces[s], v);
    if e.valid {
      assert CorePage(s', e.physicalPage, v') in k.core;
      ReplaceFrame(k.memory, f, page, e.physicalPage);
    } else if s' == s && v' == v {
      ReplaceFrame(k.memory, f, page, f);
    }
  }

  lemma AppendFrame(core: seq<CorePage>, c: CorePage)
    requires FramesDistinct(core) && c.physicalPage !in CoreFrames(core)
    ensures FramesDistinct(core + [c])
    ensures CoreFrames(core + [c]) == CoreFrames(core) + {c.physicalPage}
  {
    forall i | 0 <= i < |core| ensures core[i].physicalPage != c.physicalPage {
      assert core[i] in core;
    }
    assert c in core + [c];
    forall g | g in CoreFrames(core) ensures g in CoreFrames(core + [c]) {
      var d :| d in core && d.physicalPage == g;
      assert d in core + [c];
    }
  }

  lemma LoadPageKeeps(k: Kernel, s: nat, v: nat, f: nat)
    requires Inv(k) && HasPage(k, s, v) && f < k.frames && |k.core| < k.frames
    requires !k.used[f] && !EntryOf(k, s, v).valid
    ensures Inv(LoadPage(k, s, v, f)) && SameView(k, LoadPage(k, s, v, f))
  {
    var k' := LoadPage(k, s, v, f);
    AppendFrame(k.core, CorePage(s, f, v));
    forall s', v' | HasPage(k', s', v')
      ensures HasPage(k, s', v') && TruePage(k', s', v') == TruePage(k, s', v')
      ensures EntryOf(k', s', v').valid ==> CorePage(s', EntryOf(k', s', v').physicalPage, v') in k'.core
      ensures EntryOf(k', s', v').valid && !EntryOf(k', s', v').dirty ==>
                FrameBytes(k'.memory, EntryOf(k', s', v').physicalPage) == BackedPage(k'.spaces[s'], v')
    {
      LoadPageTables(k, s, v, f, s', v');
    }
    forall c | c in k'.core ensures IsResident(k', c) {
      if c in k.core {
        assert IsResident(k, c);
        LoadPageTables(k, s, v, f, c.space, c.virtualPage);
      }
    }
  }

  /** The handler always finds a frame and room in the core map, and is invisible. */
  lemma HandleFaultKeeps(k: Kernel, s: nat, v: nat)
    requires Inv(k) && HasPage(k, s, v) && !EntryOf(k, s, v).valid
    ensures RoomAfterEviction(k)
    ensures Inv(HandleFault(k, s, v)) && SameView(k, HandleFault(k, s, v))
  {
    if |k.core| == k.frames {
      EvictOneKeeps(k);
    }
    var k1 := MakeRoom(k);
    FreeFrameExists(k1);
    assert !EntryOf(k1, s, v).valid by { EvictionInvalidates(k, s, v); }
    LoadPageKeeps(k1, s, v, FirstClear(k1.used));
  }

  /** Eviction never makes a page resident. */
  lemma EvictionInvalidates(k: Kernel, s: nat, v: nat)
    requires Inv(k) && HasPage(k, s, v) && !EntryOf(k, s, v).valid
    ensures !EntryOf(MakeRoom(k), s, v).valid
  {
    if |k.core| == k.frames {
      SweepKeepsAllButUse(k);
      var swept := k.(spaces := SpacesAfterSweep(k));
      assert SameButUse(k.spaces[s], swept.spaces[s]);
      UseBitsDoNotMatter(k, swept.spaces);
      WithoutPageTables(swept, VictimIndex(k), s, v);
    }
  }
}
