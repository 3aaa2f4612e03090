/** The core map as it is built: a singly linked list of resident pages with `head`, `tail`
    and `size`, walked and unlinked in place. */
module CoreMap {
  import opened Bytes
  import opened PagedMemory

  /** No two nodes are for the same page of the same process. */
  ghost predicate DistinctPages(core: seq<CorePage>) {
    forall i, j :: 0 <= i < j < |core| ==>
      core[i].space != core[j].space || core[i].virtualPage != core[j].virtualPage
  }

  // ---------------------------------------------------------------- what the sweep does

  predicate Names(c: CorePage, s: int, v: int) { c.space == s && c.virtualPage == v }

  /** The sweep clears the use bits of the pages it passes over and changes nothing else. */
  lemma SweptIsExact(core: seq<CorePage>, frames: nat, spaces: seq<Space>, s: nat, v: nat)
    requires CoreInRange(core, frames, spaces) && s < |spaces| && v < |spaces[s].table|
    ensures var r := Swept(core, frames, spaces);
            r[s].table[v] == if exists c <- core :: Names(c, s, v) then spaces[s].table[v].(use := false)
                             else spaces[s].table[v]
  {
    if core != [] {
      var n := |core| - 1;
      SweptIsExact(core[..n], frames, spaces, s, v);
      assert core == core[..n] + [core[n]];
      assert (exists c <- core :: Names(c, s, v)) <==> (exists c <- core[..n] :: Names(c, s, v)) || Names(core[n], s, v);
    }
  }

  /** Clock eviction from two or more pages. */
  lemma ClockEvictsFirstUnused(core: seq<CorePage>, frames: nat, spaces: seq<Space>)
    requires CoreInRange(core, frames, spaces) && |core| >= 2 && DistinctPages(core)
    ensures var i, r := Victim(Clock, core, frames, spaces), AfterSweep(Clock, core, frames, spaces);
            && (if exists c <- core :: !InUse(c, spaces)
                then !InUse(core[i], spaces) && forall j :: 0 <= j < i ==> InUse(core[j], spaces)
                else i == 0)
            && (forall j :: 0 <= j < |core| ==>
                  (InUse(core[j], r) <==> InUse(core[j], spaces) && !InUse(core[i], spaces) && j > i))
  {
    var n := PassedOver(core, frames, spaces);
    forall j | 0 <= j < |core| ensures InUse(core[j], AfterSweep(Clock, core, frames, spaces)) <==> InUse(core[j], spaces) && j >= n {
      SweptIsExact(core[..n], frames, spaces, core[j].space, core[j].virtualPage);
      if j < n {
        assert core[..n][j] == core[j] && Names(core[j], core[j].space, core[j].virtualPage);
        assert core[j] in core[..n];
      }
    }
    assert n < |core| ==> core[n] in core;
  }

  /** Passing over one more page: its use bit is still as it was. */
  lemma SweepStep(core: seq<CorePage>, frames: nat, spaces: seq<Space>, j: nat)
    requires CoreInRange(core, frames, spaces) && DistinctPages(core) && j < |core|
    ensures Swept([], frames, spaces) == spaces
    ensures InUse(core[j], Swept(core[..j], frames, spaces)) == InUse(core[j], spaces)
    ensures Swept(core[..j + 1], frames, spaces) == ClearUse(Swept(core[..j], frames, spaces), core[j])
  {
    SweptIsExact(core[..j], frames, spaces, core[j].space, core[j].virtualPage);
    assert core[..j + 1][..j] == core[..j];
  }

  lemma NotPassed(core: seq<CorePage>, frames: nat, spaces: seq<Space>)
    requires CoreInRange(core, frames, spaces) && |core| >= 2
    ensures InCoreRange(core[0], frames, spaces)
    ensures !InUse(core[0], spaces) ==>
              Victim(Clock, core, frames, spaces) == 0 && AfterSweep(Clock, core, frames, spaces) == spaces
  {
  }

  lemma PassedOverIs(core: seq<CorePage>, frames: nat, spaces: seq<Space>, j: nat)
    requires CoreInRange(core, frames, spaces) && j <= |core|
    requires forall i :: 0 <= i < j ==> InUse(core[i], spaces)
    requires j < |core| ==> !InUse(core[j], spaces)
    ensures PassedOver(core, frames, spaces) == j
  {
  }

  // ---------------------------------------------------------------- the list

  class Node {
    const page: CorePage
    var next: Node?

    constructor (page: CorePage)
      ensures this.page == page && next == null
    {
      this.page := page;
      next := null;
    }
  }

  ghost function PagesOf(nodes: seq<Node>): (core: seq<CorePage>)
    ensures |core| == |nodes| && forall i :: 0 <= i < |core| ==> core[i] == nodes[i].page
  {
    seq(|nodes|, i requires 0 <= i < |nodes| => nodes[i].page)
  }

  class CoreMap {
    var head: Node?
    var tail: Node?
    var size: int
    const capacity: int
    ghost var nodes: seq<Node>  // the nodes reachable from head, in order

    /** The nodes reachable from `head`; nothing about `tail`. */
    ghost predicate Linked()
      reads this, nodes
    {
      && (forall i, j :: 0 <= i < j < |nodes| ==> nodes[i] != nodes[j])
      && head == (if nodes == [] then null else nodes[0])
      && (forall i, j :: 0 <= i < j < |nodes| && j == i + 1 ==> nodes[i].next == nodes[j])
      && (nodes != [] ==> nodes[|nodes| - 1].next == null)
    }

    ghost predicate TailIsLast()
      reads this
    {
      tail == if nodes == [] then null else nodes[|nodes| - 1]
    }

    ghost predicate Valid()
      reads this, nodes
    {
      Linked() && TailIsLast() && size == |nodes| <= capacity
    }

    ghost function Footprint(): set<Node>
      reads this
    {
      set n | n in nodes
    }

    ghost function Pages(): (core: seq<CorePage>)
      reads this
    {
      PagesOf(nodes)
    }

    constructor (physPages: nat)
      ensures Valid() && nodes == [] && capacity == physPages
    {
      size, capacity := 0, physPages;
      head, tail, nodes := null, null, [];
    }

    /** Appends at `tail`.  When `tail` is not the last node of the list, the new node is
        linked behind a node that is no longer in the map and is lost, though counted. */
    method AddCorePage(node: Node) returns (r: int)
      requires Linked() && node !in nodes && node != tail && node.next == null
      requires nodes != [] ==> tail != null && (TailIsLast() || tail !in nodes)
      modifies this, tail
      ensures Linked()
      ensures r == if old(size) == capacity then 1 else 0
      ensures r == 1 ==> nodes == old(nodes) && size == old(size) && head == old(head) && tail == old(tail)
      ensures r == 0 ==> size == old(size) + 1 && tail == node
      ensures r == 0 && (old(nodes) == [] || old(TailIsLast())) ==> nodes == old(nodes) + [node] && TailIsLast()
      ensures r == 0 && old(nodes) != [] && !old(TailIsLast()) ==> nodes == old(nodes) && !TailIsLast()
      ensures old(Valid()) ==> Valid()
    {
      if size == capacity {
        return 1;
      }
      size := size + 1;
      if head == null {
        head, tail := node, node;
        nodes := [node];
        return 0;
      }
      if tail == nodes[|nodes| - 1] {
        nodes := nodes + [node];
      }
      tail.next := node;
      tail := tail.next;
      return 0;
    }

    ghost function Without(i: nat): seq<Node>
      reads this
      requires i < |nodes|
    {
      nodes[..i] + nodes[i + 1..]
    }

    /** Unlinks the victim.  `tail` follows only when the list becomes empty, so the map
        stays well formed unless clock replacement picks the last of several nodes. */
    method EvictCorePage(policy: Policy, frames: nat, spaces: seq<Space>) returns (victim: Node?, after: seq<Space>)
      requires Valid() && CoreInRange(Pages(), frames, spaces) && DistinctPages(Pages())
      modifies this, Footprint()
      ensures old(size) == 0 ==> victim == null && after == spaces && unchanged(this)
      ensures old(size) > 0 ==>
                var i := Victim(policy, old(Pages()), frames, spaces);
                && victim == old(nodes)[i] && nodes == old(Without(i))
                && Linked() && size == |nodes|
                && (TailIsLast() <==> policy == Fifo || |old(nodes)| == 1 || i < |old(nodes)| - 1)
                && (!TailIsLast() ==> tail == victim)
                && after == AfterSweep(policy, old(Pages()), frames, spaces)
    {
      hide Swept, PassedOver, ClearUse, InUse, CoreInRange, DistinctPages;
      victim, after := null, spaces;
      if size == 0 {
        return;
      }
      if head == tail {
        victim := head;
        size := size - 1;
        head, tail, nodes := null, null, [];
        return;
      }
      ghost var core := Pages();
      assert head.page == core[0];
      if policy == Fifo {
        victim := RemoveHead();
        return;
      }
      NotPassed(core, frames, spaces);
      if !InUse(head.page, spaces) {
        victim := RemoveHead();
        return;
      }
      var travel, next, swept, j := SweepUntilUnused(frames, spaces);
      after := swept;
      if next != null {
        victim := next;
        RemoveAfter(travel, next, j);
      } else {
        victim := RemoveHead();
      }
    }

    method RemoveHead() returns (victim: Node)
      requires Valid() && |nodes| >= 2
      modifies this
      ensures victim == old(nodes)[0] && nodes == old(Without(0))
      ensures Linked() && TailIsLast() && size == |nodes| == old(size) - 1
    {
      assert nodes[0].next == nodes[1];
      victim := head;
      ghost var was := nodes;
      size, head, nodes := size - 1, head.next, nodes[1..];
      assert nodes == was[..0] + was[1..];
      forall i, j | 0 <= i < j < |nodes| && j == i + 1 ensures nodes[i].next == nodes[j] {
        assert was[i + 1].next == was[j + 1];
      }
    }

    method RemoveAfter(travel: Node, next: Node, ghost j: nat)
      requires Valid() && 1 <= j < |nodes| && travel == nodes[j - 1] && next == nodes[j]
      modifies this, travel
      ensures nodes == old(Without(j))
      ensures Linked() && size == |nodes| == old(size) - 1 && tail == old(tail)
      ensures TailIsLast() <==> j < |old(nodes)| - 1
    {
      assert j + 1 < |nodes| ==> nodes[j].next == nodes[j + 1];
      size := size - 1;
      travel.next := next.next;
      nodes := nodes[..j] + nodes[j + 1..];
    }

    /** The walking loop of clock replacement, with the head already seen to be in use: stops
        at the first node not in use, with `travel` just before it, clearing bits on the way. */
    method SweepUntilUnused(frames: nat, spaces: seq<Space>)
      returns (travel: Node, next: Node?, after: seq<Space>, ghost j: nat)
      requires Linked() && |nodes| >= 2 && CoreInRange(Pages(), frames, spaces) && DistinctPages(Pages())
      requires InUse(Pages()[0], spaces)
      ensures 1 <= j <= |nodes| && j == PassedOver(Pages(), frames, spaces)
      ensures travel == nodes[j - 1] && next == if j < |nodes| then nodes[j] else null
      ensures after == Swept(Pages()[..j], frames, spaces)
    {
      hide Swept, PassedOver, InUse, ClearUse;
      ghost var core := Pages();
      assert head.page == core[0] && core[..0] == [];
      SweepStep(core, frames, spaces, 0);
      after := ClearUse(spaces, head.page);
      assert nodes[0].next == nodes[1];
      travel, next, j := head, head.next, 1;
      while next != null
        invariant 1 <= j <= |nodes| && travel == nodes[j - 1]
        invariant next == if j < |nodes| then nodes[j] else null
        invariant after == Swept(core[..j], frames, spaces)
        invariant forall i :: 0 <= i < j ==> InUse(core[i], spaces)
        decreases |nodes| - j
      {
        SweepStep(core, frames, spaces, j);
        assert next.page == core[j];
        if !InUse(next.page, after) {
          break;
        }
        after := ClearUse(after, next.page);
        assert nodes[j - 1].next == nodes[j];
        assert j + 1 < |nodes| ==> nodes[j].next == nodes[j + 1];
        travel, next := travel.next, next.next;
        j := j + 1;
      }
      PassedOverIs(core, frames, spaces, j);
    }
  }
}
