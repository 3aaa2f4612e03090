/** How much room there is: what the free map counts, in terms of the files that are there. */
module FileSystemCapacity {
  import opened Basics
  import opened Bytes
  import opened BitMapSpec
  import opened DiskLayout
  import opened FileSystemSpec
  import opened FileSystemInvariant

  // ---------------------------------------------------------------- sectors in use

  ghost function SetBits(bits: seq<bool>): set<nat> {
    set s: nat | s < |bits| && bits[s]
  }

  lemma {:induction false} ClearAndSet(bits: seq<bool>)
    ensures NumClear(bits) + |SetBits(bits)| == |bits|
  {
    if bits == [] {
      assert SetBits(bits) == {};
    } else {
      var n: nat := |bits| - 1;
      ClearAndSet(bits[..n]);
      if bits[n] {
        assert SetBits(bits) == SetBits(bits[..n]) + {n};
      } else {
        assert SetBits(bits) == SetBits(bits[..n]);
      }
    }
  }

  ghost function Elements(s: seq<nat>): set<nat> {
    set x | x in s
  }

  lemma {:induction false} DistinctSize(s: seq<nat>)
    requires NoDup(s)
    ensures |Elements(s)| == |s|
  {
    if s != [] {
      var rest, last := s[..|s| - 1], s[|s| - 1];
      DistinctSize(rest);
      assert last !in rest;
      assert s == rest + [last];
      assert Elements(s) == Elements(rest) + {last};
    }
  }

  function TotalLength(files: seq<seq<nat>>): nat {
    if files == [] then 0 else TotalLength(files[..|files| - 1]) + |files[|files| - 1]|
  }

  ghost function Union(files: seq<seq<nat>>): set<nat> {
    if files == [] then {} else Union(files[..|files| - 1]) + Elements(files[|files| - 1])
  }

  lemma {:induction false} UnionIs(files: seq<seq<nat>>, x: nat)
    ensures x in Union(files) <==> exists f :: 0 <= f < |files| && x in files[f]
  {
    if files != [] {
      var rest := files[..|files| - 1];
      UnionIs(rest, x);
      if x in Union(files) && x in Union(rest) {
        var f :| 0 <= f < |rest| && x in rest[f];
        assert x in files[f];
      }
    }
  }

  lemma {:induction false} DisjointUnion(files: seq<seq<nat>>)
    requires forall f :: 0 <= f < |files| ==> NoDup(files[f])
    requires forall f, g, s :: 0 <= f < g < |files| && s in files[f] ==> s !in files[g]
    ensures |Union(files)| == TotalLength(files)
  {
    if files != [] {
      var rest, last := files[..|files| - 1], files[|files| - 1];
      assert forall f :: 0 <= f < |rest| ==> rest[f] == files[f];
      DisjointUnion(rest);
      DistinctSize(last);
      forall x | x in Elements(last) ensures x !in Union(rest) {
        UnionIs(rest, x);
      }
      assert Union(rest) !! Elements(last);
    }
  }

  /** Every sector is free or belongs to one file. */
  lemma FreeAndOwned(bits: seq<bool>, files: seq<seq<nat>>)
    requires Ownership(bits, files)
    ensures NumClear(bits) + TotalLength(files) == |bits|
  {
    hide NoDup;
    ClearAndSet(bits);
    DisjointUnion(files);
    forall x: nat ensures x in SetBits(bits) <==> x in Union(files) {
      UnionIs(files, x);
      if x in Union(files) {
        var f :| 0 <= f < |files| && x in files[f];
        assert Owned(files, x);
      }
      if x in SetBits(bits) { assert Owned(files, x); }
    }
    assert SetBits(bits) == Union(files);
  }

  // ---------------------------------------------------------------- files by name

  /** The sectors of a file of `length` bytes: its header and its data. */
  function Cost(length: nat): nat { 1 + DivRoundUp(length, 128) }

  type FileMap = map<seq<Byte>, seq<Byte>>

  /** The sectors of all files. */
  ghost function Space(files: FileMap): nat
    decreases |files|
  {
    if files == map[] then 0
    else
      var key :| key in files;
      Cost(|files[key]|) + Space(files - {key})
  }

  lemma {:induction false} SpaceOfFile(files: FileMap, key: seq<Byte>)
    requires key in files
    ensures Space(files) == Cost(|files[key]|) + Space(files - {key})
    decreases |files|
  {
    hide Cost;
    var first :| first in files && Space(files) == Cost(|files[first]|) + Space(files - {first});
    if first != key {
      SpaceOfFile(files - {first}, key);
      SpaceOfFile(files - {key}, first);
      assert files - {first} - {key} == files - {key} - {first};
    }
  }

  lemma SpaceOfMore(files: FileMap, key: seq<Byte>, contents: seq<Byte>)
    requires key !in files
    ensures Space(files[key := contents]) == Cost(|contents|) + Space(files)
    ensures |files[key := contents]| == |files| + 1
  {
    SpaceOfFile(files[key := contents], key);
    assert files[key := contents] - {key} == files;
  }

  // ---------------------------------------------------------------- files by slot

  datatype Slot = Empty | Holding(key: seq<Byte>, contents: seq<Byte>)

  ghost predicate KeysDistinct(slots: seq<Slot>) {
    forall i, j :: 0 <= i < j < |slots| && slots[i].Holding? && slots[j].Holding? ==> slots[i].key != slots[j].key
  }

  function NumHolding(slots: seq<Slot>): nat {
    if slots == [] then 0 else NumHolding(slots[..|slots| - 1]) + if slots[|slots| - 1].Holding? then 1 else 0
  }

  function SlotsSpace(slots: seq<Slot>): nat {
    if slots == [] then 0
    else SlotsSpace(slots[..|slots| - 1]) + match slots[|slots| - 1] case Empty => 0 case Holding(_, contents) => Cost(|contents|)
  }

  ghost predicate IsMapOf(files: FileMap, slots: seq<Slot>) {
    && (forall i :: 0 <= i < |slots| && slots[i].Holding? ==> slots[i].key in files && files[slots[i].key] == slots[i].contents)
    && (forall key :: key in files ==> exists i :: 0 <= i < |slots| && slots[i].Holding? && slots[i].key == key)
  }

  /** The map without the file of the last slot is that of the other slots. */
  lemma WithoutLast(files: FileMap, slots: seq<Slot>, rest: seq<Slot>, last: Slot)
    requires KeysDistinct(slots) && IsMapOf(files, slots) && slots == rest + [last]
    ensures KeysDistinct(rest)
    ensures last.Empty? ==> IsMapOf(files, rest)
    ensures last.Holding? ==>
              last.key in files && files[last.key] == last.contents && IsMapOf(files - {last.key}, rest)
  {
    assert slots[|rest|] == last && forall i :: 0 <= i < |rest| ==> rest[i] == slots[i];
    forall key | key in files && (last.Holding? ==> key != last.key)
      ensures exists i :: 0 <= i < |rest| && rest[i].Holding? && rest[i].key == key
    {
      var i :| 0 <= i < |slots| && slots[i].Holding? && slots[i].key == key;
      assert i < |rest| && rest[i] == slots[i];
    }
  }

  lemma NoFiles(files: FileMap)
    requires IsMapOf(files, [])
    ensures |files| == Space(files) == 0
  {
    assert files == map[];
  }

  /** A map with one file for each slot that holds one has as many, and takes as much space. */
  lemma {:induction false} MapOfSlots(files: FileMap, slots: seq<Slot>)
    requires KeysDistinct(slots) && IsMapOf(files, slots)
    ensures |files| == NumHolding(slots) && Space(files) == SlotsSpace(slots)
  {
    hide Cost, Space, KeysDistinct, IsMapOf;
    if slots == [] {
      NoFiles(files);
    } else {
      var rest, last := slots[..|slots| - 1], slots[|slots| - 1];
      WithoutLast(files, slots, rest, last);
      if last.Empty? {
        MapOfSlots(files, rest);
      } else {
        var fewer := files - {last.key};
        MapOfSlots(fewer, rest);
        SpaceOfMore(fewer, last.key, last.contents);
        assert fewer[last.key := last.contents] == files;
      }
    }
  }

  lemma {:induction false} FullIff(slots: seq<Slot>)
    ensures NumHolding(slots) <= |slots|
    ensures NumHolding(slots) == |slots| <==> forall i :: 0 <= i < |slots| ==> slots[i].Holding?
  {
    if slots != [] {
      var rest := slots[..|slots| - 1];
      FullIff(rest);
      assert forall i :: 0 <= i < |rest| ==> rest[i] == slots[i];
    }
  }
}
