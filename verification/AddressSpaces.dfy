/** How large an address space is and what it holds at first, and so which accesses of a run are
    rejected. */
module AddressSpaces {
  import opened Basics
  import opened Bytes
  import opened PagedMemory
  import opened PagingInvariant
  import opened PagingRefinement

  /** Bytes of code, initialised and uninitialised data, stack and arguments. */
  function Total(exe: Executable): nat {
    exe.code.size + exe.initData.size + exe.uninitSize + 1024 + 512
  }

  lemma RoundedUp(n: nat, s: nat)
    requires s > 0
    ensures n <= DivRoundUp(n, s) * s < n + s
  {
    assert n == n / s * s + n % s;
    if n % s > 0 { assert (n / s + 1) * s == n / s * s + s; }
  }

  /** The least number of whole pages that holds all of it. */
  lemma ImageSize(exe: Executable)
    ensures exe.code.size + exe.initData.size + exe.uninitSize + 1024 + 512 <= |Image(exe)|
    ensures |Image(exe)| < exe.code.size + exe.initData.size + exe.uninitSize + 1024 + 512 + 128
    ensures |Image(exe)| % 128 == 0
  {
    RoundedUp(exe.code.size + exe.initData.size + exe.uninitSize + USER_STACK_SIZE + ARGUMENT_SIZE, PAGE_SIZE);
  }

  predicate Within(seg: Segment, a: int) { seg.virtualAddr <= a < seg.virtualAddr + seg.size }

  /** At first it holds the executable's code, elsewhere its initialised data, and zeros; also where
      the file ends early. */
  lemma ImageContents(exe: Executable, a: nat)
    requires a < |Image(exe)|
    ensures Within(exe.code, a) ==>
              var at := exe.code.inFileAddr + (a - exe.code.virtualAddr);
              Image(exe)[a] == if at < |exe.file| then exe.file[at] else 0
    ensures Within(exe.initData, a) && !Within(exe.code, a) ==>
              var at := exe.initData.inFileAddr + (a - exe.initData.virtualAddr);
              Image(exe)[a] == if at < |exe.file| then exe.file[at] else 0
    ensures !Within(exe.code, a) && !Within(exe.initData, a) ==> Image(exe)[a] == 0
  {
  }

  // ---------------------------------------------------------------- every run

  /** The executable of process `s`. */
  function ExeOf(ops: seq<Op>, s: nat): Executable
    requires s < Execs(ops)
  {
    var n := |ops| - 1;
    if ops[n].Exec? && s == Execs(ops[..n]) then ops[n].exe else ExeOf(ops[..n], s)
  }

  lemma {:induction false} SpaceSize(ops: seq<Op>, rs: seq<Result>, s: nat)
    requires |ops| == |rs| && s < Execs(ops)
    ensures s < |FlatRun(ops, rs)| && |FlatRun(ops, rs)[s]| == |Image(ExeOf(ops, s))|
  {
    hide Image;
    var n := |ops| - 1;
    FlatCount(ops, rs);
    FlatCount(ops[..n], rs[..n]);
    if s < Execs(ops[..n]) { SpaceSize(ops[..n], rs[..n], s); }
  }

  /** Over every run: an access is rejected if and only if it is misaligned or reaches beyond the
      whole pages that hold the process's code, data, stack and arguments. */
  lemma RejectedIff(policy: Policy, frames: nat, ks: seq<Kernel>, ops: seq<Op>, rs: seq<Result>, n: nat, size: nat)
    requires IsRun(policy, frames, ks, ops, rs) && n < |ops| && !ops[n].Exec?
    requires ops[n].space < Execs(ops[..n]) && size % 128 == 0
    requires var total := Total(ExeOf(ops[..n], ops[n].space)); total <= size < total + 128
    ensures rs[n].Rejected?
            <==> ops[n].addr % ops[n].size != 0 || ops[n].addr % 0x1_0000_0000 + ops[n].size > size
    ensures rs[n].Rejected? ==> rs[n].trap == AddressErrorException
  {
    hide IsStep, Refines, Image, CoreMatchesTables, UsedMatchesCore, CleanPagesBacked, Inv, FlatRun;
    var exe := ExeOf(ops[..n], ops[n].space);
    RunRefines(policy, frames, ks, ops, rs, n + 1);
    SpaceSize(ops[..n], rs[..n], ops[n].space);
    ImageSize(exe);
    assert |Image(exe)| == size;
    assert Correct(FlatRun(ops[..n], rs[..n]), ops[n], rs[n]);
  }

  /** Processes are those that were started. */
  lemma SpacesStarted(policy: Policy, frames: nat, ks: seq<Kernel>, ops: seq<Op>, rs: seq<Result>, n: nat)
    requires IsRun(policy, frames, ks, ops, rs) && n < |ops|
    ensures Execs(ops[..n]) == |ks[n].spaces| && (!ops[n].Exec? ==> ops[n].space < Execs(ops[..n]))
  {
    hide CoreMatchesTables, UsedMatchesCore, CleanPagesBacked, FlatRun;
    RunRefines(policy, frames, ks, ops, rs, n);
    FlatCount(ops[..n], rs[..n]);
    assert IsStep(ks[n], ops[n], ks[n + 1], rs[n]);
  }
}
