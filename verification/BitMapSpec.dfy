/** What the bitmap operations mean, on the sequence of bits the words of a `BitMap` hold. */
module BitMapSpec {

  /** The first clear bit, or -1 when every bit is set. */
  function FirstClear(bits: seq<bool>): (r: int)
    ensures -1 <= r < |bits|
    ensures r >= 0 ==> !bits[r] && forall i :: 0 <= i < r ==> bits[i]
    ensures r == -1 ==> forall i :: 0 <= i < |bits| ==> bits[i]
  {
    if bits == [] then -1
    else if !bits[0] then 0
    else
      var r := FirstClear(bits[1..]);
      if r == -1 then -1 else r + 1
  }

  lemma FirstClearIs(bits: seq<bool>, r: int)
    requires -1 <= r < |bits|
    requires r >= 0 ==> !bits[r]
    requires forall i :: 0 <= i < (if r == -1 then |bits| else r) ==> bits[i]
    ensures FirstClear(bits) == r
  {
  }

  function NumClear(bits: seq<bool>): nat {
    if bits == [] then 0 else NumClear(bits[..|bits| - 1]) + if bits[|bits| - 1] then 0 else 1
  }

  lemma {:induction false} NumClearOfUpdate(bits: seq<bool>, i: nat)
    requires i < |bits| && !bits[i]
    ensures NumClear(bits[i := true]) == NumClear(bits) - 1
  {
    var n := |bits| - 1;
    if i == n {
      assert bits[i := true][..n] == bits[..n];
    } else {
      NumClearOfUpdate(bits[..n], i);
      assert bits[i := true][..n] == bits[..n][i := true];
    }
  }

  /** A clear bit exists exactly when the count of clear bits is positive. */
  lemma {:induction false} FirstClearIff(bits: seq<bool>)
    ensures FirstClear(bits) >= 0 <==> NumClear(bits) > 0
  {
    if bits != [] {
      var n := |bits| - 1;
      FirstClearIff(bits[..n]);
      assert FirstClear(bits[..n]) >= 0 ==> !bits[..n][FirstClear(bits[..n])];
      assert FirstClear(bits) >= 0 && FirstClear(bits) < n ==> !bits[..n][FirstClear(bits)];
    }
  }

  /** The bits found and marked by `n` calls of `Find`, and the map they leave. */
  function FindMany(bits: seq<bool>, n: nat): (r: (seq<nat>, seq<bool>))
    requires n <= NumClear(bits)
    ensures |r.0| == n && |r.1| == |bits|
    decreases n
  {
    if n == 0 then ([], bits)
    else
      FirstClearIff(bits);
      var i := FirstClear(bits);
      NumClearOfUpdate(bits, i);
      var rest := FindMany(bits[i := true], n - 1);
      ([i] + rest.0, rest.1)
  }

  /** No element occurs twice. */
  ghost predicate NoDup<T(!new)>(s: seq<T>) {
    forall i, j :: 0 <= i < j < |s| ==> s[i] != s[j]
  }

  /** Enough clear bits are found one by one: they were clear, are distinct, and exactly
      they become set. */
  lemma {:induction false} FindManyIsExact(bits: seq<bool>, n: nat)
    requires n <= NumClear(bits)
    ensures var (found, after) := FindMany(bits, n);
            && NoDup(found)
            && (forall s <- found :: s < |bits| && !bits[s])
            && (forall s :: 0 <= s < |bits| ==> (after[s] <==> bits[s] || s in found))
    decreases n
  {
    if n > 0 {
      FirstClearIff(bits);
      var i := FirstClear(bits);
      NumClearOfUpdate(bits, i);
      FindManyIsExact(bits[i := true], n - 1);
      var rest := FindMany(bits[i := true], n - 1).0;
      assert forall j :: 0 <= j < |rest| ==> rest[j] in rest;
      assert forall s :: s in [i] + rest <==> s == i || s in rest;
    }
  }

  /** They are the first clear bits, in increasing order. */
  lemma {:induction false} FindManyIsFirstFit(bits: seq<bool>, n: nat)
    requires n <= NumClear(bits)
    ensures var found := FindMany(bits, n).0;
            && (forall i, j :: 0 <= i < j < n ==> found[i] < found[j])
            && forall s, x :: 0 <= s < |bits| && !bits[s] && s !in found && x in found ==> x < s
    decreases n
  {
    hide NumClear, FirstClear, NoDup;
    if n > 0 {
      FirstClearIff(bits);
      var i := FirstClear(bits);
      NumClearOfUpdate(bits, i);
      FindManyIsFirstFit(bits[i := true], n - 1);
      FindManyIsExact(bits[i := true], n - 1);
      var rest := FindMany(bits[i := true], n - 1).0;
      assert forall j :: 0 <= j < |rest| ==> rest[j] in rest;
      assert forall s :: s in [i] + rest <==> s == i || s in rest;
    }
  }

  /** Clearing every bit of `which`. */
  function ClearMany(bits: seq<bool>, which: seq<nat>): (r: seq<bool>)
    requires forall s <- which :: s < |bits|
    ensures |r| == |bits|
    ensures forall s :: 0 <= s < |bits| ==> (r[s] <==> bits[s] && s !in which)
  {
    if which == [] then bits
    else
      assert forall i :: 0 <= i < |which| ==> which[i] in which;
      ClearMany(bits, which[..|which| - 1])[which[|which| - 1] := false]
  }
}
