/**
 * HVACInterfaceManager: the in-place right rotation of a convergence-log array and the
 * module's clear_state.
 */
module HVACInterfaceManager {

  /** DataConvergParams::ConvergLogStackDepth, the number of slots in a convergence log. */
  const ConvergLogStackDepth: nat := 10

  /** The sequence rotated right by one place: the last element moves to the front. */
  function RotatedRight(s: seq<real>): (r: seq<real>)
    requires |s| > 0
    ensures |r| == |s|
  {
    [s[|s| - 1]] + s[..|s| - 1]
  }

  /** The sequence rotated left by one place: the first element moves to the back. */
  function RotatedLeft(s: seq<real>): (r: seq<real>)
    requires |s| > 0
    ensures |r| == |s|
  {
    s[1..] + [s[0]]
  }

  /**
   * rshift1: rotates the array right by one place with a descending loop; a[0] receives the
   * old last element and every other slot the old element before it.
   */
  method RShift1(a: array<real>)
    requires a.Length > 0
    modifies a
    ensures a[..] == RotatedRight(old(a[..]))
    ensures a[0] == old(a[a.Length - 1])
    ensures forall i :: 0 < i < a.Length ==> a[i] == old(a[i - 1])
  {
    var n := a.Length;
    var lastVal := a[n - 1];
    var i := n - 1;
    while i > 0
      invariant 0 <= i <= n - 1
      invariant forall k :: i < k < n ==> a[k] == old(a[k - 1])
      invariant forall k :: 0 <= k <= i ==> a[k] == old(a[k])
    {
      a[i] := a[i - 1];
      i := i - 1;
    }
    a[0] := lastVal;
    assert a[..] == RotatedRight(old(a[..])) by {
      var r := RotatedRight(old(a[..]));
      forall k | 0 <= k < n ensures a[k] == r[k] {
        if k > 0 { assert r[k] == old(a[..])[k - 1]; }
      }
    }
  }

  /** A rotation is a permutation: it keeps every element, with its multiplicity. */
  lemma RotatedRightIsPermutation(s: seq<real>)
    requires |s| > 0
    ensures multiset(RotatedRight(s)) == multiset(s)
  {
    assert s == s[..|s| - 1] + [s[|s| - 1]];
  }

  /** Rotating left undoes rotating right. */
  lemma RotatedLeftUndoesRight(s: seq<real>)
    requires |s| > 0
    ensures RotatedLeft(RotatedRight(s)) == s
  {
  }

  /** `k` successive right rotations. */
  function RotatedRightN(s: seq<real>, k: nat): (r: seq<real>)
    requires |s| > 0
    ensures |r| == |s|
  {
    if k == 0 then s else RotatedRight(RotatedRightN(s, k - 1))
  }

  /** After `k` rotations the last `k` elements lead, in their original order. */
  lemma {:induction false} RotatedRightNSplit(s: seq<real>, k: nat)
    requires 0 < |s| && k <= |s|
    ensures RotatedRightN(s, k) == s[|s| - k..] + s[..|s| - k]
  {
    if k > 0 {
      RotatedRightNSplit(s, k - 1);
      var n := |s|;
      var p := RotatedRightN(s, k - 1);
      assert p[n - 1] == s[n - k];
      assert p[..n - 1] == s[n - k + 1..] + s[..n - k] by {
        assert p == s[n - (k - 1)..] + s[..n - (k - 1)];
      }
      assert s[n - k..] == [s[n - k]] + s[n - k + 1..];
    }
  }

  /** A log of depth n comes back to its original order after n calls of rshift1. */
  lemma FullCircle(s: seq<real>)
    requires |s| > 0
    ensures RotatedRightN(s, |s|) == s
  {
    RotatedRightNSplit(s, |s|);
    assert s[|s| - |s|..] == s;
  }

  /** Plant common-pipe report data (only what clear_state touches is relevant here). */
  datatype CommonPipeData = CommonPipeData(flowDir: int, flow: real, temp: real)

  /** HVACInterfaceManagerData: the module's global state. */
  class HVACInterfaceManagerData {
    var commonPipeSetupFinished: bool
    var plantCommonPipe: seq<CommonPipeData>
    var tmpRealARR: array<real>

    constructor ()
      ensures !commonPipeSetupFinished && plantCommonPipe == []
      ensures fresh(tmpRealARR) && tmpRealARR.Length == ConvergLogStackDepth
    {
      commonPipeSetupFinished := false;
      plantCommonPipe := [];
      tmpRealARR := new real[ConvergLogStackDepth](_ => 0.0);
    }

    /** clear_state: the set-up flag goes back to false and the common-pipe array is deallocated. */
    method ClearState()
      modifies this`commonPipeSetupFinished, this`plantCommonPipe
      ensures !commonPipeSetupFinished
      ensures plantCommonPipe == []
    {
      commonPipeSetupFinished := false;
      plantCommonPipe := [];
    }
  }
}
