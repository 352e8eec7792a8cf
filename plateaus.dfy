/**
 * Grouping of detected force peaks into plateaus, one plateau per climbing
 * effort. A peak joins the current plateau when it follows the previous peak
 * by less than the grouping threshold; otherwise it opens a new plateau.
 */
module Plateaus {

  /** Grouping threshold in milliseconds: consecutive peaks closer than this share a plateau. */
  const GroupingThreshold: real := 5000.0

  /** Every entry of `p` is the index of a sample in a recording of `n` samples. */
  predicate AllBelow(p: seq<nat>, n: nat) {
    forall k :: 0 <= k < |p| ==> p[k] < n
  }

  predicate Sorted(s: seq<nat>) {
    forall i, j :: 0 <= i < j < |s| ==> s[i] <= s[j]
  }

  predicate NonDecreasing(ts: seq<real>) {
    forall i, j :: 0 <= i < j < |ts| ==> ts[i] <= ts[j]
  }

  function Last(p: seq<nat>): nat
    requires |p| > 0
  {
    p[|p| - 1]
  }

  /** The peak at sample `b` follows the peak at sample `a` by less than the threshold. */
  predicate Close(ts: seq<real>, a: nat, b: nat)
    requires a < |ts| && b < |ts|
  {
    ts[b] - ts[a] < GroupingThreshold
  }

  /**
   * Each peak of `p` is close to the one just before it. Only neighbours are
   * compared, so the span from first to last peak may exceed the threshold.
   */
  predicate Chained(ts: seq<real>, p: seq<nat>)
    requires AllBelow(p, |ts|)
  {
    forall k :: 0 < k < |p| ==> CloseAt(ts, p, k)
  }

  /** The peak at position `k` of `p` is close to the one at position `k - 1`. */
  predicate CloseAt(ts: seq<real>, p: seq<nat>, k: nat)
    requires AllBelow(p, |ts|) && 0 < k < |p|
  {
    Close(ts, p[k - 1], p[k])
  }

  /** Plateau `i` of `ps` opens with a peak that is not close to the last peak of plateau `i - 1`. */
  predicate BreakAt(ts: seq<real>, ps: seq<seq<nat>>, i: nat)
    requires 0 < i < |ps| && |ps[i - 1]| > 0 && |ps[i]| > 0
    requires AllBelow(ps[i - 1], |ts|) && AllBelow(ps[i], |ts|)
  {
    !Close(ts, Last(ps[i - 1]), ps[i][0])
  }

  /** The plateaus laid end to end, in order. */
  function Flatten(ps: seq<seq<nat>>): seq<nat>
  {
    if ps == [] then [] else Flatten(ps[..|ps| - 1]) + ps[|ps| - 1]
  }

  /**
   * `ps` splits `peaks` into plateaus: read in order they give back `peaks`,
   * none is empty, each is a chain of close peaks, and the first peak of each
   * plateau is not close to the last peak of the plateau before it.
   */
  predicate IsPlateauPartition(ts: seq<real>, peaks: seq<nat>, ps: seq<seq<nat>>)
  {
    && Flatten(ps) == peaks
    && (forall i :: 0 <= i < |ps| ==> |ps[i]| > 0 && AllBelow(ps[i], |ts|) && Chained(ts, ps[i]))
    && (forall i :: 0 < i < |ps| ==> BreakAt(ts, ps, i))
  }

  /** The number of positions where a peak is not close to the peak before it. */
  function CountBreaks(ts: seq<real>, peaks: seq<nat>): nat
    requires AllBelow(peaks, |ts|)
  {
    if |peaks| < 2 then 0
    else CountBreaks(ts, peaks[..|peaks| - 1])
         + (if Close(ts, peaks[|peaks| - 2], peaks[|peaks| - 1]) then 0 else 1)
  }

  /**
   * The grouping loop. `peaks` must be non-empty: the first plateau is seeded
   * with the first peak, and an empty list stops the program there.
   */
  method GroupPeaks(ts: seq<real>, peaks: seq<nat>) returns (plateaus: seq<seq<nat>>)
    requires |peaks| > 0 && AllBelow(peaks, |ts|)
    ensures IsPlateauPartition(ts, peaks, plateaus)
    ensures |plateaus| == 1 + CountBreaks(ts, peaks)
  {
    plateaus := [];
    var current := [peaks[0]];
    assert peaks[..1] == [peaks[0]];
    FlattenSnoc([], current);
    for i := 1 to |peaks|
      invariant |current| > 0 && Last(current) == peaks[i - 1]
      invariant IsPlateauPartition(ts, peaks[..i], plateaus + [current])
      invariant |plateaus| == CountBreaks(ts, peaks[..i])
    {
      GroupStep(ts, peaks, i, plateaus, current);
      if ts[peaks[i]] - ts[peaks[i - 1]] < GroupingThreshold {
        current := current + [peaks[i]];
      } else {
        plateaus := plateaus + [current];
        current := [peaks[i]];
      }
    }
    assert peaks[..|peaks|] == peaks;
    plateaus := plateaus + [current];
  }

  /**
   * One turn of the grouping loop: a close peak extends the current plateau,
   * any other closes it and opens a new one; either way the plateaus still
   * partition the peaks seen so far and count their breaks.
   */
  lemma GroupStep(ts: seq<real>, peaks: seq<nat>, i: nat, ps: seq<seq<nat>>, c: seq<nat>)
    requires 1 <= i < |peaks| && AllBelow(peaks, |ts|)
    requires |c| > 0 && Last(c) == peaks[i - 1]
    requires IsPlateauPartition(ts, peaks[..i], ps + [c]) && |ps| == CountBreaks(ts, peaks[..i])
    ensures Close(ts, peaks[i - 1], peaks[i]) ==>
              && IsPlateauPartition(ts, peaks[..i + 1], ps + [c + [peaks[i]]])
              && |ps| == CountBreaks(ts, peaks[..i + 1])
    ensures !Close(ts, peaks[i - 1], peaks[i]) ==>
              && IsPlateauPartition(ts, peaks[..i + 1], ps + [c] + [[peaks[i]]])
              && |ps| + 1 == CountBreaks(ts, peaks[..i + 1])
  {
    CountBreaksStep(ts, peaks, i);
    if Close(ts, peaks[i - 1], peaks[i]) {
      ExtendLast(ts, peaks, i, ps, c);
    } else {
      StartNew(ts, peaks, i, ps, c);
    }
  }

  /** One more peak adds one break exactly when it is not close to the peak before it. */
  lemma CountBreaksStep(ts: seq<real>, peaks: seq<nat>, i: nat)
    requires 1 <= i < |peaks| && AllBelow(peaks, |ts|)
    ensures CountBreaks(ts, peaks[..i + 1])
            == CountBreaks(ts, peaks[..i]) + (if Close(ts, peaks[i - 1], peaks[i]) then 0 else 1)
  {
    assert peaks[..i + 1][..i] == peaks[..i];
  }

  lemma FlattenSnoc(ps: seq<seq<nat>>, q: seq<nat>)
    ensures Flatten(ps + [q]) == Flatten(ps) + q
  {
    assert (ps + [q])[..|ps|] == ps;
  }

  /** A chain stays a chain when a peak close to its last one is appended. */
  lemma ChainedSnoc(ts: seq<real>, c: seq<nat>, x: nat)
    requires |c| > 0 && AllBelow(c, |ts|) && x < |ts| && Chained(ts, c) && Close(ts, Last(c), x)
    ensures AllBelow(c + [x], |ts|) && Chained(ts, c + [x])
  {
    var d := c + [x];
    forall k | 0 < k < |d| ensures CloseAt(ts, d, k) {
      if k < |c| {
        assert CloseAt(ts, c, k);
        assert d[k - 1] == c[k - 1] && d[k] == c[k];
      }
    }
  }

  /** Appending a close peak to the last plateau keeps the partition. */
  lemma ExtendLast(ts: seq<real>, peaks: seq<nat>, i: nat, ps: seq<seq<nat>>, c: seq<nat>)
    requires 1 <= i < |peaks| && AllBelow(peaks, |ts|)
    requires IsPlateauPartition(ts, peaks[..i], ps + [c])
    requires |c| > 0 && Last(c) == peaks[i - 1] && Close(ts, peaks[i - 1], peaks[i])
    ensures IsPlateauPartition(ts, peaks[..i + 1], ps + [c + [peaks[i]]])
  {
    var x := peaks[i];
    assert peaks[..i + 1] == peaks[..i] + [x];
    FlattenSnoc(ps, c);
    FlattenSnoc(ps, c + [x]);
    var before := ps + [c];
    var qs := ps + [c + [x]];
    assert before[|ps|] == c;
    ChainedSnoc(ts, c, x);
    forall j | 0 <= j < |qs|
      ensures |qs[j]| > 0 && AllBelow(qs[j], |ts|) && Chained(ts, qs[j])
    {
      if j < |ps| { assert qs[j] == before[j]; }
    }
    forall j | 0 < j < |qs|
      ensures BreakAt(ts, qs, j)
    {
      assert BreakAt(ts, before, j);
      assert before[j - 1] == qs[j - 1];
      assert before[j][0] == qs[j][0];
    }
  }

  /** Opening a new plateau with a peak that is not close to the previous one keeps the partition. */
  lemma StartNew(ts: seq<real>, peaks: seq<nat>, i: nat, ps: seq<seq<nat>>, c: seq<nat>)
    requires 1 <= i < |peaks| && AllBelow(peaks, |ts|)
    requires IsPlateauPartition(ts, peaks[..i], ps + [c])
    requires |c| > 0 && Last(c) == peaks[i - 1] && !Close(ts, peaks[i - 1], peaks[i])
    ensures IsPlateauPartition(ts, peaks[..i + 1], ps + [c] + [[peaks[i]]])
  {
    var x := peaks[i];
    assert peaks[..i + 1] == peaks[..i] + [x];
    FlattenSnoc(ps + [c], [x]);
    var before := ps + [c];
    var qs := before + [[x]];
    forall j | 0 <= j < |qs|
      ensures |qs[j]| > 0 && AllBelow(qs[j], |ts|) && Chained(ts, qs[j])
    {
      if j < |before| { assert qs[j] == before[j]; }
    }
    forall j | 0 < j < |qs|
      ensures BreakAt(ts, qs, j)
    {
      if j < |before| {
        assert BreakAt(ts, before, j);
        assert before[j - 1] == qs[j - 1] && before[j] == qs[j];
      } else {
        assert qs[j - 1] == c;
      }
    }
  }

  /** Removing the last plateau leaves a partition of the peaks before it. */
  lemma DropLast(ts: seq<real>, peaks: seq<nat>, ps: seq<seq<nat>>)
    requires IsPlateauPartition(ts, peaks, ps) && |ps| > 0
    ensures IsPlateauPartition(ts, Flatten(ps[..|ps| - 1]), ps[..|ps| - 1])
    ensures peaks == Flatten(ps[..|ps| - 1]) + ps[|ps| - 1]
  {
    var pre := ps[..|ps| - 1];
    forall j | 0 < j < |pre|
      ensures BreakAt(ts, pre, j)
    {
      assert BreakAt(ts, ps, j);
      assert pre[j - 1] == ps[j - 1] && pre[j] == ps[j];
    }
  }

  /** The last peak of a partitioned list is the last peak of its last plateau. */
  lemma LastOfFlatten(ps: seq<seq<nat>>)
    requires |ps| > 0 && |ps[|ps| - 1]| > 0
    ensures |Flatten(ps)| > 0 && Last(Flatten(ps)) == Last(ps[|ps| - 1])
  {
  }

  /** A partition has no more plateaus than peaks, and is empty exactly when there are no peaks. */
  lemma {:induction false} PartitionSize(ts: seq<real>, peaks: seq<nat>, ps: seq<seq<nat>>)
    requires IsPlateauPartition(ts, peaks, ps)
    ensures |ps| <= |peaks|
    ensures ps == [] <==> peaks == []
    decreases |ps|
  {
    if ps != [] {
      DropLast(ts, peaks, ps);
      PartitionSize(ts, Flatten(ps[..|ps| - 1]), ps[..|ps| - 1]);
    }
  }

  /**
   * The grouping rule admits exactly one partition of a peak list: the
   * plateaus are determined by the peaks and their timestamps alone.
   */
  lemma {:induction false} PartitionUnique(ts: seq<real>, peaks: seq<nat>, ps1: seq<seq<nat>>, ps2: seq<seq<nat>>)
    requires IsPlateauPartition(ts, peaks, ps1) && IsPlateauPartition(ts, peaks, ps2)
    ensures ps1 == ps2
    decreases |peaks|
  {
    PartitionSize(ts, peaks, ps1);
    PartitionSize(ts, peaks, ps2);
    if peaks != [] {
      var m1, m2 := |ps1|, |ps2|;
      var a, b := ps1[m1 - 1], ps2[m2 - 1];
      var pre1, pre2 := ps1[..m1 - 1], ps2[..m2 - 1];
      DropLast(ts, peaks, ps1);
      DropLast(ts, peaks, ps2);
      LastPlateauNotShorter(ts, peaks, ps1, ps2);
      LastPlateauNotShorter(ts, peaks, ps2, ps1);
      var n := |peaks|;
      assert a == peaks[n - |a|..] && b == peaks[n - |b|..];
      assert Flatten(pre1) == peaks[..n - |a|] == Flatten(pre2);
      PartitionUnique(ts, Flatten(pre1), pre1, pre2);
      assert ps1 == pre1 + [a] && ps2 == pre2 + [b];
    }
  }

  /** Inside the last plateau every peak is close to the one before it. */
  lemma LastPlateauChained(ts: seq<real>, peaks: seq<nat>, ps: seq<seq<nat>>)
    requires IsPlateauPartition(ts, peaks, ps) && |ps| > 0
    ensures |ps[|ps| - 1]| <= |peaks| && AllBelow(peaks, |ts|)
    ensures forall j :: |peaks| - |ps[|ps| - 1]| <= j < |peaks| - 1 ==> Close(ts, peaks[j], peaks[j + 1])
  {
    var b := ps[|ps| - 1];
    DropLast(ts, peaks, ps);
    PartitionInRange(ts, peaks, ps);
    var d := |peaks| - |b|;
    forall j | d <= j < |peaks| - 1
      ensures Close(ts, peaks[j], peaks[j + 1])
    {
      assert CloseAt(ts, b, j + 1 - d);
      assert peaks[j] == b[j - d] && peaks[j + 1] == b[j + 1 - d];
    }
  }

  /** Every peak of a partition indexes a sample. */
  lemma {:induction false} PartitionInRange(ts: seq<real>, peaks: seq<nat>, ps: seq<seq<nat>>)
    requires IsPlateauPartition(ts, peaks, ps)
    ensures AllBelow(peaks, |ts|)
    decreases |ps|
  {
    if ps != [] {
      DropLast(ts, peaks, ps);
      PartitionInRange(ts, Flatten(ps[..|ps| - 1]), ps[..|ps| - 1]);
    }
  }

  /** The peak that opens the last plateau is not close to the peak before it. */
  lemma BreakBeforeLastPlateau(ts: seq<real>, peaks: seq<nat>, ps: seq<seq<nat>>)
    requires IsPlateauPartition(ts, peaks, ps) && |ps| > 0 && |ps[|ps| - 1]| < |peaks|
    ensures AllBelow(peaks, |ts|)
    ensures !Close(ts, peaks[|peaks| - |ps[|ps| - 1]| - 1], peaks[|peaks| - |ps[|ps| - 1]|])
  {
    var m, n := |ps|, |peaks|;
    var a, pre := ps[m - 1], ps[..m - 1];
    DropLast(ts, peaks, ps);
    LastPlateauChained(ts, peaks, ps);
    assert |Flatten(pre)| == n - |a| > 0;
    assert m > 1;
    LastOfFlatten(pre);
    assert Last(ps[m - 2]) == Last(pre[m - 2]) == peaks[n - |a| - 1];
    assert a[0] == peaks[n - |a|];
    assert BreakAt(ts, ps, m - 1);
    PartitionInRange(ts, peaks, ps);
  }

  /**
   * Two partitions of the same peaks end in plateaus of the same length: a
   * shorter last plateau in one would split a chain of close peaks in the
   * other.
   */
  lemma LastPlateauNotShorter(ts: seq<real>, peaks: seq<nat>, ps1: seq<seq<nat>>, ps2: seq<seq<nat>>)
    requires IsPlateauPartition(ts, peaks, ps1) && IsPlateauPartition(ts, peaks, ps2)
    requires |ps1| > 0 && |ps2| > 0
    ensures |ps1[|ps1| - 1]| >= |ps2[|ps2| - 1]|
  {
    LastPlateauChained(ts, peaks, ps2);
    if |ps1[|ps1| - 1]| < |peaks| {
      BreakBeforeLastPlateau(ts, peaks, ps1);
    }
  }

  /** Every plateau of a sorted peak list is itself sorted. */
  lemma {:induction false} PartsSorted(ps: seq<seq<nat>>)
    requires Sorted(Flatten(ps))
    ensures forall i :: 0 <= i < |ps| ==> Sorted(ps[i])
  {
    if ps != [] {
      var pre, q := ps[..|ps| - 1], ps[|ps| - 1];
      var f := Flatten(pre);
      assert Flatten(ps) == f + q;
      assert Sorted(f) by {
        forall i, j | 0 <= i < j < |f| ensures f[i] <= f[j] {
          assert (f + q)[i] == f[i] && (f + q)[j] == f[j];
        }
      }
      assert Sorted(q) by {
        forall i, j | 0 <= i < j < |q| ensures q[i] <= q[j] {
          assert (f + q)[|f| + i] == q[i] && (f + q)[|f| + j] == q[j];
        }
      }
      PartsSorted(pre);
      forall i | 0 <= i < |ps| ensures Sorted(ps[i]) {
        if i < |ps| - 1 { assert ps[i] == pre[i]; }
      }
    }
  }
}
