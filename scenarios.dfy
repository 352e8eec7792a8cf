/** Concrete recordings and what the analysis makes of them. */
module Scenarios {
  import opened Wrappers
  import opened Plateaus
  import opened Rfd

  /** Two bumps 400 ms apart form one plateau. */
  lemma SingleEffortPlateaus(ps: seq<seq<nat>>)
    ensures var ts := [0.0, 100.0, 200.0, 300.0, 400.0, 500.0, 600.0, 700.0, 800.0, 900.0];
            IsPlateauPartition(ts, [3, 7], ps) <==> ps == [[3, 7]]
  {
    var ts := [0.0, 100.0, 200.0, 300.0, 400.0, 500.0, 600.0, 700.0, 800.0, 900.0];
    assert Flatten([[3, 7]]) == [3, 7] by {
      assert [[3, 7]][..0] == [];
    }
    assert IsPlateauPartition(ts, [3, 7], [[3, 7]]);
    if IsPlateauPartition(ts, [3, 7], ps) {
      PartitionUnique(ts, [3, 7], ps, [[3, 7]]);
    }
  }

  /**
   * In that plateau the second bump (80 N at 700 ms) is the highest, the
   * onset is the rest sample at 200 ms just before the first bump, and the
   * rate is 80 N over 0.5 s.
   */
  lemma SingleEffortRate()
    ensures var signal := [0.0, 0.0, 0.0, 50.0, 0.0, 0.0, 0.0, 80.0, 0.0, 0.0];
            var ts := [0.0, 100.0, 200.0, 300.0, 400.0, 500.0, 600.0, 700.0, 800.0, 900.0];
            PlateauResult(signal, ts, [3, 7])
            == RfdResult(200.0, 700.0, 0.5, 80.0 / Gravity, 80.0, Some(160.0 / Gravity), Some(160.0))
  {
    var signal := [0.0, 0.0, 0.0, 50.0, 0.0, 0.0, 0.0, 80.0, 0.0, 0.0];
    assert HighestPeak(signal, [3, 7]) == 1 by {
      assert [3, 7][..1] == [3];
    }
    assert Onset(signal, 3) == 2;
  }

  /** Peaks 6000 ms apart are two efforts. */
  lemma TwoEfforts(ps: seq<seq<nat>>)
    ensures IsPlateauPartition([0.0, 3000.0, 6000.0], [0, 2], ps) <==> ps == [[0], [2]]
  {
    var ts := [0.0, 3000.0, 6000.0];
    assert Flatten([[0], [2]]) == [0, 2] by {
      assert [[0], [2]][..1] == [[0]];
      assert [[0]][..0] == [];
    }
    assert IsPlateauPartition(ts, [0, 2], [[0], [2]]);
    if IsPlateauPartition(ts, [0, 2], ps) {
      PartitionUnique(ts, [0, 2], ps, [[0], [2]]);
    }
  }

  /** A gap of exactly the threshold already separates two efforts: closeness is strict. */
  lemma GapOfExactlyThreshold(ps: seq<seq<nat>>)
    ensures IsPlateauPartition([0.0, 5000.0], [0, 1], ps) <==> ps == [[0], [1]]
  {
    var ts := [0.0, 5000.0];
    assert Flatten([[0], [1]]) == [0, 1] by {
      assert [[0], [1]][..1] == [[0]];
      assert [[0]][..0] == [];
    }
    assert IsPlateauPartition(ts, [0, 1], [[0], [1]]);
    if IsPlateauPartition(ts, [0, 1], ps) {
      PartitionUnique(ts, [0, 1], ps, [[0], [1]]);
    }
  }

  /**
   * Peaks 4000 ms apart chain into one plateau whose span, 8000 ms, exceeds
   * the threshold: each peak is compared only with the one before it.
   */
  lemma LongChain(ps: seq<seq<nat>>)
    ensures IsPlateauPartition([0.0, 4000.0, 8000.0], [0, 1, 2], ps) <==> ps == [[0, 1, 2]]
  {
    var ts := [0.0, 4000.0, 8000.0];
    assert Flatten([[0, 1, 2]]) == [0, 1, 2] by {
      assert [[0, 1, 2]][..0] == [];
    }
    assert IsPlateauPartition(ts, [0, 1, 2], [[0, 1, 2]]);
    if IsPlateauPartition(ts, [0, 1, 2], ps) {
      PartitionUnique(ts, [0, 1, 2], ps, [[0, 1, 2]]);
    }
    assert ts[2] - ts[0] >= GroupingThreshold;
  }

  /**
   * When no sample before the plateau is at rest, the onset stays at the
   * plateau's first peak rather than falling back to the first sample; if
   * that peak is also the highest, the time to peak is zero and there is no
   * rate.
   */
  lemma OnsetStaysAtFirstPeak()
    ensures Onset([5.0, 9.0, 1.0], 1) == 1
    ensures var r := PlateauResult([5.0, 9.0, 1.0], [0.0, 100.0, 200.0], [1]);
            r.timeToPeak == 0.0 && r.rfdNPerS == None && r.rfdKgPerS == None
  {
    assert LastAtRest([5.0, 9.0, 1.0], 1) == None;
  }
}
