/**
 * Rate of force development for each plateau: pick the highest peak, scan
 * back from the plateau's first peak to the onset of the effort, and divide
 * the peak force by the time from onset to peak.
 */
module Rfd {
  import opened Wrappers
  import opened Plateaus

  /** Acceleration due to gravity in m/s^2, used to show forces on a kilogram scale. */
  const Gravity: real := 9.81

  /** Force in newtons at or below which a sample counts as at rest. */
  const BaselineThreshold: real := 0.1

  /** Milliseconds per second. */
  const MillisPerSecond: real := 1000.0

  /** One row of the results table. Times are in milliseconds, time to peak in seconds. */
  datatype RfdResult = RfdResult(
    startTime: real,
    peakTime: real,
    timeToPeak: real,
    peakKg: real,
    peakN: real,
    rfdKgPerS: Option<real>,
    rfdNPerS: Option<real>)

  /** The segment drawn from the onset at zero force up to the peak. */
  datatype RfdLine = RfdLine(startTime: real, endTime: real, startValue: real, endValue: real)

  /**
   * Position `j` of `plateau` holds a peak of maximal force, and every earlier
   * position holds strictly less: the first maximum, as a maximum taken with
   * a strict comparison keeps the earliest of equal candidates.
   */
  predicate IsFirstHighest(signal: seq<real>, plateau: seq<nat>, j: nat)
    requires AllBelow(plateau, |signal|)
  {
    && j < |plateau|
    && (forall k :: 0 <= k < |plateau| ==> signal[plateau[k]] <= signal[plateau[j]])
    && (forall k :: 0 <= k < j ==> signal[plateau[k]] < signal[plateau[j]])
  }

  /** The position in `plateau` of its highest peak, scanning left to right and replacing only on a strictly larger force. */
  function HighestPeak(signal: seq<real>, plateau: seq<nat>): (j: nat)
    requires |plateau| > 0 && AllBelow(plateau, |signal|)
    ensures IsFirstHighest(signal, plateau, j)
  {
    if |plateau| == 1 then 0
    else
      var init := plateau[..|plateau| - 1];
      var j := HighestPeak(signal, init);
      assert forall k :: 0 <= k < |init| ==> init[k] == plateau[k];
      if signal[plateau[|plateau| - 1]] > signal[plateau[j]] then |plateau| - 1 else j
  }

  /** There is only one first maximum. */
  lemma FirstHighestUnique(signal: seq<real>, plateau: seq<nat>, j1: nat, j2: nat)
    requires AllBelow(plateau, |signal|)
    requires IsFirstHighest(signal, plateau, j1) && IsFirstHighest(signal, plateau, j2)
    ensures j1 == j2
  {
    assert signal[plateau[j1]] == signal[plateau[j2]];
  }

  predicate AtRest(signal: seq<real>, k: nat)
    requires k < |signal|
  {
    signal[k] <= BaselineThreshold
  }

  /**
   * `s` is the onset of an effort whose first peak is at sample `first`: the
   * nearest sample before `first` that is at rest, or `first` itself when no
   * earlier sample is at rest.
   */
  predicate IsOnset(signal: seq<real>, first: nat, s: nat)
    requires first < |signal|
  {
    && s <= first
    && (s < first ==> AtRest(signal, s) && forall k :: s < k < first ==> !AtRest(signal, k))
    && (s == first ==> forall k :: 0 <= k < first ==> !AtRest(signal, k))
  }

  /** There is only one onset before a given peak. */
  lemma OnsetUnique(signal: seq<real>, first: nat, s1: nat, s2: nat)
    requires first < |signal|
    requires IsOnset(signal, first, s1) && IsOnset(signal, first, s2)
    ensures s1 == s2
  {
  }

  /** The last sample before `k` that is at rest, if any. */
  function LastAtRest(signal: seq<real>, k: nat): (r: Option<nat>)
    requires k <= |signal|
    ensures r.Some? ==> r.value < k && AtRest(signal, r.value)
    ensures r.Some? ==> forall j :: r.value < j < k ==> !AtRest(signal, j)
    ensures r.None? ==> forall j :: 0 <= j < k ==> !AtRest(signal, j)
  {
    if k == 0 then None
    else if AtRest(signal, k - 1) then Some(k - 1)
    else LastAtRest(signal, k - 1)
  }

  /** The onset before the peak at `first`; when no earlier sample is at rest it stays at `first`. */
  function Onset(signal: seq<real>, first: nat): (s: nat)
    requires first < |signal|
    ensures IsOnset(signal, first, s)
  {
    match LastAtRest(signal, first)
    case Some(i) => i
    case None => first
  }

  /** The backward scan for the onset, stopping at the first sample at rest. */
  method FindOnset(signal: seq<real>, first: nat) returns (start: nat)
    requires first < |signal|
    ensures IsOnset(signal, first, start)
    ensures start == Onset(signal, first)
  {
    start := first;
    var idx := first;
    while idx > 0
      invariant idx <= first && start == first
      invariant forall k: nat :: idx <= k < first ==> !AtRest(signal, k)
    {
      idx := idx - 1;
      if signal[idx] <= BaselineThreshold {
        start := idx;
        break;
      }
    }
    OnsetUnique(signal, first, start, Onset(signal, first));
  }

  /** Peak force over time to peak, defined only when the time to peak is positive. */
  function RateOfForceDevelopment(peakValue: real, timeToPeak: real): (rfd: Option<real>)
    ensures rfd.Some? <==> timeToPeak > 0.0
    ensures rfd.Some? ==> rfd.value * timeToPeak == peakValue
  {
    if timeToPeak > 0.0 then Some(peakValue / timeToPeak) else None
  }

  /** A force in newtons shown on the kilogram scale: multiplying back by gravity gives the force. */
  function ToKg(newtons: real): (kg: real)
    ensures kg * Gravity == newtons
  {
    newtons / Gravity
  }

  /** The results row of one plateau. */
  function PlateauResult(signal: seq<real>, ts: seq<real>, plateau: seq<nat>): (r: RfdResult)
    requires |signal| == |ts| && |plateau| > 0 && AllBelow(plateau, |signal|)
    ensures exists j: nat :: IsFirstHighest(signal, plateau, j)
                        && r.peakTime == ts[plateau[j]] && r.peakN == signal[plateau[j]]
    ensures exists s: nat :: IsOnset(signal, plateau[0], s) && r.startTime == ts[s]
    ensures r.timeToPeak * MillisPerSecond == r.peakTime - r.startTime
    ensures r.peakKg * Gravity == r.peakN
    ensures r.rfdNPerS.Some? <==> r.timeToPeak > 0.0
    ensures r.rfdNPerS.Some? ==> r.rfdNPerS.value * r.timeToPeak == r.peakN
    ensures r.rfdKgPerS.Some? <==> r.rfdNPerS.Some?
    ensures r.rfdKgPerS.Some? ==> r.rfdKgPerS.value * Gravity == r.rfdNPerS.value
  {
    var j := HighestPeak(signal, plateau);
    var s := Onset(signal, plateau[0]);
    var startTime := ts[s];
    var peakTime := ts[plateau[j]];
    var timeToPeak := (peakTime - startTime) / MillisPerSecond;
    var peakValue := signal[plateau[j]];
    var rfd := RateOfForceDevelopment(peakValue, timeToPeak);
    RfdResult(startTime, peakTime, timeToPeak, ToKg(peakValue), peakValue,
              if rfd.Some? then Some(ToKg(rfd.value)) else None, rfd)
  }

  /** Every plateau is non-empty and indexes samples of a recording of `n` samples. */
  predicate ValidPlateaus(n: nat, plateaus: seq<seq<nat>>)
  {
    forall i :: 0 <= i < |plateaus| ==> |plateaus[i]| > 0 && AllBelow(plateaus[i], n)
  }

  /**
   * The per-plateau loop: one results row and one line per plateau, in
   * plateau order. Each line starts at the onset with force zero and ends at
   * the highest peak.
   */
  method AnalyzePlateaus(signal: seq<real>, ts: seq<real>, plateaus: seq<seq<nat>>)
    returns (results: seq<RfdResult>, lines: seq<RfdLine>)
    requires |signal| == |ts| && ValidPlateaus(|signal|, plateaus)
    ensures |results| == |plateaus| && |lines| == |plateaus|
    ensures forall i :: 0 <= i < |plateaus| ==> results[i] == PlateauResult(signal, ts, plateaus[i])
    ensures forall i :: 0 <= i < |plateaus| ==>
              && lines[i].startTime == results[i].startTime
              && lines[i].endTime == results[i].peakTime
              && lines[i].startValue == 0.0
              && lines[i].endValue == results[i].peakN
  {
    results, lines := [], [];
    for i := 0 to |plateaus|
      invariant |results| == i && |lines| == i
      invariant forall k :: 0 <= k < i ==> results[k] == PlateauResult(signal, ts, plateaus[k])
      invariant forall k :: 0 <= k < i ==>
                  && lines[k].startTime == results[k].startTime
                  && lines[k].endTime == results[k].peakTime
                  && lines[k].startValue == 0.0
                  && lines[k].endValue == results[k].peakN
    {
      var plateau := plateaus[i];
      var highest := plateau[HighestPeak(signal, plateau)];
      var start := FindOnset(signal, plateau[0]);
      var startTime := ts[start];
      var peakTime := ts[highest];
      var timeToPeak := (peakTime - startTime) / MillisPerSecond;
      var peakValue := signal[highest];
      var rfd := RateOfForceDevelopment(peakValue, timeToPeak);
      var rfdKg := if rfd.Some? then Some(ToKg(rfd.value)) else None;
      results := results + [RfdResult(startTime, peakTime, timeToPeak, ToKg(peakValue), peakValue, rfdKg, rfd)];
      lines := lines + [RfdLine(startTime, peakTime, 0.0, peakValue)];
    }
  }

  /**
   * With timestamps that never decrease and a plateau in sample order, the
   * onset comes no later than the highest peak, so the time to peak is never
   * negative.
   */
  lemma TimeToPeakNonNegative(signal: seq<real>, ts: seq<real>, plateau: seq<nat>)
    requires |signal| == |ts| && |plateau| > 0 && AllBelow(plateau, |signal|)
    requires NonDecreasing(ts) && Sorted(plateau)
    ensures PlateauResult(signal, ts, plateau).timeToPeak >= 0.0
  {
    var j := HighestPeak(signal, plateau);
    var s := Onset(signal, plateau[0]);
    assert s <= plateau[0] <= plateau[j];
    assert ts[s] <= ts[plateau[j]];
  }

  /**
   * With strictly increasing timestamps, the rate is absent exactly when the
   * onset is the highest peak itself: no sample before the plateau is at rest
   * and the plateau's first peak is its highest.
   */
  lemma RfdAbsentIffOnsetIsPeak(signal: seq<real>, ts: seq<real>, plateau: seq<nat>)
    requires |signal| == |ts| && |plateau| > 0 && AllBelow(plateau, |signal|)
    requires forall i, j :: 0 <= i < j < |ts| ==> ts[i] < ts[j]
    requires Sorted(plateau)
    ensures PlateauResult(signal, ts, plateau).rfdNPerS.None?
            <==> Onset(signal, plateau[0]) == plateau[HighestPeak(signal, plateau)]
  {
    var h := plateau[HighestPeak(signal, plateau)];
    var s := Onset(signal, plateau[0]);
    assert s <= plateau[0] <= h;
    if s < h {
      assert ts[s] < ts[h];
    }
  }
}
