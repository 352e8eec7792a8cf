/**
 * The analysis run end to end on a recording whose peaks are already found:
 * group the peaks into plateaus, then compute one results row and one line
 * per plateau.
 */
module Pipeline {
  import opened Wrappers
  import opened Plateaus
  import opened Rfd

  /** The analysis cannot seed a first plateau when no peak was found. */
  datatype AnalysisError = NoPeaks

  /** Everything one run produces. */
  datatype Report = Report(plateaus: seq<seq<nat>>, results: seq<RfdResult>, lines: seq<RfdLine>)

  method Analyze(signal: seq<real>, ts: seq<real>, peaks: seq<nat>)
    returns (outcome: Result<Report, AnalysisError>)
    requires |signal| == |ts| && AllBelow(peaks, |signal|)
    ensures outcome.Failure? <==> peaks == []
    ensures outcome.Success? ==>
              && IsPlateauPartition(ts, peaks, outcome.value.plateaus)
              && |outcome.value.plateaus| == 1 + CountBreaks(ts, peaks)
    ensures outcome.Success? ==>
              var rep := outcome.value;
              && |rep.results| == |rep.plateaus| && |rep.lines| == |rep.plateaus|
              && (forall i :: 0 <= i < |rep.plateaus| ==>
                    && rep.results[i] == PlateauResult(signal, ts, rep.plateaus[i])
                    && rep.lines[i] == RfdLine(rep.results[i].startTime, rep.results[i].peakTime,
                                               0.0, rep.results[i].peakN))
    ensures outcome.Success? && Sorted(peaks) && NonDecreasing(ts) ==>
              forall i :: 0 <= i < |outcome.value.results| ==> outcome.value.results[i].timeToPeak >= 0.0
  {
    if peaks == [] {
      return Failure(NoPeaks);
    }
    var plateaus := GroupPeaks(ts, peaks);
    var results, lines := AnalyzePlateaus(signal, ts, plateaus);
    assert Sorted(peaks) && NonDecreasing(ts) ==> forall i :: 0 <= i < |results| ==> results[i].timeToPeak >= 0.0 by {
      if Sorted(peaks) && NonDecreasing(ts) {
        PartsSorted(plateaus);
        forall i | 0 <= i < |results| ensures results[i].timeToPeak >= 0.0 {
          TimeToPeakNonNegative(signal, ts, plateaus[i]);
        }
      }
    }
    outcome := Success(Report(plateaus, results, lines));
  }
}
