# Climbing force analysis: plateaus and rate of force development

This project models, in Dafny, the analysis core of a small climbing-training
tool. A recording is a sequence of force samples (newtons) with timestamps
(milliseconds from the first sample). Given the indices of the force peaks
already found in it, the analysis

1. groups the peaks into plateaus (one plateau per effort): a peak joins the
   current plateau when it follows the previous peak by less than 5000 ms,
   otherwise it opens a new plateau;
2. in each plateau picks the highest peak (the first one on ties);
3. scans back from the plateau's first peak to the onset of the effort, the
   nearest earlier sample at rest (force at most 0.1 N); when there is none,
   the onset stays at the plateau's first peak;
4. computes the time to peak in seconds and the rate of force development
   (peak force over time to peak), which is absent unless the time to peak is
   positive, and shows the forces also on a kilogram scale (divided by 9.81);
5. emits one results row and one chart line per plateau, in plateau order.

Modules:

- `Wrappers` (`wrappers.dfy`): `Option` and `Result`.
- `Plateaus` (`plateaus.dfy`): the grouping loop `GroupPeaks`, the predicate
  `IsPlateauPartition` that says what a correct grouping is, and the proof that
  exactly one grouping satisfies it.
- `Rfd` (`rfd.dfy`): highest-peak selection, the onset scan `FindOnset`
  against its specification `Onset`, the guarded division, the results row
  `PlateauResult` and the per-plateau loop `AnalyzePlateaus`.
- `Pipeline` (`pipeline.dfy`): `Analyze`, the whole run from peaks to rows.
- `Scenarios` (`scenarios.dfy`): concrete recordings worked through the model.

The source is a straight-line script whose state is local lists built by
appending in loops, so the loops are methods with loop invariants and
out-parameters, each proved against a specification function or predicate;
the maximum with a key and the division are functions.

Timestamps and forces are Dafny `real`s, so arithmetic is exact. The constants
are `Plateaus.GroupingThreshold` (5000 ms, climbing_analysis.py:42),
`Rfd.BaselineThreshold` (0.1 N, climbing_analysis.py:67) and `Rfd.Gravity`
(9.81, climbing_analysis.py:7).

Where the code and the design description of the tool differ, the model
follows the code:

- When no sample before a plateau's first peak is at rest, the code keeps the
  onset at that first peak (climbing_analysis.py:65-69); the description says
  the onset falls back to sample 0. `Scenarios.OnsetStaysAtFirstPeak` shows
  the code's behaviour, including the absent rate it leads to.
- The description says the onset is always strictly before the plateau's
  first peak; by the same code it can equal it.
- With no peaks at all the description asks for an empty report; the code
  fails at `peaks[0]` (climbing_analysis.py:46). `Plateaus.GroupPeaks`
  requires a peak, and `Pipeline.Analyze` returns `Failure(NoPeaks)`.

## Model

| member | source | states |
|---|---|---|
| `Plateaus.GroupPeaks` | climbing_analysis.py:44-54 | For a non-empty peak list, the plateaus built by the loop concatenate back to the peaks, are each non-empty, chain consecutive peaks less than 5000 ms apart, are separated by gaps of at least 5000 ms, and number one more than such gaps |
| `Plateaus.GroupStep` | climbing_analysis.py:48-53 | One turn of the loop: a close peak extends the current plateau, any other closes it and opens a new one, and either way the partition and break count of the peaks seen so far are kept |
| `Plateaus.ExtendLast` | climbing_analysis.py:49-50 | Appending a peak close to the previous one to the current plateau keeps a partition |
| `Plateaus.StartNew` | climbing_analysis.py:51-53 | Closing the current plateau and opening one with a peak not close to the previous one keeps a partition |
| `Plateaus.CountBreaksStep` | climbing_analysis.py:48-53 | One more peak adds a plateau exactly when it is at least the threshold after the previous peak |
| `Plateaus.PartitionSize` | climbing_analysis.py:45-54 | A grouping has no more plateaus than peaks, and has none exactly when there are no peaks |
| `Plateaus.PartitionUnique` | climbing_analysis.py:48-53 | Any two groupings that meet the rule are equal, so the rule alone determines the plateaus |
| `Plateaus.LastPlateauNotShorter` | climbing_analysis.py:48-53 | Two groupings of the same peaks end in plateaus of equal length (the step of the uniqueness proof) |
| `Plateaus.PartsSorted` | climbing_analysis.py:45-54 | If the peaks are in sample order, so is every plateau |
| `Rfd.HighestPeak` | climbing_analysis.py:62 | The chosen position holds a peak of maximal force and every earlier position a strictly smaller one: the first maximum |
| `Rfd.FirstHighestUnique` | climbing_analysis.py:62 | The first maximum is unique, so the tie-break makes the choice deterministic |
| `Rfd.LastAtRest` | climbing_analysis.py:66-69 | The last sample before a position with force at most 0.1, with every sample after it and before the position above 0.1; or none, when every earlier sample is above 0.1 |
| `Rfd.Onset` | climbing_analysis.py:65-69 | The onset is at most the plateau's first peak; if before it, it is at rest and every sample between is not; if equal to it, no earlier sample is at rest |
| `Rfd.OnsetUnique` | climbing_analysis.py:65-69 | Only one index meets the onset description |
| `Rfd.FindOnset` | climbing_analysis.py:65-69 | The backward scan with its early exit returns exactly the onset |
| `Rfd.RateOfForceDevelopment` | climbing_analysis.py:78 | The rate is present exactly when the time to peak is positive, and then times the time to peak gives the peak force |
| `Rfd.ToKg` | climbing_analysis.py:85 | The kilogram-scale value times gravity gives back the force in newtons |
| `Rfd.PlateauResult` | climbing_analysis.py:62-89 | The row's peak time and force are those of the first highest peak, its start time that of the onset, time to peak is their difference in seconds, both rates are present exactly when time to peak is positive, and each kilogram field times gravity gives its newton field |
| `Rfd.AnalyzePlateaus` | climbing_analysis.py:57-97 | One row and one line per plateau, in plateau order; each row is that plateau's result, each line runs from the row's start time at force 0 to its peak time at the peak force |
| `Rfd.TimeToPeakNonNegative` | climbing_analysis.py:65-74 | With non-decreasing timestamps and a plateau in sample order, time to peak is never negative |
| `Rfd.RfdAbsentIffOnsetIsPeak` | climbing_analysis.py:65-78 | With strictly increasing timestamps, the rate is absent exactly when the onset is the highest peak itself |
| `Pipeline.Analyze` | climbing_analysis.py:44-97 | No peaks gives the `NoPeaks` error and only then; otherwise the plateaus are the unique grouping, the rows and lines follow them one for one, and with sorted peaks and non-decreasing timestamps every time to peak is non-negative |
| `Scenarios.SingleEffortPlateaus` | climbing_analysis.py:45-54 | Peaks at 300 ms and 700 ms form the single plateau [3, 7] and no other grouping |
| `Scenarios.SingleEffortRate` | climbing_analysis.py:60-89 | For that plateau: onset at 200 ms, peak 80 N at 700 ms, time to peak 0.5 s, rate 160 N/s |
| `Scenarios.TwoEfforts` | climbing_analysis.py:48-53 | Peaks 6000 ms apart form two single-peak plateaus |
| `Scenarios.GapOfExactlyThreshold` | climbing_analysis.py:49 | A gap of exactly 5000 ms already separates plateaus, since the comparison is strict |
| `Scenarios.LongChain` | climbing_analysis.py:49 | Peaks 4000 ms apart chain into one plateau spanning 8000 ms, more than the threshold |
| `Scenarios.OnsetStaysAtFirstPeak` | climbing_analysis.py:65-78 | With no sample at rest before the first peak the onset is that peak, and if it is the highest the rate is absent |

## Left out

- File upload, the stop when no file is given, and every display call (climbing_analysis.py:10-13, 29-32, 99-105, 134-136): user interface and I/O.
- Reading the CSV, naming its columns and turning timestamps into milliseconds from the first sample (climbing_analysis.py:15-24): library I/O and date handling; the model takes the timestamps and forces as given.
- Converting the raw kilogram samples to newtons (climbing_analysis.py:27): the model takes forces in newtons.
- Peak finding with `scipy.signal.find_peaks` (climbing_analysis.py:35): a library call whose exact rules are not part of this model; the peaks are an input, required only to index samples. The facts that need them in sample order say so in their own premises.
- The chart construction (climbing_analysis.py:107-132): presentation only.
- `BODY_MASS` (climbing_analysis.py:8): never used.
- Floating point: timestamps, forces, the kilogram scaling and the rate are exact reals, so rounding, infinities and NaN (a NaN force would compare false everywhere) are not modelled.
