/** Windowed peak detection over the filtered signal. */
module PeakDetection {
  import opened StepsData

  /** The source's mode character: 'm' asks for a maximum, 'n' for a
      minimum; any other character is `Other`. */
  datatype Mode = Max | Min | Other

  /** Half the window width, `WINDOW_SIZE / 2` in integer division. */
  const HalfWindow: int := WindowSize / 2

  /** True when `v` disqualifies `peak` in the given mode: strictly larger
      for a maximum, strictly smaller for a minimum; nothing disqualifies
      under any other mode. */
  predicate Beats(mode: Mode, v: real, peak: real)
  {
    match mode
    case Max => v > peak
    case Min => v < peak
    case Other => false
  }

  /** First index of the window, clamped at 0. */
  function WindowStart(index: int, ws: int): int
  {
    if index - ws < 0 then 0 else index - ws
  }

  /** Last index of the window, clamped at the last tick of the session. */
  function WindowEnd(index: int, ws: int, n: int): int
  {
    if index + ws >= n then n - 1 else index + ws
  }

  /** The scan of `is_peak`: walks `from..end` and stops at the first value
      that beats `peak`. */
  function NoneBeats(proce: seq<ProcessedData>, from: int, end: int, peak: real, mode: Mode): (r: bool)
    requires 0 <= from && end < |proce|
    ensures mode == Other ==> r
    decreases end - from
  {
    if from > end then true
    else if Beats(mode, proce[from].filteringSignal, peak) then false
    else NoneBeats(proce, from + 1, end, peak, mode)
  }

  /** The scan succeeds exactly when no value in `from..end` beats `peak`. */
  lemma {:induction false} NoneBeatsIff(proce: seq<ProcessedData>, from: int, end: int, peak: real, mode: Mode)
    requires 0 <= from && end < |proce|
    ensures NoneBeats(proce, from, end, peak, mode)
            <==> forall k :: from <= k <= end ==> !Beats(mode, proce[k].filteringSignal, peak)
    decreases end - from
  {
    if from <= end {
      NoneBeatsIff(proce, from + 1, end, peak, mode);
    }
  }

  /** `is_peak`: whether the filtered value at `index` is an extremum of the
      window `[index - ws, index + ws]` clamped to the session. */
  function IsPeak(index: int, proce: seq<ProcessedData>, ws: int, mode: Mode): (r: bool)
    requires 0 <= index < |proce|
    ensures mode == Other ==> r
  {
    NoneBeats(proce, WindowStart(index, ws), WindowEnd(index, ws, |proce|), proce[index].filteringSignal, mode)
  }

  /** A maximum peak is at least every value of its window, a minimum peak at
      most every value of it (ties do not disqualify), and under any other
      mode every index is a peak. */
  lemma IsPeakIff(index: int, proce: seq<ProcessedData>, ws: int, mode: Mode)
    requires 0 <= index < |proce|
    ensures mode == Max ==>
              (IsPeak(index, proce, ws, mode) <==>
                 forall k :: WindowStart(index, ws) <= k <= WindowEnd(index, ws, |proce|) ==>
                               proce[k].filteringSignal <= proce[index].filteringSignal)
    ensures mode == Min ==>
              (IsPeak(index, proce, ws, mode) <==>
                 forall k :: WindowStart(index, ws) <= k <= WindowEnd(index, ws, |proce|) ==>
                               proce[k].filteringSignal >= proce[index].filteringSignal)
    ensures mode == Other ==> IsPeak(index, proce, ws, mode)
  {
    NoneBeatsIff(proce, WindowStart(index, ws), WindowEnd(index, ws, |proce|), proce[index].filteringSignal, mode);
  }

  /** On a flat window the centre is both a maximum and a minimum peak. */
  lemma FlatWindowIsBothPeaks(index: int, proce: seq<ProcessedData>, ws: int)
    requires 0 <= index < |proce|
    requires forall k :: WindowStart(index, ws) <= k <= WindowEnd(index, ws, |proce|) ==>
               proce[k].filteringSignal == proce[index].filteringSignal
    ensures IsPeak(index, proce, ws, Max) && IsPeak(index, proce, ws, Min)
  {
    IsPeakIff(index, proce, ws, Max);
    IsPeakIff(index, proce, ws, Min);
  }

  /** A tick that is both a maximum and a minimum peak sits on a flat window. */
  lemma BothPeaksMeansFlatWindow(index: int, proce: seq<ProcessedData>, ws: int)
    requires 0 <= index < |proce|
    requires IsPeak(index, proce, ws, Max) && IsPeak(index, proce, ws, Min)
    ensures forall k :: WindowStart(index, ws) <= k <= WindowEnd(index, ws, |proce|) ==>
              proce[k].filteringSignal == proce[index].filteringSignal
  {
    IsPeakIff(index, proce, ws, Max);
    IsPeakIff(index, proce, ws, Min);
  }
}
