/** `detect_steps`: the imperative scan, proved to follow the state machine
    of module DetectionSpec tick by tick and to leave the record buffer as a
    prefix of valid steps closed by a sentinel. */
module StepDetector {
  import opened StepsData
  import opened PeakDetection
  import opened StepRecordSink
  import opened DetectionSpec

  /** The record buffer `steps`, which held `before` when the scan began,
      holds one valid record per pair of `pairs`; slot 0 keeps its old
      `curSteps` (nothing stamps it), slots `1..|pairs|` are stamped with
      their index, and the slots after the last record are untouched. */
  ghost predicate RecordsHold(steps: seq<StepRecord>, pairs: seq<StepPair>, before: seq<StepRecord>)
    requires |pairs| < |steps| == |before|
  {
    && (forall k :: 0 <= k < |pairs| ==> steps[k].valid && steps[k].time == PairTime(pairs[k]))
    && (forall k :: 0 < k <= |pairs| ==> steps[k].curSteps == k)
    && steps[0].curSteps == before[0].curSteps
    && steps[|pairs|].time == before[|pairs|].time
    && steps[|pairs|].valid == before[|pairs|].valid
    && (forall k :: |pairs| < k < |steps| ==> steps[k] == before[k])
  }

  /** Recording one more valid pair keeps the buffer in step with the pairs. */
  lemma AppendRecord(s0: seq<StepRecord>, s1: seq<StepRecord>, pairs: seq<StepPair>, p: StepPair,
                     before: seq<StepRecord>)
    requires |pairs| + 1 < |s0| == |s1| == |before|
    requires RecordsHold(s0, pairs, before)
    requires s1[|pairs|].time == PairTime(p) && s1[|pairs|].valid
    requires s1[|pairs|].curSteps == s0[|pairs|].curSteps
    requires s1[|pairs| + 1] == s0[|pairs| + 1].(curSteps := |pairs| + 1)
    requires forall k :: 0 <= k < |s1| && k != |pairs| && k != |pairs| + 1 ==> s1[k] == s0[k]
    ensures RecordsHold(s1, pairs + [p], before)
  {
  }

  /** The inner search of `detect_steps`: looks for a minimum peak from tick
      `i` up to one second later or the end of the session, and stops at the
      first one. */
  method FindMinPeak(proce: array<ProcessedData>, i: int) returns (found: bool, j: int)
    requires 0 <= i < proce.Length
    ensures found <==> FirstMin(proce[..], i).Some?
    ensures found ==> j == FirstMin(proce[..], i).value
  {
    found := false;
    j := i;
    while j < i + SampleRate && j < proce.Length
      invariant i <= j <= Horizon(i, proce.Length)
      invariant FirstMin(proce[..], i) == FirstMinFrom(proce[..], j, Horizon(i, proce.Length))
    {
      if IsPeak(j, proce[..], HalfWindow, Min) {
        found := true;
        return;
      }
      j := j + 1;
    }
  }

  /** The locals of `detect_steps` hold exactly the detector state `st`. */
  ghost predicate Mirrors(ring: seq<real>, index: int, threshold: real, consecutive: int,
                          regular: bool, total: int, stepCount: int, st: DetectionState)
  {
    && ring == st.thresholds && index == st.thresholdIndex && threshold == st.dynamicThreshold
    && consecutive == st.consecutiveSteps && regular == st.regularModeOn
    && total == st.totalSteps && stepCount == |st.steps|
  }

  /** The threshold update of `detect_steps` on the pair `maxPeak`/`minPeak`:
      writes the midpoint into the ring and re-averages it when the amplitude
      exceeds the sensitivity. */
  method UpdateThresholdRing(ring: array<real>, index: int, threshold: real, maxPeak: real, minPeak: real,
                             ghost st: DetectionState)
    returns (newIndex: int, newThreshold: real)
    requires RingShape(st) && ring[..] == st.thresholds
    requires index == st.thresholdIndex && threshold == st.dynamicThreshold
    modifies ring
    ensures var s1 := UpdateThreshold(st, maxPeak, minPeak);
      ring[..] == s1.thresholds && newIndex == s1.thresholdIndex && newThreshold == s1.dynamicThreshold
  {
    newIndex, newThreshold := index, threshold;
    if maxPeak - minPeak > Sensitivity {
      ring[index] := (maxPeak + minPeak) / 2.0;
      var sum := SumSlots(ring);
      newIndex := (index + 1) % 4;
      newThreshold := sum / 4.0;
    }
  }

  /** The pair handling of `detect_steps` for the maximum peak at `i` and
      the minimum peak at `j`: updates the threshold ring, and then either
      records a valid step and advances the regularity state, or resets it. */
  method HandlePair(ring: array<real>, steps: array<StepRecord>, i: int, j: int, maxPeak: real, minPeak: real,
                    index: int, threshold: real, consecutive: int, regular: bool, total: int, stepCount: nat,
                    ghost st: DetectionState, ghost before: seq<StepRecord>)
    returns (index': int, threshold': real, consecutive': int, regular': bool, total': int, stepCount': nat)
    requires RingShape(st) && Mirrors(ring[..], index, threshold, consecutive, regular, total, stepCount, st)
    requires |before| == steps.Length && |PairStep(st, i, j, maxPeak, minPeak).steps| < steps.Length
    requires RecordsHold(steps[..], st.steps, before)
    modifies ring, steps
    ensures var r := PairStep(st, i, j, maxPeak, minPeak);
      Mirrors(ring[..], index', threshold', consecutive', regular', total', stepCount', r)
      && RecordsHold(steps[..], r.steps, before)
  {
    ghost var s1 := UpdateThreshold(st, maxPeak, minPeak);
    index', threshold' := UpdateThresholdRing(ring, index, threshold, maxPeak, minPeak, st);
    consecutive', regular', total', stepCount' := consecutive, regular, total, stepCount;
    if IsValidStep(threshold', maxPeak, minPeak) {
      ghost var s0 := steps[..];
      if regular {
        total' := total + 1;
        stepCount' := RecordStepData(steps, stepCount, i, j, true);
      } else {
        consecutive' := consecutive + 1;
        stepCount' := RecordStepData(steps, stepCount, i, j, true);
        if consecutive' > ValidStepsThreshold {
          total' := total + BatchCredit;
          regular' := true;
        }
      }
      AppendRecord(s0, steps[..], st.steps, StepPair(i, j), before);
    } else {
      consecutive' := 0;
      regular' := false;
    }
  }

  /** One iteration of the outer loop of `detect_steps`, at tick `i`: a
      maximum peak is paired with the first minimum peak of its horizon and
      handled; a maximum peak without one resets the regularity state. */
  method ScanTick(proce: array<ProcessedData>, steps: array<StepRecord>, ring: array<real>, i: int,
                  index: int, threshold: real, consecutive: int, regular: bool, total: int, stepCount: nat,
                  ghost p: seq<ProcessedData>, ghost st: DetectionState, ghost before: seq<StepRecord>)
    returns (index': int, threshold': real, consecutive': int, regular': bool, total': int, stepCount': nat)
    requires p == proce[..] && 0 <= i < |p|
    requires RingShape(st) && Mirrors(ring[..], index, threshold, consecutive, regular, total, stepCount, st)
    requires |before| == steps.Length && |Tick(p, i, st).steps| < steps.Length
    requires RecordsHold(steps[..], st.steps, before)
    modifies ring, steps
    ensures var r := Tick(p, i, st);
      Mirrors(ring[..], index', threshold', consecutive', regular', total', stepCount', r)
      && RecordsHold(steps[..], r.steps, before)
  {
    index', threshold', consecutive', regular', total', stepCount' :=
      index, threshold, consecutive, regular, total, stepCount;
    if IsPeak(i, proce[..], HalfWindow, Max) {
      var minPeakFound, j := FindMinPeak(proce, i);
      if minPeakFound {
        index', threshold', consecutive', regular', total', stepCount' :=
          HandlePair(ring, steps, i, j, proce[i].filteringSignal, proce[j].filteringSignal,
                     index, threshold, consecutive, regular, total, stepCount, st, before);
      } else {
        consecutive' := 0;
        regular' := false;
      }
    }
  }

  /** The outer loop of `detect_steps`: runs the scan over every tick and
      leaves one valid record per detected step in `steps`. */
  method Scan(proce: array<ProcessedData>, steps: array<StepRecord>) returns (stepCount: nat)
    requires |Detection(proce[..]).steps| < steps.Length
    modifies steps
    ensures stepCount == |Detection(proce[..]).steps|
    ensures RecordsHold(steps[..], Detection(proce[..]).steps, old(steps[..]))
  {
    ghost var p := proce[..];
    ghost var before := steps[..];
    ghost var st := Initial;
    var thresholdBuffer := new real[4](_ => 0.0);
    var dynamicThreshold := 0.0;
    var consecutiveSteps := 0;
    var regularModeOn := false;
    var totalSteps := 0;
    stepCount := 0;
    var thresholdIndex := 0;
    var i := 0;
    while i < proce.Length
      invariant 0 <= i <= proce.Length
      invariant st == StateAfter(p, i) && |st.steps| <= |Detection(p).steps|
      invariant Mirrors(thresholdBuffer[..], thresholdIndex, dynamicThreshold, consecutiveSteps,
                        regularModeOn, totalSteps, stepCount, st)
      invariant RecordsHold(steps[..], st.steps, before)
    {
      ghost var next := Tick(p, i, st);
      StepsOnlyGrow(p, i + 1, |p|);
      thresholdIndex, dynamicThreshold, consecutiveSteps, regularModeOn, totalSteps, stepCount :=
        ScanTick(proce, steps, thresholdBuffer, i,
                 thresholdIndex, dynamicThreshold, consecutiveSteps, regularModeOn, totalSteps, stepCount,
                 p, st, before);
      st := next;
      i := i + 1;
    }
    assert p == proce[..];
  }

  /** `detect_steps`: scans the filtered signal once, records every valid
      step in `steps` and closes the records with a sentinel. The local
      step counter is returned so that the contract can name it. The source
      does not check the capacity of `steps`: its caller must make room for
      every valid step and the sentinel. */
  method DetectSteps(proce: array<ProcessedData>, steps: array<StepRecord>) returns (stepCount: nat)
    requires |Detection(proce[..]).steps| < steps.Length
    modifies steps
    ensures stepCount == |Detection(proce[..]).steps|
    ensures forall k :: 0 <= k < stepCount ==>
              steps[k].valid && steps[k].time == PairTime(Detection(proce[..]).steps[k])
    ensures !steps[stepCount].valid && steps[stepCount].time == 0.0 && steps[stepCount].curSteps == stepCount
    ensures forall k :: 0 < k < stepCount ==> steps[k].curSteps == k
    ensures stepCount > 0 ==> steps[0].curSteps == old(steps[0].curSteps)
    ensures forall k :: stepCount < k < steps.Length ==> steps[k] == old(steps[k])
    ensures ValidPrefixLength(steps[..]) == stepCount
  {
    stepCount := Scan(proce, steps);
    stepCount := RecordStepData(steps, stepCount, 0, 0, false);
    SentinelEndsWalk(steps[..], stepCount);
  }
}
