/** The step detector's scan as a pure state machine: one transition per tick,
    folded from the left over the filtered signal. The method in module
    StepDetector is proved to compute exactly this. */
module DetectionSpec {
  import opened StepsData
  import opened PeakDetection
  import opened StepRecordSink

  datatype Option<T> = None | Some(value: T)

  /** A maximum peak tick and the minimum peak tick it was paired with. */
  datatype StepPair = StepPair(maxTick: int, minTick: int)

  /** The locals of `detect_steps` that persist across the scan, and the
      pairs it has recorded as valid steps so far. */
  datatype DetectionState = DetectionState(
    thresholds: seq<real>,
    thresholdIndex: int,
    dynamicThreshold: real,
    consecutiveSteps: int,
    regularModeOn: bool,
    totalSteps: int,
    steps: seq<StepPair>)

  /** The batch credit added on entering regular mode (a literal in the
      source, not derived from `VALID_STEPS_THRESHOLD`). */
  const BatchCredit: int := 8

  const Initial: DetectionState :=
    DetectionState([0.0, 0.0, 0.0, 0.0], 0, 0.0, 0, false, 0, [])

  /** The threshold ring has four slots and its index points at one. */
  predicate RingShape(st: DetectionState)
  {
    |st.thresholds| == 4 && 0 <= st.thresholdIndex < 4
  }

  /** The mean of the ring, summed in slot order as the source's loop does. */
  function Mean(ring: seq<real>): real
    requires |ring| == 4
  {
    Sum(ring) / 4.0
  }

  /** What holds of the detector state at every tick of the scan. */
  ghost predicate Invariant(st: DetectionState)
  {
    && RingShape(st)
    && st.dynamicThreshold == Mean(st.thresholds)
    && 0 <= st.consecutiveSteps <= ValidStepsThreshold + 1
    && (st.regularModeOn <==> st.consecutiveSteps == ValidStepsThreshold + 1)
    && 0 <= st.totalSteps
    && st.totalSteps + (if st.regularModeOn then 1 else st.consecutiveSteps) <= |st.steps|
  }

  /** End (exclusive) of the one-second search for a minimum after tick `i`. */
  function Horizon(i: int, n: int): (hi: int)
    ensures i < n ==> i < hi <= n && hi <= i + SampleRate
    ensures hi == n || hi == i + SampleRate
  {
    if i + SampleRate < n then i + SampleRate else n
  }

  /** The inner search of `detect_steps`: the first minimum peak in `[j, hi)`. */
  function FirstMinFrom(proce: seq<ProcessedData>, j: int, hi: int): (r: Option<int>)
    requires 0 <= j && hi <= |proce|
    ensures r.Some? ==> j <= r.value < hi && IsPeak(r.value, proce, HalfWindow, Min)
    decreases hi - j
  {
    if j >= hi then None
    else if IsPeak(j, proce, HalfWindow, Min) then Some(j)
    else FirstMinFrom(proce, j + 1, hi)
  }

  /** The search finds a minimum peak in `[j, hi)` with none before it, or
      reports that there is none. */
  lemma {:induction false} FirstMinFromIsFirst(proce: seq<ProcessedData>, j: int, hi: int)
    requires 0 <= j && hi <= |proce|
    ensures var r := FirstMinFrom(proce, j, hi);
      && (r.Some? ==> j <= r.value < hi && IsPeak(r.value, proce, HalfWindow, Min))
      && (r.Some? ==> forall k :: j <= k < r.value ==> !IsPeak(k, proce, HalfWindow, Min))
      && (r.None? ==> forall k :: j <= k < hi ==> !IsPeak(k, proce, HalfWindow, Min))
    decreases hi - j
  {
    if j < hi && !IsPeak(j, proce, HalfWindow, Min) {
      FirstMinFromIsFirst(proce, j + 1, hi);
    }
  }

  /** The minimum paired with a maximum peak at tick `i`, if any. */
  function FirstMin(proce: seq<ProcessedData>, i: int): (r: Option<int>)
    requires 0 <= i < |proce|
    ensures r.Some? ==> i <= r.value < |proce| && r.value < i + SampleRate
    ensures r.Some? ==> IsPeak(r.value, proce, HalfWindow, Min)
  {
    FirstMinFrom(proce, i, Horizon(i, |proce|))
  }

  /** Records the midpoint of a pair whose amplitude exceeds the sensitivity
      in the ring slot at the index, re-averages the ring and advances the
      index; a smaller pair leaves all three alone. */
  function UpdateThreshold(st: DetectionState, maxPeak: real, minPeak: real): (r: DetectionState)
    requires RingShape(st)
    ensures RingShape(r)
  {
    if maxPeak - minPeak > Sensitivity then
      var ring := st.thresholds[st.thresholdIndex := (maxPeak + minPeak) / 2.0];
      st.(thresholds := ring,
          dynamicThreshold := Mean(ring),
          thresholdIndex := (st.thresholdIndex + 1) % 4)
    else st
  }

  /** The validity test: the maximum lies above, and the minimum below, the
      dynamic threshold by half the sensitivity each. */
  function IsValidStep(dynamicThreshold: real, maxPeak: real, minPeak: real): (valid: bool)
    ensures valid ==> maxPeak - minPeak > Sensitivity
  {
    maxPeak > dynamicThreshold + Sensitivity / 2.0 && minPeak < dynamicThreshold - Sensitivity / 2.0
  }

  /** Whether the pair passes the test against the threshold it updated. */
  predicate PairIsValid(st: DetectionState, maxPeak: real, minPeak: real)
    requires RingShape(st)
  {
    IsValidStep(UpdateThreshold(st, maxPeak, minPeak).dynamicThreshold, maxPeak, minPeak)
  }

  /** One max/min pair `(i, j)` with values `maxPeak`, `minPeak`. */
  function PairStep(st: DetectionState, i: int, j: int, maxPeak: real, minPeak: real): (r: DetectionState)
    requires RingShape(st)
    ensures RingShape(r)
  {
    var s1 := UpdateThreshold(st, maxPeak, minPeak);
    if IsValidStep(s1.dynamicThreshold, maxPeak, minPeak) then
      var s2 := s1.(steps := s1.steps + [StepPair(i, j)]);
      if s1.regularModeOn then
        s2.(totalSteps := s1.totalSteps + 1)
      else if s1.consecutiveSteps + 1 > ValidStepsThreshold then
        s2.(consecutiveSteps := s1.consecutiveSteps + 1,
            totalSteps := s1.totalSteps + BatchCredit,
            regularModeOn := true)
      else
        s2.(consecutiveSteps := s1.consecutiveSteps + 1)
    else
      s1.(consecutiveSteps := 0, regularModeOn := false)
  }

  /** One iteration of the outer scan, at tick `i`. */
  function Tick(proce: seq<ProcessedData>, i: int, st: DetectionState): (r: DetectionState)
    requires 0 <= i < |proce| && RingShape(st)
    ensures RingShape(r)
  {
    if !IsPeak(i, proce, HalfWindow, Max) then st
    else match FirstMin(proce, i)
      case None => st.(consecutiveSteps := 0, regularModeOn := false)
      case Some(j) => PairStep(st, i, j, proce[i].filteringSignal, proce[j].filteringSignal)
  }

  /** The detector state after the scan has handled ticks `0..i-1`. */
  function StateAfter(proce: seq<ProcessedData>, i: int): (st: DetectionState)
    requires 0 <= i <= |proce|
    ensures RingShape(st)
    decreases i
  {
    if i == 0 then Initial else Tick(proce, i - 1, StateAfter(proce, i - 1))
  }

  /** The detector state at the end of the scan. */
  function Detection(proce: seq<ProcessedData>): (r: DetectionState)
    ensures Invariant(r)
  {
    InvariantThroughScan(proce, |proce|);
    StateAfter(proce, |proce|)
  }

  /** The time recorded for a pair. */
  function PairTime(p: StepPair): real
  {
    StepTime(p.maxTick, p.minTick)
  }

  // ---------------------------------------------------------------------
  // The threshold ring

  /** A pair of amplitude above the sensitivity writes its midpoint into
      exactly the indexed slot, makes the threshold the ring's mean and
      advances the index; any other pair changes none of the three. The
      regularity state and the recorded steps are never touched. */
  lemma ThresholdUpdate(st: DetectionState, maxPeak: real, minPeak: real)
    requires RingShape(st)
    ensures var r := UpdateThreshold(st, maxPeak, minPeak);
      && (maxPeak - minPeak > Sensitivity ==>
            && r.thresholds[st.thresholdIndex] == (maxPeak + minPeak) / 2.0
            && (forall k :: 0 <= k < 4 && k != st.thresholdIndex ==> r.thresholds[k] == st.thresholds[k])
            && r.dynamicThreshold == (r.thresholds[0] + r.thresholds[1] + r.thresholds[2] + r.thresholds[3]) / 4.0
            && r.thresholdIndex == (st.thresholdIndex + 1) % 4)
      && (maxPeak - minPeak <= Sensitivity ==>
            && r.thresholds == st.thresholds
            && r.dynamicThreshold == st.dynamicThreshold
            && r.thresholdIndex == st.thresholdIndex)
      && r.consecutiveSteps == st.consecutiveSteps
      && r.regularModeOn == st.regularModeOn
      && r.totalSteps == st.totalSteps
      && r.steps == st.steps
  {
    if maxPeak - minPeak > Sensitivity {
      SumOfFour(UpdateThreshold(st, maxPeak, minPeak).thresholds);
    }
  }

  /** A pair that passes the validity test has an amplitude above the
      sensitivity, so it also updated the threshold ring. */
  lemma ValidPairUpdatedThreshold(st: DetectionState, maxPeak: real, minPeak: real)
    requires RingShape(st)
    requires PairIsValid(st, maxPeak, minPeak)
    ensures maxPeak - minPeak > Sensitivity
    ensures UpdateThreshold(st, maxPeak, minPeak).thresholds
            == st.thresholds[st.thresholdIndex := (maxPeak + minPeak) / 2.0]
  {
  }

  /** A maximum paired with itself (equal values) is never a valid step. */
  lemma FlatPairNeverValid(st: DetectionState, v: real)
    requires RingShape(st)
    ensures !PairIsValid(st, v, v)
    ensures UpdateThreshold(st, v, v) == st
  {
  }

  // ---------------------------------------------------------------------
  // Regularity

  /** The regularity state machine on one pair: a valid pair in regular mode
      counts one step; the valid pair that brings the consecutive count past
      the threshold enters regular mode with a credit of exactly eight; an
      invalid pair resets the count and leaves regular mode. A pair is
      recorded if and only if it is valid. */
  lemma RegularityTransition(st: DetectionState, i: int, j: int, maxPeak: real, minPeak: real)
    requires Invariant(st)
    ensures var r := PairStep(st, i, j, maxPeak, minPeak);
      && (PairIsValid(st, maxPeak, minPeak) ==> r.steps == st.steps + [StepPair(i, j)])
      && (!PairIsValid(st, maxPeak, minPeak) ==>
            r.steps == st.steps && r.consecutiveSteps == 0 && !r.regularModeOn && r.totalSteps == st.totalSteps)
      && (PairIsValid(st, maxPeak, minPeak) && st.regularModeOn ==>
            r.regularModeOn && r.consecutiveSteps == st.consecutiveSteps && r.totalSteps == st.totalSteps + 1)
      && (PairIsValid(st, maxPeak, minPeak) && !st.regularModeOn ==>
            && r.consecutiveSteps == st.consecutiveSteps + 1
            && (r.regularModeOn <==> st.consecutiveSteps == ValidStepsThreshold)
            && r.totalSteps == st.totalSteps + (if r.regularModeOn then BatchCredit else 0))
      && (!st.regularModeOn && r.regularModeOn ==>
            r.consecutiveSteps == ValidStepsThreshold + 1 && r.totalSteps == st.totalSteps + BatchCredit)
  {
    ThresholdUpdate(st, maxPeak, minPeak);
  }

  lemma PairStepPreservesInvariant(st: DetectionState, i: int, j: int, maxPeak: real, minPeak: real)
    requires Invariant(st)
    ensures Invariant(PairStep(st, i, j, maxPeak, minPeak))
  {
    ThresholdUpdate(st, maxPeak, minPeak);
  }

  lemma TickPreservesInvariant(proce: seq<ProcessedData>, i: int, st: DetectionState)
    requires 0 <= i < |proce| && Invariant(st)
    ensures Invariant(Tick(proce, i, st))
  {
    if IsPeak(i, proce, HalfWindow, Max) {
      match FirstMin(proce, i)
      case None =>
      case Some(j) =>
        PairStepPreservesInvariant(st, i, j, proce[i].filteringSignal, proce[j].filteringSignal);
    }
  }

  /** Throughout the scan: the consecutive count stays in 0..9, regular mode
      is on exactly when it is 9, the threshold is the mean of the ring, and
      the running total never exceeds the number of recorded steps. */
  lemma {:induction false} InvariantThroughScan(proce: seq<ProcessedData>, i: int)
    requires 0 <= i <= |proce|
    ensures Invariant(StateAfter(proce, i))
  {
    if i > 0 {
      InvariantThroughScan(proce, i - 1);
      TickPreservesInvariant(proce, i - 1, StateAfter(proce, i - 1));
    } else {
      SumOfFour(Initial.thresholds);
    }
  }

  // ---------------------------------------------------------------------
  // Pairing and the shape of the recorded steps

  /** A pair the scan may record: `i` is a maximum peak, `j` the first
      minimum peak in its one-second horizon, and `j` lies strictly after
      `i` (a pair of a tick with itself is never valid). */
  ghost predicate Paired(proce: seq<ProcessedData>, p: StepPair)
  {
    && 0 <= p.maxTick < p.minTick < |proce|
    && p.minTick < p.maxTick + SampleRate
    && IsPeak(p.maxTick, proce, HalfWindow, Max)
    && FirstMin(proce, p.maxTick) == Some(p.minTick)
  }

  /** `ps` is `before`, or `before` with one pair of the scan at maximum
      tick `t` appended. */
  ghost predicate AppendsAtMostOne(proce: seq<ProcessedData>, before: seq<StepPair>, ps: seq<StepPair>, t: int)
  {
    ps == before || (|ps| == |before| + 1 && ps == before + [StepPair(t, ps[|before|].minTick)]
                     && Paired(proce, ps[|before|]))
  }

  /** One tick: nothing happens off a maximum peak; a maximum peak with no
      minimum in its horizon resets regularity; otherwise the first minimum
      is paired with it and at most that one pair is recorded. */
  lemma TickOutcome(proce: seq<ProcessedData>, i: int, st: DetectionState)
    requires 0 <= i < |proce| && RingShape(st)
    ensures var r := Tick(proce, i, st);
      && (!IsPeak(i, proce, HalfWindow, Max) ==> r == st)
      && (IsPeak(i, proce, HalfWindow, Max) && FirstMin(proce, i).None? ==>
            r == st.(consecutiveSteps := 0, regularModeOn := false))
      && AppendsAtMostOne(proce, st.steps, r.steps, i)
  {
    if IsPeak(i, proce, HalfWindow, Max) {
      match FirstMin(proce, i)
      case None =>
      case Some(j) =>
        if j == i {
          FlatPairNeverValid(st, proce[i].filteringSignal);
        }
        FirstMinFromIsFirst(proce, i, Horizon(i, |proce|));
    }
  }

  /** Pairs of the scan with maximum ticks below `t`, in strictly increasing
      order of maximum tick. */
  ghost predicate PairedBefore(proce: seq<ProcessedData>, ps: seq<StepPair>, t: int)
  {
    && (forall k :: 0 <= k < |ps| ==> Paired(proce, ps[k]) && ps[k].maxTick < t)
    && (forall k, l :: 0 <= k < l < |ps| ==> ps[k].maxTick < ps[l].maxTick)
  }

  /** The steps recorded up to tick `i` are pairs of the scan, with maximum
      ticks below `i` and strictly increasing. */
  lemma {:induction false} RecordedPairs(proce: seq<ProcessedData>, i: int)
    requires 0 <= i <= |proce|
    ensures PairedBefore(proce, StateAfter(proce, i).steps, i)
  {
    if i > 0 {
      var st := StateAfter(proce, i - 1);
      var r := Tick(proce, i - 1, st);
      assert StateAfter(proce, i) == r;
      RecordedPairs(proce, i - 1);
      TickOutcome(proce, i - 1, st);
      AppendedPairs(proce, st.steps, r.steps, i - 1);
    }
  }

  /** Appending a pair at tick `t` to pairs recorded before `t` keeps them
      paired and in increasing order. */
  lemma AppendedPairs(proce: seq<ProcessedData>, before: seq<StepPair>, ps: seq<StepPair>, t: int)
    requires PairedBefore(proce, before, t)
    requires AppendsAtMostOne(proce, before, ps, t)
    ensures PairedBefore(proce, ps, t + 1)
  {
    if ps != before {
      assert forall k :: 0 <= k < |before| ==> ps[k] == before[k];
    }
  }

  /** The steps recorded by tick `i` are still the first ones at tick `k`:
      the scan only ever appends. */
  lemma {:induction false} StepsOnlyGrow(proce: seq<ProcessedData>, i: int, k: int)
    requires 0 <= i <= k <= |proce|
    ensures StateAfter(proce, i).steps <= StateAfter(proce, k).steps
  {
    if i < k {
      StepsOnlyGrow(proce, i, k - 1);
      TickOutcome(proce, k - 1, StateAfter(proce, k - 1));
    }
  }

  /** A later maximum peak is never paired with an earlier minimum. */
  lemma FirstMinMonotone(proce: seq<ProcessedData>, a1: int, a2: int)
    requires 0 <= a1 < a2 < |proce|
    requires FirstMin(proce, a1).Some? && FirstMin(proce, a2).Some?
    ensures FirstMin(proce, a1).value <= FirstMin(proce, a2).value
  {
    FirstMinFromIsFirst(proce, a1, Horizon(a1, |proce|));
    FirstMinFromIsFirst(proce, a2, Horizon(a2, |proce|));
  }

  /** The recorded steps are in strictly increasing order of time, and there
      are no more of them than ticks. */
  lemma StepTimesIncrease(proce: seq<ProcessedData>)
    ensures var ps := Detection(proce).steps;
      && |ps| <= |proce|
      && forall k, l :: 0 <= k < l < |ps| ==> PairTime(ps[k]) < PairTime(ps[l])
  {
    var ps := Detection(proce).steps;
    RecordedPairs(proce, |proce|);
    assert ps == StateAfter(proce, |proce|).steps;
    forall k, l | 0 <= k < l < |ps|
      ensures PairTime(ps[k]) < PairTime(ps[l])
    {
      assert Paired(proce, ps[k]) && Paired(proce, ps[l]);
      FirstMinMonotone(proce, ps[k].maxTick, ps[l].maxTick);
    }
    DistinctTicksBound(ps, |proce|);
  }

  /** Strictly increasing ticks below `n` number at most `n`. */
  lemma {:induction false} DistinctTicksBound(ps: seq<StepPair>, n: int)
    requires n >= 0
    requires forall k :: 0 <= k < |ps| ==> 0 <= ps[k].maxTick < n
    requires forall k, l :: 0 <= k < l < |ps| ==> ps[k].maxTick < ps[l].maxTick
    ensures |ps| <= n
  {
    if ps != [] {
      var last := ps[|ps| - 1];
      var init := ps[..|ps| - 1];
      assert forall k :: 0 <= k < |init| ==> init[k] == ps[k];
      assert forall k :: 0 <= k < |init| ==> 0 <= init[k].maxTick < last.maxTick;
      DistinctTicksBound(init, last.maxTick);
    }
  }

  /** A maximum peak at the last tick of the session records nothing and
      leaves regular mode, whether or not it finds itself as a minimum. */
  lemma LastTickPeakResets(proce: seq<ProcessedData>, st: DetectionState)
    requires |proce| > 0 && RingShape(st)
    requires IsPeak(|proce| - 1, proce, HalfWindow, Max)
    ensures Tick(proce, |proce| - 1, st) == st.(consecutiveSteps := 0, regularModeOn := false)
  {
    var i := |proce| - 1;
    match FirstMin(proce, i)
    case None =>
    case Some(j) =>
      FlatPairNeverValid(st, proce[i].filteringSignal);
  }

  /** A worked pair: maximum 1.0 at tick 100 and minimum 0.4 at tick 110,
      against a ring holding 0.5 in every slot. The pair raises the threshold
      to 0.55, still passes, and is recorded at 2.1 seconds. */
  lemma ExamplePair()
    ensures var st := DetectionState([0.5, 0.5, 0.5, 0.5], 0, 0.5, 0, false, 0, []);
      && PairIsValid(st, 1.0, 0.4)
      && UpdateThreshold(st, 1.0, 0.4).dynamicThreshold == 0.55
      && PairStep(st, 100, 110, 1.0, 0.4).steps == [StepPair(100, 110)]
      && PairTime(StepPair(100, 110)) == 2.1
  {
    var st := DetectionState([0.5, 0.5, 0.5, 0.5], 0, 0.5, 0, false, 0, []);
    SumOfFour(UpdateThreshold(st, 1.0, 0.4).thresholds);
  }
}
