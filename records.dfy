/** The step record sink: an append-only buffer of step records of fixed
    capacity, and the walk its consumers do over it. */
module StepRecordSink {
  import opened StepsData

  /** The time of a step, in seconds: the midpoint of its two ticks divided by
      the sample rate. */
  function StepTime(start: int, end: int): (t: real)
    ensures t * (2.0 * SampleRate as real) == (start + end) as real
  {
    (start + end) as real / 2.0 * (1.0 / SampleRate as real)
  }

  /** `record_step_data`: writes the time and the flag into slot `stepCount`,
      counts the record when it is valid, then stamps the slot at the new
      count with that count. The counter the source passes by pointer comes
      in as `stepCount` and goes out as `newCount`. The source does not check
      the capacity; its callers must leave room for the writes. */
  method RecordStepData(steps: array<StepRecord>, stepCount: nat, start: int, end: int, valid: bool)
    returns (newCount: nat)
    requires stepCount < steps.Length
    requires valid ==> stepCount + 1 < steps.Length
    modifies steps
    ensures newCount == if valid then stepCount + 1 else stepCount
    ensures steps[stepCount].time == StepTime(start, end) && steps[stepCount].valid == valid
    ensures steps[newCount].curSteps == newCount
    ensures valid ==> steps[stepCount].curSteps == old(steps[stepCount].curSteps)
    ensures valid ==> steps[newCount] == old(steps[newCount]).(curSteps := newCount)
    ensures forall k :: 0 <= k < steps.Length && k != stepCount && k != newCount ==> steps[k] == old(steps[k])
  {
    steps[stepCount] := steps[stepCount].(time := StepTime(start, end), valid := valid);
    newCount := stepCount;
    if valid {
      newCount := newCount + 1;
    }
    steps[newCount] := steps[newCount].(curSteps := newCount);
  }

  /** How far a consumer walks from slot 0 before it meets the first record
      whose flag is clear: the number of steps the listing and the export
      loops visit. (The total display prints the last index walked plus one,
      which is this count when at least one record is valid.) */
  function ValidPrefixLength(steps: seq<StepRecord>): (r: nat)
    ensures r <= |steps|
    ensures forall k :: 0 <= k < r ==> steps[k].valid
    ensures r < |steps| ==> !steps[r].valid
  {
    if steps == [] || !steps[0].valid then 0 else 1 + ValidPrefixLength(steps[1..])
  }

  /** A buffer whose first `n` records are valid and whose slot `n` is clear
      is walked for exactly `n` steps. */
  lemma SentinelEndsWalk(steps: seq<StepRecord>, n: nat)
    requires n < |steps|
    requires forall k :: 0 <= k < n ==> steps[k].valid
    requires !steps[n].valid
    ensures ValidPrefixLength(steps) == n
  {
  }
}
