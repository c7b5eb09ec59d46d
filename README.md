# Step detector signal chain

A Dafny model of the deterministic part of the step data generator
(`StepsDataGenerator.c`), starting from an array of acceleration magnitudes.
It covers four routines:

- **`low_pass_filtering`**: a 4-tap causal moving average. It keeps a ring of
  the four most recent magnitudes, and that ring (`static` in the source)
  survives from one call to the next.
- **`is_peak`**: tests whether a filtered value is the maximum or the minimum
  of a window clamped to the session. Ties still count as a peak.
- **`detect_steps`**: a single forward scan.
  - Each maximum peak is paired with the first minimum peak found within one
    second.
  - The pair updates a 4-slot ring of threshold midpoints and its rolling mean
    (the dynamic threshold).
  - The pair is then tested for validity, and a small regularity state machine
    (`consecutive_steps`, `regular_mode_on`, `total_steps`) is advanced.
- **`record_step_data`**: an append-only sink into the step record buffer. Its
  consumers walk that buffer up to the first invalid record.

How the source maps to Dafny:

- `double` is modelled as `real`, and the 0/1 `valid` flag as `bool`.
- `SAMPLE_NUM` becomes the length of the array the routines are given.
- The constants keep their values: 50 ticks per second, a half-window of 7,
  a sensitivity of 0.1, and a regularity threshold of 8.

Modules:

- `StepsData` (`steps_data.dfy`): records, constants, the magnitude of a
  sample, and the summing loop the source runs over a 4-slot ring.
- `LowPassFiltering` (`filter.dfy`): the class `LowPassFilter`. Its fields are
  the static `buffer` and `buffer_index`. `Filter` is proved against the
  specification function `MovingAverage`.
- `PeakDetection` (`peak.dfy`): `IsPeak`, a function that scans the window as
  the source does, and its characterisation.
- `StepRecordSink` (`records.dfy`): `RecordStepData`, and `ValidPrefixLength`,
  the walk the listing and export loops do.
- `DetectionSpec` (`detection_spec.dfy`): the scan as a pure state machine.
  - `Tick` handles one iteration of the outer loop.
  - `StateAfter` folds `Tick` over the ticks.
  - `Detection` is the final state.
  - The module also holds the lemmas about the threshold ring, the regularity
    invariant, pairing and the order of the recorded steps.
- `StepDetector` (`detector.dfy`): the imperative `detect_steps`. It is proved
  tick by tick to compute `Detection` and to leave the record buffer as valid
  records closed by a sentinel.

The pointer `step_count` is threaded through as a value: it goes into
`RecordStepData` as `stepCount` and comes back as `newCount`. `DetectSteps`
returns its final value so that the contract can name it.

The body of `detect_steps` is split into helpers:

- `FindMinPeak` is the inner search.
- `UpdateThresholdRing` and `HandlePair` process a found pair.
- `ScanTick` is one iteration of the outer loop.
- `Scan` is the outer loop.

The statements and their order are those of the source. The source processes
the pair inside the inner loop and then `break`s. The model returns the index
from the search and processes the pair afterwards, which runs the same
statements on the same values.

Behaviour of the source that the model reproduces as written:

- **Slot 0 keeps its old `cur_steps`.** `record_step_data` writes
  `cur_steps` into slot `*step_count` after the optional increment: the next
  slot after a valid record, the record's own slot after an invalid one (which
  is how the sentinel gets `cur_steps == count`). So when the first record is
  valid, slot 0's `cur_steps` is never written, and `DetectSteps` states that
  it keeps its old value.
- **`total_steps` is never read or returned.** The imperative scan carries it
  as a local and updates it as the source does, and the state machine proves
  it never exceeds the number of recorded steps. A regular run of L valid
  steps credits L - 1 of them. Only the contract of `DetectSteps` leaves it
  out, since the source discards it.
- **A maximum peak may be paired with itself.** The minimum search starts at
  the maximum tick itself, so such a pair is possible. It is never valid,
  because its amplitude is 0. So it records nothing and resets regularity, just
  as a maximum peak with no minimum does (`LastTickPeakResets`).

## Model

| member | source | states |
|---|---|---|
| `StepsData.Magnitude` | StepsDataGenerator.c:83 | the magnitude is at least each axis's absolute value, and it is zero exactly for the zero sample |
| `StepsData.SumSlots` | StepsDataGenerator.c:99-102 | the summing loop returns the left-to-right sum of every slot |
| `LowPassFiltering.LowPassFilter.constructor` | StepsDataGenerator.c:91-92 | the static ring starts as four zeros with index 0 |
| `LowPassFiltering.LowPassFilter.Push` | StepsDataGenerator.c:96-97 | a sample overwrites the oldest slot, and the index advances by one modulo 4 and stays in 0..3 |
| `LowPassFiltering.LowPassFilter.Step` | StepsDataGenerator.c:96-103 | one tick pushes the magnitude and yields the mean of the ring contents, whichever slot holds the oldest value |
| `LowPassFiltering.LowPassFilter.Filter` | StepsDataGenerator.c:89-105 | each tick's filtered value is the mean of the four most recent magnitudes, counting the ring's contents at entry; the magnitude is unchanged; the ring ends holding the last four magnitudes |
| `LowPassFiltering.MovingAverage` | StepsDataGenerator.c:96-103 | reference definition of output `i` of a call: the mean of the four newest values of the stream "ring contents at entry, then the magnitudes up to `i`"; its meaning for the first call and for a resumed call is stated by `FirstCallAverage` and `ResumedCallContinuesStream` |
| `LowPassFiltering.FirstCallAverage` | StepsDataGenerator.c:91-104 | from the initial zero ring, output `i` is `(m[i]+m[i-1]+m[i-2]+m[i-3])/4`, with ticks before 0 counting 0 |
| `LowPassFiltering.ResumedCallContinuesStream` | StepsDataGenerator.c:91-92 | because the ring is static, a second call continues the first: filtering `m1` then `m2` gives on `m2` what one call over `m1 + m2` gives on its tail |
| `LowPassFiltering.RotatedSum` | StepsDataGenerator.c:100-103 | summing the ring slots in array order gives the same value as summing them oldest first |
| `PeakDetection.NoneBeats` | StepsDataGenerator.c:117-124 | the window scan as a recursion that stops at the first beating value; under any other mode it always succeeds; `NoneBeatsIff` states its meaning |
| `PeakDetection.IsPeak` | StepsDataGenerator.c:108-125 | `is_peak` over the window clamped to `[0, n-1]`; under any other mode it always holds; `IsPeakIff` states both directions of its meaning |
| `PeakDetection.NoneBeatsIff` | StepsDataGenerator.c:117-124 | the window scan succeeds exactly when no value in the range is strictly larger (mode `m`) or strictly smaller (mode `n`) than the centre |
| `PeakDetection.IsPeakIff` | StepsDataGenerator.c:108-125 | a tick is a maximum peak if and only if it is at least every value of the window clamped to `[0, n-1]`, and a minimum peak if and only if it is at most every value of it; under any other mode every tick is a peak |
| `PeakDetection.FlatWindowIsBothPeaks` | StepsDataGenerator.c:118-119 | ties do not disqualify, so on a flat window the centre is both a maximum and a minimum peak |
| `PeakDetection.BothPeaksMeansFlatWindow` | StepsDataGenerator.c:118-119 | conversely, a tick that is both kinds of peak sits on a flat window |
| `StepRecordSink.StepTime` | StepsDataGenerator.c:195 | the step time is the midpoint tick divided by the sample rate: `t * 2 * 50 == start + end` |
| `StepRecordSink.RecordStepData` | StepsDataGenerator.c:194-199 | writes time and flag into slot `step_count`; increments the count exactly when the record is valid; stamps the slot at the new count with the new count; every other slot is unchanged |
| `StepRecordSink.ValidPrefixLength` | StepsDataGenerator.c:218-220 | the listing and export walk (also lines 228-232) stops at the first invalid record, and every record before it is valid |
| `StepRecordSink.SentinelEndsWalk` | StepsDataGenerator.c:218 | a buffer of `n` valid records followed by an invalid one is walked for exactly `n` steps |
| `DetectionSpec.FirstMinFrom` | StepsDataGenerator.c:144-145 | a minimum found by the inner search lies in the searched range and is a minimum peak |
| `DetectionSpec.Horizon` | StepsDataGenerator.c:144 | the inner search ends one second after the maximum or at the end of the session, whichever comes first, and always past the maximum tick itself |
| `DetectionSpec.FirstMin` | StepsDataGenerator.c:144-145 | the minimum paired with a maximum at `i` lies in `[i, i+50)` and inside the session, and is a minimum peak; `FirstMinFromIsFirst` states that it is the first one |
| `DetectionSpec.FirstMinFromIsFirst` | StepsDataGenerator.c:144-145 | the search returns the first minimum peak in `[j, hi)`, or none when there is no minimum peak there |
| `DetectionSpec.UpdateThreshold` | StepsDataGenerator.c:152-161 | the threshold ring keeps four slots and an index in 0..3 |
| `DetectionSpec.IsValidStep` | StepsDataGenerator.c:164 | the validity test; a pair that passes it has an amplitude above the sensitivity |
| `DetectionSpec.PairStep` | StepsDataGenerator.c:149-180 | handling a found pair keeps the ring shape; its meaning is stated by `RegularityTransition` and `ThresholdUpdate` |
| `DetectionSpec.Tick` | StepsDataGenerator.c:141-188 | one outer iteration keeps the ring shape; its meaning is stated by `TickOutcome` |
| `DetectionSpec.StateAfter` | StepsDataGenerator.c:139-189 | the ring keeps its shape at every tick of the scan |
| `DetectionSpec.Detection` | StepsDataGenerator.c:128-191 | the detector state at the end of the scan satisfies the detector invariant (count in 0..9, regular mode iff 9, threshold the ring mean, total within the recorded steps) |
| `DetectionSpec.ThresholdUpdate` | StepsDataGenerator.c:152-161 | above the sensitivity, exactly the indexed slot takes the midpoint, the threshold becomes `(r[0]+r[1]+r[2]+r[3])/4` over the new slots and the index advances modulo 4; otherwise the ring, index and threshold are unchanged; the regularity state and the recorded steps are untouched either way |
| `DetectionSpec.ValidPairUpdatedThreshold` | StepsDataGenerator.c:153-164 | a pair that passes the validity test has an amplitude above the sensitivity, so it also wrote its midpoint into the ring |
| `DetectionSpec.FlatPairNeverValid` | StepsDataGenerator.c:152-164 | a pair of equal values (as when a tick is paired with itself) leaves the ring alone and is never valid |
| `DetectionSpec.RegularityTransition` | StepsDataGenerator.c:164-179 | a pair is recorded if and only if it is valid; in regular mode a valid pair adds 1 to the total; outside it a valid pair increments the consecutive count, and enters regular mode with a credit of exactly 8 if and only if the count reaches 9; an invalid pair resets the count and leaves regular mode |
| `DetectionSpec.PairStepPreservesInvariant` | StepsDataGenerator.c:149-180 | handling one pair preserves the detector invariant |
| `DetectionSpec.TickPreservesInvariant` | StepsDataGenerator.c:141-188 | one tick of the scan preserves the detector invariant |
| `DetectionSpec.InvariantThroughScan` | StepsDataGenerator.c:129-189 | at every tick the consecutive count is in 0..9; regular mode is on if and only if it is 9; the threshold is the mean of the ring; the total is never more than the number of recorded steps |
| `DetectionSpec.TickOutcome` | StepsDataGenerator.c:141-187 | off a maximum peak nothing changes; a maximum peak with no minimum in its horizon resets regularity and changes nothing else; at most one pair is recorded per tick, and it is the tick paired with its first minimum |
| `DetectionSpec.RecordedPairs` | StepsDataGenerator.c:139-189 | every recorded step is a maximum peak paired with the first minimum of its horizon, strictly after it; the maximum ticks strictly increase |
| `DetectionSpec.AppendedPairs` | StepsDataGenerator.c:167-170 | appending the pair of the current tick keeps the recorded pairs ordered and paired |
| `DetectionSpec.StepsOnlyGrow` | StepsDataGenerator.c:167-170 | the scan only ever appends: the steps recorded by tick `i` are a prefix of those recorded by any later tick |
| `DetectionSpec.FirstMinMonotone` | StepsDataGenerator.c:144-145 | a later maximum peak is never paired with an earlier minimum |
| `DetectionSpec.StepTimesIncrease` | StepsDataGenerator.c:139-189 | the recorded step times strictly increase, and there are no more steps than ticks |
| `DetectionSpec.DistinctTicksBound` | StepsDataGenerator.c:139 | strictly increasing ticks below `n` are at most `n` in number |
| `DetectionSpec.LastTickPeakResets` | StepsDataGenerator.c:144-187 | a maximum peak at the last tick records nothing and leaves regular mode, whether or not its search finds the tick itself |
| `DetectionSpec.ExamplePair` | StepsDataGenerator.c:152-170 | worked pair: maximum 1.0 and minimum 0.4 against a ring of 0.5s raise the threshold to 0.55, pass the test, and are recorded at 2.1 s for ticks 100 and 110 |
| `StepDetector.AppendRecord` | StepsDataGenerator.c:167-170 | recording a valid pair keeps the buffer in step with the recorded pairs |
| `StepDetector.FindMinPeak` | StepsDataGenerator.c:142-147 | the inner loop reports a minimum exactly when the specification's search finds one, and returns that tick |
| `StepDetector.UpdateThresholdRing` | StepsDataGenerator.c:152-161 | the ring array, index and threshold after the update are those of `UpdateThreshold` |
| `StepDetector.HandlePair` | StepsDataGenerator.c:149-179 | the locals and the record buffer after handling a pair are those of `PairStep` |
| `StepDetector.ScanTick` | StepsDataGenerator.c:141-188 | the locals and the record buffer after one iteration of the outer loop are those of `Tick` |
| `StepDetector.Scan` | StepsDataGenerator.c:129-189 | after the loop, the step count equals the number of valid pairs of `Detection`, and the buffer holds one valid record per pair, at that pair's time |
| `StepDetector.DetectSteps` | StepsDataGenerator.c:128-191 | `steps[0..count-1]` are valid and carry the times of the detected pairs in order; `steps[count]` is the sentinel (invalid, time 0, `cur_steps == count`); slots `1..count-1` are stamped with their index; slot 0 keeps its `cur_steps`; later slots are untouched; the consumers' walk visits exactly `count` records |

## Left out

- `generate_normal_data` and the random parts of `simulate_acceleration`
  (lines 69-86) are not modelled. They use `rand`, `log`, `sqrt` and `cos` over
  a library generator. Only the magnitude formula of line 83 is modelled
  (`Magnitude`). The other routines take the magnitudes as input.
- `main` (lines 44-64) is not modelled: it seeds the generator and allocates
  the arrays on the stack. Of the four routines it calls, `low_pass_filtering`
  and `detect_steps` are modelled one by one; `simulate_acceleration` and
  `user_interface` are covered only as the two items above and below say.
  The filter's static state is modelled as one `LowPassFilter` object that lives
  across calls.
- `user_interface` and `menu` (lines 202-262) are not modelled, since they are
  console and file I/O. Only their walk over the records, which stops at the
  first invalid one, is modelled (`ValidPrefixLength`).
- The capacity of the record buffer is left to the caller.
  - `record_step_data` does no bound check, and `main` allocates
    `SAMPLE_NUM/10` records.
  - `DetectSteps` instead requires room for every valid step and the sentinel.
  - The model does not prove that `SAMPLE_NUM/10` is enough. The number of
    maximum peaks is not bounded by the code.
- IEEE-754 rounding is not modelled: arithmetic is exact over `real`, so
  results at the rounding boundary of a comparison may differ from the C
  program.
- `SAMPLE_NUM` is generalised. The routines work on an array of any length
  instead of the fixed 15000.
- `LowPassFiltering.LowPassFilter.Filter` does not state the final value of
  `buffer_index`. It states instead the ring contents in age order (`Recent`),
  which is all that later calls depend on. `Push` states the per-sample index
  advance.
- `StepDetector.DetectSteps` does not mention `total_steps` in its contract.
  It is a local of `detect_steps` that is never read or returned; the loop
  carries it as the source does, and `Scan`'s invariant ties it to the
  state machine's `totalSteps`.
