/** Records, constants and small arithmetic shared by the whole signal chain of
    the step data generator. A C `double` is modelled as a Dafny `real`. */
module StepsData {

  /** One accelerometer sample, three axis readings. */
  datatype Acceleration = Acceleration(x: real, y: real, z: real)

  /** One tick of the processed signal: the magnitude of the acceleration and
      its low-pass filtered value. */
  datatype ProcessedData = ProcessedData(magnitude: real, filteringSignal: real)

  /** One slot of the step record buffer: the time of the step in seconds, the
      number of valid steps recorded before it, and whether it is a valid step
      (the C `int` flag holds only 0 or 1, so it is a `bool` here). */
  datatype StepRecord = StepRecord(time: real, curSteps: int, valid: bool)

  /** Ticks per second. The session length of the source (`SAMPLE_NUM`, 50
      ticks per second for 300 seconds) is not a constant here: every routine
      works on the length of the array it is given. */
  const SampleRate: nat := 50
  const ValidStepsThreshold: nat := 8
  const WindowSize: nat := 15
  /** The step detector's `sensitivity`, a local constant in the source. */
  const Sensitivity: real := 0.1

  function Abs(v: real): (r: real)
    ensures r >= 0.0 && (r == v || r == -v)
  {
    if v < 0.0 then -v else v
  }

  /** The magnitude of a sample: the sum of the absolute axis values. */
  function Magnitude(a: Acceleration): (m: real)
    ensures m >= Abs(a.x) && m >= Abs(a.y) && m >= Abs(a.z)
    ensures m == 0.0 <==> a == Acceleration(0.0, 0.0, 0.0)
  {
    Abs(a.x) + Abs(a.y) + Abs(a.z)
  }

  /** Left-to-right sum, in the order the source's summing loops add. */
  function Sum(s: seq<real>): real
  {
    if s == [] then 0.0 else Sum(s[..|s| - 1]) + s[|s| - 1]
  }

  /** The summing loop of the source, over every slot of an array in index
      order. */
  method SumSlots(a: array<real>) returns (total: real)
    ensures total == Sum(a[..])
  {
    total := 0.0;
    for k := 0 to a.Length
      invariant total == Sum(a[..k])
    {
      assert a[..k + 1][..k] == a[..k];
      total := total + a[k];
    }
    assert a[..a.Length] == a[..];
  }

  lemma SumOfFour(s: seq<real>)
    requires |s| == 4
    ensures Sum(s) == s[0] + s[1] + s[2] + s[3]
  {
    assert s[..3][..2] == s[..2] && s[..2][..1] == s[..1] && s[..1][..0] == [];
    assert Sum(s[..1]) == s[0];
    assert Sum(s[..2]) == s[0] + s[1];
    assert Sum(s[..3]) == s[0] + s[1] + s[2];
  }
}
