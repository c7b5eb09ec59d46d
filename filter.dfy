/** The low-pass filter: a causal 4-tap moving average over the magnitude,
    kept in a 4-slot ring buffer that lives across calls (`static` storage
    in the source). */
module LowPassFiltering {
  import opened StepsData

  /** The magnitudes of a processed-data sequence, tick by tick. */
  function Magnitudes(proce: seq<ProcessedData>): (m: seq<real>)
    ensures |m| == |proce|
    ensures forall k :: 0 <= k < |proce| ==> m[k] == proce[k].magnitude
  {
    seq(|proce|, k requires 0 <= k < |proce| => proce[k].magnitude)
  }

  /** The four most recent values of a stream, oldest first. */
  function Last4(s: seq<real>): (r: seq<real>)
    requires |s| >= 4
    ensures |r| == 4 && forall k :: 0 <= k < 4 ==> r[k] == s[|s| - 4 + k]
  {
    s[|s| - 4..]
  }

  /** Specification of the filter's output at tick `i` of a call: the mean of
      the ring contents after `mags[i]` was pushed, where `recent` is what the
      ring held (oldest first) when the call began. */
  function MovingAverage(recent: seq<real>, mags: seq<real>, i: int): real
    requires |recent| == 4 && 0 <= i < |mags|
  {
    Sum((recent + mags)[i + 1..i + 5]) / 4.0
  }

  /** `mags[k]`, or 0 for a tick before the start of the stream. */
  function Padded(mags: seq<real>, k: int): real
    requires k < |mags|
  {
    if k < 0 then 0.0 else mags[k]
  }

  /** On the first call the ring is all zeros, so each output is the mean of
      the current and three previous magnitudes, ticks before 0 counting 0. */
  lemma FirstCallAverage(mags: seq<real>, i: int)
    requires 0 <= i < |mags|
    ensures MovingAverage([0.0, 0.0, 0.0, 0.0], mags, i)
            == (Padded(mags, i) + Padded(mags, i - 1) + Padded(mags, i - 2) + Padded(mags, i - 3)) / 4.0
  {
    var h := [0.0, 0.0, 0.0, 0.0] + mags;
    SumOfFour(h[i + 1..i + 5]);
    assert h[i + 1] == Padded(mags, i - 3) && h[i + 2] == Padded(mags, i - 2);
    assert h[i + 3] == Padded(mags, i - 1) && h[i + 4] == Padded(mags, i);
  }

  /** A second call resumes from the last four values of the first: filtering
      `m1` and then `m2` gives, on `m2`, exactly what one call over `m1 + m2`
      would give on its tail. */
  lemma ResumedCallContinuesStream(recent: seq<real>, m1: seq<real>, m2: seq<real>, i: int)
    requires |recent| == 4 && 0 <= i < |m2|
    ensures MovingAverage(Last4(recent + m1), m2, i) == MovingAverage(recent, m1 + m2, |m1| + i)
  {
    var h1 := Last4(recent + m1) + m2;
    var h2 := recent + (m1 + m2);
    var j := |m1| + i;
    assert h1[i + 1] == h2[j + 1] && h1[i + 2] == h2[j + 2];
    assert h1[i + 3] == h2[j + 3] && h1[i + 4] == h2[j + 4];
    assert h1[i + 1..i + 5] == h2[j + 1..j + 5];
  }

  /** The sum of a 4-slot ring does not depend on where reading starts. */
  lemma RotatedSum(b: seq<real>, idx: int)
    requires |b| == 4 && 0 <= idx < 4
    ensures Sum(b[idx..] + b[..idx]) == Sum(b)
  {
    var r := b[idx..] + b[..idx];
    SumOfFour(b);
    SumOfFour(r);
    if idx == 1 {
      assert r[3] == b[0];
    } else if idx == 2 {
      assert r[2] == b[0] && r[3] == b[1];
    } else if idx == 3 {
      assert r[1] == b[0] && r[2] == b[1] && r[3] == b[2];
    }
  }

  /** The filter state: the source's `static double buffer[4]` and
      `static int buffer_index`, the slot the next sample is written to. */
  class LowPassFilter {
    const buffer: array<real>
    var bufferIndex: int

    ghost predicate Valid()
      reads this
    {
      buffer.Length == 4 && 0 <= bufferIndex < 4
    }

    /** The ring contents, oldest first: the slot at `bufferIndex` holds the
        oldest value, the one before it the newest. */
    ghost function Recent(): (r: seq<real>)
      reads this, buffer
      requires Valid()
      ensures |r| == 4
    {
      buffer[bufferIndex..] + buffer[..bufferIndex]
    }

    /** The static initialisation: four zeros, index 0. */
    constructor ()
      ensures Valid() && fresh(buffer)
      ensures bufferIndex == 0 && Recent() == [0.0, 0.0, 0.0, 0.0]
    {
      buffer := new real[4](_ => 0.0);
      bufferIndex := 0;
    }

    /** Pushing one value into the ring drops the oldest and appends it. */
    method Push(v: real)
      requires Valid()
      modifies this, buffer
      ensures Valid()
      ensures bufferIndex == (old(bufferIndex) + 1) % 4
      ensures Recent() == old(Recent())[1..] + [v]
    {
      buffer[bufferIndex] := v;
      bufferIndex := (bufferIndex + 1) % 4;
    }

    /** One tick of the filter: pushes the magnitude and takes the mean of
        the ring, summed in slot order; the mean does not depend on which
        slot holds the oldest value. */
    method Step(v: real) returns (average: real)
      requires Valid()
      modifies this, buffer
      ensures Valid()
      ensures Recent() == old(Recent())[1..] + [v]
      ensures average == Sum(Recent()) / 4.0
    {
      Push(v);
      var sum := SumSlots(buffer);
      RotatedSum(buffer[..], bufferIndex);
      average := sum / 4.0;
    }

    /** `low_pass_filtering`: writes the moving average of the magnitudes
        into every tick's filtered signal, continuing from the ring state
        left by the previous call. */
    method Filter(proce: array<ProcessedData>)
      requires Valid()
      modifies this, buffer, proce
      ensures Valid()
      ensures Recent() == Last4(old(Recent()) + Magnitudes(old(proce[..])))
      ensures forall i :: 0 <= i < proce.Length ==>
                proce[i] == old(proce[i]).(filteringSignal :=
                  MovingAverage(old(Recent()), Magnitudes(old(proce[..])), i))
    {
      ghost var prev := Recent();
      ghost var orig := proce[..];
      ghost var mags := Magnitudes(orig);
      ghost var h := prev + mags;
      var i := 0;
      while i < proce.Length
        invariant 0 <= i <= proce.Length
        invariant Valid()
        invariant Recent() == h[i..i + 4]
        invariant forall k :: 0 <= k < proce.Length ==>
                    proce[k] == if k < i then orig[k].(filteringSignal := MovingAverage(prev, mags, k)) else orig[k]
      {
        assert h[i + 4] == proce[i].magnitude;
        ghost var window := h[i + 1..i + 5];
        assert h[i..i + 4][1..] + [h[i + 4]] == window;
        var average := Step(proce[i].magnitude);
        proce[i] := proce[i].(filteringSignal := average);
        assert Recent() == window;
        i := i + 1;
        assert window == h[i..i + 4];
      }
    }
  }
}
