/**
 Zero-order-hold resampling from the internal rate to the audio device's
 rate: output sample `i` repeats the generator's value at source index
 `(i / resampleRatio)|0`, where `resampleRatio = deviceRate / SampleRate`.
 */
module Resampling {
  import opened Params
  import opened IntArith

  /** `(i / resampleRatio)|0`: for a non-negative quotient the truncation is a
      floor, and `i / (deviceRate/4000)` is `i*4000 / deviceRate`. */
  function SourceIndex(i: nat, deviceRate: nat): (t: nat)
    requires deviceRate > 0
    ensures t * deviceRate <= i * SampleRate < (t + 1) * deviceRate
  {
    (i * SampleRate) / deviceRate
  }

  /** `SourceIndex` is the floor of the real quotient `i / resampleRatio`. */
  lemma SourceIndexIsFloor(i: nat, deviceRate: nat)
    requires deviceRate > 0
    ensures SourceIndex(i, deviceRate) == (i as real / (deviceRate as real / SampleRate as real)).Floor
  {
    var n, d := i * SampleRate, deviceRate;
    assert i as real / (d as real / SampleRate as real) == n as real / d as real;
    var q, r := n / d, n % d;
    assert n as real / d as real == q as real + r as real / d as real by {
      assert n as real == q as real * d as real + r as real;
    }
    assert r as real / d as real < 1.0;
  }

  /** Later output samples never read an earlier source sample. */
  lemma SourceIndexMonotone(i: nat, j: nat, deviceRate: nat)
    requires deviceRate > 0
    requires i <= j
    ensures SourceIndex(i, deviceRate) <= SourceIndex(j, deviceRate)
  {
    DivMonotone(i * SampleRate, j * SampleRate, deviceRate);
  }

  /** `ceil(sampleCount * resampleRatio)`: the number of output samples that
      cover `sampleCount` source samples. */
  function CoverLength(sampleCount: nat, deviceRate: nat): nat
  {
    (sampleCount * deviceRate + SampleRate - 1) / SampleRate
  }

  /** Output sample `i` reads a source sample below `sampleCount` exactly when
      `i` lies below the covering length. */
  lemma SourceIndexBelowCount(i: nat, sampleCount: nat, deviceRate: nat)
    requires deviceRate > 0
    ensures SourceIndex(i, deviceRate) < sampleCount <==> i < CoverLength(sampleCount, deviceRate)
  {
    var n := sampleCount * deviceRate;
    // both sides say i*4000 < sampleCount*deviceRate
    assert SourceIndex(i, deviceRate) < sampleCount <==> i * SampleRate < n by {
      DivLtIff(i * SampleRate, deviceRate, sampleCount);
    }
    assert i < CoverLength(sampleCount, deviceRate) <==> i * SampleRate < n by {
      CeilLtIff(i, n, SampleRate);
    }
  }

  /** At the internal rate the source index is the output index. */
  lemma SourceIndexAtInternalRate(i: nat)
    ensures SourceIndex(i, SampleRate) == i
  {
  }

  /** When the device rate is at least the internal rate, every source
      sample below `sampleCount` is read by some output sample: upsampling
      drops nothing. */
  lemma UpsamplingReadsEverySource(t: nat, sampleCount: nat, deviceRate: nat)
    requires SampleRate <= deviceRate
    requires t < sampleCount
    ensures exists i: nat :: i < CoverLength(sampleCount, deviceRate) && SourceIndex(i, deviceRate) == t
  {
    var i := (t * deviceRate + SampleRate - 1) / SampleRate;
    // i is the first output sample with i*4000 >= t*deviceRate
    CeilLtIff(i, t * deviceRate, SampleRate);
    assert i * SampleRate >= t * deviceRate;
    assert i * SampleRate < t * deviceRate + SampleRate by {
      if i > 0 {
        CeilLtIff(i - 1, t * deviceRate, SampleRate);
        assert (i - 1) * SampleRate < t * deviceRate;
      }
    }
    assert SourceIndex(i, deviceRate) == t by {
      DivLtIff(i * SampleRate, deviceRate, t + 1);
      assert t * deviceRate + SampleRate <= (t + 1) * deviceRate;
      DivLtIff(i * SampleRate, deviceRate, t);
    }
    SourceIndexBelowCount(i, sampleCount, deviceRate);
  }

  /** The zero-order-hold output, stated directly: sample `i` is the source
      sample at `SourceIndex(i)`. */
  function Held(gen: nat -> real, length: nat, deviceRate: nat): (out: seq<real>)
    requires deviceRate > 0
    ensures |out| == length
  {
    seq(length, i requires 0 <= i < length => gen(SourceIndex(i, deviceRate)))
  }

  /** The resampling loop of `playPattern`: each outer pass evaluates the
      generator once at the current source index and the inner `do-while`
      writes that value until the source index changes. Writes stop at the
      buffer's end, where the source's typed array drops them. */
  method ZeroOrderHold(gen: nat -> real, length: nat, deviceRate: nat) returns (sound: seq<real>)
    requires deviceRate > 0
    ensures |sound| == length
    ensures forall i :: 0 <= i < length ==> sound[i] == gen(SourceIndex(i, deviceRate))
    ensures sound == Held(gen, length, deviceRate)
  {
    var buf := new real[length];
    var i := 0;
    while i < length
      invariant 0 <= i <= length
      invariant forall k :: 0 <= k < i ==> buf[k] == gen(SourceIndex(k, deviceRate))
    {
      var t := SourceIndex(i, deviceRate);
      var sample := gen(t);
      buf[i] := sample;
      i := i + 1;
      while i < length && SourceIndex(i, deviceRate) == t
        invariant 0 < i <= length
        invariant forall k :: 0 <= k < i ==> buf[k] == gen(SourceIndex(k, deviceRate))
      {
        buf[i] := sample;
        i := i + 1;
      }
    }
    sound := buf[..];
  }

  /** At the internal rate resampling is the identity: sample `i` is `gen(i)`. */
  lemma HeldAtInternalRate(gen: nat -> real, length: nat)
    ensures forall i :: 0 <= i < length ==> Held(gen, length, SampleRate)[i] == gen(i)
  {
    forall i | 0 <= i < length
      ensures Held(gen, length, SampleRate)[i] == gen(i)
    {
      SourceIndexAtInternalRate(i);
    }
  }
}
