/**
 `playPattern` without its audio-device calls: decode the parameter buffer,
 multiply the envelope by the selected wave, and resample the product into
 an output buffer of the device's length.
 */
module Synth {
  import opened Params
  import opened Envelopes
  import opened Waveforms
  import opened Resampling

  /** `generator = multiply(envelope, periodize(soundBank[waveForm % 5]))`. */
  function Generator(p: Pattern, host: Host, t: nat): real
    requires p.baseFreq > 0
  {
    Envelope(p, t as real) * Sample(p.wave, p.baseFreq, host, t)
  }

  /** An envelope level in [0, 1] scales a unit wave sample into [-1, 1]. */
  lemma GeneratorBounded(p: Pattern, host: Host, t: nat)
    requires p.baseFreq > 0
    requires UnitWave(p.wave, host, t)
    ensures -1.0 <= Generator(p, host, t) <= 1.0
  {
    var e := Envelope(p, t as real);
    var w := Sample(p.wave, p.baseFreq, host, t);
    SampleBounded(p.wave, p.baseFreq, host, t);
    ScaleBounded(e, w);
  }

  lemma ScaleBounded(e: real, w: real)
    requires 0.0 <= e <= 1.0 && -1.0 <= w <= 1.0
    ensures -1.0 <= e * w <= 1.0
  {
    if w >= 0.0 {
      assert e * w <= 1.0 * w;
    } else {
      assert e * -w <= 1.0 * -w;
    }
  }

  /** Past the end of the envelope the generator is silent, whatever the wave. */
  lemma GeneratorSilentAfterEnd(p: Pattern, host: Host, t: nat)
    requires p.baseFreq > 0
    requires SampleCount(p) <= t
    ensures Generator(p, host, t) == 0.0
  {
    SilentAfterEnd(p, t as real);
  }

  /** At full sustain the hold phase passes the raw wave through unchanged. */
  lemma FullSustainHoldIsRawWave(p: Pattern, host: Host, t: nat)
    requires p.baseFreq > 0
    requires p.sustain == 1.0
    requires p.attack + p.decay <= t < p.attack + p.decay + p.hold
    ensures Generator(p, host, t) == Sample(p.wave, p.baseFreq, host, t)
  {
    HoldIsSustain(p, t as real);
  }

  /** The synthesis part of `playPattern`, writing into a buffer of `length`
      samples at the device's rate. */
  method PlayPattern(buffer: seq<byte>, deviceRate: nat, length: nat, host: Host)
    returns (sound: seq<real>)
    requires |buffer| >= 7
    requires buffer[0] > 0
    requires deviceRate > 0
    ensures |sound| == length
    ensures forall i :: 0 <= i < length ==>
      sound[i] == Generator(Decode(buffer), host, SourceIndex(i, deviceRate))
    ensures deviceRate == SampleRate ==>
      forall i :: 0 <= i < length ==> sound[i] == Generator(Decode(buffer), host, i)
    ensures forall i :: CoverLength(SampleCount(Decode(buffer)), deviceRate) <= i < length ==> sound[i] == 0.0
    ensures buffer[1] == buffer[2] == buffer[3] == buffer[5] == 0 ==>
      forall i :: 0 <= i < length ==> sound[i] == 0.0
    ensures forall i :: 0 <= i < length && UnitWave(Decode(buffer).wave, host, SourceIndex(i, deviceRate)) ==>
      -1.0 <= sound[i] <= 1.0
  {
    var p := Decode(buffer);
    sound := ZeroOrderHold((t: nat) => Generator(p, host, t), length, deviceRate);
    forall i | 0 <= i < length
      ensures deviceRate == SampleRate ==> sound[i] == Generator(p, host, i)
      ensures CoverLength(SampleCount(p), deviceRate) <= i ==> sound[i] == 0.0
      ensures SampleCount(p) == 0 ==> sound[i] == 0.0
      ensures UnitWave(p.wave, host, SourceIndex(i, deviceRate)) ==> -1.0 <= sound[i] <= 1.0
    {
      var t := SourceIndex(i, deviceRate);
      if deviceRate == SampleRate {
        SourceIndexAtInternalRate(i);
      }
      SourceIndexBelowCount(i, SampleCount(p), deviceRate);
      if SampleCount(p) <= t {
        GeneratorSilentAfterEnd(p, host, t);
      }
      if UnitWave(p.wave, host, t) {
        GeneratorBounded(p, host, t);
      }
    }
  }

  /** A pattern whose four length bytes are zero has an envelope of length
      zero: it covers no output sample and its generator is silent at every
      sample, whatever the wave. */
  lemma ZeroLengthsAreSilent(buffer: seq<byte>, host: Host, deviceRate: nat, t: nat)
    requires |buffer| >= 7
    requires buffer[0] > 0
    requires buffer[1] == buffer[2] == buffer[3] == buffer[5] == 0
    ensures CoverLength(SampleCount(Decode(buffer)), deviceRate) == 0
    ensures Generator(Decode(buffer), host, t) == 0.0
  {
    GeneratorSilentAfterEnd(Decode(buffer), host, t);
  }
}
