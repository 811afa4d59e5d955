/**
 Decoding of a sound pattern's 7-byte parameter buffer into the quantities
 the synthesizer works with. Lengths are counted in samples at the internal
 reference rate of 4000 Hz, so a byte times 4 is both milliseconds and samples.
 */
module Params {

  /** `SAMPLERATE`: the internal rate at which the envelope and waves are evaluated. */
  const SampleRate: nat := 4000

  type byte = x: int | 0 <= x < 256

  /** An amplitude between silence and full volume. */
  type Level = r: real | 0.0 <= r <= 1.0

  /** The entries of `soundBank`, in table order. */
  datatype Wave = SawTooth | Square | Triangle | Sine | Noise

  const SoundBank: seq<Wave> := [SawTooth, Square, Triangle, Sine, Noise]

  /** The decoded parameters of one pattern. */
  datatype Pattern = Pattern(
    baseFreq: nat,   // Hz
    attack: nat,     // samples at SampleRate
    decay: nat,
    hold: nat,
    sustain: Level,  // level held between decay and release
    release: nat,
    wave: Wave)

  /** `sampleCount`: the length of the whole envelope. */
  function SampleCount(p: Pattern): nat
  {
    p.attack + p.decay + p.hold + p.release
  }

  /** The parameter decode at the top of `playPattern`. */
  function Decode(buffer: seq<byte>): (p: Pattern)
    requires |buffer| >= 7
    ensures p.baseFreq == 16 * buffer[0] as int
    ensures p.baseFreq > 0 <==> buffer[0] > 0
    ensures p.attack == 4 * buffer[1] as int && p.decay == 4 * buffer[2] as int
    ensures p.hold == 4 * buffer[3] as int && p.release == 4 * buffer[5] as int
    ensures p.sustain * 255.0 == buffer[4] as real
    ensures SampleCount(p) <= 4 * 4 * 255
    ensures p.wave == SoundBank[buffer[6] % 5]
  {
    Pattern(
      buffer[0] as int * 16,
      buffer[1] as int * 4,
      buffer[2] as int * 4,
      buffer[3] as int * 4,
      buffer[4] as real / 255.0,
      buffer[5] as int * 4,
      SoundBank[buffer[6] % |SoundBank|])
  }

  /** The patterns `Decode` can produce: every quantity is a byte scaled by its unit. */
  predicate Encodable(p: Pattern)
  {
    && p.baseFreq % 16 == 0 && p.baseFreq < 256 * 16
    && p.attack % 4 == 0 && p.attack < 256 * 4
    && p.decay % 4 == 0 && p.decay < 256 * 4
    && p.hold % 4 == 0 && p.hold < 256 * 4
    && p.release % 4 == 0 && p.release < 256 * 4
    && (p.sustain * 255.0).Floor as real == p.sustain * 255.0
  }

  function WaveIndex(w: Wave): (i: nat)
    ensures i < |SoundBank| && SoundBank[i] == w
  {
    match w
    case SawTooth => 0
    case Square => 1
    case Triangle => 2
    case Sine => 3
    case Noise => 4
  }

  /** A canonical parameter buffer for an encodable pattern (selector in 0..4). */
  function Encode(p: Pattern): (buffer: seq<byte>)
    requires Encodable(p)
    ensures |buffer| == 7
  {
    [p.baseFreq / 16, p.attack / 4, p.decay / 4, p.hold / 4,
     (p.sustain * 255.0).Floor, p.release / 4, WaveIndex(p.wave)]
  }

  /** Decoding a canonical buffer gives the pattern back. */
  lemma DecodeEncode(p: Pattern)
    requires Encodable(p)
    ensures Decode(Encode(p)) == p
  {
    var b := Encode(p);
    assert b[4] as real == p.sustain * 255.0;
  }

  /** Decoding keeps every byte except that the waveform selector is reduced mod 5. */
  lemma EncodeDecode(buffer: seq<byte>)
    requires |buffer| >= 7
    ensures Encodable(Decode(buffer))
    ensures Encode(Decode(buffer)) == buffer[..6] + [buffer[6] % 5]
  {
    var p := Decode(buffer);
    var s := buffer[4] as real;
    assert p.sustain * 255.0 == s;
    assert (p.sustain * 255.0).Floor == buffer[4];
  }

  /** Two buffers that agree on the first six bytes and on the selector mod 5
      decode to the same pattern; in particular selector 5 behaves like 0. */
  lemma SelectorWraps(b1: seq<byte>, b2: seq<byte>)
    requires |b1| >= 7 && |b2| >= 7
    requires b1[..6] == b2[..6]
    requires b1[6] % 5 == b2[6] % 5
    ensures Decode(b1) == Decode(b2)
  {
    assert forall i :: 0 <= i < 6 ==> b1[i] == b1[..6][i] == b2[..6][i] == b2[i];
  }

  /** The envelope length is four times the sum of the four length bytes,
      so it never exceeds 4080 samples. */
  lemma SampleCountOfBuffer(buffer: seq<byte>)
    requires |buffer| >= 7
    ensures SampleCount(Decode(buffer)) == 4 * (buffer[1] as int + buffer[2] + buffer[3] + buffer[5])
    ensures SampleCount(Decode(buffer)) <= 4080
  {
  }
}
