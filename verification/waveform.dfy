/**
 The periodic waveforms of a pattern. `periodize` turns a shape on [0, 1)
 into a wave: the sample index is reduced to a phase within the period
 `SampleRate / baseFreq` and the shape's value `v` becomes `v*2 - 1`.
 */
module Waveforms {
  import opened Params
  import opened RealArith

  /** The two host services the shapes call: `Math.sin` of a full turn times
      the phase, and the `Math.random()` draw made for sample `t`. */
  datatype Host = Host(sinTurn: real -> real, random: nat -> real)

  /** `samplesPerPeriod` in `periodize`. */
  function SamplesPerPeriod(baseFreq: nat): (m: real)
    requires baseFreq > 0
    ensures m > 0.0
  {
    SampleRate as real / baseFreq as real
  }

  /** JavaScript's `%` for a non-negative dividend and a positive divisor. */
  function Rem(x: real, m: real): (r: real)
    requires 0.0 <= x && 0.0 < m
    ensures 0.0 <= r < m
    ensures ((x - r) / m).Floor as real == (x - r) / m
  {
    var q := (x / m).Floor as real;
    FloorBounds(x, m);
    var r := x - q * m;
    assert x - r == q * m;
    MulDivCancelLeft(q, m);
    r
  }

  /** The whole number of periods `floor(x/m)` fits into `x`, and one more does not. */
  lemma FloorBounds(x: real, m: real)
    requires 0.0 < m
    ensures (x / m).Floor as real * m <= x
    ensures x < (x / m).Floor as real * m + m
  {
    MulDivCancel(x, m);
    StepsAtMost(x, x / m, m, (x / m).Floor as real);
    StepsOvershoot(x, x / m, m, (x / m).Floor as real);
  }

  /** The position of sample `t` within the current period, as a fraction. */
  function Phase(baseFreq: nat, t: real): (x: real)
    requires baseFreq > 0 && 0.0 <= t
    ensures 0.0 <= x < 1.0
  {
    var spp := SamplesPerPeriod(baseFreq);
    var r := Rem(t, spp);
    DivBelowOne(r, spp);
    r / spp
  }

  /** The floor of an integer ratio is its integer quotient. */
  lemma FloorOfRatio(n: nat, d: nat)
    requires d > 0
    ensures (n as real / d as real).Floor == n / d
  {
    var q, r := n / d, n % d;
    assert n as real == q as real * d as real + r as real;
    assert n as real / d as real == q as real + r as real / d as real;
    DivBelowOne(r as real, d as real);
  }

  /** With `baseFreq = 16*b0` a period is `250/b0` samples, so the phase of an
      integer sample `t` is exactly `(t*b0 mod 250) / 250`. */
  lemma PhaseOfByte(b0: nat, t: nat)
    requires 0 < b0
    ensures Phase(16 * b0, t as real) == ((t * b0) % 250) as real / 250.0
  {
    var spp := SamplesPerPeriod(16 * b0);
    assert spp == 250.0 / b0 as real;
    var n := t * b0;
    assert t as real / spp == n as real / 250.0 by {
      assert n as real == t as real * b0 as real;
    }
    FloorOfRatio(n, 250);
    var q := n / 250;
    var r := Rem(t as real, spp);
    assert r == t as real - spp * q as real;
    calc {
      r / spp;
      t as real / spp - q as real;
      n as real / 250.0 - q as real;
      (n - 250 * q) as real / 250.0;
    }
  }

  /** Shifting `t` by one period leaves the phase unchanged. */
  lemma PhasePeriodic(baseFreq: nat, t: real)
    requires baseFreq > 0 && 0.0 <= t
    ensures Phase(baseFreq, t + SamplesPerPeriod(baseFreq)) == Phase(baseFreq, t)
  {
    var m := SamplesPerPeriod(baseFreq);
    assert (t + m) / m == t / m + 1.0;
    assert ((t + m) / m).Floor == (t / m).Floor + 1;
  }

  function SawShape(x: real): real
  {
    x
  }

  function SquareShape(x: real): real
  {
    if x < 0.5 then 1.0 else 0.0
  }

  function TriangleShape(x: real): real
  {
    if x < 0.5 then 2.0 * x else 2.0 - 2.0 * x
  }

  /** The value of the selected `soundBank` entry at phase `x`, for sample `t`. */
  function Shape(w: Wave, x: real, host: Host, t: nat): real
  {
    match w
    case SawTooth => SawShape(x)
    case Square => SquareShape(x)
    case Triangle => TriangleShape(x)
    case Sine => host.sinTurn(x)
    case Noise => host.random(t)
  }

  /** The rescaling `periodize` applies to every shape. */
  function Periodize(v: real): (r: real)
    ensures 0.0 <= v <= 1.0 <==> -1.0 <= r <= 1.0
  {
    v * 2.0 - 1.0
  }

  /** `periodize(soundBank[...])(t)`: the raw wave sample at sample `t`. */
  function Sample(w: Wave, baseFreq: nat, host: Host, t: nat): real
    requires baseFreq > 0
  {
    Periodize(Shape(w, Phase(baseFreq, t as real), host, t))
  }

  /** The waves whose samples stay in [-1, 1]: the three shapes defined here,
      and noise when the host's draw lies in [0, 1) as `Math.random` promises. */
  predicate UnitWave(w: Wave, host: Host, t: nat)
  {
    w.SawTooth? || w.Square? || w.Triangle? || (w.Noise? && 0.0 <= host.random(t) < 1.0)
  }

  /** Saw, square and triangle map a phase in [0, 1) into [0, 1]. */
  lemma ShapeInUnit(w: Wave, x: real, host: Host, t: nat)
    requires w.SawTooth? || w.Square? || w.Triangle?
    requires 0.0 <= x < 1.0
    ensures 0.0 <= Shape(w, x, host, t) <= 1.0
  {
  }

  /** Every sample of a unit wave lies in [-1, 1]. */
  lemma SampleBounded(w: Wave, baseFreq: nat, host: Host, t: nat)
    requires baseFreq > 0
    requires UnitWave(w, host, t)
    ensures -1.0 <= Sample(w, baseFreq, host, t) <= 1.0
  {
    var x := Phase(baseFreq, t as real);
    if !w.Noise? {
      ShapeInUnit(w, x, host, t);
    }
  }

  /** The square wave is +1 exactly in the first half of each period and -1 in the second. */
  lemma SquareHalves(baseFreq: nat, host: Host, t: nat)
    requires baseFreq > 0
    ensures Sample(Square, baseFreq, host, t) == 1.0 <==> Phase(baseFreq, t as real) < 0.5
    ensures Sample(Square, baseFreq, host, t) == -1.0 <==> Phase(baseFreq, t as real) >= 0.5
  {
  }

  /** The triangle is symmetric about the middle of the period, where it peaks. */
  lemma TriangleSymmetric(x: real)
    requires 0.0 < x < 1.0
    ensures TriangleShape(x) == TriangleShape(1.0 - x)
    ensures TriangleShape(x) <= TriangleShape(0.5) == 1.0
  {
  }

  /** The saw rises with the phase over each period, from -1 towards +1. */
  lemma SawFollowsPhase(baseFreq: nat, host: Host, t1: nat, t2: nat)
    requires baseFreq > 0
    requires Phase(baseFreq, t1 as real) < Phase(baseFreq, t2 as real)
    ensures -1.0 <= Sample(SawTooth, baseFreq, host, t1) < Sample(SawTooth, baseFreq, host, t2) < 1.0
  {
  }

  /** `sine` passes through the same `*2 - 1` rescale: a sine value in
      [-1, 1] becomes a sample in [-3, 1], and a trough of the sine gives -3. */
  lemma SineRescaled(baseFreq: nat, host: Host, t: nat)
    requires baseFreq > 0
    requires -1.0 <= host.sinTurn(Phase(baseFreq, t as real)) <= 1.0
    ensures -3.0 <= Sample(Sine, baseFreq, host, t) <= 1.0
    ensures host.sinTurn(Phase(baseFreq, t as real)) == -1.0 ==> Sample(Sine, baseFreq, host, t) == -3.0
  {
  }

  /** Every periodic wave repeats after 250 samples when `baseFreq = 16*b0`. */
  lemma SamplePeriodic(w: Wave, b0: nat, host: Host, t: nat)
    requires 0 < b0
    requires !w.Noise?
    ensures Sample(w, 16 * b0, host, t + 250) == Sample(w, 16 * b0, host, t)
  {
    PhaseOfByte(b0, t);
    PhaseOfByte(b0, t + 250);
    assert (t + 250) * b0 == t * b0 + 250 * b0;
    ModShift(t * b0, b0);
  }

  lemma ModShift(n: nat, k: nat)
    ensures (n + 250 * k) % 250 == n % 250
  {
  }
}
