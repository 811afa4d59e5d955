/**
 The amplitude envelope of a pattern: a linear attack from 0 to 1, a linear
 decay from 1 to the sustain level, a hold at the sustain level and a linear
 release to 0, each phase as long as its decoded length. Time `t` counts
 samples at the internal rate and is never negative.
 */
module Envelopes {
  import opened Params
  import opened RealArith

  /** Linear interpolation from `a` (at `perc == 0`) to `b` (at `perc == 1`). */
  function Lerp(a: real, b: real, perc: real): real
  {
    a * (1.0 - perc) + b * perc
  }

  /** `envelope(t)`. A phase of length zero is passed over because its
      `t < length` test fails, so no division below has a zero divisor. */
  function Envelope(p: Pattern, t: real): (r: real)
    requires 0.0 <= t
    ensures 0.0 <= r <= 1.0
  {
    var a, d, h, rl := p.attack as real, p.decay as real, p.hold as real, p.release as real;
    if t < a then DivBelowOne(t, a); t / a
    else
      var t1 := t - a;
      if t1 < d then DivBelowOne(t1, d); LerpBetween(1.0, p.sustain, t1 / d); Lerp(1.0, p.sustain, t1 / d)
      else
        var t2 := t1 - d;
        if t2 < h then p.sustain
        else
          var t3 := t2 - h;
          if t3 < rl then DivBelowOne(t3, rl); LerpBetween(p.sustain, 0.0, t3 / rl); Lerp(p.sustain, 0.0, t3 / rl)
          else 0.0
  }

  /** An interpolation is its start point moved by the fraction `perc` of the distance to its end point. */
  lemma LerpForm(a: real, b: real, perc: real)
    ensures Lerp(a, b, perc) == a - (a - b) * perc
  {
    var k := a - b;
    assert a * (1.0 - perc) == a - a * perc;
    assert k * perc == a * perc - b * perc;
  }

  /** For fractions in [0, 1] a falling interpolation stays between its end points. */
  lemma LerpBetween(a: real, b: real, perc: real)
    requires 0.0 <= perc <= 1.0 && b <= a
    ensures b <= Lerp(a, b, perc) <= a
  {
    var k := a - b;
    LerpForm(a, b, perc);
    MulUnit(k, perc);
  }

  /** An interpolation running downwards does not increase with the fraction. */
  lemma LerpDown(a: real, b: real, p1: real, p2: real)
    requires b <= a
    requires p1 <= p2
    ensures Lerp(a, b, p2) <= Lerp(a, b, p1)
  {
    var k := a - b;
    LerpForm(a, b, p1);
    LerpForm(a, b, p2);
    MulLeq(p1, p2, k);
    assert k * p1 == p1 * k && k * p2 == p2 * k;
  }

  /** During the attack the envelope rises strictly, starting from 0. */
  lemma AttackRises(p: Pattern, t1: real, t2: real)
    requires 0.0 <= t1 < t2 < p.attack as real
    ensures Envelope(p, 0.0) == 0.0
    ensures Envelope(p, t1) < Envelope(p, t2)
    ensures Envelope(p, t1) * p.attack as real == t1
  {
    var a := p.attack as real;
    assert Envelope(p, t1) == t1 / a;
    assert Envelope(p, t2) == t2 / a;
    DivLt(t1, t2, a);
    MulDivCancel(t1, a);
  }

  /** The decay starts from the full level 1 and falls linearly: `k` samples
      into it the envelope has lost the fraction `k/decay` of `1 - sustain`. */
  lemma DecayFromOne(p: Pattern, k: real)
    requires 0.0 <= k < p.decay as real
    ensures Envelope(p, p.attack as real) == 1.0
    ensures Envelope(p, p.attack as real + k) == 1.0 - (1.0 - p.sustain) * (k / p.decay as real)
  {
    LerpForm(1.0, p.sustain, 0.0);
    LerpForm(1.0, p.sustain, k / p.decay as real);
  }

  /** Throughout the hold phase the envelope is exactly the sustain level. */
  lemma HoldIsSustain(p: Pattern, t: real)
    requires (p.attack + p.decay) as real <= t < (p.attack + p.decay + p.hold) as real
    ensures Envelope(p, t) == p.sustain
  {
  }

  /** The release starts from the sustain level and falls linearly to 0. */
  lemma ReleaseFromSustain(p: Pattern, k: real)
    requires 0.0 <= k < p.release as real
    ensures Envelope(p, (p.attack + p.decay + p.hold) as real) == p.sustain
    ensures Envelope(p, (p.attack + p.decay + p.hold) as real + k) == p.sustain * (1.0 - k / p.release as real)
  {
    LerpForm(p.sustain, 0.0, 0.0);
    LerpForm(p.sustain, 0.0, k / p.release as real);
  }

  /** Once the four phases are over the envelope is silent. */
  lemma SilentAfterEnd(p: Pattern, t: real)
    requires SampleCount(p) as real <= t
    ensures Envelope(p, t) == 0.0
  {
  }

  /** From the hold phase on, the envelope is at most the sustain level. */
  lemma PastDecayAtMostSustain(p: Pattern, t: real)
    requires (p.attack + p.decay) as real <= t
    ensures Envelope(p, t) <= p.sustain
  {
    var rl := p.release as real;
    var v := t - (p.attack + p.decay + p.hold) as real;
    if 0.0 <= v < rl {
      DivBelowOne(v, rl);
      LerpBetween(p.sustain, 0.0, v / rl);
    }
  }

  /** After the attack the envelope never rises: it falls from 1 to the
      sustain level, holds it, then falls to 0 and stays there. */
  lemma NonIncreasingAfterAttack(p: Pattern, t1: real, t2: real)
    requires p.attack as real <= t1 <= t2
    ensures Envelope(p, t2) <= Envelope(p, t1)
  {
    var a, d, h, rl := p.attack as real, p.decay as real, p.hold as real, p.release as real;
    var s := p.sustain;
    var u1, u2 := t1 - a, t2 - a;
    if u1 < d {
      // t1 in the decay: the level is at least the sustain level
      DivBelowOne(u1, d);
      var f1 := u1 / d;
      assert Envelope(p, t1) == Lerp(1.0, s, f1);
      LerpBetween(1.0, s, f1);
      if u2 < d {
        DivLeq(u1, u2, d);
        LerpDown(1.0, s, f1, u2 / d);
      } else {
        PastDecayAtMostSustain(p, t2);
      }
    } else if u1 - d < h {
      PastDecayAtMostSustain(p, t2);
    } else if u1 - d - h < rl {
      // t1 in the release
      var v1, v2 := u1 - d - h, u2 - d - h;
      DivBelowOne(v1, rl);
      var f1 := v1 / rl;
      assert Envelope(p, t1) == Lerp(s, 0.0, f1);
      if v2 < rl {
        assert Envelope(p, t2) == Lerp(s, 0.0, v2 / rl);
        DivLeq(v1, v2, rl);
        LerpDown(s, 0.0, f1, v2 / rl);
      } else {
        LerpBetween(s, 0.0, f1);
      }
    }
  }
}
