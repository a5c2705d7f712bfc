/** Noise samples of the two mechanisms, drawn from the SplitMix64 generator. */
module Noise {
  import opened Words
  import opened SplitMix

  /** The transcendental functions the samplers call; their values stay abstract. */
  datatype Libm = Libm(ln: real -> real, sqrt: real -> real, cos: real -> real, pi: real) {
    /** The only facts needed of them: the sign of the logarithm on either side of 1. */
    ghost predicate Valid() {
      && (forall x {:trigger ln(x)} :: x > 1.0 ==> ln(x) > 0.0)
      && (forall x {:trigger ln(x)} :: 0.0 < x < 1.0 ==> ln(x) < 0.0)
    }

    /** `math.log`, which raises outside its domain. */
    function Log(x: real): real
      requires x > 0.0
    {
      ln(x)
    }

    /** `math.sqrt`, which raises outside its domain. */
    function Sqrt(x: real): real
      requires x >= 0.0
    {
      sqrt(x)
    }
  }

  datatype Mechanism = Laplace | Gaussian

  const DEFAULT_DELTA: real := 0.00001

  function LaplaceScale(sensitivity: real, epsilon: real): real
    requires epsilon > 0.0
  {
    sensitivity / epsilon
  }

  ghost predicate GaussianDelta(delta: real) {
    0.0 < delta < 1.0
  }

  lemma DeltaQuotient(delta: real)
    requires GaussianDelta(delta)
    ensures 1.25 / delta > 1.0
  {
    assert 1.25 / delta * delta == 1.25;
    MulAtMost(1.25 / delta, delta);
  }

  lemma MulAtMost(q: real, d: real)
    ensures d > 0.0 ==> q <= 1.0 ==> q * d <= d
  {
  }

  /** Every argument of the logarithm and of the root lies in its domain. */
  function GaussianSigma(m: Libm, sensitivity: real, epsilon: real, delta: real): real
    requires m.Valid() && epsilon > 0.0 && GaussianDelta(delta)
  {
    DeltaQuotient(delta);
    sensitivity * m.Sqrt(2.0 * m.Log(1.25 / delta)) / epsilon
  }

  function Abs(x: real): real {
    if x < 0.0 then -x else x
  }

  /** `math.copysign(1.0, x)`, with +1 for an exact zero. */
  function Sign(x: real): real {
    if x < 0.0 then -1.0 else 1.0
  }

  /** The Laplace transform of a uniform variate; the logarithm's argument is in (0, 1]. */
  function LaplaceOf(m: Libm, scale: real, variate: real): real
    requires 0.0 < variate < 1.0
  {
    var u := variate - 0.5;
    -scale * Sign(u) * m.Log(1.0 - 2.0 * Abs(u))
  }

  /** The distance from the origin that the first variate gives; the root's argument is positive. */
  function Radius(m: Libm, sigma: real, u1: real): real
    requires m.Valid() && 0.0 < u1 < 1.0
  {
    assert m.ln(u1) < 0.0;
    sigma * m.Sqrt(-2.0 * m.Log(u1))
  }

  function Angle(m: Libm, u2: real): real {
    2.0 * m.pi * u2
  }

  /** The Box-Muller transform of two uniform variates. */
  function GaussianOf(m: Libm, sigma: real, u1: real, u2: real): real
    requires m.Valid() && 0.0 < u1 < 1.0
  {
    Radius(m, sigma, u1) * m.cos(Angle(m, u2))
  }

  // ── Samples as a function of the generator state ────────────────────────

  /** The sample drawn in state `s`, and the state after it. */
  ghost function SampleFrom(m: Libm, mech: Mechanism, param: real, s: Word): (real, Word)
    requires m.Valid()
  {
    match mech
    case Laplace => (LaplaceOf(m, param, Uniform(s)), AfterUniform(s))
    case Gaussian =>
      var s1 := AfterUniform(s);
      (GaussianOf(m, param, Uniform(s), Uniform(s1)), AfterUniform(s1))
  }

  /** The generator state after `j` samples. */
  ghost function StateAt(m: Libm, mech: Mechanism, param: real, s: Word, j: nat): Word
    requires m.Valid()
  {
    if j == 0 then s else SampleFrom(m, mech, param, StateAt(m, mech, param, s, j - 1)).1
  }

  /** The `j`-th sample (from 0) of a generator in state `s`. */
  ghost function SampleAt(m: Libm, mech: Mechanism, param: real, s: Word, j: nat): real
    requires m.Valid()
  {
    SampleFrom(m, mech, param, StateAt(m, mech, param, s, j)).0
  }

  /** A generator bound to one mechanism, as the closure `sample` is. */
  class Sampler {
    const m: Libm
    const mech: Mechanism
    const param: real
    const rng: PySplitMix64

    ghost predicate Valid() reads this, rng {
      m.Valid() && rng.Valid()
    }

    constructor (m: Libm, mech: Mechanism, param: real, seed: int)
      requires m.Valid()
      ensures Valid() && fresh(rng) && rng.state == seed % W
      ensures this.m == m && this.mech == mech && this.param == param
    {
      this.m, this.mech, this.param := m, mech, param;
      this.rng := new PySplitMix64(seed);
    }

    method Sample() returns (z: real)
      requires Valid()
      modifies rng
      ensures Valid()
      ensures (z, rng.state as Word) == SampleFrom(m, mech, param, old(rng.state))
    {
      match mech {
        case Laplace =>
          var u := rng.NextF64();
          z := LaplaceOf(m, param, u);
        case Gaussian =>
          var u1 := rng.NextF64();
          var u2 := rng.NextF64();
          z := GaussianOf(m, param, u1, u2);
      }
    }
  }

  // ── Argument checks ─────────────────────────────────────────────────────

  datatype ArgError = BadEpsilon | BadSensitivity | BadMechanism | BadDelta

  datatype Checked = Accepted(mech: Mechanism) | Refused(error: ArgError)

  function Validate(epsilon: real, sensitivity: real, mechanism: string, delta: Delta): Checked {
    if epsilon <= 0.0 then Refused(BadEpsilon)
    else if sensitivity <= 0.0 then Refused(BadSensitivity)
    else if mechanism == "laplace" then Accepted(Laplace)
    else if mechanism != "gaussian" then Refused(BadMechanism)
    else if 0.0 < delta.Or(DEFAULT_DELTA) < 1.0 then Accepted(Gaussian)
    else Refused(BadDelta)
  }

  /** An optional delta, with both ways the program reads it. */
  datatype Delta = Absent | Given(value: real) {
    /** `DEFAULT_DELTA if delta is None else delta` */
    function Or(default: real): real {
      if Given? then value else default
    }

    /** `delta or DEFAULT_DELTA`, which also replaces a zero. */
    function OrFalsy(default: real): real {
      if Given? && value != 0.0 then value else default
    }
  }

  /** Past validation the two readings of delta agree. */
  lemma DeltaReadingsAgree(epsilon: real, sensitivity: real, mechanism: string, delta: Delta)
    requires Validate(epsilon, sensitivity, mechanism, delta) == Accepted(Gaussian)
    ensures delta.OrFalsy(DEFAULT_DELTA) == delta.Or(DEFAULT_DELTA)
    ensures GaussianDelta(delta.Or(DEFAULT_DELTA))
  {
  }

  function NoiseParam(m: Libm, mech: Mechanism, epsilon: real, sensitivity: real, delta: real): real
    requires m.Valid() && epsilon > 0.0 && (mech == Gaussian ==> GaussianDelta(delta))
  {
    match mech
    case Laplace => LaplaceScale(sensitivity, epsilon)
    case Gaussian => GaussianSigma(m, sensitivity, epsilon, delta)
  }

  datatype Sequence = Samples(values: seq<real>) | Invalid(error: ArgError)

  /** The noise sequence of length n: sample j of the generator seeded with `seed`, in order. */
  method NoiseSequence(m: Libm, n: nat, epsilon: real, mechanism: string, sensitivity: real,
                       delta: Delta, seed: int) returns (r: Sequence)
    requires m.Valid()
    ensures match Validate(epsilon, sensitivity, mechanism, delta)
            case Refused(e) => r == Invalid(e)
            case Accepted(mech) =>
              && r.Samples? && |r.values| == n
              && var param := NoiseParam(m, mech, epsilon, sensitivity, delta.Or(DEFAULT_DELTA));
                 forall j | 0 <= j < n :: r.values[j] == SampleAt(m, mech, param, seed % W, j)
  {
    hide GaussianSigma, SampleFrom;
    var checked := Validate(epsilon, sensitivity, mechanism, delta);
    if checked.Refused? {
      return Invalid(checked.error);
    }
    var param := if checked.mech == Laplace then LaplaceScale(sensitivity, epsilon)
                 else GaussianSigma(m, sensitivity, epsilon, delta.OrFalsy(DEFAULT_DELTA));
    var sampler := new Sampler(m, checked.mech, param, seed);
    var values := [];
    for i := 0 to n
      invariant sampler.Valid() && fresh(sampler.rng)
      invariant sampler.rng.state == StateAt(m, checked.mech, param, seed % W, i)
      invariant |values| == i
      invariant forall j | 0 <= j < i :: values[j] == SampleAt(m, checked.mech, param, seed % W, j)
    {
      var z := sampler.Sample();
      values := values + [z];
    }
    r := Samples(values);
  }
}
