/** What the noise parameter, the two transforms and the samples are, against the definitions of the mechanisms. */
module NoiseLaws {
  import opened Words
  import opened SplitMix
  import opened Noise

  // ── The noise parameter ─────────────────────────────────────────────────

  /** The Laplace mechanism: the scale is the one number that times epsilon is the sensitivity. */
  lemma LaplaceScaleExactly(m: Libm, epsilon: real, sensitivity: real, delta: real, b: real)
    requires m.Valid() && epsilon > 0.0
    ensures b == NoiseParam(m, Laplace, epsilon, sensitivity, delta) <==> b * epsilon == sensitivity
  {
    var scale := sensitivity / epsilon;
    assert scale * epsilon == sensitivity;
    if b * epsilon == sensitivity {
      SameFactor(b, scale, epsilon);
    }
  }

  lemma SameFactor(a: real, b: real, c: real)
    requires c != 0.0 && a * c == b * c
    ensures a == b
  {
    assert (a - b) * c == 0.0;
  }

  /** The square root is one. */
  ghost predicate IsRoot(m: Libm) {
    forall x {:trigger m.sqrt(x)} :: x >= 0.0 ==> m.sqrt(x) >= 0.0 && m.sqrt(x) * m.sqrt(x) == x
  }

  /** The Gaussian mechanism: the variance times the square of epsilon is 2 ln(1.25 / delta) sensitivity². */
  lemma GaussianSigmaExactly(m: Libm, epsilon: real, sensitivity: real, delta: real)
    requires m.Valid() && IsRoot(m) && epsilon > 0.0 && sensitivity >= 0.0 && GaussianDelta(delta)
    ensures var sigma := NoiseParam(m, Gaussian, epsilon, sensitivity, delta);
      && sigma >= 0.0
      && (sigma * epsilon) * (sigma * epsilon) == 2.0 * m.ln(1.25 / delta) * (sensitivity * sensitivity)
  {
    DeltaQuotient(delta);
    var x := 2.0 * m.ln(1.25 / delta);
    var root := m.sqrt(x);
    var sigma := sensitivity * root / epsilon;
    Squares(sensitivity, root, x);
    assert sigma * epsilon == sensitivity * root;
    NonNegative(sensitivity, root, epsilon);
  }

  lemma Squares(s: real, root: real, x: real)
    requires root * root == x
    ensures (s * root) * (s * root) == x * (s * s)
  {
    assert (s * root) * (s * root) == (s * s) * (root * root);
  }

  lemma SignOfQuotient(x: real, c: real)
    requires c > 0.0
    ensures x >= 0.0 ==> x / c >= 0.0
    ensures x > 0.0 ==> x / c > 0.0
  {
  }

  lemma NonNegative(s: real, root: real, epsilon: real)
    requires s >= 0.0 && root >= 0.0 && epsilon > 0.0
    ensures s * root / epsilon >= 0.0
  {
    SignOfQuotient(s * root, epsilon);
  }

  /** Without a delta the Gaussian mechanism takes one in a hundred thousand. */
  lemma DefaultSigma(m: Libm, epsilon: real, sensitivity: real)
    requires m.Valid() && IsRoot(m) && epsilon > 0.0 && sensitivity >= 0.0
    ensures GaussianDelta(Absent.Or(DEFAULT_DELTA))
    ensures var sigma := NoiseParam(m, Gaussian, epsilon, sensitivity, Absent.Or(DEFAULT_DELTA));
      (sigma * epsilon) * (sigma * epsilon) == 2.0 * m.ln(125000.0) * (sensitivity * sensitivity)
  {
    hide NoiseParam;
    assert 1.25 / DEFAULT_DELTA == 125000.0;
    GaussianSigmaExactly(m, epsilon, sensitivity, DEFAULT_DELTA);
  }

  /** A stricter epsilon never gets less noise, and with a positive sensitivity always more. */
  lemma StricterIsNoisier(m: Libm, strict: real, loose: real, sensitivity: real, delta: real)
    requires m.Valid() && 0.0 < strict < loose && sensitivity > 0.0
    ensures NoiseParam(m, Laplace, strict, sensitivity, delta) > NoiseParam(m, Laplace, loose, sensitivity, delta) > 0.0
    ensures GaussianDelta(delta) && IsRoot(m) ==>
      NoiseParam(m, Gaussian, strict, sensitivity, delta) > NoiseParam(m, Gaussian, loose, sensitivity, delta) > 0.0
  {
    LargerQuotient(sensitivity, strict, loose);
    if GaussianDelta(delta) && IsRoot(m) {
      DeltaQuotient(delta);
      var x := 2.0 * m.ln(1.25 / delta);
      assert m.sqrt(x) > 0.0;
      PositiveProduct(sensitivity, m.sqrt(x));
      LargerQuotient(sensitivity * m.sqrt(x), strict, loose);
    }
  }

  lemma PositiveProduct(a: real, b: real)
    requires a > 0.0 && b > 0.0
    ensures a * b > 0.0
  {
  }

  lemma LargerQuotient(s: real, strict: real, loose: real)
    requires s > 0.0 && 0.0 < strict < loose
    ensures s / strict > s / loose > 0.0
  {
    LargerFactor(s / strict, s / loose, s, strict, loose);
  }

  lemma LargerFactor(a: real, b: real, s: real, strict: real, loose: real)
    requires s > 0.0 && 0.0 < strict < loose && a * strict == s && b * loose == s
    ensures a > b > 0.0
  {
    PositiveFactor(b, loose);
    PositiveProduct(b, loose - strict);
    assert (a - b) * strict == b * (loose - strict);
    PositiveFactor(a - b, strict);
  }

  lemma PositiveFactor(d: real, c: real)
    requires c > 0.0 && d * c > 0.0
    ensures d > 0.0
  {
  }

  // ── The Laplace transform ───────────────────────────────────────────────

  /** An exponential function that the logarithm inverts. */
  ghost predicate Inverts(m: Libm, exp: real -> real) {
    && (forall x {:trigger m.ln(x)} :: x > 0.0 ==> exp(m.ln(x)) == x)
    && m.ln(1.0) == 0.0
  }

  /** The distribution function of the Laplace distribution of scale b, centred at zero. */
  function LaplaceCdf(exp: real -> real, b: real, z: real): real
    requires b > 0.0
  {
    if z < 0.0 then exp(z / b) / 2.0 else 1.0 - exp(-z / b) / 2.0
  }

  /** Below a half the sample is b ln(2u), above it -b ln(2 (1 - u)). */
  lemma LaplaceInPieces(m: Libm, b: real, u: real)
    requires 0.0 < u < 1.0
    ensures u < 0.5 ==> LaplaceOf(m, b, u) == b * m.ln(2.0 * u)
    ensures u >= 0.5 ==> LaplaceOf(m, b, u) == -(b * m.ln(2.0 * (1.0 - u)))
  {
    if u < 0.5 {
      assert 1.0 - 2.0 * Abs(u - 0.5) == 2.0 * u;
    } else {
      assert 1.0 - 2.0 * Abs(u - 0.5) == 2.0 * (1.0 - u);
    }
  }

  /** Inverse transform sampling: the distribution function takes every sample back to its uniform variate. */
  lemma LaplaceInvertsCdf(m: Libm, exp: real -> real, b: real, u: real)
    requires m.Valid() && Inverts(m, exp) && b > 0.0 && 0.0 < u < 1.0
    ensures LaplaceCdf(exp, b, LaplaceOf(m, b, u)) == u
  {
    hide LaplaceOf;
    LaplaceInPieces(m, b, u);
    if u < 0.5 {
      var l := m.ln(2.0 * u);
      NegativeProduct(b, l);
      Quotient(b, l);
      assert LaplaceOf(m, b, u) / b == l;
      assert exp(l) == 2.0 * u;
    } else {
      var l := m.ln(2.0 * (1.0 - u));
      assert l <= 0.0;
      if l < 0.0 {
        NegativeProduct(b, l);
      }
      Quotient(b, l);
      assert -LaplaceOf(m, b, u) == b * l;
      assert -LaplaceOf(m, b, u) / b == l;
      assert exp(l) == 2.0 * (1.0 - u);
    }
  }

  lemma NegativeProduct(b: real, l: real)
    requires b > 0.0 && l < 0.0
    ensures b * l < 0.0
  {
  }

  lemma Quotient(b: real, l: real)
    requires b > 0.0
    ensures b * l / b == l
  {
    SameFactor(b * l / b, l, b);
  }

  /** The samples are symmetric around zero. */
  lemma LaplaceIsOdd(m: Libm, b: real, u: real)
    requires 0.0 < u < 1.0 && u != 0.5
    ensures LaplaceOf(m, b, 1.0 - u) == -LaplaceOf(m, b, u)
  {
    hide LaplaceOf;
    LaplaceInPieces(m, b, u);
    LaplaceInPieces(m, b, 1.0 - u);
  }

  // ── The Gaussian transform ──────────────────────────────────────────────

  lemma RadiusExactly(m: Libm, sigma: real, u1: real)
    requires m.Valid() && IsRoot(m) && 0.0 < u1 < 1.0
    ensures Radius(m, sigma, u1) * Radius(m, sigma, u1) == -2.0 * m.ln(u1) * (sigma * sigma)
    ensures sigma > 0.0 ==> Radius(m, sigma, u1) > 0.0
  {
    assert m.ln(u1) < 0.0;
    var x := -2.0 * m.ln(u1);
    var root := m.sqrt(x);
    Squares(sigma, root, x);
    assert Radius(m, sigma, u1) == sigma * root;
    if sigma > 0.0 {
      assert root > 0.0;
      PositiveProduct(sigma, root);
    }
  }

  /**
   * Box and Muller: the sample is the cosine's coordinate of a point at the second variate's angle, on a circle whose radius
   * the first variate gives; with the sine's coordinate the squares add up to -2 sigma² ln(u1).
   */
  lemma GaussianOnTheCircle(m: Libm, sin: real -> real, sigma: real, u1: real, u2: real)
    requires m.Valid() && IsRoot(m) && 0.0 < u1 < 1.0
    requires var angle := Angle(m, u2); m.cos(angle) * m.cos(angle) + sin(angle) * sin(angle) == 1.0
    ensures Angle(m, u2) == 2.0 * m.pi * u2
    ensures var (z, other) := (GaussianOf(m, sigma, u1, u2), Radius(m, sigma, u1) * sin(Angle(m, u2)));
      z * z + other * other == -2.0 * m.ln(u1) * (sigma * sigma)
    ensures sigma > 0.0 ==> (GaussianOf(m, sigma, u1, u2) > 0.0 <==> m.cos(Angle(m, u2)) > 0.0)
  {
    AngleIs(m, u2);
    hide Radius, Angle;
    RadiusExactly(m, sigma, u1);
    var (r, c, s) := (Radius(m, sigma, u1), m.cos(Angle(m, u2)), sin(Angle(m, u2)));
    OnCircle(GaussianOf(m, sigma, u1, u2), r * s, r, c, s);
    if sigma > 0.0 {
      SameSign(r, c);
    }
  }

  lemma SameSign(r: real, c: real)
    requires r > 0.0
    ensures r * c > 0.0 <==> c > 0.0
  {
  }

  lemma AngleIs(m: Libm, u2: real)
    ensures Angle(m, u2) == 2.0 * m.pi * u2
  {
  }

  lemma OnCircle(x: real, y: real, r: real, c: real, s: real)
    requires c * c + s * s == 1.0 && x == r * c && y == r * s
    ensures x * x + y * y == r * r
  {
    assert x * x == (r * r) * (c * c);
    assert y * y == (r * r) * (s * s);
    assert (r * r) * (c * c) + (r * r) * (s * s) == (r * r) * (c * c + s * s);
  }

  // ── Which variates a sample uses ────────────────────────────────────────

  /** The generator after n uniform variates. */
  ghost function Drawn(s: Word, n: nat): Word {
    if n == 0 then s else AfterUniform(Drawn(s, n - 1))
  }

  /** The n-th uniform variate, from 0. */
  ghost function Variate(s: Word, n: nat): (u: real)
    ensures 0.0 < u < 1.0
  {
    Uniform(Drawn(s, n))
  }

  /** A Laplace sample uses one variate, a Gaussian sample two, in the order they are drawn. */
  lemma SamplesUseVariates(m: Libm, param: real, s: Word, j: nat)
    requires m.Valid()
    ensures SampleAt(m, Laplace, param, s, j) == LaplaceOf(m, param, Variate(s, j))
    ensures SampleAt(m, Gaussian, param, s, j) == GaussianOf(m, param, Variate(s, 2 * j), Variate(s, 2 * j + 1))
  {
    hide LaplaceOf, GaussianOf, Uniform, AfterUniform;
    StatesAreDrawn(m, param, s, j);
    assert Drawn(s, 2 * j + 1) == AfterUniform(Drawn(s, 2 * j));
  }

  lemma {:induction false} StatesAreDrawn(m: Libm, param: real, s: Word, j: nat)
    requires m.Valid()
    ensures StateAt(m, Laplace, param, s, j) == Drawn(s, j)
    ensures StateAt(m, Gaussian, param, s, j) == Drawn(s, 2 * j)
  {
    hide LaplaceOf, GaussianOf, Uniform, AfterUniform;
    if j > 0 {
      StatesAreDrawn(m, param, s, j - 1);
      var before := Drawn(s, 2 * (j - 1));
      assert Drawn(s, 2 * j - 1) == AfterUniform(before);
      assert Drawn(s, 2 * j) == AfterUniform(Drawn(s, 2 * j - 1));
    }
  }

  /** The variate of a word is the word over 2^64, rounded down to a multiple of 2^-53. */
  lemma UnitIsTheTop53Bits(w: Word)
    ensures Unit(w) <= w as real / W as real < Unit(w) + 1.0 / TWO53 as real
    ensures Unit(w) * TWO53 as real == (Unit(w) * TWO53 as real).Floor as real
  {
    var k := w / REJECT;
    assert k * REJECT <= w < (k + 1) * REJECT && k < TWO53;
    assert W as real == REJECT as real * TWO53 as real;
    assert Unit(w) * TWO53 as real == k as real;
  }

  // ── Argument checks ─────────────────────────────────────────────────────

  /** Which argument is refused, and when none is. */
  lemma ValidateExactly(epsilon: real, sensitivity: real, mechanism: string, delta: Delta)
    ensures var v := Validate(epsilon, sensitivity, mechanism, delta);
      && (v == Refused(BadEpsilon) <==> epsilon <= 0.0)
      && (v == Refused(BadSensitivity) <==> epsilon > 0.0 && sensitivity <= 0.0)
      && (v == Refused(BadMechanism) <==> epsilon > 0.0 && sensitivity > 0.0 && mechanism !in {"laplace", "gaussian"})
      && (v == Accepted(Laplace) <==> epsilon > 0.0 && sensitivity > 0.0 && mechanism == "laplace")
      && (v == Accepted(Gaussian) <==>
          epsilon > 0.0 && sensitivity > 0.0 && mechanism == "gaussian"
          && (delta.Absent? || 0.0 < delta.value < 1.0))
  {
    assert "laplace" != "gaussian" by { assert "laplace"[0] != "gaussian"[0]; }
  }
}
