/** The SplitMix64 generator: its two implementations, and what its output sequence is. */
module SplitMix {
  import opened Words

  const GAMMA: nat := 0x9E3779B97F4A7C15
  const MUL1: nat := 0xBF58476D1CE4E5B9
  const MUL2: nat := 0x94D049BB133111EB

  // The inverses of the three odd constants modulo 2^64.
  const GAMMA_INV: nat := 0xF1DE83E19937733D
  const MUL1_INV: nat := 0x96DE1B173F119089
  const MUL2_INV: nat := 0x319642B2D24D8EC3

  /** Draws below this bound are thrown away by the open-interval float generator. */
  const REJECT: nat := 0x800

  const TWO53: nat := 0x20_0000_0000_0000

  function XorShift(z: Word, k: nat): Word {
    Pow2Is64();
    ShrFits(z, k);
    XorBound(z, Shr(z, k), 64);
    Xor(z, Shr(z, k))
  }

  function Mul(z: Word, m: nat): Word {
    z * m % W
  }

  /** The output function, applied to the state after it was advanced. */
  function Mix(z: Word): Word {
    XorShift(Mul(XorShift(Mul(XorShift(z, 30), MUL1), 27), MUL2), 31)
  }

  /** Undoes `XorShift` for a shift k with 3k >= 64. */
  function UnXorShift(y: Word, k: nat): Word {
    Pow2Is64();
    ShrFits(y, 2 * k);
    XorBound(XorShift(y, k), Shr(y, 2 * k), 64);
    Xor(XorShift(y, k), Shr(y, 2 * k))
  }

  function Unmix(w: Word): Word {
    UnXorShift(Mul(UnXorShift(Mul(UnXorShift(w, 31), MUL2_INV), 27), MUL1_INV), 30)
  }

  /** The state reached from `s` after `n` draws. */
  function StateAfter(s: Word, n: nat): Word {
    (s + n * GAMMA) % W
  }

  /** The `i`-th word drawn (from 0) by a generator in state `s`. */
  function Output(s: Word, i: nat): Word {
    Mix(StateAfter(s, i + 1))
  }

  /** The only draw among 2^64 consecutive ones that yields `w`. */
  function IndexOf(s: Word, w: Word): Word {
    ((Unmix(w) - s) * GAMMA_INV - 1) % W
  }

  // ── The output function is a bijection ──────────────────────────────────

  lemma InverseConstants()
    ensures GAMMA * GAMMA_INV % W == 1
    ensures MUL1 * MUL1_INV % W == 1
    ensures MUL2 * MUL2_INV % W == 1
  {
  }

  lemma XorShiftInverse(z: Word, k: nat)
    requires 3 * k >= 64
    ensures UnXorShift(XorShift(z, k), k) == z
    ensures XorShift(UnXorShift(z, k), k) == z
  {
    Pow2Is64();
    Pow2Monotone(64, 3 * k);
    XorShiftUndone(z, k);
    XorShiftRedone(z, k);
  }

  lemma MulInverse(z: Word, m: nat, inv: nat)
    requires m * inv % W == 1
    ensures Mul(Mul(z, m), inv) == z && Mul(Mul(z, inv), m) == z
  {
    InverseCancels(z, m, inv);
    assert inv * m == m * inv;
    InverseCancels(z, inv, m);
  }

  /** The output mix is a bijection of the 64-bit words: `Unmix` is its two-sided inverse. */
  lemma MixIsBijection(z: Word)
    ensures Unmix(Mix(z)) == z
    ensures Mix(Unmix(z)) == z
  {
    InverseConstants();
    var a := Mul(XorShift(z, 30), MUL1);
    var b := Mul(XorShift(a, 27), MUL2);
    XorShiftInverse(b, 31);
    MulInverse(XorShift(a, 27), MUL2, MUL2_INV);
    XorShiftInverse(a, 27);
    MulInverse(XorShift(z, 30), MUL1, MUL1_INV);
    XorShiftInverse(z, 30);
    var d := Mul(UnXorShift(z, 31), MUL2_INV);
    var e := Mul(UnXorShift(d, 27), MUL1_INV);
    XorShiftInverse(e, 30);
    MulInverse(UnXorShift(d, 27), MUL1, MUL1_INV);
    XorShiftInverse(d, 27);
    MulInverse(UnXorShift(z, 31), MUL2, MUL2_INV);
    XorShiftInverse(z, 31);
  }

  // ── The state walks the whole ring ──────────────────────────────────────

  lemma StateAfterAdds(s: Word, m: nat, n: nat)
    ensures StateAfter(StateAfter(s, m), n) == StateAfter(s, m + n)
  {
    ModAdd(s + m * GAMMA, n * GAMMA, W);
    assert s + m * GAMMA + n * GAMMA == s + (m + n) * GAMMA;
  }

  lemma OutputAdds(s: Word, m: nat, i: nat)
    ensures Output(StateAfter(s, m), i) == Output(s, m + i)
  {
    StateAfterAdds(s, m, i + 1);
    assert m + (i + 1) == m + i + 1;
  }

  /** In the ring of residues, adding n steps of size g lands on s + d for one residue of n only. */
  lemma StepsToReach(s: int, n: int, d: int, g: int, inv: int, m: int)
    requires m > 0 && g * inv % m == 1 % m
    ensures (s + n * g) % m == (s + d) % m <==> n % m == d * inv % m
  {
    ModAdd(s + n * g, -s, m);
    ModAdd(s + d, -s, m);
    ModAdd(n * g, s, m);
    ModAdd(d, s, m);
    assert (s + n * g) % m == (s + d) % m <==> n * g % m == d % m;
    ModMul(n * g, inv, m);
    ModMul(d, inv, m);
    CancelInverse(n, g, inv, m);
    ModMul(n, g, m);
    ModMul(d * inv, g, m);
    CancelInverse(d, inv, g, m);
  }

  lemma CancelInverse(n: int, g: int, inv: int, m: int)
    requires m > 0 && (g * inv % m == 1 % m || inv * g % m == 1 % m)
    ensures n * g * inv % m == n % m
  {
    assert g * inv == inv * g;
    assert n * g * inv == g * inv * n;
    ModMul(g * inv, n, m);
    ModMul(1, n, m);
  }

  /** The state after n draws is `t` for exactly one residue of n modulo 2^64. */
  lemma StateIsReachedOnce(s: Word, n: nat, t: Word)
    ensures StateAfter(s, n) == t <==> n % W == (t - s) * GAMMA_INV % W
  {
    InverseConstants();
    StepsToReach(s, n, t - s, GAMMA, GAMMA_INV, W);
  }

  /**
    Full period, as an equivalence: draw i yields w exactly when i lies in the one residue
    class of w. So over any 2^64 consecutive draws every word appears, and appears once.
   */
  lemma FullPeriod(s: Word, i: nat, w: Word)
    ensures Output(s, i) == w <==> i % W == IndexOf(s, w)
  {
    hide Mix, Unmix, StateAfter;
    MixIsBijection(w);
    MixIsBijection(StateAfter(s, i + 1));
    assert Output(s, i) == w <==> StateAfter(s, i + 1) == Unmix(w);
    StateIsReachedOnce(s, i + 1, Unmix(w));
    var e := (Unmix(w) - s) * GAMMA_INV;
    ModShift(i + 1, e, 1);
  }

  lemma ModShift(a: int, b: int, c: int)
    ensures a % W == b % W <==> (a - c) % W == (b - c) % W
  {
    ModAdd(a, -c, W);
    ModAdd(b, -c, W);
    ModAdd(a - c, c, W);
    ModAdd(b - c, c, W);
  }

  /** Two draws agree exactly when a whole number of periods lies between them. */
  lemma OutputsRepeatOnlyAfterAPeriod(s: Word, i: nat, j: nat)
    ensures Output(s, i) == Output(s, j) <==> i % W == j % W
  {
    FullPeriod(s, i, Output(s, j));
    FullPeriod(s, j, Output(s, j));
  }

  // ── The rejection loop stops ────────────────────────────────────────────

  /** `n` is the first draw from `s` that the open-interval generator keeps. */
  ghost predicate FirstKept(s: Word, n: nat) {
    Output(s, n) >= REJECT && forall i: nat | i < n :: Output(s, i) < REJECT
  }

  ghost function Draws(s: Word, n: nat): seq<nat> {
    seq(n, i requires 0 <= i => Output(s, i) as nat)
  }

  lemma DrawsAreDistinct(s: Word, n: nat)
    requires n <= W
    ensures forall i, j | 0 <= i < j < n :: Draws(s, n)[i] != Draws(s, n)[j]
  {
    hide Output;
    forall i, j | 0 <= i < j < n ensures Draws(s, n)[i] != Draws(s, n)[j] {
      OutputsRepeatOnlyAfterAPeriod(s, i, j);
    }
  }

  /** From every state at most 2048 draws are rejected, so the 2049th at the latest is kept. */
  lemma RejectionStops(s: Word) returns (n: nat)
    ensures n <= REJECT && FirstKept(s, n)
  {
    n := 0;
    while n <= REJECT && Output(s, n) < REJECT
      invariant n <= REJECT + 1
      invariant forall i: nat | i < n :: Output(s, i) < REJECT
    {
      n := n + 1;
    }
    if n == REJECT + 1 {
      var xs := Draws(s, n);
      DrawsAreDistinct(s, n);
      DistinctCount(xs);
      RangeSize(Elements(xs), REJECT);
      assert false;
    }
  }

  ghost function FirstKeptIndex(s: Word): (n: nat)
    ensures n <= REJECT && FirstKept(s, n)
  {
    assert exists n: nat :: n <= REJECT && FirstKept(s, n) by {
      var n := RejectionStops(s);
    }
    var n: nat :| n <= REJECT && FirstKept(s, n);
    n
  }

  /** The uniform variate the open-interval generator returns from state `s`. */
  ghost function Uniform(s: Word): (u: real)
    ensures 0.0 < u < 1.0
  {
    UnitInterval(Output(s, FirstKeptIndex(s)));
    Unit(Output(s, FirstKeptIndex(s)))
  }

  /** The state it leaves behind. */
  ghost function AfterUniform(s: Word): Word {
    StateAfter(s, FirstKeptIndex(s) + 1)
  }

  /** The top 53 bits of a draw, read as a fraction. */
  function Unit(w: Word): real {
    (w / REJECT) as real / TWO53 as real
  }

  /** A 64-bit draw maps into [0, 1), and into the open interval exactly when it is at least 2^11. */
  lemma UnitInterval(w: Word)
    ensures 0.0 <= Unit(w) < 1.0
    ensures 0.0 < Unit(w) <==> w >= REJECT
  {
    assert w / REJECT < TWO53;
  }

  // ── Every float is hit equally often ────────────────────────────────────

  function Nth(s: Word, k: nat, r: nat): nat
    requires k < TWO53 && r < REJECT
  {
    IndexOf(s, k * REJECT + r)
  }

  /** The draws of one period whose word, shifted right by 11, is k. */
  ghost function Hits(s: Word, k: nat): seq<nat>
    requires k < TWO53
  {
    seq(REJECT, r requires 0 <= r < REJECT => Nth(s, k, r))
  }

  lemma HitIsDraw(s: Word, k: nat, r: nat)
    requires k < TWO53 && r < REJECT
    ensures Output(s, Hits(s, k)[r]) == k * REJECT + r
  {
    hide Output, IndexOf;
    FullPeriod(s, Hits(s, k)[r], k * REJECT + r);
  }

  /**
    Over one period the float k / 2^53 comes up exactly 2048 times, whatever k and the seed:
    the generator is uniform on its 2^53 values, and on the 2^53 - 1 positive ones once 0 is
    rejected.
   */
  lemma UniformOverThePeriod(s: Word, k: nat)
    requires k < TWO53
    ensures |Elements(Hits(s, k))| == REJECT
    ensures forall i: nat | i < W :: i in Hits(s, k) <==> Output(s, i) / REJECT == k
  {
    hide Output, IndexOf;
    var hits := Hits(s, k);
    forall r: nat, r': nat | r < r' < REJECT ensures hits[r] != hits[r'] {
      HitIsDraw(s, k, r);
      HitIsDraw(s, k, r');
    }
    DistinctCount(hits);
    forall i: nat | i < W ensures i in hits <==> Output(s, i) / REJECT == k {
      var w := Output(s, i);
      FullPeriod(s, i, w);
      if w / REJECT == k {
        assert i == hits[w % REJECT];
      }
      if i in hits {
        var r: nat :| r < REJECT && i == hits[r];
        HitIsDraw(s, k, r);
      }
    }
  }

  // ── The Python generator: unbounded integers and a mask ─────────────────

  const MASK64: nat := 0xFFFF_FFFF_FFFF_FFFF

  /** `a & _MASK64`, for an integer of either sign. */
  function Masked(a: int): (r: Word)
    ensures r == a % W
  {
    Pow2Is64();
    AndMaskIsMod(a, 64);
    And(a, MASK64)
  }

  /** `z ^ (z >> k)` on an unbounded integer. */
  function XorShr(z: nat, k: nat): (r: nat)
    ensures z < W ==> r == XorShift(z, k)
  {
    Xor(z, Shr(z, k))
  }

  class PySplitMix64 {
    var state: nat

    ghost predicate Valid() reads this { state < W }

    /** Any integer seed, negative ones included, is reduced modulo 2^64. */
    constructor (seed: int)
      ensures Valid() && state == seed % W
    {
      state := Masked(seed);
    }

    method NextU64() returns (r: nat)
      requires Valid()
      modifies this
      ensures Valid() && state == StateAfter(old(state), 1)
      ensures r == Output(old(state), 0)
    {
      hide XorShift, Masked, XorShr;
      state := Masked(state + GAMMA);
      var z := state;
      z := Masked(XorShr(z, 30) * MUL1);
      z := Masked(XorShr(z, 27) * MUL2);
      r := Masked(XorShr(z, 31));
      assert r == XorShift(z, 31);
    }

    /** The unbounded loop draws until the variate lies strictly between 0 and 1. */
    method NextF64() returns (u: real)
      requires Valid()
      modifies this
      ensures Valid() && state == AfterUniform(old(state))
      ensures u == Uniform(old(state)) && 0.0 < u < 1.0
    {
      assert StateAfter(state, 0) == state;
      hide Output, StateAfter, Unit, Scale;
      ghost var s, n := state as Word, FirstKeptIndex(state);
      ghost var drawn := 0;
      while true
        invariant Valid() && state == StateAfter(s, drawn) && drawn <= n
        decreases n - drawn
      {
        var w := NextU64();
        assert w == Output(s, drawn) && state == StateAfter(s, drawn + 1) by {
          OutputAdds(s, drawn, 0);
          StateAfterAdds(s, drawn, 1);
        }
        UnitInterval(w);
        u := Scale(w);
        if 0.0 < u < 1.0 {
          assert drawn == n;
          return;
        }
        drawn := drawn + 1;
      }
    }
  }

  /** `(w >> 11) * (1.0 / (1 << 53))`. */
  function Scale(w: nat): (u: real)
    requires w < W
    ensures u == Unit(w)
  {
    assert Pow2(11) == REJECT;
    Shr(w, 11) as real * (1.0 / TWO53 as real)
  }

  // ── The Rust generator: 64-bit registers that wrap ──────────────────────

  newtype u64 = x: int | 0 <= x < W

  function WrappingAdd(a: u64, b: u64): u64 {
    var sum := a as int + b as int;
    (if sum >= W then sum - W else sum) as u64
  }

  function WrappingMul(a: u64, b: u64): u64 {
    (a as int * b as int % W) as u64
  }

  /** `z ^ (z >> k)` on a register. */
  function ShrXor64(z: u64, k: nat): (r: u64)
    ensures r as int == XorShift(z as Word, k)
  {
    Pow2Is64();
    ShrFits(z as nat, k);
    XorBitsIsXor(64, z as nat, Shr(z as nat, k));
    XorBound(z as nat, Shr(z as nat, k), 64);
    XorBits(64, z as nat, Shr(z as nat, k)) as u64
  }

  class RustSplitMix64 {
    var state: u64

    constructor (seed: u64)
      ensures state == seed
    {
      state := seed;
    }

    method NextU64() returns (r: u64)
      modifies this
      ensures state as Word == StateAfter(old(state) as Word, 1)
      ensures r as Word == Output(old(state) as Word, 0)
    {
      hide XorShift, ShrXor64;
      state := WrappingAdd(state, GAMMA as u64);
      var z := state;
      z := WrappingMul(ShrXor64(z, 30), MUL1 as u64);
      z := WrappingMul(ShrXor64(z, 27), MUL2 as u64);
      r := ShrXor64(z, 31);
    }

    /** The half-open variant of the synthetic data engine keeps every draw. */
    method NextF64() returns (u: real)
      modifies this
      ensures state as Word == StateAfter(old(state) as Word, 1)
      ensures u == Unit(Output(old(state) as Word, 0))
      ensures 0.0 <= u < 1.0
    {
      hide Output, StateAfter, Unit, Scale;
      var w := NextU64();
      UnitInterval(w as Word);
      u := Scale(w as nat);
    }
  }

  /** One after the other, the two generators emit the same words from congruent seeds, for ever. */
  method EmitBoth(seed: int, n: nat) returns (py: seq<nat>, rs: seq<nat>)
    ensures |py| == |rs| == n
    ensures forall i | 0 <= i < n :: py[i] == rs[i] == Output(seed % W, i)
  {
    var a := new PySplitMix64(seed);
    var b := new RustSplitMix64((seed % W) as u64);
    py, rs := [], [];
    while |py| < n
      invariant |py| == |rs| <= n
      invariant a.Valid() && a.state == b.state as nat == StateAfter(seed % W, |py|)
      invariant forall i | 0 <= i < |py| :: py[i] == rs[i] == Output(seed % W, i)
    {
      OutputAdds(seed % W, |py|, 0);
      StateAfterAdds(seed % W, |py|, 1);
      var x := a.NextU64();
      var y := b.NextU64();
      py, rs := py + [x], rs + [y as nat];
    }
  }
}
