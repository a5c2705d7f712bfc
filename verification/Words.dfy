/** Bit-level arithmetic on unbounded integers, and its reading on 64-bit words. */
module Words {

  const W: nat := 0x1_0000_0000_0000_0000

  type Word = z: nat | z < W

  function Pow2(n: nat): (p: nat)
    ensures p >= 1
  {
    if n == 0 then 1 else 2 * Pow2(n - 1)
  }

  lemma {:induction false} Pow2Add(m: nat, n: nat)
    ensures Pow2(m + n) == Pow2(m) * Pow2(n)
    decreases m
  {
    if m != 0 {
      Pow2Add(m - 1, n);
    }
  }

  lemma Pow2Step(n: nat)
    ensures Pow2(0) == 1 && (n > 0 ==> Pow2(n) == 2 * Pow2(n - 1))
  {
  }

  lemma Pow2Is8()
    ensures Pow2(8) == 0x100
  {
  }

  lemma Pow2Is64()
    ensures Pow2(64) == W
  {
    hide Pow2;
    Pow2Is8();
    Pow2Add(8, 8);
    Pow2Add(16, 16);
    Pow2Add(32, 32);
  }

  /** Exclusive or of two non-negative integers of any length, bit by bit. */
  function Xor(a: nat, b: nat): nat
    decreases a + b
  {
    if a == 0 && b == 0 then 0 else 2 * Xor(a / 2, b / 2) + (a % 2 + b % 2) % 2
  }

  /** Exclusive or of the low `w` bits only, the way a w-bit register computes it. */
  function XorBits(w: nat, a: nat, b: nat): nat
    decreases w, a
  {
    if w == 0 then 0 else 2 * XorBits(w - 1, a / 2, b / 2) + (a % 2 + b % 2) % 2
  }

  /** `a & mask` on an integer of either sign (two's complement) and a non-negative mask. */
  function And(a: int, mask: nat): nat
    decreases mask, a
  {
    if mask == 0 then 0 else 2 * And(a / 2, mask / 2) + (a % 2) * (mask % 2)
  }

  /** `a >> k`. */
  function Shr(a: nat, k: nat): nat {
    QuotientFits(a, Pow2(k));
    a / Pow2(k)
  }

  lemma QuotientFits(a: nat, p: nat)
    requires p >= 1
    ensures 0 <= a / p <= a
  {
  }

  lemma ShrHalves(a: nat, k: nat)
    requires k != 0
    ensures Shr(a, k) == Shr(a / 2, k - 1)
  {
    HalveQuotient(a, Pow2(k - 1));
  }

  lemma ShrFits(a: nat, k: nat)
    ensures Shr(a, k) <= a
  {
    QuotientFits(a, Pow2(k));
  }

  lemma {:induction false} XorHalf(a: nat, b: nat)
    ensures Xor(a, b) / 2 == Xor(a / 2, b / 2)
    ensures Xor(a, b) % 2 == (a % 2 + b % 2) % 2
  {
  }

  lemma {:induction false} XorComm(a: nat, b: nat)
    ensures Xor(a, b) == Xor(b, a)
    decreases a + b
  {
    if a != 0 || b != 0 {
      XorComm(a / 2, b / 2);
    }
  }

  lemma {:induction false} XorAssoc(a: nat, b: nat, c: nat)
    ensures Xor(Xor(a, b), c) == Xor(a, Xor(b, c))
    decreases a + b + c
  {
    if a == 0 && b == 0 && c == 0 {
    } else {
      XorAssoc(a / 2, b / 2, c / 2);
      XorLeft(a, b, c);
      XorLeft(b, c, a);
      XorComm(a, Xor(b, c));
      XorComm(a / 2, Xor(b / 2, c / 2));
      HalvesDetermine(Xor(Xor(a, b), c), Xor(a, Xor(b, c)));
    }
  }

  lemma {:induction false} XorLeft(a: nat, b: nat, c: nat)
    ensures Xor(Xor(a, b), c) / 2 == Xor(Xor(a / 2, b / 2), c / 2)
    ensures Xor(Xor(a, b), c) % 2 == (a % 2 + b % 2 + c % 2) % 2
  {
    XorHalf(a, b);
    XorHalf(Xor(a, b), c);
    BitCarry(a % 2 + b % 2, c % 2);
  }

  lemma BitCarry(a: nat, b: nat)
    ensures (a % 2 + b) % 2 == (a + b) % 2
  {
  }

  lemma HalvesDetermine(l: nat, r: nat)
    requires l / 2 == r / 2 && l % 2 == r % 2
    ensures l == r
  {
  }

  lemma {:induction false} XorZero(a: nat)
    ensures Xor(a, 0) == a && Xor(0, a) == a
  {
    if a != 0 {
      XorZero(a / 2);
    }
  }

  lemma {:induction false} XorSelf(a: nat)
    ensures Xor(a, a) == 0
  {
    if a != 0 {
      XorSelf(a / 2);
    }
  }

  lemma ShrZero(a: nat)
    ensures Shr(a, 0) == a
  {
  }

  lemma {:induction false} ShrXor(a: nat, b: nat, k: nat)
    ensures Shr(Xor(a, b), k) == Xor(Shr(a, k), Shr(b, k))
    decreases k
  {
    hide Shr, Xor;
    if k == 0 {
      ShrZero(a);
      ShrZero(b);
      ShrZero(Xor(a, b));
    } else {
      XorHalf(a, b);
      ShrHalves(a, k);
      ShrHalves(b, k);
      ShrHalves(Xor(a, b), k);
      ShrXor(a / 2, b / 2, k - 1);
    }
  }

  lemma {:induction false} ShrShr(a: nat, i: nat, j: nat)
    ensures Shr(Shr(a, i), j) == Shr(a, i + j)
    decreases i
  {
    hide Shr;
    if i == 0 {
      ShrZero(a);
    } else {
      ShrHalves(a, i);
      ShrHalves(a, i + j);
      ShrShr(a / 2, i - 1, j);
    }
  }

  lemma ShrOut(a: nat, k: nat)
    requires a < Pow2(k)
    ensures Shr(a, k) == 0
  {
    SmallQuotient(a, Pow2(k));
  }

  lemma SmallQuotient(a: nat, p: nat)
    requires a < p
    ensures a / p == 0
  {
  }

  lemma HalveQuotient(a: nat, p: nat)
    requires p >= 1
    ensures a / 2 / p == a / (2 * p)
  {
    var q, r := a / 2 / p, a / 2 % p;
    assert a == 2 * (q * p + r) + a % 2;
    assert a == q * (2 * p) + (2 * r + a % 2);
    QuotientUnique(a, 2 * p, q, 2 * r + a % 2);
  }

  /** The quotient and the remainder are the only pair of their kind. */
  lemma QuotientUnique(a: int, m: int, q: int, r: int)
    requires m > 0 && a == q * m + r && 0 <= r < m
    ensures a / m == q && a % m == r
  {
    SameQuotient(a / m, q, a % m, r, m);
  }

  lemma SameQuotient(q': int, q: int, r': int, r: int, m: int)
    requires m > 0 && 0 <= r < m && 0 <= r' < m
    requires q' * m + r' == q * m + r
    ensures q' == q && r' == r
  {
    assert (q' - q) * m == r - r';
    MulAtLeast(q' - q, m);
  }

  lemma MulAtLeast(d: int, m: int)
    requires m > 0
    ensures d >= 1 ==> d * m >= m
    ensures d <= -1 ==> d * m <= -m
  {
  }

  lemma {:induction false} XorBound(a: nat, b: nat, n: nat)
    requires a < Pow2(n) && b < Pow2(n)
    ensures Xor(a, b) < Pow2(n)
    decreases n
  {
    if n != 0 {
      XorBound(a / 2, b / 2, n - 1);
    }
  }

  /** On operands that fit in the register the two exclusive ors are the same. */
  lemma {:induction false} XorBitsIsXor(w: nat, a: nat, b: nat)
    requires a < Pow2(w) && b < Pow2(w)
    ensures XorBits(w, a, b) == Xor(a, b)
    decreases w
  {
    if w != 0 {
      XorBitsIsXor(w - 1, a / 2, b / 2);
    }
  }

  /** Masking with n one bits is reduction modulo 2^n, for integers of either sign. */
  lemma {:induction false} AndMaskIsMod(a: int, n: nat)
    ensures And(a, Pow2(n) - 1) == a % Pow2(n)
    decreases n
  {
    hide And, Pow2;
    Pow2Step(n);
    if n == 0 {
      AndNothing(a);
    } else {
      var p := Pow2(n - 1);
      AndMaskIsMod(a / 2, n - 1);
      AndOddMask(a, p - 1);
      ModDouble(a, p);
    }
  }

  lemma AndNothing(a: int)
    ensures And(a, 0) == 0
  {
  }

  lemma {:induction false} AndOddMask(a: int, m: nat)
    ensures And(a, 2 * m + 1) == 2 * And(a / 2, m) + a % 2
  {
    assert (2 * m + 1) / 2 == m && (2 * m + 1) % 2 == 1;
  }

  lemma ModDouble(a: int, p: int)
    requires p >= 1
    ensures a % (2 * p) == 2 * (a / 2 % p) + a % 2
  {
    var q, r := a / 2 / p, a / 2 % p;
    assert a / 2 == q * p + r;
    assert a == q * (2 * p) + (2 * r + a % 2);
    QuotientUnique(a, 2 * p, q, 2 * r + a % 2);
  }

  /** A right-shift exclusive or is undone by two more, once three shifts leave the word. */
  lemma XorShiftUndone(z: nat, k: nat)
    requires z < Pow2(3 * k)
    ensures var y := Xor(z, Shr(z, k)); Xor(Xor(y, Shr(y, k)), Shr(y, 2 * k)) == z
  {
    var s1, s2 := Shr(z, k), Shr(z, 2 * k);
    var y := Xor(z, s1);
    ShrXor(z, s1, k);
    ShrShr(z, k, k);
    assert Shr(y, k) == Xor(s1, s2);
    ShrXor(z, s1, 2 * k);
    ShrShr(z, k, 2 * k);
    ShrOut(z, 3 * k);
    XorZero(s2);
    assert Shr(y, 2 * k) == s2;
    XorCancel(z, s1, s2);
  }

  lemma XorCancel(a: nat, b: nat, c: nat)
    ensures Xor(Xor(Xor(a, b), Xor(b, c)), c) == a
  {
    XorAssoc(a, b, Xor(b, c));
    XorAssoc(b, b, c);
    XorSelf(b);
    XorZero(c);
    XorAssoc(a, c, c);
    XorSelf(c);
    XorZero(a);
  }

  /** The other direction: shift-xoring the undone value gives the original back. */
  lemma XorShiftRedone(y: nat, k: nat)
    requires y < Pow2(3 * k)
    ensures var z := Xor(Xor(y, Shr(y, k)), Shr(y, 2 * k)); Xor(z, Shr(z, k)) == y
  {
    var s1, s2 := Shr(y, k), Shr(y, 2 * k);
    var z := Xor(Xor(y, s1), s2);
    ShrXor(Xor(y, s1), s2, k);
    ShrXor(y, s1, k);
    ShrShr(y, k, k);
    ShrShr(y, 2 * k, k);
    ShrOut(y, 3 * k);
    XorZero(Xor(s1, s2));
    assert Shr(z, k) == Xor(s1, s2);
    XorAssoc(y, s1, s2);
    XorAssoc(y, Xor(s1, s2), Xor(s1, s2));
    XorSelf(Xor(s1, s2));
    XorZero(y);
  }

  lemma {:induction false} Pow2Monotone(m: nat, n: nat)
    requires m <= n
    ensures Pow2(m) <= Pow2(n)
    decreases n
  {
    if m < n {
      Pow2Monotone(m, n - 1);
    }
  }

  // ── Counting ────────────────────────────────────────────────────────────

  lemma {:induction false} RangeSize(xs: set<nat>, m: nat)
    requires forall x <- xs :: x < m
    ensures |xs| <= m
    decreases m
  {
    if m == 0 {
      assert xs == {};
    } else {
      RangeSize(xs - {m - 1}, m - 1);
    }
  }

  function Elements<T(==)>(xs: seq<T>): set<T> {
    set x | x in xs
  }

  lemma {:induction false} DistinctCount<T>(xs: seq<T>)
    requires forall i, j | 0 <= i < j < |xs| :: xs[i] != xs[j]
    ensures |Elements(xs)| == |xs|
  {
    if xs == [] {
    } else {
      var front, last := xs[..|xs| - 1], xs[|xs| - 1];
      DistinctCount(front);
      assert Elements(xs) == Elements(front) + {last};
      assert last !in front;
    }
  }

  // ── Arithmetic modulo 2^64 ──────────────────────────────────────────────

  lemma ModAddMul(a: int, k: int, m: int)
    requires m > 0
    ensures (a + k * m) % m == a % m
  {
    assert a == (a / m) * m + a % m;
    assert a + k * m == (a / m + k) * m + a % m;
    QuotientUnique(a + k * m, m, a / m + k, a % m);
  }

  /** Reducing a factor first does not change a product's residue. */
  lemma ModMul(a: int, b: int, m: int)
    requires m > 0
    ensures (a % m * b) % m == a * b % m
  {
    var q := a / m;
    assert a * b == (q * m + a % m) * b == a % m * b + q * b * m;
    ModAddMul(a % m * b, q * b, m);
  }

  lemma ModAdd(a: int, b: int, m: int)
    requires m > 0
    ensures (a % m + b) % m == (a + b) % m
  {
    assert a + b == (a % m + b) + (a / m) * m;
    ModAddMul(a % m + b, a / m, m);
  }

  /** Multiplying by two numbers that are inverse modulo 2^64 gives the word back. */
  lemma InverseCancels(a: Word, c: nat, d: nat)
    requires c * d % W == 1
    ensures (a * c % W) * d % W == a
  {
    ModMul(a * c, d, W);
    assert a * c * d == c * d * a;
    ModMul(c * d, a, W);
  }
}
