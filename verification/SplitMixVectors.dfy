/** The published first output of SplitMix64, which fixes its constants and shifts. */
module SplitMixVectors {
  import opened Words
  import opened SplitMix

  // ── Exclusive or, digit by digit ────────────────────────────────────────

  /** High and low parts are combined on their own. */
  lemma {:induction false} XorJoin(a: nat, x: nat, b: nat, y: nat, k: nat)
    requires x < Pow2(k) && y < Pow2(k)
    ensures Xor(a * Pow2(k) + x, b * Pow2(k) + y) == Xor(a, b) * Pow2(k) + Xor(x, y)
    decreases k
  {
    hide Xor;
    if k == 0 {
      XorZero(0);
    } else {
      var q := Pow2(k - 1);
      Halved(a, x, q);
      Halved(b, y, q);
      XorHalf(a * Pow2(k) + x, b * Pow2(k) + y);
      XorHalf(x, y);
      XorJoin(a, x / 2, b, y / 2, k - 1);
      Doubled(Xor(a, b), q);
    }
  }

  lemma Halved(a: nat, x: nat, q: nat)
    ensures (a * (2 * q) + x) / 2 == a * q + x / 2 && (a * (2 * q) + x) % 2 == x % 2
  {
    assert a * (2 * q) == 2 * (a * q);
  }

  lemma Doubled(a: nat, q: nat)
    ensures a * (2 * q) == 2 * (a * q)
  {
  }

  /** A hexadecimal digit by its bits, the highest first. */
  datatype Digit = Digit(b8: bool, b4: bool, b2: bool, b1: bool) {
    function Value(): nat {
      Bits(b8, b4, b2, b1)
    }

    function Xor(d: Digit): Digit {
      Digit(b8 != d.b8, b4 != d.b4, b2 != d.b2, b1 != d.b1)
    }
  }

  function Bit(b: bool): nat {
    if b then 1 else 0
  }

  /** A binary number with one more bit at the end. */
  function Longer(a: nat, p: bool): nat {
    2 * a + Bit(p)
  }

  const H0 := Digit(false, false, false, false)
  const H1 := Digit(false, false, false, true)
  const H2 := Digit(false, false, true, false)
  const H3 := Digit(false, false, true, true)
  const H4 := Digit(false, true, false, false)
  const H5 := Digit(false, true, false, true)
  const H6 := Digit(false, true, true, false)
  const H7 := Digit(false, true, true, true)
  const H8 := Digit(true, false, false, false)
  const H9 := Digit(true, false, false, true)
  const HA := Digit(true, false, true, false)
  const HB := Digit(true, false, true, true)
  const HC := Digit(true, true, false, false)
  const HD := Digit(true, true, false, true)
  const HE := Digit(true, true, true, false)
  const HF := Digit(true, true, true, true)

  lemma OneMoreBit(a: nat, b: nat, c: nat, p: bool, q: bool)
    requires Xor(a, b) == c
    ensures Xor(Longer(a, p), Longer(b, q)) == Longer(c, p != q)
  {
    hide Xor;
    XorHalf(Longer(a, p), Longer(b, q));
  }

  function Bits(p8: bool, p4: bool, p2: bool, p1: bool): nat {
    Longer(Longer(Longer(Bit(p8), p4), p2), p1)
  }

  lemma BitsXor(p8: bool, p4: bool, p2: bool, p1: bool, q8: bool, q4: bool, q2: bool, q1: bool)
    ensures Xor(Bits(p8, p4, p2, p1), Bits(q8, q4, q2, q1)) == Bits(p8 != q8, p4 != q4, p2 != q2, p1 != q1)
  {
    hide Xor, Bit, Longer;
    FirstBit(p8, q8);
    var (a, b, c) := (Bit(p8), Bit(q8), Bit(p8 != q8));
    OneMoreBit(a, b, c, p4, q4);
    var (a1, b1, c1) := (Longer(a, p4), Longer(b, q4), Longer(c, p4 != q4));
    OneMoreBit(a1, b1, c1, p2, q2);
    OneMoreBit(Longer(a1, p2), Longer(b1, q2), Longer(c1, p2 != q2), p1, q1);
  }

  lemma DigitsXor(x: Digit, y: Digit)
    ensures Xor(x.Value(), y.Value()) == x.Xor(y).Value()
  {
    hide Xor, Bits;
    BitsXor(x.b8, x.b4, x.b2, x.b1, y.b8, y.b4, y.b2, y.b1);
  }

  lemma DigitIsSmall(d: Digit)
    ensures d.Value() < 16
  {
  }

  lemma FirstBit(p: bool, q: bool)
    ensures Xor(Bit(p), Bit(q)) == Bit(p != q)
  {
    XorZero(0);
    OneMoreBit(0, 0, 0, p, q);
  }

  /** One more hexadecimal digit on either side. */
  lemma OneMoreDigit(a: nat, b: nat, c: nat, x: Digit, y: Digit)
    requires Xor(a, b) == c
    ensures Xor(16 * a + x.Value(), 16 * b + y.Value()) == 16 * c + x.Xor(y).Value()
  {
    hide *;
    Pow2Is16();
    DigitIsSmall(x);
    DigitIsSmall(y);
    XorJoin(a, x.Value(), b, y.Value(), 4);
    DigitsXor(x, y);
  }

  lemma Pow2Is16()
    ensures Pow2(4) == 16
  {
  }

  function Four(a: nat, x1: Digit, x2: Digit, x3: Digit, x4: Digit): nat {
    16 * (16 * (16 * (16 * a + x1.Value()) + x2.Value()) + x3.Value()) + x4.Value()
  }

  lemma FourIs(a: nat, x1: Digit, x2: Digit, x3: Digit, x4: Digit)
    ensures Four(a, x1, x2, x3, x4)
         == 16 * (16 * (16 * (16 * a + x1.Value()) + x2.Value()) + x3.Value()) + x4.Value()
  {
  }

  lemma FourMoreDigits(a: nat, b: nat, c: nat, x1: Digit, x2: Digit, x3: Digit, x4: Digit,
                       y1: Digit, y2: Digit, y3: Digit, y4: Digit)
    requires Xor(a, b) == c
    ensures Xor(Four(a, x1, x2, x3, x4), Four(b, y1, y2, y3, y4))
         == Four(c, x1.Xor(y1), x2.Xor(y2), x3.Xor(y3), x4.Xor(y4))
  {
    hide *;
    OneMoreDigit(a, b, c, x1, y1);
    var (a1, b1, c1) := (16 * a + x1.Value(), 16 * b + y1.Value(), 16 * c + x1.Xor(y1).Value());
    OneMoreDigit(a1, b1, c1, x2, y2);
    var (a2, b2, c2) := (16 * a1 + x2.Value(), 16 * b1 + y2.Value(), 16 * c1 + x2.Xor(y2).Value());
    OneMoreDigit(a2, b2, c2, x3, y3);
    OneMoreDigit(16 * a2 + x3.Value(), 16 * b2 + y3.Value(), 16 * c2 + x3.Xor(y3).Value(), x4, y4);
    FourIs(a, x1, x2, x3, x4);
    FourIs(b, y1, y2, y3, y4);
    FourIs(c, x1.Xor(y1), x2.Xor(y2), x3.Xor(y3), x4.Xor(y4));
  }

  // ── The first output of seed 0 ──────────────────────────────────────────

  lemma FirstShift()
    ensures XorShift(GAMMA, 30) == 0x9E3779BB07979AF0
  {
    hide Xor, XorShift, Shr, Pow2;
    ShiftIs(GAMMA, 30, 0x40000000, 0x278DDE6E5);
    XorZero(0x9E37);
    FourMoreDigits(0x9E37, 0, 0x9E37, H7, H9, HB, H9, H0, H0, H0, H2);
    FourMoreDigits(0x9E3779B9, 2, 0x9E3779BB, H7, HF, H4, HA, H7, H8, HD, HD);
    FourMoreDigits(0x9E3779B97F4A, 0x278DD, 0x9E3779BB0797, H7, HC, H1, H5, HE, H6, HE, H5);
  }

  lemma SecondShift()
    ensures XorShift(0x6F68261B57E7A770, 27) == 0x6F682616BAE3641A
  {
    hide Xor, XorShift, Shr, Pow2;
    ShiftIs(0x6F68261B57E7A770, 27, 0x8000000, 0xDED04C36A);
    XorZero(0x6F68);
    FourMoreDigits(0x6F68, 0, 0x6F68, H2, H6, H1, HB, H0, H0, H0, HD);
    FourMoreDigits(0x6F68261B, 0xD, 0x6F682616, H5, H7, HE, H7, HE, HD, H0, H4);
    FourMoreDigits(0x6F68261B57E7, 0xDED04, 0x6F682616BAE3, HA, H7, H7, H0, HC, H3, H6, HA);
  }

  lemma ThirdShift()
    ensures XorShift(0xE220A838BF5C9DDE, 31) == 0xE220A8397B1DCDAF
  {
    hide Xor, XorShift, Shr, Pow2;
    ShiftIs(0xE220A838BF5C9DDE, 31, 0x80000000, 0x1C4415071);
    XorZero(0xE220);
    FourMoreDigits(0xE220, 0, 0xE220, HA, H8, H3, H8, H0, H0, H0, H1);
    FourMoreDigits(0xE220A838, 1, 0xE220A839, HB, HF, H5, HC, HC, H4, H4, H1);
    FourMoreDigits(0xE220A838BF5C, 0x1C441, 0xE220A8397B1D, H9, HD, HD, HE, H5, H0, H7, H1);
  }

  lemma ShiftIs(z: Word, k: nat, p: nat, shifted: nat)
    requires k in {27, 30, 31} && z / PowerOf(k) == shifted && p == PowerOf(k)
    ensures XorShift(z, k) == Xor(z, shifted)
  {
    hide Xor;
    Powers();
  }

  function PowerOf(k: nat): nat {
    if k == 27 then 0x800_0000 else if k == 30 then 0x4000_0000 else 0x8000_0000
  }

  lemma Powers()
    ensures Pow2(27) == 0x800_0000 && Pow2(30) == 0x4000_0000 && Pow2(31) == 0x8000_0000
  {
    hide Pow2;
    Pow2Is8();
    Pow2Add(8, 8);
    Pow2Add(16, 8);
    Pow2Step(25);
    Pow2Step(26);
    Pow2Step(27);
    Pow2Step(28);
    Pow2Step(29);
    Pow2Step(30);
    Pow2Step(31);
  }

  /** The first word of a generator seeded with 0, as the published vectors and the program's test have it. */
  lemma KnownVector()
    ensures Output(0, 0) == 0xE220A8397B1DCDAF
  {
    hide XorShift, Xor;
    assert StateAfter(0, 1) == GAMMA;
    FirstShift();
    assert Mul(0x9E3779BB07979AF0, MUL1) == 0x6F68261B57E7A770;
    SecondShift();
    assert Mul(0x6F682616BAE3641A, MUL2) == 0xE220A838BF5C9DDE;
    ThirdShift();
  }
}
