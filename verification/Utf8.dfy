/** The decoder of size lines against the definition of UTF-8 (section 3 of RFC 3629), and sizes as they are printed. */
module Utf8 {
  import opened Chunked
  import opened Text
  import opened Wrappers

  // ── Encoding ────────────────────────────────────────────────────────────

  /** A code point that is no surrogate. */
  predicate IsScalar(c: nat) {
    c < 0xD800 || 0xE000 <= c < 0x11_0000
  }

  function Encode(c: nat): Bytes
    requires IsScalar(c)
  {
    if c < 0x80 then [c]
    else if c < 0x800 then [0xC0 + c / 64, 0x80 + c % 64]
    else if c < 0x1_0000 then [0xE0 + c / 4096, 0x80 + c / 64 % 64, 0x80 + c % 64]
    else [0xF0 + c / 0x4_0000, 0x80 + c / 4096 % 64, 0x80 + c / 64 % 64, 0x80 + c % 64]
  }

  function EncodeAll(text: seq<nat>): Bytes
    requires forall c <- text :: IsScalar(c)
  {
    if text == [] then []
    else
      assert text[0] in text && forall c <- text[1..] :: c in text;
      Encode(text[0]) + EncodeAll(text[1..])
  }

  lemma EncodedIsRead(c: nat, rest: Bytes)
    requires IsScalar(c)
    ensures var b := Encode(c) + rest; SequenceLength(b) == |Encode(c)| && CodePoint(b, |Encode(c)|) == c
  {
    var b := Encode(c) + rest;
    assert forall i | 0 <= i < |Encode(c)| :: b[i] == Encode(c)[i];
    if c < 0x80 {
    } else if c < 0x800 {
      assert b[0] == 0xC0 + c / 64 && b[1] == 0x80 + c % 64;
      TwoParts(c);
    } else if c < 0x1_0000 {
      assert b[0] == 0xE0 + c / 4096 && b[1] == 0x80 + c / 64 % 64 && b[2] == 0x80 + c % 64;
      ThreeParts(c);
    } else {
      assert b[0] == 0xF0 + c / 0x4_0000 && b[1] == 0x80 + c / 4096 % 64 && b[2] == 0x80 + c / 64 % 64 && b[3] == 0x80 + c % 64;
      FourParts(c);
    }
  }

  lemma TwoParts(c: nat)
    requires 0x80 <= c < 0x800
    ensures 2 <= c / 64 < 32 && (0xC0 + c / 64) % 32 == c / 64 && c == c / 64 * 64 + c % 64
    ensures (0x80 + c % 64) % 64 == c % 64
  {
  }

  lemma ThreeParts(c: nat)
    requires 0x800 <= c < 0x1_0000
    ensures c / 4096 < 16 && (0xE0 + c / 4096) % 16 == c / 4096
    ensures c / 64 == c / 4096 * 64 + c / 64 % 64 && c == c / 64 * 64 + c % 64
    ensures (0x80 + c / 64 % 64) % 64 == c / 64 % 64 && (0x80 + c % 64) % 64 == c % 64
  {
  }

  lemma FourParts(c: nat)
    requires 0x1_0000 <= c < 0x11_0000
    ensures c / 0x4_0000 < 5 && (0xF0 + c / 0x4_0000) % 8 == c / 0x4_0000
    ensures c / 4096 == c / 0x4_0000 * 64 + c / 4096 % 64 && c / 64 == c / 4096 * 64 + c / 64 % 64 && c == c / 64 * 64 + c % 64
    ensures (0x80 + c / 4096 % 64) % 64 == c / 4096 % 64 && (0x80 + c / 64 % 64) % 64 == c / 64 % 64
    ensures (0x80 + c % 64) % 64 == c % 64
  {
  }

  /** What the first bytes of a sequence are, by its length. */
  lemma LengthMeans(b: Bytes)
    requires SequenceLength(b) > 0
    ensures match SequenceLength(b)
            case 1 => b[0] < 0x80
            case 2 => 0xC2 <= b[0] < 0xE0 && Continuation(b[1])
            case 3 =>
              && 0xE0 <= b[0] < 0xF0 && Continuation(b[1]) && Continuation(b[2])
              && !(b[0] == 0xE0 && b[1] < 0xA0) && !(b[0] == 0xED && b[1] >= 0xA0)
            case _ =>
              && |b| >= 4 && 0xF0 <= b[0] < 0xF5 && Continuation(b[1]) && Continuation(b[2]) && Continuation(b[3])
              && !(b[0] == 0xF0 && b[1] < 0x90) && !(b[0] == 0xF4 && b[1] >= 0x90)
    ensures 1 <= SequenceLength(b) <= 4
  {
  }

  lemma ReadIsEncoded(b: Bytes)
    requires SequenceLength(b) > 0
    ensures var n := SequenceLength(b); IsScalar(CodePoint(b, n)) && Encode(CodePoint(b, n)) == b[..n]
  {
    LengthMeans(b);
    hide SequenceLength;
    var n := SequenceLength(b);
    match n
    case 1 =>
    case 2 => TwoBytes(b[0], b[1]);
    case 3 => ThreeBytes(b[0], b[1], b[2]);
    case _ => FourBytes(b[0], b[1], b[2], b[3]);
  }

  lemma TwoBytes(x: Byte, y: Byte)
    requires 0xC2 <= x < 0xE0 && Continuation(y)
    ensures var c := x % 32 * 64 + y % 64; 0x80 <= c < 0x800 && x == 0xC0 + c / 64 && y == 0x80 + c % 64
  {
  }

  lemma ThreeBytes(x: Byte, y: Byte, z: Byte)
    requires 0xE0 <= x < 0xF0 && Continuation(y) && Continuation(z)
    requires !(x == 0xE0 && y < 0xA0) && !(x == 0xED && y >= 0xA0)
    ensures var c := (x % 16 * 64 + y % 64) * 64 + z % 64;
      && 0x800 <= c < 0x1_0000 && IsScalar(c)
      && x == 0xE0 + c / 4096 && y == 0x80 + c / 64 % 64 && z == 0x80 + c % 64
  {
    assert x % 16 == x - 0xE0;
    Tail(y);
    Tail(z);
    LowSix(x % 16, y);
    LowSix(x % 16 * 64 + y % 64, z);
    Halves((x % 16 * 64 + y % 64) * 64 + z % 64);
  }

  lemma FourBytes(x: Byte, y: Byte, z: Byte, w: Byte)
    requires 0xF0 <= x < 0xF5 && Continuation(y) && Continuation(z) && Continuation(w)
    requires !(x == 0xF0 && y < 0x90) && !(x == 0xF4 && y >= 0x90)
    ensures var c := ((x % 8 * 64 + y % 64) * 64 + z % 64) * 64 + w % 64;
      && 0x1_0000 <= c < 0x11_0000
      && x == 0xF0 + c / 0x4_0000 && y == 0x80 + c / 4096 % 64 && z == 0x80 + c / 64 % 64 && w == 0x80 + c % 64
  {
    var p := x % 8 * 64 + y % 64;
    var q := p * 64 + z % 64;
    Lead(x);
    Tail(y);
    Tail(z);
    Tail(w);
    LowSix(x % 8, y);
    LowSix(p, z);
    LowSix(q, w);
    Halves(q * 64 + w % 64);
  }

  lemma Lead(x: Byte)
    requires 0xF0 <= x < 0xF5
    ensures x % 8 == x - 0xF0
  {
  }

  lemma Tail(y: Byte)
    requires Continuation(y)
    ensures y % 64 == y - 0x80
  {
  }

  lemma LowSix(q: nat, w: Byte)
    ensures (q * 64 + w % 64) / 64 == q && (q * 64 + w % 64) % 64 == w % 64
  {
  }

  lemma Halves(c: nat)
    ensures c / 64 / 64 == c / 4096 && c / 64 / 64 / 64 == c / 0x4_0000
  {
  }

  lemma {:induction false} EncodedDecodes(text: seq<nat>)
    requires forall c <- text :: IsScalar(c)
    ensures Decode(EncodeAll(text)) == Some(text)
  {
    hide Encode, SequenceLength, CodePoint;
    if text != [] {
      assert text[0] in text && forall c <- text[1..] :: c in text;
      var b := EncodeAll(text);
      EncodedIsRead(text[0], EncodeAll(text[1..]));
      EncodedDecodes(text[1..]);
      assert b[|Encode(text[0])|..] == EncodeAll(text[1..]);
      EncodedIsSomething(text[0]);
      assert text == [text[0]] + text[1..];
    }
  }

  lemma EncodedIsSomething(c: nat)
    requires IsScalar(c)
    ensures 1 <= |Encode(c)| <= 4
  {
  }

  lemma {:induction false} DecodedEncodes(b: Bytes)
    requires Decode(b).Some?
    ensures (forall c <- Decode(b).value :: IsScalar(c)) && EncodeAll(Decode(b).value) == b
    decreases |b|
  {
    hide Encode, SequenceLength, CodePoint;
    if b != [] {
      var n := SequenceLength(b);
      ReadIsEncoded(b);
      DecodedEncodes(b[n..]);
      var text := Decode(b).value;
      assert text == [CodePoint(b, n)] + Decode(b[n..]).value && text[1..] == Decode(b[n..]).value;
      assert b == b[..n] + b[n..];
    }
  }

  /** The decoder reads a text exactly from its encoding, and nothing from any other bytes. */
  lemma DecodesExactly(b: Bytes, text: seq<nat>)
    ensures Decode(b) == Some(text) <==> (forall c <- text :: IsScalar(c)) && EncodeAll(text) == b
  {
    if Decode(b) == Some(text) {
      DecodedEncodes(b);
    }
    if (forall c <- text :: IsScalar(c)) && EncodeAll(text) == b {
      EncodedDecodes(text);
    }
  }

  // ── Sizes in print ──────────────────────────────────────────────────────

  const LOWER := "0123456789abcdef"
  const UPPER := "0123456789ABCDEF"

  function DigitOf(table: string, d: nat): Byte
    requires table in {LOWER, UPPER} && d < 16
  {
    table[d] as int
  }

  lemma DigitIsRead(table: string, d: nat)
    requires table in {LOWER, UPPER} && d < 16
    ensures HexDigit(DigitOf(table, d)) == Some(d)
  {
  }

  /** A number in hexadecimal, without leading zeros. */
  function HexText(table: string, n: nat): (b: Bytes)
    requires table in {LOWER, UPPER}
    ensures b != []
  {
    (if n < 16 then [] else HexText(table, n / 16)) + [DigitOf(table, n % 16)]
  }

  lemma {:induction false} HexTextIsHex(table: string, n: nat)
    requires table in {LOWER, UPPER}
    ensures IsHex(HexText(table, n)) && HexValue(HexText(table, n)) == n
  {
    hide HexDigit, DigitOf, IsHex, HexValue;
    DigitIsRead(table, n % 16);
    if n >= 16 {
      HexTextIsHex(table, n / 16);
    } else {
      assert HexValue([]) == 0 by { NoDigits(); }
    }
    OneMoreHexDigit(if n < 16 then [] else HexText(table, n / 16), DigitOf(table, n % 16), n % 16);
  }

  lemma NoDigits()
    ensures HexValue([]) == 0
  {
  }

  lemma OneMoreHexDigit(front: Bytes, c: Byte, d: nat)
    requires (front == [] || IsHex(front)) && HexDigit(c) == Some(d)
    ensures IsHex(front + [c]) && HexValue(front + [c]) == 16 * HexValue(front) + d
  {
    assert (front + [c])[..|front|] == front;
  }

  /** Every size that fits a machine word is read back from its hexadecimal digits, in either case. */
  lemma PrintedSizesAreRead(table: string, n: nat)
    requires table in {LOWER, UPPER}
    ensures ParseSize(HexText(table, n)) == if n < USIZE then Some(n) else None
  {
    hide HexText, HexValue, Decode, Trim, BeforeSemicolon;
    var b := HexText(table, n);
    HexTextIsHex(table, n);
    var none: Bytes := [];
    assert Decode(none).Some? by { EncodedDecodes([]); }
    SizeLineText(b, none, none);
    assert b + none + none == b;
    HexFoldExactly(b);
    assert b[0] in b;
  }

  lemma {:induction false} LeftIsTrimmed(w: seq<nat>, s: seq<nat>)
    requires forall c <- w :: White(c)
    ensures TrimLeft(w + s) == TrimLeft(s)
  {
    if w == [] {
      assert w + s == s;
    } else {
      assert w[0] in w && forall c <- w[1..] :: c in w;
      assert (w + s)[0] == w[0] && (w + s)[1..] == w[1..] + s;
      LeftIsTrimmed(w[1..], s);
    }
  }

  /** Blanks in front of a size line do not count. */
  lemma LeadingBlanksAreSkipped(w: Bytes, line: Bytes)
    requires Blanks(w)
    ensures ParseSize(w + line) == ParseSize(line)
  {
    hide Decode, FromHex, BeforeSemicolon, TrimRight;
    DecodeAscii(w, line);
    if Decode(line).Some? {
      LeftIsTrimmed(w, Decode(line).value);
    }
  }

  /** A plus sign in front of the digits does not count; alone, like a minus sign or nothing, it is no size. */
  lemma SignsAreRead(table: string, n: nat)
    requires table in {LOWER, UPPER}
    ensures FromHex([43] + HexText(table, n)) == FromHex(HexText(table, n)) == if n < USIZE then Some(n) else None
    ensures FromHex([45] + HexText(table, n)) == FromHex([43]) == FromHex([]) == None
  {
    hide HexText, HexValue;
    var b := HexText(table, n);
    HexTextIsHex(table, n);
    HexFoldExactly(b);
    assert b[0] in b;
    assert ([43] + b)[1..] == b && ([45] + b)[0] == 45;
    assert [43][0] == 43 && HexDigit(43).None? && HexDigit(45).None?;
  }
}
