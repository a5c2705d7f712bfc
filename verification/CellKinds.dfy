/** Which cells are read as what, for numbers as they are printed and for single words. */
module CellKinds {
  import opened SchemaInference
  import opened Text
  import opened Wrappers

  lemma {:induction false} DecimalDigits(n: nat)
    ensures Digits(Decimal(n)) && Magnitude(Decimal(n)) == n
  {
    var s := Decimal(n);
    DecimalParts(n);
    if n >= 10 {
      DecimalDigits(n / 10);
    } else {
      assert s[..|s| - 1] == "" && Magnitude("") == 0;
    }
  }

  lemma DecimalParts(n: nat)
    ensures var s := Decimal(n);
      s[|s| - 1] == '0' + (n % 10) as char && s[..|s| - 1] == if n < 10 then "" else Decimal(n / 10)
  {
  }

  /** A printed integer, with or without a sign, is an integer cell exactly when it fits 64 bits; it always is a number. */
  lemma IntegersInPrint(n: nat)
    ensures IsI64(Decimal(n)) <==> n < 0x8000_0000_0000_0000
    ensures IsI64("+" + Decimal(n)) <==> n < 0x8000_0000_0000_0000
    ensures IsI64("-" + Decimal(n)) <==> n <= 0x8000_0000_0000_0000
    ensures IsF64(Decimal(n)) && IsF64("+" + Decimal(n)) && IsF64("-" + Decimal(n))
  {
    hide IsI64, IsF64, Decimal;
    IntegersFit(n);
    IntegersAreNumbers(n);
  }

  lemma IntegersFit(n: nat)
    ensures IsI64(Decimal(n)) <==> n < 0x8000_0000_0000_0000
    ensures IsI64("+" + Decimal(n)) <==> n < 0x8000_0000_0000_0000
    ensures IsI64("-" + Decimal(n)) <==> n <= 0x8000_0000_0000_0000
  {
    hide Magnitude, Decimal;
    var d := Decimal(n);
    DecimalDigits(n);
    assert d[0] in d;
    assert ("+" + d)[1..] == d && ("-" + d)[1..] == d;
  }

  lemma IntegersAreNumbers(n: nat)
    ensures IsF64(Decimal(n)) && IsF64("+" + Decimal(n)) && IsF64("-" + Decimal(n))
  {
    hide Magnitude, Lower, Decimal;
    var d := Decimal(n);
    DecimalDigits(n);
    assert d[0] in d;
    assert ("+" + d)[1..] == d && ("-" + d)[1..] == d;
    TakeAllDigits(d);
    assert d[|d|..] == "";
  }

  lemma {:induction false} DigitsThen(d: string, rest: string)
    requires Digits(d) && (rest == "" || !('0' <= rest[0] <= '9'))
    ensures TakeDigits(d + rest) == |d|
  {
    if d == "" {
      assert d + rest == rest;
    } else {
      assert d[0] in d && forall c <- d[1..] :: c in d;
      assert (d + rest)[0] == d[0] && (d + rest)[1..] == d[1..] + rest;
      DigitsThen(d[1..], rest);
    }
  }

  /** A printed decimal fraction, with nothing or an exponent after it, is a number and no integer. */
  lemma FractionsInPrint(a: nat, b: nat, rest: string)
    requires rest == "" || !('0' <= rest[0] <= '9')
    ensures IsF64(Decimal(a) + "." + Decimal(b) + rest) <==> IsExponent(rest)
    ensures !IsI64(Decimal(a) + "." + Decimal(b))
  {
    hide IsF64, IsI64, IsExponent, Decimal;
    DecimalDigits(a);
    DecimalDigits(b);
    Fraction(Decimal(a), Decimal(b), rest);
    PointIsNoDigit(Decimal(a), Decimal(b));
  }

  /** An exponent has a letter of either case, perhaps a sign, and digits. */
  lemma ExponentsInPrint(letter: char, sign: string, e: nat)
    requires letter == 'e' || letter == 'E'
    requires sign == "" || sign == "+" || sign == "-"
    ensures IsExponent([letter] + sign + Decimal(e))
  {
    hide Decimal;
    var d := Decimal(e);
    DecimalDigits(e);
    assert d[0] in d;
    var s := [letter] + sign + d;
    assert s[1..] == sign + d;
    assert Unsigned(sign + d) == d by { SignIsSkipped(sign, d); }
  }

  lemma SignIsSkipped(sign: string, d: string)
    requires (sign == "" || sign == "+" || sign == "-") && d != "" && Digits(d)
    ensures Unsigned(sign + d) == d
  {
    assert d[0] in d;
    if sign == "" {
      assert sign + d == d;
    } else {
      assert (sign + d)[1..] == d;
    }
  }

  lemma NoExponents(rest: string)
    ensures !IsExponent("e") && !IsExponent("." + rest)
  {
    assert "e"[1..] == "";
  }

  lemma PointIsNoDigit(a: string, b: string)
    requires a != "" && Digits(a)
    ensures !IsI64(a + "." + b)
  {
    var s := a + "." + b;
    assert a[0] in a && s[0] == a[0] && s[|a|] == '.';
    assert s[|a|] in s;
  }

  lemma Fraction(a: string, b: string, rest: string)
    requires a != "" && Digits(a) && Digits(b) && (rest == "" || !('0' <= rest[0] <= '9'))
    ensures IsF64(a + "." + b + rest) <==> IsExponent(rest)
  {
    hide IsExponent;
    var s := a + "." + b + rest;
    assert s == a + ("." + (b + rest));
    DigitsThen(a, "." + (b + rest));
    DigitsThen(b, rest);
    assert a[0] in a && s[0] == a[0];
    assert s[|a|..] == "." + (b + rest) && s[|a|..][1..] == b + rest && (b + rest)[|b|..] == rest;
    NoWord(s);
  }

  lemma NoWord(s: string)
    requires s != "" && '0' <= s[0] <= '9'
    ensures Unsigned(s) == s && Lower(s) !in {"inf", "infinity", "nan"}
  {
    assert Lower(s)[0] == s[0] && "inf"[0] == 'i' && "infinity"[0] == 'i' && "nan"[0] == 'n';
  }

  /** Truth values in any case. */
  lemma TruthValues()
    ensures IsBool("true") && IsBool("FALSE") && IsBool("True") && !IsBool("yes") && !IsBool("1")
  {
    assert Lower("true") == "true" && Lower("FALSE") == "false" && Lower("True") == "true";
    assert |Lower("yes")| == 3 && |Lower("1")| == 1 && |"true"| == 4 && |"false"| == 5;
  }

  /** The words for special numbers. */
  lemma SpecialNumbers()
    ensures IsF64("inf") && IsF64("-Infinity") && IsF64("NaN")
  {
    assert Unsigned("inf") == "inf" && Unsigned("-Infinity") == "Infinity" && Unsigned("NaN") == "NaN";
    assert Lower("inf") == "inf" && Lower("Infinity") == "infinity" && Lower("NaN") == "nan";
  }

  /** What is no number. */
  lemma NoNumbers()
    ensures !IsF64("") && !IsF64(".") && !IsF64("e5") && !IsF64("1_000")
    ensures !IsI64("") && !IsI64("-") && !IsI64("1.")
  {
    hide Lower;
    ShortIsNoWord("");
    ShortIsNoWord(".");
    ShortIsNoWord("e5");
    LongIsNoWord("1_000");
    assert Unsigned("-") == "" && "1."[1] == '.' && "1."[1] in "1.";
    assert TakeDigits("e5") == 0 && "e5"[0..] == "e5";
    DigitsThen("1", "_000");
    assert "1" + "_000" == "1_000" && "1_000"[1..] == "_000";
  }

  lemma ShortIsNoWord(s: string)
    requires |s| < 3
    ensures Lower(s) !in {"inf", "infinity", "nan"}
  {
    assert |"inf"| == 3 && |"infinity"| == 8 && |"nan"| == 3;
  }

  lemma LongIsNoWord(s: string)
    requires |s| == 5
    ensures Lower(s) !in {"inf", "infinity", "nan"}
  {
    assert |"inf"| == 3 && |"infinity"| == 8 && |"nan"| == 3;
  }

  /** Fractions without digits on one side. */
  lemma OpenFractions()
    ensures IsF64("1.") && IsF64(".5")
  {
    hide Lower;
    ShortIsNoWord("1.");
    ShortIsNoWord(".5");
    DigitsThen("1", ".");
    assert "1" + "." == "1." && "1."[1..] == "." && "."[1..] == "" && TakeDigits("") == 0;
    assert TakeDigits(".5") == 0 && ".5"[0..] == ".5" && ".5"[1..] == "5" && TakeDigits("5") == 1;
  }

  // ── Blank cells ─────────────────────────────────────────────────────────

  /** A cell is blank when it has nothing but white space, and then it has no type. */
  lemma BlankExactly(s: string)
    ensures IsBlank(s) <==> forall c <- s :: White(c as int)
    ensures CellType(s).None? <==> forall c <- s :: White(c as int)
  {
    LeftOfBlank(s);
    var t := TrimLeft(s);
    if t != "" {
      RightOfVisible(t);
    } else {
      assert Trim(s) == "";
    }
  }

  lemma {:induction false} LeftOfBlank(s: string)
    ensures TrimLeft(s) == "" <==> forall c <- s :: White(c as int)
  {
    if s != "" {
      LeftOfBlank(s[1..]);
      assert s == [s[0]] + s[1..] && s[0] in s;
      assert forall c <- s[1..] :: c in s;
    }
  }

  lemma {:induction false} RightOfVisible(s: string)
    requires s != "" && !White(s[0] as int)
    ensures TrimRight(s) != ""
  {
    if |s| > 1 && White(s[|s| - 1] as int) {
      RightOfVisible(s[..|s| - 1]);
    }
  }

  // ── Padded cells ────────────────────────────────────────────────────────

  predicate AllWhite(s: string) {
    forall c <- s :: White(c as int)
  }

  lemma {:induction false} LeftIsTrimmed(a: string, s: string)
    requires AllWhite(a)
    ensures TrimLeft(a + s) == TrimLeft(s)
  {
    if a == "" {
      assert a + s == s;
    } else {
      assert a[0] in a && forall c <- a[1..] :: c in a;
      assert (a + s)[0] == a[0] && (a + s)[1..] == a[1..] + s;
      LeftIsTrimmed(a[1..], s);
    }
  }

  lemma {:induction false} RightIsTrimmed(s: string, b: string)
    requires AllWhite(b)
    ensures TrimRight(s + b) == TrimRight(s)
  {
    if b == "" {
      assert s + b == s;
    } else {
      var (front, last) := (b[..|b| - 1], b[|b| - 1]);
      assert last in b && forall c <- front :: c in b;
      assert (s + b)[|s + b| - 1] == last && (s + b)[..|s + b| - 1] == s + front;
      RightIsTrimmed(s, front);
    }
  }

  /** White space around a value does not count, for its kind and for being blank. */
  lemma PaddedCellsReadTheSame(a: string, s: string, b: string)
    requires AllWhite(a) && AllWhite(b) && s != "" && !White(s[0] as int) && !White(s[|s| - 1] as int)
    ensures Trim(a + s + b) == s
    ensures CellType(a + s + b) == CellType(s) == Some(InferType(s))
  {
    hide IsBool, IsI64, IsF64;
    assert a + s + b == a + (s + b);
    LeftIsTrimmed(a, s + b);
    assert (s + b)[0] == s[0];
    RightIsTrimmed(s, b);
  }
}
