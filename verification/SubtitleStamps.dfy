/** Time stamps survive printing and matching, modulo one hundred hours. */
module SubtitleStamps {
  import opened Text
  import opened Words
  import opened Subtitles

  function Digit(n: nat): char
    requires n < 10
  {
    '0' + n as char
  }

  function TwoDigits(n: nat): string
    requires n < 100
  {
    [Digit(n / 10), Digit(n % 10)]
  }

  function ThreeDigits(n: nat): string
    requires n < 1000
  {
    [Digit(n / 100), Digit(n / 10 % 10), Digit(n % 10)]
  }

  lemma DigitIsRead(n: nat)
    ensures n < 10 ==> IsDigit(Digit(n)) && Val(Digit(n)) == n
  {
  }

  lemma DecimalSplits(n: nat)
    ensures Decimal(n) == if n < 10 then [Digit(n)] else Decimal(n / 10) + [Digit(n % 10)]
  {
  }

  lemma TensAndUnits(n: nat)
    ensures n % 100 / 10 == n / 10 % 10 && n % 100 % 10 == n % 10 && n / 10 / 10 == n / 100
  {
    var (h, t, u) := (n / 10 / 10, n / 10 % 10, n % 10);
    assert n == 100 * h + 10 * t + u;
    assert n / 100 == h && n % 100 == 10 * t + u;
  }

  lemma SmallPads(n: nat)
    ensures n < 100 ==> Pad2(n) == TwoDigits(n)
    ensures n < 1000 ==> Pad3(n) == ThreeDigits(n)
  {
    hide Decimal;
    DecimalSplits(n);
    DecimalSplits(n / 10);
    DecimalSplits(n / 10 / 10);
    TensAndUnits(n);
  }

  /** Hours of any size end in their last two digits. */
  lemma HoursEnd(n: nat) returns (front: string)
    ensures Pad2(n) == front + TwoDigits(n % 100) && (forall c <- front :: IsDigit(c))
  {
    hide Decimal;
    if n < 100 {
      SmallPads(n);
      front := "";
    } else {
      DecimalSplits(n);
      DecimalSplits(n / 10);
      TensAndUnits(n);
      front := Decimal(n / 10 / 10);
      assert front + TwoDigits(n % 100) == front + [Digit(n / 10 % 10)] + [Digit(n % 10)];
    }
  }

  const WRAP: nat := 360_000_000

  /** What the parser recovers of a stamp: the time modulo one hundred hours. */
  function Recovered(ms: nat): Seconds {
    (ms % WRAP) as real / 1000.0
  }

  /** The twelve characters of a stamp of less than one hundred hours. */
  function Clock(h: nat, m: nat, sec: nat, u: nat): string
    requires h < 100 && m < 100 && sec < 100 && u < 1000
  {
    TwoDigits(h) + ":" + TwoDigits(m) + ":" + TwoDigits(sec) + "," + ThreeDigits(u)
  }

  function ClockSeconds(h: nat, m: nat, sec: nat, u: nat): Seconds {
    (h * 3600 + m * 60 + sec) as real + u as real / 1000.0
  }

  /** A stamp is some more hour digits, then the clock of the time modulo one hundred hours. */
  lemma StampSplits(ms: nat) returns (front: string, h: nat, m: nat, sec: nat, u: nat)
    ensures h < 100 && m < 60 && sec < 60 && u < 1000
    ensures Stamp(ms) == front + Clock(h, m, sec, u) && (forall c <- front :: IsDigit(c))
    ensures ClockSeconds(h, m, sec, u) == Recovered(ms)
  {
    hide Pad2, Pad3, TwoDigits, ThreeDigits;
    var r := ms % 3600000;
    var q := r % 60000;
    h, m, sec, u := ms / 3600000 % 100, r / 60000, q / 1000, q % 1000;
    front := HoursEnd(ms / 3600000);
    SmallPads(m);
    SmallPads(sec);
    SmallPads(u);
    QuotientUnique(ms, WRAP, ms / 3600000 / 100, h * 3600000 + m * 60000 + sec * 1000 + u);
    assert Stamp(ms) == front + Clock(h, m, sec, u);
  }

  lemma ClockCharacters(h: nat, m: nat, sec: nat, u: nat)
    requires h < 100 && m < 60 && sec < 60 && u < 1000
    ensures Clock(h, m, sec, u) ==
      [Digit(h / 10), Digit(h % 10), ':', Digit(m / 10), Digit(m % 10), ':',
       Digit(sec / 10), Digit(sec % 10), ',', Digit(u / 100), Digit(u / 10 % 10), Digit(u % 10)]
  {
    hide Digit;
  }

  lemma PairIsRead(n: nat)
    requires n < 100
    ensures IsDigit(Digit(n / 10)) && IsDigit(Digit(n % 10)) && 10 * Val(Digit(n / 10)) + Val(Digit(n % 10)) == n
  {
    DigitIsRead(n / 10);
    DigitIsRead(n % 10);
  }

  lemma TripleIsRead(n: nat)
    requires n < 1000
    ensures IsDigit(Digit(n / 100)) && IsDigit(Digit(n / 10 % 10)) && IsDigit(Digit(n % 10))
    ensures 100 * Val(Digit(n / 100)) + 10 * Val(Digit(n / 10 % 10)) + Val(Digit(n % 10)) == n
  {
    hide Digit, IsDigit, Val;
    DigitIsRead(n / 100);
    DigitIsRead(n / 10 % 10);
    DigitIsRead(n % 10);
  }

  lemma ClockMatches(s: string, at: nat, h: nat, m: nat, sec: nat, u: nat)
    requires h < 100 && m < 60 && sec < 60 && u < 1000 && at + 12 <= |s|
    requires s[at..at + 12] == Clock(h, m, sec, u)
    ensures MatchAt(s, at) && SecondsAt(s, at) == ClockSeconds(h, m, sec, u)
  {
    hide Digit, IsDigit, Val, Clock, Decimal;
    ClockCharacters(h, m, sec, u);
    var w := s[at..at + 12];
    assert s[at] == w[0] && s[at + 1] == w[1] && s[at + 2] == w[2] && s[at + 3] == w[3];
    assert s[at + 4] == w[4] && s[at + 5] == w[5] && s[at + 6] == w[6] && s[at + 7] == w[7];
    assert s[at + 8] == w[8] && s[at + 9] == w[9] && s[at + 10] == w[10] && s[at + 11] == w[11];
    PairIsRead(h);
    PairIsRead(m);
    PairIsRead(sec);
    TripleIsRead(u);
  }

  lemma ColonNeeded(s: string, i: nat)
    ensures i + 2 < |s| && IsDigit(s[i + 2]) ==> !MatchAt(s, i)
  {
  }

  /** The stamp written after `pre` matches at its last two hour digits, and nowhere before them. */
  lemma StampMatches(pre: string, ms: nat, post: string)
    ensures var s := pre + Stamp(ms) + post;
      var at := |pre| + |Stamp(ms)| - 12;
      && |Stamp(ms)| >= 12 && MatchAt(s, at) && SecondsAt(s, at) == Recovered(ms)
      && forall i | |pre| <= i < at :: !MatchAt(s, i)
  {
    hide Stamp, MatchAt, SecondsAt, ClockSeconds, Recovered;
    var front, h, m, sec, u := StampSplits(ms);
    var s := pre + Stamp(ms) + post;
    var at := |pre| + |front|;
    assert s == pre + front + Clock(h, m, sec, u) + post;
    assert s[at..at + 12] == Clock(h, m, sec, u);
    ClockMatches(s, at, h, m, sec, u);
    DigitIsRead(h / 10);
    DigitIsRead(h % 10);
    forall i | |pre| <= i < at ensures !MatchAt(s, i) {
      if i + 2 < at {
        assert s[i + 2] == front[i + 2 - |pre|];
        assert front[i + 2 - |pre|] in front;
      } else {
        assert s[i + 2] == Clock(h, m, sec, u)[i + 2 - at];
      }
      ColonNeeded(s, i);
    }
  }

  lemma {:induction false} SkipTo(s: string, i: nat, j: nat)
    requires i <= j <= |s| && forall k | i <= k < j :: !MatchAt(s, k)
    ensures FindTimes(s, i) == FindTimes(s, j)
    decreases j - i
  {
    if i < j {
      SkipTo(s, i + 1, j);
    }
  }

  lemma FoundAt(s: string, i: nat, j: nat, t: Seconds)
    requires i <= j && j + 12 <= |s| && MatchAt(s, j) && SecondsAt(s, j) == t
    requires forall k | i <= k < j :: !MatchAt(s, k)
    ensures FindTimes(s, i) == [t] + FindTimes(s, j + 12)
  {
    SkipTo(s, i, j);
  }

  lemma ArrowIsNoDigit(s: string, k: nat)
    ensures k < |s| && s[k] in ARROW ==> !MatchAt(s, k)
  {
  }

  lemma TimeLineParses(a: nat, b: nat)
    ensures FindTimes(Stamp(a) + ARROW + Stamp(b), 0) == [Recovered(a), Recovered(b)]
  {
    hide Stamp, MatchAt, SecondsAt, Recovered;
    var s := Stamp(a) + ARROW + Stamp(b);
    var pre := Stamp(a) + ARROW;
    StampMatches("", a, ARROW + Stamp(b));
    StampMatches(pre, b, "");
    assert s == "" + Stamp(a) + (ARROW + Stamp(b)) && s == pre + Stamp(b) + "";
    var x, y := |Stamp(a)| - 12, |pre| + |Stamp(b)| - 12;
    FoundAt(s, 0, x, Recovered(a));
    forall k | x + 12 <= k < y ensures !MatchAt(s, k) {
      if k < |pre| {
        assert s[k] == ARROW[k - |Stamp(a)|];
        ArrowIsNoDigit(s, k);
      }
    }
    FoundAt(s, x + 12, y, Recovered(b));
    assert FindTimes(s, y + 12) == [];
  }

  lemma StampIsVisible(ms: nat)
    ensures OneLine(Stamp(ms)) && Stamp(ms) != "" && IsDigit(Stamp(ms)[0]) && IsDigit(Stamp(ms)[|Stamp(ms)| - 1])
  {
    hide Stamp, ClockSeconds, Recovered;
    var front, h, m, sec, u := StampSplits(ms);
    assert front != "" ==> front[0] in front;
    ClockIsVisible(h, m, sec, u);
  }

  lemma ClockIsVisible(h: nat, m: nat, sec: nat, u: nat)
    requires h < 100 && m < 60 && sec < 60 && u < 1000
    ensures OneLine(Clock(h, m, sec, u)) && |Clock(h, m, sec, u)| == 12
    ensures IsDigit(Clock(h, m, sec, u)[0]) && IsDigit(Clock(h, m, sec, u)[11])
  {
  }

  /** A whole number of milliseconds. */
  ghost predicate WholeMs(t: Seconds) {
    (t * 1000.0).Floor as real == t * 1000.0
  }

  /** A time in whole milliseconds is read back exactly when it is below one hundred hours. */
  lemma TimeIsExact(t: Seconds)
    requires WholeMs(t)
    ensures Recovered(Round(t * 1000.0)) == t <==> t < 360000.0
  {
    var ms := Round(t * 1000.0);
    assert ms as real == t * 1000.0;
    if ms < WRAP {
      QuotientUnique(ms, WRAP, 0, ms);
    }
  }

  /** Rounding goes to the nearest whole number, from half-way to the even one. */
  lemma RoundIsNearest(x: Seconds)
    ensures Round(x) as real - 0.5 <= x <= Round(x) as real + 0.5
    ensures x == Round(x) as real - 0.5 || x == Round(x) as real + 0.5 ==> Round(x) % 2 == 0
  {
  }

  /** Any time that prints below one hundred hours is read back to the nearest millisecond. */
  lemma TimeIsNearest(t: Seconds)
    requires Round(t * 1000.0) < WRAP
    ensures t - 0.0005 <= Recovered(Round(t * 1000.0)) <= t + 0.0005
  {
    hide Round;
    var ms := Round(t * 1000.0);
    RoundIsNearest(t * 1000.0);
    QuotientUnique(ms, WRAP, 0, ms);
    assert Recovered(ms) * 1000.0 == ms as real;
  }

  lemma SomePads()
    ensures Pad2(0) == "00" && Pad2(1) == "01" && Pad2(2) == "02" && Pad2(100) == "100"
    ensures Pad3(0) == "000" && Pad3(62) == "062" && Pad3(250) == "250" && Pad3(500) == "500"
  {
    hide Decimal;
    SmallPads(0);
    SmallPads(1);
    SmallPads(2);
    SmallPads(62);
    SmallPads(250);
    SmallPads(500);
    DecimalSplits(100);
    DecimalSplits(10);
    DecimalSplits(1);
  }

  /** Stamps as they look in a file. */
  lemma StampsInPrint()
    ensures Ts(3661.5) == "01:01:01,500" && Ts(0.0625) == "00:00:00,062" && Ts(360000.0) == "100:00:00,000"
  {
    hide Pad2, Pad3;
    SomePads();
    assert Round(3661500.0) == 3661500 && Round(62.5) == 62 && Round(360000000.0) == 360000000;
  }
}
