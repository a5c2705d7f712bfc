/** White space, trimming and decimal numbers. */
module Text {

  /** Unicode white space, as Rust's `char::is_whitespace` has it, by code point. */
  predicate White(c: int) {
    9 <= c <= 13 || c in {0x20, 0x85, 0xA0, 0x1680, 0x2028, 0x2029, 0x202F, 0x205F, 0x3000} || 0x2000 <= c <= 0x200A
  }

  /** Python's `str.isspace` on one character: the four separators 1C to 1F as well. */
  predicate IsSpace(c: char) {
    White(c as int) || '\U{001C}' <= c <= '\U{001F}'
  }

  function StripLeft(s: string): (r: string)
    ensures |r| <= |s| && r == s[|s| - |r|..]
    ensures r != "" ==> !IsSpace(r[0])
  {
    if s != "" && IsSpace(s[0]) then StripLeft(s[1..]) else s
  }

  function StripRight(s: string): (r: string)
    ensures r <= s
    ensures r != "" ==> !IsSpace(r[|r| - 1])
  {
    if s != "" && IsSpace(s[|s| - 1]) then StripRight(s[..|s| - 1]) else s
  }

  /** `str.strip()` */
  function Strip(s: string): string {
    StripRight(StripLeft(s))
  }

  predicate Blank(s: string) {
    Strip(s) == ""
  }

  /** A text that starts and ends with something visible is already trimmed. */
  lemma StripKeeps(s: string)
    ensures s != "" && !IsSpace(s[0]) && !IsSpace(s[|s| - 1]) ==> Strip(s) == s
  {
  }

  predicate AllSpace(s: string) {
    forall c <- s :: IsSpace(c)
  }

  /** Nothing, or a text that starts and ends with something visible. */
  predicate IsTrimmed(s: string) {
    s == "" || (!IsSpace(s[0]) && !IsSpace(s[|s| - 1]))
  }

  lemma {:induction false} LeftIsStripped(a: string, s: string)
    requires AllSpace(a)
    ensures StripLeft(a + s) == StripLeft(s)
  {
    if a == "" {
      assert a + s == s;
    } else {
      assert a[0] in a && forall c <- a[1..] :: c in a;
      assert (a + s)[0] == a[0] && (a + s)[1..] == a[1..] + s;
      LeftIsStripped(a[1..], s);
    }
  }

  lemma {:induction false} RightIsStripped(s: string, b: string)
    requires AllSpace(b)
    ensures StripRight(s + b) == StripRight(s)
  {
    if b == "" {
      assert s + b == s;
    } else {
      var (front, last) := (b[..|b| - 1], b[|b| - 1]);
      assert last in b && forall c <- front :: c in b;
      assert (s + b)[|s + b| - 1] == last && (s + b)[..|s + b| - 1] == s + front;
      RightIsStripped(s, front);
    }
  }

  lemma VisibleStays(s: string)
    ensures s == "" || !IsSpace(s[0]) ==> StripLeft(s) == s
    ensures s == "" || !IsSpace(s[|s| - 1]) ==> StripRight(s) == s
  {
  }

  /** Trimming takes the white space off both ends, all of it and nothing else. */
  lemma StripExactly(a: string, s: string, b: string)
    requires AllSpace(a) && AllSpace(b) && IsTrimmed(s)
    ensures Strip(a + s + b) == s
  {
    hide StripLeft, StripRight, IsSpace;
    assert a + s + b == a + (s + b);
    LeftIsStripped(a, s + b);
    VisibleStays(s);
    if s == "" {
      assert s + b == b && b + "" == b;
      LeftIsStripped(b, "");
    } else {
      assert (s + b)[0] == s[0];
      VisibleStays(s + b);
      RightIsStripped(s, b);
    }
  }

  // ── Decimal numbers ─────────────────────────────────────────────────────

  /** The decimal digits of a non-negative integer, without leading zeros. */
  function Decimal(n: nat): (s: string)
    ensures |s| >= 1 && forall c <- s :: '0' <= c <= '9'
    ensures |s| == 1 <==> n < 10
  {
    var digit := ['0' + (n % 10) as char];
    if n < 10 then digit else Decimal(n / 10) + digit
  }

  lemma {:induction false} DecimalInjective(m: nat, n: nat)
    requires Decimal(m) == Decimal(n)
    ensures m == n
  {
    var s := Decimal(m);
    assert s[|s| - 1] == '0' + (m % 10) as char == '0' + (n % 10) as char;
    assert m % 10 == n % 10;
    if m >= 10 {
      assert Decimal(m / 10) == s[..|s| - 1] == Decimal(n / 10);
      DecimalInjective(m / 10, n / 10);
    }
  }
}
