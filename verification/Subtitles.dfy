/** The SRT printer of the video script and the SRT parser of the narration script. */
module Subtitles {
  import opened Text
  import opened Wrappers

  type Seconds = t: real | t >= 0.0

  /** A cue, with times in seconds. */
  datatype Cue = Cue(start: Seconds, end: Seconds, text: string)

  // ── Printing ────────────────────────────────────────────────────────────

  /** Python's `round`: to the nearest integer, halves to the even one. */
  function Round(x: Seconds): nat {
    var low := x.Floor;
    var rest := x - low as real;
    if rest < 0.5 then low else if rest > 0.5 then low + 1 else if low % 2 == 0 then low else low + 1
  }

  /** `f"{n:02d}"` */
  function Pad2(n: nat): string {
    if n < 10 then "0" + Decimal(n) else Decimal(n)
  }

  /** `f"{n:03d}"` */
  function Pad3(n: nat): string {
    if n < 10 then "00" + Decimal(n) else if n < 100 then "0" + Decimal(n) else Decimal(n)
  }

  /** The clock of a number of milliseconds, by three successive divisions. */
  function Stamp(ms: nat): string {
    var r := ms % 3600000;
    var q := r % 60000;
    Pad2(ms / 3600000) + ":" + Pad2(r / 60000) + ":" + Pad2(q / 1000) + "," + Pad3(q % 1000)
  }

  function Ts(sec: Seconds): string {
    Stamp(Round(sec * 1000.0))
  }

  const ARROW := " --> "

  function TimeLine(c: Cue): string {
    Ts(c.start) + ARROW + Ts(c.end)
  }

  function Block(i: nat, c: Cue): string {
    Decimal(i) + "\n" + TimeLine(c) + "\n" + c.text + "\n"
  }

  function Join(sep: string, xs: seq<string>): string {
    if xs == [] then "" else if |xs| == 1 then xs[0] else xs[0] + sep + Join(sep, xs[1..])
  }

  /** The blocks of the cues, numbered from i. */
  function Blocks(i: nat, cs: seq<Cue>): seq<string>
    decreases cs
  {
    if cs == [] then [] else [Block(i, cs[0])] + Blocks(i + 1, cs[1..])
  }

  method WriteSrt(cs: seq<Cue>) returns (file: string)
    ensures file == Join("\n", Blocks(1, cs))
  {
    hide Block, Join;
    var out: seq<string> := [];
    assert cs[0..] == cs && cs[|cs|..] == [];
    for k := 0 to |cs|
      invariant out + Blocks(k + 1, cs[k..]) == Blocks(1, cs)
    {
      assert cs[k..][0] == cs[k] && cs[k..][1..] == cs[k + 1..];
      assert out + ([Block(k + 1, cs[k])] + Blocks(k + 2, cs[k + 1..]))
          == out + [Block(k + 1, cs[k])] + Blocks(k + 2, cs[k + 1..]);
      out := out + [Block(k + 1, cs[k])];
    }
    assert out + [] == out;
    file := Join("\n", out);
  }

  // ── Parsing ─────────────────────────────────────────────────────────────

  /** The characters `str.splitlines` breaks at. */
  predicate IsBreak(c: char) {
    '\U{000A}' <= c <= '\U{000D}' || '\U{001C}' <= c <= '\U{001E}' || c in {'\U{0085}', '\U{2028}', '\U{2029}'}
  }

  /** The length of the first line, without its line break. */
  function LineLength(s: string): (n: nat)
    ensures n <= |s| && (n < |s| ==> IsBreak(s[n])) && forall i | 0 <= i < n :: !IsBreak(s[i])
  {
    if s == "" || IsBreak(s[0]) then 0 else 1 + LineLength(s[1..])
  }

  /** `str.splitlines()`, with carriage return and line feed as one break. */
  function SplitLines(s: string): seq<string>
    decreases |s|
  {
    if s == "" then []
    else
      var n := LineLength(s);
      if n == |s| then [s]
      else
        var skip := if s[n] == '\r' && n + 1 < |s| && s[n + 1] == '\n' then 2 else 1;
        [s[..n]] + SplitLines(s[n + skip..])
  }

  predicate OneLine(s: string) {
    forall c <- s :: !IsBreak(c)
  }

  predicate IsDigit(c: char) {
    '0' <= c <= '9'
  }

  function Val(c: char): nat {
    if IsDigit(c) then (c - '0') as nat else 0
  }

  /** The pattern of a time stamp, two digits thrice and three, matches at i. */
  predicate MatchAt(s: string, i: nat) {
    && i + 12 <= |s|
    && IsDigit(s[i]) && IsDigit(s[i + 1]) && s[i + 2] == ':'
    && IsDigit(s[i + 3]) && IsDigit(s[i + 4]) && s[i + 5] == ':'
    && IsDigit(s[i + 6]) && IsDigit(s[i + 7]) && s[i + 8] == ','
    && IsDigit(s[i + 9]) && IsDigit(s[i + 10]) && IsDigit(s[i + 11])
  }

  /** The seconds of the stamp at i. */
  function SecondsAt(s: string, i: nat): Seconds
    requires MatchAt(s, i)
  {
    var h, m := 10 * Val(s[i]) + Val(s[i + 1]), 10 * Val(s[i + 3]) + Val(s[i + 4]);
    var sec, ms := 10 * Val(s[i + 6]) + Val(s[i + 7]), 100 * Val(s[i + 9]) + 10 * Val(s[i + 10]) + Val(s[i + 11]);
    (h * 3600 + m * 60 + sec) as real + ms as real / 1000.0
  }

  /** `re.finditer`: leftmost matches that do not overlap. */
  function FindTimes(s: string, i: nat): seq<Seconds>
    decreases |s| - i
  {
    if i + 12 > |s| then []
    else if MatchAt(s, i) then [SecondsAt(s, i)] + FindTimes(s, i + 12)
    else FindTimes(s, i + 1)
  }

  function StripAll(xs: seq<string>): seq<string> {
    seq(|xs|, i requires 0 <= i < |xs| => Strip(xs[i]))
  }

  /** A finished block: too short is skipped, fewer than two stamps raise. */
  function BlockCues(block: seq<string>): Option<seq<Cue>> {
    if |block| < 3 then Some([])
    else
      var times := FindTimes(block[1], 0);
      if |times| < 2 then None else Some([Cue(times[0], times[1], Join(" ", StripAll(block[2..])))])
  }

  /** The parser's loop over the lines, with the block collected so far. */
  function ParseFrom(lines: seq<string>, block: seq<string>): Option<seq<Cue>>
    decreases |lines|
  {
    if lines == [] then Some([])
    else if !Blank(lines[0]) then ParseFrom(lines[1..], block + [lines[0]])
    else
      var first := BlockCues(block);
      var rest := ParseFrom(lines[1..], []);
      if first.None? then None else Prefixed(first.value, rest)
  }

  function ParseSrt(file: string): Option<seq<Cue>> {
    ParseFrom(SplitLines(file) + [""], [])
  }

  function Prefixed(cues: seq<Cue>, rest: Option<seq<Cue>>): Option<seq<Cue>> {
    if rest.None? then None else Some(cues + rest.value)
  }

  lemma PrefixedTwice(a: seq<Cue>, b: seq<Cue>, rest: Option<seq<Cue>>)
    ensures Prefixed(a, Prefixed(b, rest)) == Prefixed(a + b, rest)
    ensures Prefixed([], rest) == rest
  {
    if rest.Some? {
      assert a + (b + rest.value) == a + b + rest.value;
      assert [] + rest.value == rest.value;
    }
  }

  /** The parser appends a cue for each block a blank line closes. */
  method ReadSrt(file: string) returns (r: Option<seq<Cue>>)
    ensures r == ParseSrt(file)
  {
    hide SplitLines, Blank, BlockCues;
    var lines := SplitLines(file) + [""];
    var cues: seq<Cue> := [];
    var block: seq<string> := [];
    assert lines[0..] == lines && lines[|lines|..] == [];
    PrefixedTwice([], [], ParseSrt(file));
    for k := 0 to |lines|
      invariant ParseSrt(file) == Prefixed(cues, ParseFrom(lines[k..], block))
    {
      assert lines[k..][0] == lines[k] && lines[k..][1..] == lines[k + 1..];
      if !Blank(lines[k]) {
        block := block + [lines[k]];
      } else {
        var found := ReadBlock(block);
        if found.None? {
          return None;
        }
        PrefixedTwice(cues, found.value, ParseFrom(lines[k + 1..], []));
        cues, block := cues + found.value, [];
      }
    }
    assert cues + [] == cues;
    r := Some(cues);
  }

  method ReadBlock(block: seq<string>) returns (r: Option<seq<Cue>>)
    ensures r == BlockCues(block)
  {
    if |block| < 3 {
      return Some([]);
    }
    var times := FindTimes(block[1], 0);
    if |times| < 2 {
      return None;
    }
    r := Some([Cue(times[0], times[1], Join(" ", StripAll(block[2..])))]);
  }
}
