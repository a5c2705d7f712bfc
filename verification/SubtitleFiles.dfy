/** Whole subtitle files survive printing and parsing. */
module SubtitleFiles {
  import opened Text
  import opened Subtitles
  import opened SubtitleStamps
  import opened Wrappers

  lemma FirstLine(line: string, rest: string)
    requires OneLine(line)
    ensures SplitLines(line + "\n" + rest) == [line] + SplitLines(rest)
  {
    var s := line + "\n" + rest;
    assert s[|line|] == '\n';
    assert forall i | 0 <= i < |line| :: s[i] == line[i] && s[i] in line;
    assert LineLength(s) == |line|;
    assert s[..|line|] == line && s[|line| + 1..] == rest;
  }

  /** A text whose lines are separated by line feeds only, none of them blank. */
  predicate GoodText(text: string) {
    var ls := SplitLines(text);
    ls != [] && text == Join("\n", ls) && forall l <- ls :: !Blank(l)
  }

  lemma {:induction false} LinesAreOneLine(s: string)
    ensures forall l <- SplitLines(s) :: OneLine(l)
    decreases |s|
  {
    if s != "" {
      var n := LineLength(s);
      if n < |s| {
        var skip := if s[n] == '\r' && n + 1 < |s| && s[n + 1] == '\n' then 2 else 1;
        LinesAreOneLine(s[n + skip..]);
      }
    }
  }

  lemma {:induction false} JoinedLines(ls: seq<string>, rest: string)
    requires ls != [] && forall l <- ls :: OneLine(l)
    ensures SplitLines(Join("\n", ls) + "\n" + rest) == ls + SplitLines(rest)
  {
    hide SplitLines, OneLine;
    assert ls[0] in ls && forall l <- ls[1..] :: l in ls;
    if |ls| == 1 {
      FirstLine(ls[0], rest);
      assert ls == [ls[0]];
    } else {
      var more := Join("\n", ls[1..]);
      JoinedLines(ls[1..], rest);
      FirstLine(ls[0], more + "\n" + rest);
      assert Join("\n", ls) + "\n" + rest == ls[0] + "\n" + (more + "\n" + rest);
      assert [ls[0]] + (ls[1..] + SplitLines(rest)) == ls + SplitLines(rest);
    }
  }

  lemma VisibleIsNotBlank(s: string)
    requires s != "" && IsDigit(s[0]) && IsDigit(s[|s| - 1])
    ensures !Blank(s)
  {
    hide Strip;
    StripKeeps(s);
  }

  lemma DecimalIsVisible(n: nat)
    ensures OneLine(Decimal(n)) && !Blank(Decimal(n))
  {
    hide Decimal, Blank;
    var d := Decimal(n);
    assert d[0] in d && d[|d| - 1] in d;
    VisibleIsNotBlank(d);
  }

  lemma TimeLineIsVisible(c: Cue)
    ensures OneLine(TimeLine(c)) && !Blank(TimeLine(c))
  {
    hide Stamp, Blank, Round;
    var a, b := Ts(c.start), Ts(c.end);
    StampIsVisible(Round(c.start * 1000.0));
    StampIsVisible(Round(c.end * 1000.0));
    var s := TimeLine(c);
    assert s[0] == a[0] && s[|s| - 1] == b[|b| - 1];
    ArrowIsOneLine();
    VisibleIsNotBlank(s);
  }

  lemma ArrowIsOneLine()
    ensures OneLine(ARROW)
  {
  }

  /** The lines of one block. */
  function BlockLines(i: nat, c: Cue): seq<string> {
    [Decimal(i), TimeLine(c)] + SplitLines(c.text)
  }

  lemma BlockSplits(i: nat, c: Cue, rest: string)
    requires GoodText(c.text)
    ensures SplitLines(Block(i, c) + rest) == BlockLines(i, c) + SplitLines(rest)
    ensures forall l <- BlockLines(i, c) :: !Blank(l)
  {
    hide Decimal, TimeLine, SplitLines, Blank, OneLine, Join;
    DecimalIsVisible(i);
    TimeLineIsVisible(c);
    LinesAreOneLine(c.text);
    var ls := SplitLines(c.text);
    JoinedLines(ls, rest);
    FirstLine(TimeLine(c), c.text + "\n" + rest);
    FirstLine(Decimal(i), TimeLine(c) + "\n" + (c.text + "\n" + rest));
    assert Block(i, c) + rest == Decimal(i) + "\n" + (TimeLine(c) + "\n" + (c.text + "\n" + rest));
    assert [Decimal(i)] + ([TimeLine(c)] + (ls + SplitLines(rest))) == [Decimal(i), TimeLine(c)] + ls + SplitLines(rest);
  }

  /** What parsing gives back for a cue. */
  function ReadBack(c: Cue): Cue {
    Cue(Recovered(Round(c.start * 1000.0)), Recovered(Round(c.end * 1000.0)),
        Join(" ", StripAll(SplitLines(c.text))))
  }

  function ReadBackAll(cs: seq<Cue>): seq<Cue> {
    if cs == [] then [] else [ReadBack(cs[0])] + ReadBackAll(cs[1..])
  }

  lemma {:induction false} CollectBlock(lines: seq<string>, block: seq<string>, rest: seq<string>)
    requires forall l <- lines :: !Blank(l)
    ensures ParseFrom(lines + rest, block) == ParseFrom(rest, block + lines)
    decreases |lines|
  {
    hide Blank, BlockCues;
    if lines == [] {
      assert lines + rest == rest && block + lines == block;
    } else {
      assert lines[0] in lines && forall l <- lines[1..] :: l in lines;
      assert (lines + rest)[0] == lines[0] && (lines + rest)[1..] == lines[1..] + rest;
      assert block + [lines[0]] + lines[1..] == block + lines;
      CollectBlock(lines[1..], block + [lines[0]], rest);
    }
  }

  lemma BlockParses(i: nat, c: Cue)
    requires GoodText(c.text)
    ensures BlockCues(BlockLines(i, c)) == Some([ReadBack(c)])
  {
    hide Decimal, Stamp, SplitLines, Blank, Join, FindTimes, Recovered, Round;
    TimeLineParses(Round(c.start * 1000.0), Round(c.end * 1000.0));
    assert BlockLines(i, c)[1] == TimeLine(c) && BlockLines(i, c)[2..] == SplitLines(c.text);
  }

  lemma EmptyIsBlank()
    ensures Blank("")
  {
  }

  lemma OneBlockMore(i: nat, c: Cue, rest: seq<string>)
    requires GoodText(c.text) && forall l <- BlockLines(i, c) :: !Blank(l)
    ensures ParseFrom(BlockLines(i, c) + ([""] + rest), []) == Prefixed([ReadBack(c)], ParseFrom(rest, []))
  {
    hide BlockLines, ReadBack, BlockCues, Blank, GoodText;
    CollectBlock(BlockLines(i, c), [], [""] + rest);
    assert [] + BlockLines(i, c) == BlockLines(i, c);
    BlockParses(i, c);
    EmptyIsBlank();
    assert ([""] + rest)[1..] == rest;
  }

  /** A block and whatever follows it after a blank line. */
  lemma BlockThenRest(i: nat, c: Cue, later: string)
    requires GoodText(c.text)
    ensures ParseSrt(Block(i, c)) == Some([ReadBack(c)])
    ensures ParseSrt(Block(i, c) + "\n" + later) == Prefixed([ReadBack(c)], ParseSrt(later))
  {
    hide BlockLines, ReadBack, Blank, GoodText, Block, SplitLines, ParseFrom;
    var ls := BlockLines(i, c);
    BlockSplits(i, c, "");
    NoLines();
    assert Block(i, c) + "" == Block(i, c);
    assert ls + SplitLines("") + [""] == ls + ([""] + []);
    OneBlockMore(i, c, []);
    BlockSplits(i, c, "\n" + later);
    FirstLine("", later);
    assert "" + "\n" + later == "\n" + later;
    assert Block(i, c) + "\n" + later == Block(i, c) + ("\n" + later);
    assert ls + ([""] + SplitLines(later)) + [""] == ls + ([""] + (SplitLines(later) + [""]));
    OneBlockMore(i, c, SplitLines(later) + [""]);
    assert [ReadBack(c)] + [] == [ReadBack(c)];
  }

  lemma NoLines()
    ensures SplitLines("") == [] && ParseFrom([], []) == Some([])
  {
  }

  lemma EmptyFile()
    ensures ParseSrt("") == Some([])
  {
    NoLines();
    EmptyIsBlank();
    assert SplitLines("") + [""] == [""] && [""][1..] == [];
    PrefixedTwice([], [], Some([]));
  }

  /** Parsing the printed file gives every cue back, in order, as `ReadBack` says. */
  lemma {:induction false} FileParses(i: nat, cs: seq<Cue>)
    requires forall c <- cs :: GoodText(c.text)
    ensures ParseSrt(Join("\n", Blocks(i, cs))) == Some(ReadBackAll(cs))
    decreases cs
  {
    hide ParseSrt, ReadBack, GoodText, Block;
    if cs == [] {
      EmptyFile();
    } else {
      assert cs[0] in cs && forall c <- cs[1..] :: c in cs;
      var bs := Blocks(i, cs);
      assert bs[0] == Block(i, cs[0]) && bs[1..] == Blocks(i + 1, cs[1..]);
      FileParses(i + 1, cs[1..]);
      BlockThenRest(i, cs[0], Join("\n", bs[1..]));
      if |cs| == 1 {
        assert cs[1..] == [] && Blocks(i + 1, cs[1..]) == [];
        assert |bs| == 1 && Join("\n", bs) == bs[0];
        assert ReadBackAll(cs[1..]) == [];
        assert ReadBackAll(cs) == [ReadBack(cs[0])];
      } else {
        assert |bs| >= 2 && Join("\n", bs) == bs[0] + "\n" + Join("\n", bs[1..]);
      }
    }
  }

  // ── When the round trip is exact ────────────────────────────────────────

  /** A visible, trimmed text of one line. */
  predicate TrimmedLine(text: string) {
    text != "" && OneLine(text) && !IsSpace(text[0]) && !IsSpace(text[|text| - 1])
  }

  /** The line is the text with white space around it, and the text is trimmed. */
  ghost predicate IsPadded(line: string, text: string) {
    IsTrimmed(text) && exists a: string, b: string :: AllSpace(a) && AllSpace(b) && line == a + text + b
  }

  /** A block is read alike however its text lines are padded, and the cue has the trimmed lines, joined by blanks. */
  lemma LinesAreTrimmed(head: seq<string>, padded: seq<string>, texts: seq<string>)
    requires |head| == 2 && |padded| == |texts| && forall i | 0 <= i < |texts| :: IsPadded(padded[i], texts[i])
    ensures BlockCues(head + padded) == BlockCues(head + texts)
    ensures var cues := BlockCues(head + padded);
      cues.Some? && cues.value != [] ==> |cues.value| == 1 && cues.value[0].text == Join(" ", texts)
  {
    hide Join, FindTimes, Strip;
    forall i | 0 <= i < |texts| ensures Strip(padded[i]) == texts[i] && Strip(texts[i]) == texts[i] {
      var a: string, b: string :| AllSpace(a) && AllSpace(b) && padded[i] == a + texts[i] + b;
      StripExactly(a, texts[i], b);
      StripExactly("", texts[i], "");
      assert "" + texts[i] + "" == texts[i];
    }
    assert (head + padded)[2..] == padded && (head + texts)[2..] == texts;
    assert StripAll(padded) == texts && StripAll(texts) == texts;
  }

  /** The lines of a written file: the blocks numbered from i, with an empty line between two. */
  function FileLines(i: nat, cs: seq<Cue>): seq<string>
    decreases cs
  {
    if cs == [] then []
    else BlockLines(i, cs[0]) + (if |cs| > 1 then [""] + FileLines(i + 1, cs[1..]) else [])
  }

  /** A reader of lines finds in a written file exactly these: a number, a time line and the text, block by block. */
  lemma {:induction false} FileSplits(i: nat, cs: seq<Cue>)
    requires forall c <- cs :: GoodText(c.text)
    ensures SplitLines(Join("\n", Blocks(i, cs))) == FileLines(i, cs)
    decreases |cs|
  {
    hide BlockLines, GoodText, Block, SplitLines;
    if cs == [] {
      NoLines();
    } else {
      assert cs[0] in cs && forall c <- cs[1..] :: c in cs;
      var (b, more) := (Block(i, cs[0]), Blocks(i + 1, cs[1..]));
      if |cs| == 1 {
        BlockSplits(i, cs[0], "");
        NoLines();
        assert more == [] && Join("\n", [b]) == b && b + "" == b;
        assert BlockLines(i, cs[0]) + [] == BlockLines(i, cs[0]);
      } else {
        var later := Join("\n", more);
        FileSplits(i + 1, cs[1..]);
        BlockSplits(i, cs[0], "\n" + later);
        FirstLine("", later);
        assert "" + "\n" + later == "\n" + later;
        assert Blocks(i, cs)[1..] == more && |more| > 0;
        assert Join("\n", Blocks(i, cs)) == b + "\n" + later == b + ("\n" + later);
      }
    }
  }

  lemma OneLineSplits(text: string)
    requires text != "" && OneLine(text)
    ensures SplitLines(text) == [text]
  {
    assert forall i | 0 <= i < |text| :: text[i] in text;
    assert LineLength(text) == |text|;
  }

  lemma TrimmedLineIsKept(text: string)
    requires TrimmedLine(text)
    ensures GoodText(text) && Join(" ", StripAll(SplitLines(text))) == text
  {
    hide SplitLines, Strip;
    StripKeeps(text);
    OneLineSplits(text);
    assert StripAll([text]) == [text];
  }

  /** The cues the demo writes when it wraps nothing. */
  ghost predicate PlainCue(c: Cue) {
    WholeMs(c.start) && WholeMs(c.end) && TrimmedLine(c.text)
  }

  ghost predicate BelowHundredHours(c: Cue) {
    c.start < 360000.0 && c.end < 360000.0
  }

  lemma CueIsExact(c: Cue)
    requires PlainCue(c)
    ensures GoodText(c.text) && (ReadBack(c) == c <==> BelowHundredHours(c))
  {
    hide Recovered, Round, Join, SplitLines, GoodText;
    TrimmedLineIsKept(c.text);
    TimeIsExact(c.start);
    TimeIsExact(c.end);
  }

  lemma {:induction false} ReadBackIsExact(cs: seq<Cue>)
    requires forall c <- cs :: PlainCue(c)
    ensures ReadBackAll(cs) == cs <==> forall c <- cs :: BelowHundredHours(c)
  {
    hide ReadBack, PlainCue, BelowHundredHours;
    if cs != [] {
      assert cs[0] in cs && forall d <- cs[1..] :: d in cs;
      assert cs == [cs[0]] + cs[1..];
      CueIsExact(cs[0]);
      ReadBackIsExact(cs[1..]);
      assert ReadBackAll(cs)[0] == ReadBack(cs[0]) && ReadBackAll(cs)[1..] == ReadBackAll(cs[1..]);
    }
  }

  /**
    The printer and the parser undo each other: for cues with times in whole milliseconds and
    trimmed one-line texts, the file is read back as the same list exactly when every time is
    below one hundred hours.
   */
  lemma RoundTrip(cs: seq<Cue>)
    requires forall c <- cs :: PlainCue(c)
    ensures ParseSrt(Join("\n", Blocks(1, cs))) == Some(cs) <==> forall c <- cs :: BelowHundredHours(c)
  {
    hide ParseSrt, ReadBackAll, PlainCue, BelowHundredHours, GoodText, Join, Blocks;
    forall c | c in cs ensures GoodText(c.text) {
      CueIsExact(c);
    }
    FileParses(1, cs);
    ReadBackIsExact(cs);
  }
}
