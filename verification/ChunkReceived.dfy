/** A chunked body as the client receives it: made into text first, and decoded then. */
module ChunkReceived {
  import opened ChunkFraming
  import opened ChunkGrammar
  import opened Chunked
  import opened Wrappers

  // ── String::from_utf8_lossy ─────────────────────────────────────────────

  /** U+FFFD in UTF-8. */
  const REPLACEMENT: Bytes := [0xEF, 0xBF, 0xBD]

  /** The second byte is one that a sequence of three or four bytes with this first byte can have. */
  predicate SecondFits(first: Byte, second: Byte) {
    && 0xE0 <= first < 0xF5 && Continuation(second)
    && (first == 0xE0 ==> second >= 0xA0) && (first == 0xED ==> second < 0xA0)
    && (first == 0xF0 ==> second >= 0x90) && (first == 0xF4 ==> second < 0x90)
  }

  /** The length of the malformed sequence at the front: as much of a well-formed one as there is, at least one byte. */
  function BrokenLength(b: Bytes): (n: nat)
    requires b != [] && SequenceLength(b) == 0
    ensures 1 <= n <= |b| && n <= 3
  {
    if |b| < 2 || !SecondFits(b[0], b[1]) then 1
    else if b[0] >= 0xF0 && |b| > 2 && Continuation(b[2]) then 3
    else 2
  }

  /** Every malformed sequence replaced. */
  function Lossy(b: Bytes): Bytes {
    if b == [] then []
    else
      var n := SequenceLength(b);
      if n > 0 then b[..n] + Lossy(b[n..]) else REPLACEMENT + Lossy(b[BrokenLength(b)..])
  }

  /** A sequence at the front does not depend on what follows it. */
  lemma SequenceStays(a: Bytes, b: Bytes)
    requires SequenceLength(a) > 0
    ensures SequenceLength(a + b) == SequenceLength(a) && CodePoint(a + b, SequenceLength(a)) == CodePoint(a, SequenceLength(a))
  {
    var s := a + b;
    assert forall i | 0 <= i < |a| :: s[i] == a[i];
  }

  lemma {:induction false} DecodePrefix(a: Bytes, b: Bytes)
    requires Decode(a).Some?
    ensures Decode(a + b).Some? <==> Decode(b).Some?
    decreases |a|
  {
    if a == [] {
      assert a + b == b;
    } else {
      var n := SequenceLength(a);
      SequenceStays(a, b);
      assert (a + b)[n..] == a[n..] + b;
      DecodePrefix(a[n..], b);
    }
  }

  lemma LossySequence(a: Bytes, b: Bytes)
    requires SequenceLength(a) > 0
    ensures var n := SequenceLength(a); Lossy(a + b) == a[..n] + Lossy(a[n..] + b)
  {
    hide SequenceLength;
    var n := SequenceLength(a);
    SequenceStays(a, b);
    assert (a + b)[n..] == a[n..] + b && (a + b)[..n] == a[..n];
  }

  lemma {:induction false} LossyPrefix(a: Bytes, b: Bytes)
    requires Decode(a).Some?
    ensures Lossy(a + b) == a + Lossy(b)
    decreases |a|
  {
    hide Lossy, SequenceLength;
    if a == [] {
      assert a + b == b && a + Lossy(b) == Lossy(b);
    } else {
      var n := SequenceLength(a);
      LossySequence(a, b);
      LossyPrefix(a[n..], b);
      assert a[..n] + (a[n..] + Lossy(b)) == a + Lossy(b);
    }
  }

  lemma {:induction false} LossyIsText(b: Bytes)
    ensures Decode(Lossy(b)).Some?
    decreases |b|
  {
    if b != [] {
      var n := SequenceLength(b);
      var (front, rest) := if n > 0 then (b[..n], b[n..]) else (REPLACEMENT, b[BrokenLength(b)..]);
      LossyIsText(rest);
      if n > 0 {
        SequenceAlone(b);
      } else {
        ReplacementIsText();
      }
      DecodePrefix(front, Lossy(rest));
    }
  }

  lemma SequenceAlone(b: Bytes)
    requires SequenceLength(b) > 0
    ensures Decode(b[..SequenceLength(b)]).Some?
  {
    var n := SequenceLength(b);
    var a := b[..n];
    assert forall i | 0 <= i < n :: a[i] == b[i];
    assert SequenceLength(a) == n && a[n..] == [];
  }

  lemma ReplacementIsText()
    ensures Decode(REPLACEMENT).Some?
  {
    assert SequenceLength(REPLACEMENT) == 3 && REPLACEMENT[3..] == [];
  }

  /** Well-formed UTF-8 is kept, and nothing else. */
  lemma {:induction false} LossyKeepsExactly(b: Bytes)
    ensures Lossy(b) == b <==> Decode(b).Some?
  {
    LossyIsText(b);
    if Decode(b).Some? {
      LossyPrefix(b, []);
      assert b + [] == b && b + Lossy([]) == b;
    }
  }

  lemma {:induction false} LossyAddsNoCr(b: Bytes)
    requires 13 !in b
    ensures 13 !in Lossy(b)
    decreases |b|
  {
    if b != [] {
      var n := SequenceLength(b);
      LossyAddsNoCr(b[if n > 0 then n else BrokenLength(b)..]);
    }
  }

  /** The first step over bytes that something else ends is the same without it. */
  lemma FirstStep(a: Bytes, b: Bytes) returns (m: nat, front: Bytes)
    requires a != [] && b != [] && !Continuation(b[0])
    ensures 0 < m <= |a|
    ensures Lossy(a) == front + Lossy(a[m..]) && Lossy(a + b) == front + Lossy(a[m..] + b)
  {
    hide SequenceLength, BrokenLength;
    SequenceEnds(a, b);
    var n := SequenceLength(a);
    m := if n > 0 then n else BrokenLength(a);
    front := if n > 0 then a[..n] else REPLACEMENT;
    assert (a + b)[m..] == a[m..] + b && (a + b)[..m] == a[..m];
  }

  /** A byte that continues nothing ends whatever is in front of it. */
  lemma {:induction false} LossySplits(a: Bytes, b: Bytes)
    requires b != [] && !Continuation(b[0])
    ensures Lossy(a + b) == Lossy(a) + Lossy(b)
    decreases |a|
  {
    hide Lossy;
    if a == [] {
      assert a + b == b && Lossy([]) == [] by { NothingIsLost(); }
    } else {
      var m, front := FirstStep(a, b);
      LossySplits(a[m..], b);
      assert front + (Lossy(a[m..]) + Lossy(b)) == front + Lossy(a[m..]) + Lossy(b);
    }
  }

  lemma NothingIsLost()
    ensures Lossy([]) == []
  {
  }

  lemma SequenceEnds(a: Bytes, b: Bytes)
    requires a != [] && b != [] && !Continuation(b[0])
    ensures SequenceLength(a + b) == SequenceLength(a)
    ensures SequenceLength(a) == 0 ==> BrokenLength(a + b) == BrokenLength(a)
  {
    var s := a + b;
    assert forall i | 0 <= i < |a| :: s[i] == a[i];
    assert s[|a|] == b[0];
  }

  // ── Receiving ───────────────────────────────────────────────────────────

  /** The whole response is made into text, its chunked body decoded, and the result made into text again. */
  function Received(body: Bytes): Decoded {
    var d := Decoding(Lossy(body));
    if d.Body? then Body(Lossy(d.bytes)) else d
  }

  /** The end of the header stays where it is, so the body is made into text on its own. */
  lemma BodyIsSplitOff(head: Bytes, body: Bytes)
    ensures Lossy(head + CRLF + CRLF + body) == Lossy(head) + CRLF + CRLF + Lossy(body)
  {
    var end := CRLF + CRLF;
    assert head + CRLF + CRLF + body == head + (end + body);
    LossySplits(head, end + body);
    TextOfAscii(end);
    LossyPrefix(end, body);
    assert Lossy(head) + (end + Lossy(body)) == Lossy(head) + CRLF + CRLF + Lossy(body);
  }

  /** Made into text, a size line of the grammar still is one of the same size, whatever its extension holds. */
  lemma LossyLine(digits: Bytes, ext: Bytes, n: nat, rest: Bytes) returns (line: Bytes)
    requires IsRfcLine(digits, ext, n)
    ensures Lossy(digits + ext + CRLF + rest) == line + CRLF + Lossy(rest)
    ensures !HasCrlf(line) && ParseSize(line) == if n < USIZE then Some(n) else None
    ensures line != [] && line[0] != 13
  {
    hide Decode, Trim, BeforeSemicolon, HexFold, HexValue, HasCrlf, IsChunkExt, Lossy;
    var k := ExtStarts(ext);
    var (front, t) := (digits + ext[..k], ext[k..]);
    assert digits[0] in digits;
    assert Ascii(front) && Ascii(CRLF);
    line := front + Lossy(t);
    LossyFront(front, t, rest);
    assert digits + ext + CRLF + rest == front + (t + (CRLF + rest));
    LossyIsText(t);
    LossyStart(t);
    SizeLineText(digits, ext[..k], Lossy(t));
    HexFoldExactly(digits);
    assert digits + ext[..k] + Lossy(t) == line;
    ExtHasNoCr(ext);
    LossyAddsNoCr(t);
    DigitsHaveNoCrlf(digits, ext[..k] + Lossy(t));
    assert line == digits + (ext[..k] + Lossy(t));
  }

  lemma LossyFront(front: Bytes, t: Bytes, rest: Bytes)
    requires Ascii(front)
    ensures Lossy(front + (t + (CRLF + rest))) == front + Lossy(t) + CRLF + Lossy(rest)
  {
    hide Lossy;
    TextOfAscii(front);
    TextOfAscii(CRLF);
    LossyPrefix(front, t + (CRLF + rest));
    LossySplits(t, CRLF + rest);
    LossyPrefix(CRLF, rest);
    assert front + (Lossy(t) + (CRLF + Lossy(rest))) == front + Lossy(t) + CRLF + Lossy(rest);
  }

  lemma LossyStart(t: Bytes)
    requires t == [] || t[0] == SEMICOLON
    ensures Lossy(t) == [] || Lossy(t)[0] == SEMICOLON
  {
  }

  lemma ExtHasNoCr(ext: Bytes)
    requires IsChunkExt(ext)
    ensures 13 !in ext
  {
    hide PartBytes, IsExtPart;
    var ps: seq<ExtPart> :| (forall p <- ps :: IsExtPart(p)) && PartsBytes(ps) == ext;
    PartsHaveNoCr(ps);
  }

  lemma DigitsHaveNoCrlf(digits: Bytes, rest: Bytes)
    requires IsHex(digits) && 13 !in rest
    ensures !HasCrlf(digits + rest) && (digits + rest) != [] && (digits + rest)[0] != 13
  {
    assert digits[0] in digits;
    forall j: nat ensures !CrlfAt(rest, j) {
    }
    DigitsHaveNoCr(digits, rest);
  }

  // ── Characters cut by the end of a chunk ────────────────────────────────

  /** The part is the beginning of a character that the tail completes. */
  predicate IsCut(part: Bytes, tail: Bytes) {
    part != [] && SequenceLength(part + tail) > |part|
  }

  /** In front of valid text, data is whole characters and perhaps the beginning of one more. */
  lemma {:induction false} WholeCharacters(data: Bytes, tail: Bytes) returns (k: nat)
    requires Decode(data + tail).Some?
    ensures k <= |data| && Decode(data[..k]).Some? && (k < |data| ==> IsCut(data[k..], tail))
    decreases |data|
  {
    if data == [] {
      k := 0;
    } else {
      var n := SequenceLength(data + tail);
      if n > |data| {
        k := 0;
        assert data[0..] == data && data[..0] == [];
      } else {
        FrontSequence(data, tail);
        assert (data + tail)[n..] == data[n..] + tail;
        var inner := WholeCharacters(data[n..], tail);
        k := n + inner;
        assert data[..k] == data[..n] + data[n..][..inner] && data[k..] == data[n..][inner..];
        DecodePrefix(data[..n], data[n..][..inner]);
      }
    }
  }

  lemma FrontSequence(data: Bytes, tail: Bytes)
    requires 0 < SequenceLength(data + tail) <= |data|
    ensures Decode(data[..SequenceLength(data + tail)]).Some?
  {
    var n := SequenceLength(data + tail);
    SequenceAlone(data + tail);
    assert (data + tail)[..n] == data[..n];
  }

  /** A cut character becomes one replacement, of three bytes. */
  lemma CutIsReplaced(part: Bytes, tail: Bytes, after: Bytes)
    requires IsCut(part, tail) && after != [] && !Continuation(after[0])
    ensures |part| <= 3 && (|part| == 3 ==> part[0] >= 0xF0)
    ensures Lossy(part + after) == REPLACEMENT + Lossy(after)
  {
    CutIsBroken(part, tail, after);
    var s := part + after;
    assert s[|part|..] == after;
  }

  lemma CutIsBroken(part: Bytes, tail: Bytes, after: Bytes)
    requires IsCut(part, tail) && after != [] && !Continuation(after[0])
    ensures |part| <= 3 && (|part| == 3 ==> part[0] >= 0xF0)
    ensures var s := part + after; SequenceLength(s) == 0 && BrokenLength(s) == |part|
  {
    var (s, whole) := (part + after, part + tail);
    assert forall i | 0 <= i < |part| :: s[i] == part[i] && whole[i] == part[i];
    assert s[|part|] == after[0];
  }

  // ── A chunk of a text ───────────────────────────────────────────────────

  lemma WholeChunkIsReceived(c: Chunk, rest: Bytes)
    requires IsRfcChunk(c) && Decode(c.data).Some? && !(CRLF <= Lossy(rest))
    ensures Decoding(Lossy(WireChunk(c) + rest))
         == if |c.data| < USIZE then Prepend(c.data, Decoding(Lossy(rest))) else Refused(BadSize)
  {
    hide Decode, Lossy, ParseSize, Decoding, HasCrlf, IsRfcLine;
    var line := LossyLine(c.digits, c.ext, |c.data|, c.data + (CRLF + rest));
    assert WireChunk(c) + rest == c.digits + c.ext + CRLF + (c.data + (CRLF + rest));
    LossyPrefix(c.data, CRLF + rest);
    TextOfAscii(CRLF);
    LossyPrefix(CRLF, rest);
    var after := c.data + (CRLF + Lossy(rest));
    DecodingLine(line, after);
    assert after[..|c.data|] == c.data && after[|c.data|..] == CRLF + Lossy(rest);
    assert SkipCrlf(CRLF + Lossy(rest)) == Lossy(rest);
  }

  /** What is left of a replacement that a size line cut is no size line. */
  lemma LeftoverIsRefused(n: nat, rest: Bytes)
    requires 0 < n < 3
    ensures Decoding(SkipCrlf(REPLACEMENT[n..] + CRLF + rest)) == Refused(BadSize)
  {
    hide Decoding, ParseSize;
    var line := REPLACEMENT[n..];
    assert line[0] in {0xBF, 0xBD} && forall c <- line :: c in {0xBF, 0xBD};
    assert forall j: nat :: !CrlfAt(line, j);
    assert (line + CRLF + rest)[0] == line[0];
    DecodingLine(line, rest);
    assert ParseSize(line).None? by { ContinuationIsNoSize(line); }
  }

  lemma ContinuationIsNoSize(line: Bytes)
    requires line != [] && Continuation(line[0])
    ensures ParseSize(line).None?
  {
    assert SequenceLength(line) == 0;
  }

  /** A chunk that ends inside a character of a text: refused, or another character in its place. */
  lemma CutChunkIsLost(c: Chunk, rest: Bytes, tail: Bytes)
    requires IsRfcChunk(c) && Decode(c.data).None? && Decode(c.data + tail).Some?
    ensures var d := Decoding(Lossy(WireChunk(c) + rest)); d.Body? ==> Lossy(d.bytes) != c.data + tail
  {
    hide Decode, Lossy, ParseSize, Decoding, HasCrlf, IsRfcLine;
    var k := WholeCharacters(c.data, tail);
    assert c.data[..|c.data|] == c.data;
    var (whole, part) := (c.data[..k], c.data[k..]);
    var line := LossyLine(c.digits, c.ext, |c.data|, c.data + (CRLF + rest));
    assert WireChunk(c) + rest == c.digits + c.ext + CRLF + (c.data + (CRLF + rest));
    var after := CutDataIsReplaced(whole, part, tail, rest);
    assert c.data + (CRLF + rest) == whole + (part + (CRLF + rest));
    assert whole + part == c.data;
    DecodingLine(line, after);
    if |c.data| < USIZE {
      CutLost(c.data, whole, part, tail, after, rest);
    }
  }

  lemma CutDataIsReplaced(whole: Bytes, part: Bytes, tail: Bytes, rest: Bytes) returns (after: Bytes)
    requires Decode(whole).Some? && IsCut(part, tail)
    ensures after == whole + REPLACEMENT + CRLF + Lossy(rest)
    ensures Lossy(whole + (part + (CRLF + rest))) == after
    ensures |part| <= 3 && (|part| == 3 ==> part[0] >= 0xF0)
  {
    hide Decode, Lossy, IsCut;
    CutIsReplaced(part, tail, CRLF + rest);
    LossyPrefix(whole, part + (CRLF + rest));
    TextOfAscii(CRLF);
    LossyPrefix(CRLF, rest);
    after := whole + REPLACEMENT + CRLF + Lossy(rest);
    assert whole + (REPLACEMENT + (CRLF + Lossy(rest))) == after;
  }

  lemma CutLost(data: Bytes, whole: Bytes, part: Bytes, tail: Bytes, after: Bytes, rest: Bytes)
    requires data == whole + part && Decode(whole).Some? && part != []
    requires |part| <= 3 && (|part| == 3 ==> part[0] >= 0xF0)
    requires after == whole + REPLACEMENT + CRLF + Lossy(rest)
    ensures var d := AfterLine(Some(|data|), after); d.Body? ==> Lossy(d.bytes) != data + tail
  {
    hide Decode, Lossy, Decoding;
    if |part| < 3 {
      LeftoverIsRefused(|part|, Lossy(rest));
      assert after[|data|..] == REPLACEMENT[|part|..] + CRLF + Lossy(rest);
    } else {
      var more := Decoding(SkipCrlf(after[|data|..]));
      assert after[..|data|] == whole + REPLACEMENT;
      if more.Body? {
        assert whole + REPLACEMENT + more.bytes == whole + (REPLACEMENT + more.bytes);
        LossyPrefix(whole, REPLACEMENT + more.bytes);
        ReplacementIsText();
        LossyPrefix(REPLACEMENT, more.bytes);
        assert (data + tail)[|whole|] == part[0];
        assert (whole + (REPLACEMENT + Lossy(more.bytes)))[|whole|] == 0xEF;
        assert part[0] != 0xEF;
      }
    }
  }

  // ── Whole bodies ────────────────────────────────────────────────────────

  /** Every chunk holds whole characters, and its size fits a machine word. */
  predicate AllWhole(cs: seq<Chunk>) {
    forall c <- cs :: Decode(c.data).Some? && |c.data| < USIZE
  }

  lemma LossyStartsNoCrlf(cs: seq<Chunk>, zeros: Bytes, last: Bytes)
    requires (forall c <- cs :: IsRfcChunk(c)) && IsHex(zeros) && zeros <= last
    ensures !(CRLF <= Lossy(Wire(cs) + last))
  {
    hide Wire, WireChunk, IsRfcChunk;
    var s := Wire(cs) + last;
    StartsWithDigit(cs, zeros, last);
    assert SequenceLength(s) == 1 && Lossy(s)[0] == s[0];
  }

  lemma StartsWithDigit(cs: seq<Chunk>, zeros: Bytes, last: Bytes)
    requires (forall c <- cs :: IsRfcChunk(c)) && IsHex(zeros) && zeros <= last
    ensures var s := Wire(cs) + last; s != [] && HexDigit(s[0]).Some?
  {
    var s := Wire(cs) + last;
    if cs == [] {
      assert s[0] == zeros[0] && zeros[0] in zeros;
    } else {
      assert IsRfcChunk(cs[0]);
      assert s[0] == cs[0].digits[0] && cs[0].digits[0] in cs[0].digits;
    }
  }

  lemma LastIsReceived(zeros: Bytes, ext: Bytes, trailer: Bytes)
    requires IsRfcLine(zeros, ext, 0)
    ensures Decoding(Lossy(zeros + ext + CRLF + trailer)) == Body([])
  {
    hide Lossy, ParseSize, Decoding, HasCrlf, IsRfcLine;
    var line := LossyLine(zeros, ext, 0, trailer);
    DecodingLine(line, Lossy(trailer));
  }

  /** The body of a text as it is decoded: right exactly when every chunk holds whole characters. */
  lemma {:induction false} TextIsDecodedExactly(
      raw: Bytes, cs: seq<Chunk>, zeros: Bytes, ext: Bytes, trailer: Bytes)
    requires IsRfcBody(raw, cs, zeros, ext, trailer) && Decode(Payload(cs)).Some?
    ensures var d := Decoding(Lossy(raw));
      if AllWhole(cs) then d == Body(Payload(cs)) else d.Body? ==> Lossy(d.bytes) != Payload(cs)
    decreases |cs|
  {
    hide Decode, Lossy, Decoding, WireChunk, IsRfcChunk, IsRfcLine, IsTrailer, Wire;
    var last := zeros + ext + CRLF + trailer;
    if cs == [] {
      NoWire(last);
      LastIsReceived(zeros, ext, trailer);
    } else {
      var (c, more) := (cs[0], cs[1..]);
      assert c in cs && forall x <- more :: x in cs;
      var rest := Wire(more) + last;
      WireSplits(cs, last);
      assert cs == [c] + more;
      if Decode(c.data).Some? {
        assert IsHex(zeros) && zeros <= last by { LineIsHex(zeros, ext); }
        LossyStartsNoCrlf(more, zeros, last);
        WholeChunkIsReceived(c, rest);
        DecodePrefix(c.data, Payload(more));
        TextIsDecodedExactly(rest, more, zeros, ext, trailer);
        var d := Decoding(Lossy(rest));
        if d.Body? {
          LossyPrefix(c.data, d.bytes);
          assert (c.data + Lossy(d.bytes))[|c.data|..] == Lossy(d.bytes) && Payload(cs)[|c.data|..] == Payload(more);
        }
      } else {
        CutChunkIsLost(c, rest, Payload(more));
      }
    }
  }

  /**
   * A text sent as a chunked body of the grammar is received intact if and only if every chunk holds whole characters and
   * its size fits a machine word, whatever the extensions and the trailer hold.
   */
  lemma TextIsReceivedExactly(raw: Bytes, cs: seq<Chunk>, zeros: Bytes, ext: Bytes, trailer: Bytes)
    requires IsRfcBody(raw, cs, zeros, ext, trailer) && Decode(Payload(cs)).Some?
    ensures Received(raw) == Body(Payload(cs)) <==> AllWhole(cs)
  {
    hide IsRfcBody, AllWhole, Decoding, Decode, Lossy;
    TextIsDecodedExactly(raw, cs, zeros, ext, trailer);
    LossyKeepsExactly(Payload(cs));
  }

  // ── Bodies that are text ────────────────────────────────────────────────

  lemma {:induction false} DecodeSplits(a: Bytes, b: Bytes)
    requires b != [] && !Continuation(b[0]) && Decode(a + b).Some?
    ensures Decode(a).Some? && Decode(b).Some?
    decreases |a|
  {
    if a == [] {
      assert a + b == b;
    } else {
      SequenceEnds(a, b);
      var n := SequenceLength(a);
      assert (a + b)[n..] == a[n..] + b;
      DecodeSplits(a[n..], b);
    }
  }

  /** A chunk in front of the rest of a text: its line is text, and so is the rest. */
  lemma TextChunk(c: Chunk, rest: Bytes)
    requires c.closed && Decode(WireChunk(c) + rest).Some?
    ensures Decode(c.digits + c.ext).Some? && Decode(rest).Some?
  {
    hide Decode;
    var after := c.data + (CRLF + rest);
    ClosedChunk(c, rest);
    assert (c.digits + c.ext) + CRLF + (c.data + CRLF + rest) == (c.digits + c.ext) + (CRLF + after);
    DecodeSplits(c.digits + c.ext, CRLF + after);
    TextOfAscii(CRLF);
    DecodePrefix(CRLF, after);
    DecodeSplits(c.data, CRLF + rest);
    DecodePrefix(CRLF, rest);
  }

  lemma {:induction false} TextHasTextLines(raw: Bytes, cs: seq<Chunk>, zeros: Bytes, ext: Bytes, trailer: Bytes)
    requires IsRfcBody(raw, cs, zeros, ext, trailer) && Decode(raw).Some?
    ensures (forall c <- cs :: Decode(c.digits + c.ext).Some?) && Decode(zeros + ext).Some?
    decreases |cs|
  {
    hide Decode, IsRfcLine, IsTrailer, Wire, WireChunk;
    var last := zeros + ext + CRLF + trailer;
    if cs == [] {
      NoWire(last);
      assert last == (zeros + ext) + (CRLF + trailer);
      DecodeSplits(zeros + ext, CRLF + trailer);
    } else {
      assert cs[0] in cs && forall x <- cs[1..] :: x in cs;
      var rest := Wire(cs[1..]) + last;
      WireSplits(cs, last);
      TextChunk(cs[0], rest);
      TextHasTextLines(rest, cs[1..], zeros, ext, trailer);
      assert cs == [cs[0]] + cs[1..];
    }
  }

  /** On text, which is all the decoder is given, a body of the grammar decodes to its payload unless a size does not fit. */
  lemma TextBodyIsAcceptedExactly(raw: Bytes, cs: seq<Chunk>, zeros: Bytes, ext: Bytes, trailer: Bytes)
    requires IsRfcBody(raw, cs, zeros, ext, trailer) && Decode(raw).Some?
    ensures Decoding(raw) == if forall c <- cs :: |c.data| < USIZE then Body(Payload(cs)) else Refused(BadSize)
  {
    hide IsRfcBody, Decoding, Decode;
    TextHasTextLines(raw, cs, zeros, ext, trailer);
    RfcBodyDecodesExactly(raw, cs, zeros, ext, trailer);
  }

  // ── A character split between two chunks ────────────────────────────────

  /** The character U+00E9, one byte of it in each of two chunks. */
  const SPLIT: seq<Chunk> := [Chunk([49], [], [0xC3], true), Chunk([49], [], [0xA9], true)]

  function SplitWire(): Bytes {
    Wire(SPLIT) + ([48] + [] + CRLF + CRLF)
  }

  /** A body of the grammar whose payload is text, and which is refused. */
  lemma SplitCharacterIsLost()
    ensures IsRfcFramed(SplitWire()) && Decode(Payload(SPLIT)).Some? && Received(SplitWire()) == Refused(BadSize)
  {
    hide *;
    SplitIsFramed();
    SplitPayload();
    SplitIsRefused();
  }

  lemma SplitIsFramed()
    ensures IsRfcFramed(SplitWire())
  {
    hide IsRfcLine, IsTrailer, Wire, IsRfcChunk, ParseSize, HasCrlf, IsReadable;
    SplitChunks();
    PlainLine(48);
    EndIsTrailer();
    assert IsRfcBody(SplitWire(), SPLIT, [48], [], CRLF);
  }

  lemma SplitChunks()
    ensures forall c <- SPLIT :: IsRfcChunk(c)
  {
    hide IsRfcLine;
    PlainLine(49);
  }

  lemma SplitPayload()
    ensures Decode(Payload(SPLIT)).Some?
  {
    assert Payload(SPLIT) == [0xC3, 0xA9];
    assert SequenceLength([0xC3, 0xA9]) == 2 && [0xC3, 0xA9][2..] == [];
  }

  lemma SplitIsRefused()
    ensures Received(SplitWire()) == Refused(BadSize)
  {
    hide Decoding, Lossy, ParseSize, HasCrlf;
    var part: Bytes, tail: Bytes := [0xC3], [0xA9];
    var rest := Wire(SPLIT[1..]) + ([48] + [] + CRLF + CRLF);
    PlainLine(49);
    var line := LossyLine([49], [], 1, part + (CRLF + rest));
    assert SplitWire() == [49] + [] + CRLF + (part + (CRLF + rest));
    assert SequenceLength(part + tail) == 2;
    assert Decode([]).Some?;
    var after := CutDataIsReplaced([], part, tail, rest);
    assert [] + (part + (CRLF + rest)) == part + (CRLF + rest);
    DecodingLine(line, after);
    LeftoverIsRefused(1, Lossy(rest));
    assert after[1..] == REPLACEMENT[1..] + CRLF + Lossy(rest);
  }
}
