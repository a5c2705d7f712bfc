/** The grammar of a chunked body in section 7.1 of RFC 9112, and what the decoder makes of the bodies it describes. */
module ChunkGrammar {
  import opened Chunked
  import opened ChunkFraming
  import opened Wrappers

  // ── Tokens and quoted strings (sections 5.6.2 and 5.6.4 of RFC 9110) ────

  const QUOTE := 34
  const EQUALS := 61
  const BACKSLASH := 92
  const COLON := 58

  predicate TokenChar(c: Byte) {
    || 48 <= c <= 57 || 65 <= c <= 90 || 97 <= c <= 122
    || c in {33, 35, 36, 37, 38, 39, 42, 43, 45, 46, 94, 95, 96, 124, 126}
  }

  predicate IsToken(b: Bytes) {
    b != [] && forall c <- b :: TokenChar(c)
  }

  /** HTAB, SP, a visible character or obs-text. */
  predicate TextChar(c: Byte) {
    c == 9 || (32 <= c && c != 127)
  }

  predicate IsQuotedText(b: Bytes) {
    if b == [] then true
    else if b[0] == BACKSLASH then |b| > 1 && TextChar(b[1]) && IsQuotedText(b[2..])
    else TextChar(b[0]) && b[0] != QUOTE && IsQuotedText(b[1..])
  }

  predicate IsQuotedString(b: Bytes) {
    |b| >= 2 && b[0] == QUOTE && b[|b| - 1] == QUOTE && IsQuotedText(b[1..|b| - 1])
  }

  // ── Size lines ──────────────────────────────────────────────────────────

  /** What an extension may have after its name: an equals sign between blanks, and a value. */
  datatype ExtValue = ExtValue(before: Bytes, after: Bytes, text: Bytes)

  /** One chunk extension: a semicolon between blanks, a name, and perhaps a value. */
  datatype ExtPart = ExtPart(before: Bytes, after: Bytes, name: Bytes, value: Option<ExtValue>)

  predicate IsExtValue(v: ExtValue) {
    Blanks(v.before) && Blanks(v.after) && (IsToken(v.text) || IsQuotedString(v.text))
  }

  predicate IsExtPart(p: ExtPart) {
    Blanks(p.before) && Blanks(p.after) && IsToken(p.name) && (p.value.Some? ==> IsExtValue(p.value.value))
  }

  function ValueBytes(v: ExtValue): Bytes {
    v.before + [EQUALS] + v.after + v.text
  }

  function PartBytes(p: ExtPart): Bytes {
    p.before + [SEMICOLON] + p.after + p.name + if p.value.Some? then ValueBytes(p.value.value) else []
  }

  function PartsBytes(ps: seq<ExtPart>): Bytes {
    if ps == [] then [] else PartBytes(ps[0]) + PartsBytes(ps[1..])
  }

  ghost predicate IsChunkExt(ext: Bytes) {
    exists ps: seq<ExtPart> :: (forall p <- ps :: IsExtPart(p)) && PartsBytes(ps) == ext
  }

  /** `chunk-size [ chunk-ext ]`; for the last chunk the size is zero. */
  ghost predicate IsRfcLine(digits: Bytes, ext: Bytes, n: nat) {
    IsHex(digits) && HexValue(digits) == n && IsChunkExt(ext)
  }

  /** What the decoder asks of such a line: valid UTF-8, and a size that fits a machine word. */
  predicate IsReadable(line: Bytes, n: nat) {
    Decode(line).Some? && n < USIZE
  }

  // ── Bodies ──────────────────────────────────────────────────────────────

  /** `field-name ":" OWS field-value OWS` */
  ghost predicate IsFieldLine(b: Bytes) {
    exists k | 0 <= k < |b| :: IsToken(b[..k]) && b[k] == COLON && forall c <- b[k + 1..] :: TextChar(c)
  }

  /** Field lines, each ended by CRLF, then the CRLF that ends the body. */
  ghost predicate IsTrailer(t: Bytes)
    decreases |t|
  {
    t == CRLF ||
    exists n | 0 <= n && n + 2 <= |t| :: IsFieldLine(t[..n]) && t[n..n + 2] == CRLF && IsTrailer(t[n + 2..])
  }

  ghost predicate IsRfcChunk(c: Chunk) {
    c.data != [] && c.closed && IsRfcLine(c.digits, c.ext, |c.data|)
  }

  /** Chunks, a last chunk, a trailer section and a CRLF. */
  ghost predicate IsRfcBody(raw: Bytes, cs: seq<Chunk>, zeros: Bytes, ext: Bytes, trailer: Bytes) {
    && (forall c <- cs :: IsRfcChunk(c))
    && IsRfcLine(zeros, ext, 0)
    && IsTrailer(trailer)
    && raw == Wire(cs) + (zeros + ext + CRLF + trailer)
  }

  ghost predicate IsRfcFramed(raw: Bytes) {
    exists cs, zeros, ext, trailer :: IsRfcBody(raw, cs, zeros, ext, trailer)
  }

  // ── How the decoder reads a size line of the grammar ────────────────────

  lemma {:induction false} QuotedTextHasNoCr(b: Bytes)
    requires IsQuotedText(b)
    ensures 13 !in b
  {
    if b != [] && b[0] == BACKSLASH {
      QuotedTextHasNoCr(b[2..]);
      assert b == [b[0], b[1]] + b[2..];
    } else if b != [] {
      QuotedTextHasNoCr(b[1..]);
      assert b == [b[0]] + b[1..];
    }
  }

  lemma QuotedStringHasNoCr(b: Bytes)
    requires IsQuotedString(b)
    ensures 13 !in b
  {
    QuotedTextHasNoCr(b[1..|b| - 1]);
    assert b == [QUOTE] + b[1..|b| - 1] + [QUOTE];
  }

  lemma PartHasNoCr(p: ExtPart)
    requires IsExtPart(p)
    ensures 13 !in PartBytes(p)
  {
    hide IsQuotedString;
    if p.value.Some? && IsQuotedString(p.value.value.text) {
      QuotedStringHasNoCr(p.value.value.text);
    }
  }

  lemma {:induction false} PartsHaveNoCr(ps: seq<ExtPart>)
    requires forall p <- ps :: IsExtPart(p)
    ensures 13 !in PartsBytes(ps)
  {
    hide PartBytes, IsExtPart;
    if ps != [] {
      assert ps[0] in ps && forall p <- ps[1..] :: p in ps;
      PartHasNoCr(ps[0]);
      PartsHaveNoCr(ps[1..]);
    }
  }

  /** An extension is blanks and then nothing or a semicolon, and has no CRLF. */
  lemma ExtStarts(ext: Bytes) returns (k: nat)
    requires IsChunkExt(ext)
    ensures k <= |ext| && Blanks(ext[..k]) && (k == |ext| || ext[k] == SEMICOLON)
    ensures !HasCrlf(ext)
  {
    hide IsToken, IsExtValue;
    var ps: seq<ExtPart> :| (forall p <- ps :: IsExtPart(p)) && PartsBytes(ps) == ext;
    PartsHaveNoCr(ps);
    forall j: nat ensures !CrlfAt(ext, j) {
    }
    if ps == [] {
      k := 0;
    } else {
      assert ps[0] in ps;
      k := |ps[0].before|;
      assert ext[..k] == ps[0].before;
    }
  }

  /** A size line of the grammar is read as its size if it is readable, and refused otherwise. */
  lemma RfcLineReadsExactly(digits: Bytes, ext: Bytes, n: nat)
    requires IsRfcLine(digits, ext, n)
    ensures ParseSize(digits + ext) == if IsReadable(digits + ext, n) then Some(n) else None
    ensures !HasCrlf(digits + ext)
  {
    hide Decode, Trim, BeforeSemicolon, HexFold, HexValue, HasCrlf, IsChunkExt;
    var k := ExtStarts(ext);
    DigitsHaveNoCr(digits, ext);
    var (w, t) := (ext[..k], ext[k..]);
    assert digits + ext == digits + w + t;
    assert digits[0] in digits;
    HexFoldExactly(digits);
    if Decode(digits + ext).Some? {
      assert forall c <- digits + w :: c < 0x80;
      DecodeAscii(digits + w, t);
      SizeLineText(digits, w, t);
    }
  }

  // ── What the decoder makes of a body of the grammar ─────────────────────

  /** Every size line of the body is readable. */
  predicate AllReadable(cs: seq<Chunk>, zeros: Bytes, ext: Bytes) {
    (forall c <- cs :: IsReadable(c.digits + c.ext, |c.data|)) && IsReadable(zeros + ext, 0)
  }

  /** A line, its CRLF and the rest, decoded. */
  lemma DecodingLine(line: Bytes, rest: Bytes)
    requires !HasCrlf(line)
    ensures Decoding(line + CRLF + rest) == AfterLine(ParseSize(line), rest)
  {
    hide ParseSize, HasCrlf, FindSubslice;
    var raw := line + CRLF + rest;
    LineEnds(line, rest);
    DecodingStep(raw);
    assert raw[..|line|] == line && raw[|line| + 2..] == rest;
  }

  lemma RfcStartsNoCrlf(cs: seq<Chunk>, zeros: Bytes, last: Bytes)
    requires (forall c <- cs :: IsRfcChunk(c)) && IsHex(zeros) && zeros <= last
    ensures !(CRLF <= Wire(cs) + last)
  {
    var s := Wire(cs) + last;
    if cs == [] {
      assert s[0] == zeros[0] && zeros[0] in zeros;
    } else {
      assert IsRfcChunk(cs[0]);
      assert s[0] == cs[0].digits[0] && cs[0].digits[0] in cs[0].digits;
    }
  }

  lemma NoWire(last: Bytes)
    ensures Wire([]) + last == last
  {
  }

  lemma WireSplits(cs: seq<Chunk>, last: Bytes)
    requires cs != []
    ensures Wire(cs) + last == WireChunk(cs[0]) + (Wire(cs[1..]) + last)
  {
    hide WireChunk;
  }

  lemma ClosedChunk(c: Chunk, rest: Bytes)
    requires c.closed
    ensures WireChunk(c) + rest == (c.digits + c.ext) + CRLF + (c.data + CRLF + rest)
  {
  }

  /** One chunk of the grammar in front of bytes that do not start with a CRLF. */
  lemma DecodingRfcChunk(c: Chunk, rest: Bytes)
    requires IsRfcChunk(c) && !(CRLF <= rest)
    ensures Decoding(WireChunk(c) + rest)
         == if IsReadable(c.digits + c.ext, |c.data|) then Prepend(c.data, Decoding(rest)) else Refused(BadSize)
  {
    hide ParseSize, Decoding, HasCrlf, IsReadable, IsRfcLine;
    RfcLineReadsExactly(c.digits, c.ext, |c.data|);
    ClosedChunk(c, rest);
    var after := c.data + CRLF + rest;
    DecodingLine(c.digits + c.ext, after);
    assert after[..|c.data|] == c.data && after[|c.data|..] == CRLF + rest;
    assert SkipCrlf(CRLF + rest) == rest;
  }

  /**
   * A body of the grammar decodes to its payload if every size line is valid UTF-8 and fits a machine word, and is refused
   * for its size line otherwise.
   */
  lemma {:induction false} RfcBodyDecodesExactly(raw: Bytes, cs: seq<Chunk>, zeros: Bytes, ext: Bytes, trailer: Bytes)
    requires IsRfcBody(raw, cs, zeros, ext, trailer)
    ensures Decoding(raw) == if AllReadable(cs, zeros, ext) then Body(Payload(cs)) else Refused(BadSize)
    decreases |cs|
  {
    hide Decoding, WireChunk, IsRfcChunk, IsRfcLine, IsReadable, IsTrailer, Wire;
    var last := zeros + ext + CRLF + trailer;
    if cs == [] {
      NoWire(last);
      RfcLineReadsExactly(zeros, ext, 0);
      DecodingLine(zeros + ext, trailer);
    } else {
      assert cs[0] in cs && forall c <- cs[1..] :: c in cs;
      var rest := Wire(cs[1..]) + last;
      WireSplits(cs, last);
      assert IsHex(zeros) && zeros <= last by { LineIsHex(zeros, ext); }
      RfcStartsNoCrlf(cs[1..], zeros, last);
      DecodingRfcChunk(cs[0], rest);
      RfcBodyDecodesExactly(rest, cs[1..], zeros, ext, trailer);
      assert cs == [cs[0]] + cs[1..];
    }
  }

  lemma LineIsHex(zeros: Bytes, ext: Bytes)
    ensures IsRfcLine(zeros, ext, 0) ==> IsHex(zeros)
  {
  }

  // ── Which accepted inputs are of the grammar ────────────────────────────

  ghost predicate IsGrammarLine(line: Bytes, n: nat) {
    exists k | 0 <= k <= |line| :: IsRfcLine(line[..k], line[k..], n)
  }

  /** What the decoder does not look at: the spelling of each line, the CRLF after each chunk, and the trailer. */
  ghost predicate IsClean(raw: Bytes)
    decreases |raw|
  {
    var p := FindSubslice(raw, CRLF);
    p.Some? &&
    var (line, rest) := (raw[..p.value], raw[p.value + 2..]);
    var size := ParseSize(line);
    size.Some? && IsGrammarLine(line, size.value) && IsCleanAfter(size.value, rest)
  }

  ghost predicate IsCleanAfter(size: nat, rest: Bytes)
    decreases |rest|
  {
    if size == 0 then IsTrailer(rest)
    else size + 2 <= |rest| && rest[size..size + 2] == CRLF && IsClean(rest[size + 2..])
  }

  lemma RfcLineIsGrammarLine(digits: Bytes, ext: Bytes, n: nat)
    requires IsRfcLine(digits, ext, n)
    ensures IsGrammarLine(digits + ext, n)
  {
    var line := digits + ext;
    assert line[..|digits|] == digits && line[|digits|..] == ext;
  }

  /** The first step of `IsClean` on a readable line and what follows it. */
  lemma CleanLine(line: Bytes, n: nat, rest: Bytes)
    requires !HasCrlf(line) && ParseSize(line) == Some(n)
    ensures IsClean(line + CRLF + rest) <==> IsGrammarLine(line, n) && IsCleanAfter(n, rest)
  {
    hide ParseSize, IsGrammarLine, IsCleanAfter, FindFrom, FindSubslice, HasCrlf;
    var raw := line + CRLF + rest;
    LineEnds(line, rest);
    assert raw[..|line|] == line && raw[|line| + 2..] == rest;
  }

  lemma {:induction false} RfcBodyIsClean(raw: Bytes, cs: seq<Chunk>, zeros: Bytes, ext: Bytes, trailer: Bytes)
    requires IsRfcBody(raw, cs, zeros, ext, trailer) && AllReadable(cs, zeros, ext)
    ensures IsClean(raw)
    decreases |cs|
  {
    hide IsClean, IsRfcLine, IsGrammarLine, IsTrailer, Wire, WireChunk, IsReadable, ParseSize, HasCrlf;
    var last := zeros + ext + CRLF + trailer;
    if cs == [] {
      NoWire(last);
      RfcLineReadsExactly(zeros, ext, 0);
      RfcLineIsGrammarLine(zeros, ext, 0);
      CleanLine(zeros + ext, 0, trailer);
    } else {
      var c, rest := cs[0], Wire(cs[1..]) + last;
      assert c in cs && forall x <- cs[1..] :: x in cs;
      WireSplits(cs, last);
      ClosedChunk(c, rest);
      RfcLineReadsExactly(c.digits, c.ext, |c.data|);
      RfcLineIsGrammarLine(c.digits, c.ext, |c.data|);
      var after := c.data + CRLF + rest;
      CleanLine(c.digits + c.ext, |c.data|, after);
      assert after[|c.data|..|c.data| + 2] == CRLF && after[|c.data| + 2..] == rest;
      RfcBodyIsClean(rest, cs[1..], zeros, ext, trailer);
    }
  }

  lemma CleanStep(raw: Bytes)
    requires IsClean(raw)
    ensures var p := FindSubslice(raw, CRLF);
      p.Some? &&
      var (line, rest) := (raw[..p.value], raw[p.value + 2..]);
      var size := ParseSize(line);
      size.Some? && IsGrammarLine(line, size.value) && IsCleanAfter(size.value, rest)
  {
    hide ParseSize, IsGrammarLine, IsCleanAfter, FindFrom, FindSubslice;
  }

  lemma {:induction false} CleanIsRfcBody(raw: Bytes) returns (cs: seq<Chunk>, zeros: Bytes, ext: Bytes, trailer: Bytes)
    requires IsClean(raw)
    ensures IsRfcBody(raw, cs, zeros, ext, trailer) && AllReadable(cs, zeros, ext)
    decreases |raw|
  {
    hide ParseSize, IsRfcLine, IsTrailer, IsClean, FindSubslice, HasCrlf, Wire, WireChunk, IsReadable;
    CleanStep(raw);
    FirstLine(raw);
    var n := FindSubslice(raw, CRLF).value;
    var line, rest := raw[..n], raw[n + 2..];
    var size := ParseSize(line).value;
    var k :| 0 <= k <= |line| && IsRfcLine(line[..k], line[k..], size);
    assert line == line[..k] + line[k..];
    RfcLineReadsExactly(line[..k], line[k..], size);
    if size == 0 {
      cs, zeros, ext, trailer := [], line[..k], line[k..], rest;
      NoWire(zeros + ext + CRLF + trailer);
    } else {
      var inner;
      inner, zeros, ext, trailer := CleanIsRfcBody(rest[size + 2..]);
      var c := Chunk(line[..k], line[k..], rest[..size], true);
      cs := [c] + inner;
      assert rest == c.data + CRLF + rest[size + 2..];
      ClosedChunk(c, rest[size + 2..]);
      WireSplits(cs, zeros + ext + CRLF + trailer);
      assert cs[1..] == inner;
    }
  }

  /** An accepted input is a body of the grammar exactly when it also has what the decoder does not look at. */
  lemma RfcFramedExactly(raw: Bytes)
    ensures IsRfcFramed(raw) && Decoding(raw).Body? <==> IsClean(raw)
  {
    hide IsRfcBody, IsClean, AllReadable, Decoding;
    if IsClean(raw) {
      var cs, zeros, ext, trailer := CleanIsRfcBody(raw);
      RfcBodyDecodesExactly(raw, cs, zeros, ext, trailer);
    }
    if IsRfcFramed(raw) && Decoding(raw).Body? {
      var cs, zeros, ext, trailer :| IsRfcBody(raw, cs, zeros, ext, trailer);
      RfcBodyDecodesExactly(raw, cs, zeros, ext, trailer);
      RfcBodyIsClean(raw, cs, zeros, ext, trailer);
    }
  }

  // ── Accepted, though not of the grammar ─────────────────────────────────

  /** `1 CRLF A 0 CRLF CRLF`: one chunk, with no CRLF after its data. */
  const UNCLOSED: Bytes := [49, 13, 10, 65, 48, 13, 10, 13, 10]

  /** `1 CRLF A CRLF 0 CRLF`: nothing ends the trailer section. */
  const UNENDED: Bytes := [49, 13, 10, 65, 13, 10, 48, 13, 10]

  /** `1; CRLF A CRLF 0 CRLF CRLF`: an extension without a name. */
  const NAMELESS: Bytes := [49, 59, 13, 10, 65, 13, 10, 48, 13, 10, 13, 10]

  lemma PlainLine(digit: Byte)
    requires digit in {48, 49}
    ensures IsRfcLine([digit], [], digit - 48) && IsReadable([digit], digit - 48)
    ensures ParseSize([digit]) == Some(digit - 48) && !HasCrlf([digit])
  {
    hide ParseSize, HasCrlf;
    var line: Bytes := [digit];
    var none: Bytes := [];
    assert PartsBytes([]) == none;
    assert IsChunkExt(none);
    assert line[..0] == none && HexValue(none) == 0 && HexValue(line) == digit - 48;
    DecodeAscii(line, none);
    assert line + none == line;
    RfcLineReadsExactly(line, none, digit - 48);
  }

  lemma LastChunkDecodes(trailer: Bytes)
    ensures Decoding([48] + CRLF + trailer) == Body([])
  {
    hide Decoding, ParseSize;
    PlainLine(48);
    DecodingLine([48], trailer);
  }

  lemma UnclosedIsAccepted()
    ensures Decoding(UNCLOSED) == Body([65]) && !IsRfcFramed(UNCLOSED)
  {
    hide Decoding, IsClean, IsRfcFramed, IsGrammarLine, ParseSize;
    PlainLine(49);
    var rest: Bytes := [65, 48, 13, 10, 13, 10];
    assert UNCLOSED == [49] + CRLF + rest;
    DecodingLine([49], rest);
    assert rest[1..] == [48] + CRLF + CRLF && rest[..1] == [65];
    assert rest[1..][0] == 48 && SkipCrlf(rest[1..]) == rest[1..];
    LastChunkDecodes(CRLF);
    assert rest[1..3][0] == 48;
    CleanLine([49], 1, rest);
    RfcFramedExactly(UNCLOSED);
  }

  lemma UnendedIsAccepted()
    ensures Decoding(UNENDED) == Body([65]) && !IsRfcFramed(UNENDED)
  {
    hide Decoding, IsClean, IsRfcFramed, IsGrammarLine, ParseSize;
    PlainLine(49);
    PlainLine(48);
    var rest: Bytes := [65, 13, 10, 48, 13, 10];
    assert UNENDED == [49] + CRLF + rest;
    DecodingLine([49], rest);
    assert rest[1..] == CRLF + ([48] + CRLF + []) && rest[..1] == [65];
    assert SkipCrlf(rest[1..]) == [48] + CRLF + [];
    LastChunkDecodes([]);
    assert rest[1..3] == CRLF && rest[3..] == [48] + CRLF + [];
    CleanLine([49], 1, rest);
    CleanLine([48], 0, []);
    NothingIsNoTrailer();
    RfcFramedExactly(UNENDED);
  }

  lemma NothingIsNoTrailer()
    ensures !IsTrailer([])
  {
  }

  lemma NamelessIsAccepted()
    ensures Decoding(NAMELESS) == Body([65]) && !IsRfcFramed(NAMELESS)
  {
    hide Decoding, IsClean, IsRfcFramed, IsGrammarLine, ParseSize, HasCrlf;
    BareSemicolon();
    var rest: Bytes := [65, 13, 10, 48, 13, 10, 13, 10];
    assert NAMELESS == [49, 59] + CRLF + rest;
    DecodingLine([49, 59], rest);
    assert rest[1..] == CRLF + ([48] + CRLF + CRLF) && rest[..1] == [65];
    assert SkipCrlf(rest[1..]) == [48] + CRLF + CRLF;
    LastChunkDecodes(CRLF);
    CleanLine([49, 59], 1, rest);
    RfcFramedExactly(NAMELESS);
  }

  /** The line `1;` reads as one, and is none of the grammar's. */
  lemma BareSemicolon()
    ensures var line: Bytes := [49, 59];
      ParseSize(line) == Some(1) && !HasCrlf(line) && forall n :: !IsGrammarLine(line, n)
  {
    hide ParseSize, IsChunkExt, Decode;
    var line: Bytes, none: Bytes := [49, 59], [];
    PlainLine(49);
    var tail: Bytes := [59];
    assert tail[..0] == none && tail[0..] == tail && Decode(tail).Some? by { TextOfAscii(tail); }
    assert forall j: nat :: !CrlfAt(line, j) && !CrlfAt(tail, j);
    assert IsExtension(tail);
    assert HexValue([49]) == 1 && line == [49] + tail;
    SizeLineParses([49], tail, 1);
    forall n ensures !IsGrammarLine(line, n) {
      forall k | 0 <= k <= |line| ensures !IsRfcLine(line[..k], line[k..], n) {
        if k == 2 {
          assert line[..2][1] == 59 && line[..2][1] in line[..2];
        } else if k == 1 {
          assert line[1..] == tail;
          NamelessIsNoExtension();
        }
      }
    }
  }

  lemma TextOfAscii(a: Bytes)
    requires Ascii(a)
    ensures Decode(a).Some?
  {
    DecodeAscii(a, []);
    assert a + [] == a;
  }

  lemma NamelessIsNoExtension()
    ensures !IsChunkExt([59])
  {
    forall ps: seq<ExtPart> | forall p <- ps :: IsExtPart(p) ensures PartsBytes(ps) != [59] {
      if ps != [] {
        assert ps[0] in ps && |PartBytes(ps[0])| >= 2;
      }
    }
  }

  lemma EndIsTrailer()
    ensures IsTrailer(CRLF)
  {
  }
}
