/** Decoding an HTTP/1.1 chunked body (section 7.1 of RFC 9112), on bytes. */
module Chunked {
  import opened Text
  import opened Wrappers

  type Byte = b: int | 0 <= b < 256

  type Bytes = seq<Byte>

  datatype Error = Malformed | BadSize | Truncated

  datatype Decoded = Body(bytes: Bytes) | Refused(error: Error)

  const CRLF: Bytes := [13, 10]
  const SEMICOLON := 59
  const USIZE: nat := 0x1_0000_0000_0000_0000

  // ── find_subslice ───────────────────────────────────────────────────────

  predicate WindowIs(h: Bytes, needle: Bytes, i: nat) {
    i + |needle| <= |h| && h[i..i + |needle|] == needle
  }

  /** The first window equal to the needle, if any. */
  function FindFrom(h: Bytes, needle: Bytes, i: nat): (p: Option<nat>)
    requires needle != []
    ensures p.Some? ==> i <= p.value && WindowIs(h, needle, p.value)
    ensures p.Some? ==> forall j | i <= j < p.value :: !WindowIs(h, needle, j)
    ensures p.None? ==> forall j | i <= j :: !WindowIs(h, needle, j)
    decreases |h| - i
  {
    if i + |needle| > |h| then None
    else if WindowIs(h, needle, i) then Some(i)
    else FindFrom(h, needle, i + 1)
  }

  function FindSubslice(h: Bytes, needle: Bytes): Option<nat>
    requires needle != []
  {
    FindFrom(h, needle, 0)
  }

  // ── The size line ───────────────────────────────────────────────────────

  predicate Continuation(b: Byte) {
    0x80 <= b < 0xC0
  }

  /** The length of the UTF-8 sequence at the front, or 0 when it is malformed. */
  function SequenceLength(b: Bytes): (n: nat)
    ensures n <= |b| && n <= 4
  {
    if b == [] then 0
    else if b[0] < 0x80 then 1
    else if |b| < 2 || !Continuation(b[1]) then 0
    else if 0xC2 <= b[0] < 0xE0 then 2
    else if |b| < 3 || !Continuation(b[2]) then 0
    else if 0xE0 <= b[0] < 0xF0 then
      if (b[0] == 0xE0 && b[1] < 0xA0) || (b[0] == 0xED && b[1] >= 0xA0) then 0 else 3
    else if |b| < 4 || !Continuation(b[3]) then 0
    else if 0xF0 <= b[0] < 0xF5 then
      if (b[0] == 0xF0 && b[1] < 0x90) || (b[0] == 0xF4 && b[1] >= 0x90) then 0 else 4
    else 0
  }

  function CodePoint(b: Bytes, n: nat): nat
    requires 1 <= n <= |b| && n <= 4
  {
    var x: int := b[0];
    var y: int := if n > 1 then b[1] % 64 else 0;
    var z: int := if n > 2 then b[2] % 64 else 0;
    match n
    case 1 => x
    case 2 => x % 32 * 64 + y
    case 3 => (x % 16 * 64 + y) * 64 + z
    case _ => ((x % 8 * 64 + y) * 64 + z) * 64 + b[3] % 64
  }

  /** `str::from_utf8`, as code points. */
  function Decode(b: Bytes): Option<seq<nat>> {
    if b == [] then Some([])
    else
      var n := SequenceLength(b);
      if n == 0 then None
      else
        var rest := Decode(b[n..]);
        if rest.None? then None else Some([CodePoint(b, n)] + rest.value)
  }

  function TrimLeft(s: seq<nat>): seq<nat> {
    if s != [] && White(s[0]) then TrimLeft(s[1..]) else s
  }

  function TrimRight(s: seq<nat>): (r: seq<nat>)
    ensures r <= s
    ensures forall i | |r| <= i < |s| :: White(s[i])
    ensures r != [] ==> !White(r[|r| - 1])
  {
    if s != [] && White(s[|s| - 1]) then TrimRight(s[..|s| - 1]) else s
  }

  function Trim(s: seq<nat>): seq<nat> {
    TrimRight(TrimLeft(s))
  }

  /** `split(';').next()` */
  function BeforeSemicolon(s: seq<nat>): (r: seq<nat>)
    ensures r <= s && SEMICOLON !in r && (r == s || s[|r|] == SEMICOLON)
  {
    if s == [] || s[0] == SEMICOLON then []
    else
      var r := BeforeSemicolon(s[1..]);
      assert s == [s[0]] + s[1..];
      [s[0]] + r
  }

  function HexDigit(c: nat): Option<nat> {
    if 48 <= c <= 57 then Some(c - 48)
    else if 65 <= c <= 70 then Some(c - 55)
    else if 97 <= c <= 102 then Some(c - 87)
    else None
  }

  /** The checked multiply-and-add of `from_str_radix`: overflow of the machine word is an error. */
  function HexFold(acc: nat, s: seq<nat>): Option<nat>
    decreases |s|
  {
    if s == [] then Some(acc)
    else
      var d := HexDigit(s[0]);
      if d.None? || acc * 16 + d.value >= USIZE then None else HexFold(acc * 16 + d.value, s[1..])
  }

  /** `usize::from_str_radix(s, 16)`, which also takes a leading plus sign. */
  function FromHex(s: seq<nat>): Option<nat> {
    var digits := if |s| > 1 && s[0] == 43 then s[1..] else s;
    if digits == [] then None else HexFold(0, digits)
  }

  function ParseSize(line: Bytes): Option<nat> {
    var text := Decode(line);
    if text.None? then None else FromHex(Trim(BeforeSemicolon(Trim(text.value))))
  }

  // ── dechunk ─────────────────────────────────────────────────────────────

  function SkipCrlf(rest: Bytes): Bytes {
    if CRLF <= rest then rest[2..] else rest
  }

  function Prepend(data: Bytes, d: Decoded): Decoded {
    if d.Body? then Body(data + d.bytes) else d
  }

  /** The decoder as a function of the remaining bytes. */
  function Decoding(raw: Bytes): Decoded
    decreases |raw|
  {
    var p := FindSubslice(raw, CRLF);
    if p.None? then Refused(Malformed)
    else
      var size := ParseSize(raw[..p.value]);
      var rest := raw[p.value + 2..];
      if size.None? then Refused(BadSize)
      else if size.value == 0 then Body([])
      else if |rest| < size.value then Refused(Truncated)
      else Prepend(rest[..size.value], Decoding(SkipCrlf(rest[size.value..])))
  }

  method Dechunk(raw: Bytes) returns (d: Decoded)
    ensures d == Decoding(raw)
  {
    var out: Bytes := [];
    var rest := raw;
    assert Decoding(raw) == Prepend([], Decoding(raw));
    while true
      invariant Decoding(raw) == Prepend(out, Decoding(rest))
      decreases |rest|
    {
      var pos := FindSubslice(rest, CRLF);
      if pos.None? {
        return Refused(Malformed);
      }
      var size := ParseSize(rest[..pos.value]);
      if size.None? {
        return Refused(BadSize);
      }
      ghost var before := rest;
      rest := rest[pos.value + 2..];
      if size.value == 0 {
        return Body(out + []);
      }
      if |rest| < size.value {
        return Refused(Truncated);
      }
      PrependTwice(out, rest[..size.value], Decoding(SkipCrlf(rest[size.value..])));
      out := out + rest[..size.value];
      rest := SkipCrlf(rest[size.value..]);
    }
  }

  lemma PrependTwice(a: Bytes, b: Bytes, d: Decoded)
    ensures Prepend(a, Prepend(b, d)) == Prepend(a + b, d)
  {
    if d.Body? {
      assert a + (b + d.bytes) == a + b + d.bytes;
    }
  }

  // ── The wire format ─────────────────────────────────────────────────────

  /** One chunk as sent: hex digits, an extension, the data, and (by the RFC, always) a closing CRLF. */
  datatype Chunk = Chunk(digits: Bytes, ext: Bytes, data: Bytes, closed: bool)

  function HexValue(digits: Bytes): nat {
    if digits == [] then 0
    else
      var d := HexDigit(digits[|digits| - 1]);
      HexValue(digits[..|digits| - 1]) * 16 + if d.Some? then d.value else 0
  }

  predicate IsHex(digits: Bytes) {
    digits != [] && forall c <- digits :: HexDigit(c).Some?
  }

  predicate CrlfAt(b: Bytes, i: nat) {
    i + 1 < |b| && b[i] == 13 && b[i + 1] == 10
  }

  ghost predicate HasCrlf(b: Bytes) {
    exists i: nat :: CrlfAt(b, i)
  }

  lemma WindowIsCrlf(b: Bytes, i: nat)
    ensures WindowIs(b, CRLF, i) <==> CrlfAt(b, i)
  {
    if i + 2 <= |b| {
      assert |b[i..i + 2]| == 2 && b[i..i + 2][0] == b[i] && b[i..i + 2][1] == b[i + 1];
    }
  }

  /** The search finds the first CRLF, and none exactly when there is none. */
  lemma FirstCrlf(b: Bytes, i: nat)
    requires CrlfAt(b, i) && forall j: nat | j < i :: !CrlfAt(b, j)
    ensures FindSubslice(b, CRLF) == Some(i)
  {
    forall j: nat ensures WindowIs(b, CRLF, j) <==> CrlfAt(b, j) {
      WindowIsCrlf(b, j);
    }
  }

  lemma NoCrlf(b: Bytes)
    requires !HasCrlf(b)
    ensures FindSubslice(b, CRLF).None?
  {
    forall j: nat ensures WindowIs(b, CRLF, j) <==> CrlfAt(b, j) {
      WindowIsCrlf(b, j);
    }
  }

  predicate Blanks(b: Bytes) {
    forall c <- b :: c == 32 || c == 9
  }

  /** Optional blanks, then nothing or a semicolon and any valid UTF-8 without CRLF. */
  ghost predicate IsExtension(ext: Bytes) {
    !HasCrlf(ext) &&
    exists k :: 0 <= k <= |ext| && Blanks(ext[..k]) && Decode(ext[k..]).Some?
                && (k == |ext| || ext[k] == SEMICOLON)
  }

  /** A line the sender writes for a chunk of n bytes. */
  ghost predicate IsSizeLine(digits: Bytes, ext: Bytes, n: nat) {
    IsHex(digits) && HexValue(digits) == n < USIZE && IsExtension(ext)
  }

  ghost predicate IsChunk(c: Chunk) {
    c.data != [] && IsSizeLine(c.digits, c.ext, |c.data|)
  }

  function WireChunk(c: Chunk): Bytes {
    c.digits + c.ext + CRLF + c.data + if c.closed then CRLF else []
  }

  function Wire(cs: seq<Chunk>): Bytes {
    if cs == [] then [] else WireChunk(cs[0]) + Wire(cs[1..])
  }

  function Payload(cs: seq<Chunk>): Bytes {
    if cs == [] then [] else cs[0].data + Payload(cs[1..])
  }

  // ── The size line is read back ──────────────────────────────────────────

  predicate Ascii(b: Bytes) {
    forall c <- b :: c < 0x80
  }

  lemma {:induction false} DecodeAscii(a: Bytes, b: Bytes)
    requires Ascii(a)
    ensures Decode(a + b) == if Decode(b).None? then None else Some(a + Decode(b).value)
  {
    if a == [] {
      assert a + b == b;
      if Decode(b).Some? {
        assert a + Decode(b).value == Decode(b).value;
      }
    } else {
      assert a[0] in a;
      assert forall c <- a[1..] :: c in a;
      assert (a + b)[1..] == a[1..] + b;
      DecodeAscii(a[1..], b);
      assert SequenceLength(a + b) == 1 && CodePoint(a + b, 1) == a[0];
      if Decode(b).Some? {
        assert [a[0]] + (a[1..] + Decode(b).value) == a + Decode(b).value;
      }
    }
  }

  lemma {:induction false} DecodeAsciiFirst(b: Bytes)
    requires b != [] && b[0] < 0x80 && Decode(b).Some?
    ensures Decode(b).value != [] && Decode(b).value[0] == b[0]
  {
    assert SequenceLength(b) == 1;
  }

  lemma {:induction false} HexFoldSplits(acc: nat, s: seq<nat>, c: nat)
    ensures HexFold(acc, s + [c]) == if HexFold(acc, s).Some? then HexFold(HexFold(acc, s).value, [c]) else None
    decreases |s|
  {
    if s == [] {
      assert s + [c] == [c];
    } else {
      assert (s + [c])[0] == s[0] && (s + [c])[1..] == s[1..] + [c];
      if HexDigit(s[0]).Some? && acc * 16 + HexDigit(s[0]).value < USIZE {
        HexFoldSplits(acc * 16 + HexDigit(s[0]).value, s[1..], c);
      }
    }
  }

  /** The checked fold of a hex number overflows exactly when the number does not fit. */
  lemma {:induction false} HexFoldExactly(digits: Bytes)
    requires forall c <- digits :: HexDigit(c).Some?
    ensures HexFold(0, digits) == if HexValue(digits) < USIZE then Some(HexValue(digits)) else None
  {
    if digits != [] {
      var front, last := digits[..|digits| - 1], digits[|digits| - 1];
      assert digits == front + [last] && last in digits;
      HexFoldExactly(front);
      HexFoldSplits(0, front, last);
      assert [last][1..] == [];
    }
  }

  lemma TrimRightKeeps(s: seq<nat>, i: nat)
    ensures i < |s| && !White(s[i]) ==> |TrimRight(s)| > i
  {
  }

  lemma TrimDigits(d: seq<nat>, w: seq<nat>)
    requires d != [] && (forall c <- d :: !White(c)) && forall c <- w :: White(c)
    ensures Trim(d + w) == d
  {
    var s := d + w;
    assert s[0] == d[0];
    TrimRightKeeps(s, |d| - 1);
    assert forall i | |d| <= i < |s| :: s[i] in w && White(s[i]);
    assert s[..|d|] == d;
  }

  /** Digits, blanks and then nothing or a semicolon reduce to the digits. */
  lemma SizeField(d: seq<nat>, w: seq<nat>, t: seq<nat>)
    requires d != [] && (forall c <- d :: !White(c) && c != SEMICOLON)
    requires forall c <- w :: White(c) && c != SEMICOLON
    requires t == [] || t[0] == SEMICOLON
    ensures Trim(BeforeSemicolon(Trim(d + w + t))) == d
  {
    var s := d + w + t;
    assert s[0] == d[0];
    assert TrimLeft(s) == s;
    if t == [] {
      assert s == d + w;
      TrimDigits(d, w);
      TrimDigits(d, []);
      assert d + [] == d;
      NoSemicolon(d);
    } else {
      TrimRightKeeps(s, |d + w|);
      var r := TrimRight(s);
      assert r[..|d + w|] == d + w && r[|d + w|] == SEMICOLON;
      SemicolonAt(r, |d + w|);
      TrimDigits(d, w);
    }
  }

  lemma NoSemicolon(s: seq<nat>)
    requires SEMICOLON !in s
    ensures BeforeSemicolon(s) == s
  {
    assert forall i | 0 <= i < |s| :: s[i] != SEMICOLON;
  }

  lemma SemicolonAt(s: seq<nat>, i: nat)
    requires i < |s| && s[i] == SEMICOLON && SEMICOLON !in s[..i]
    ensures BeforeSemicolon(s) == s[..i]
  {
    assert forall j | 0 <= j < i :: s[j] == s[..i][j] && s[j] != SEMICOLON;
    var r := BeforeSemicolon(s);
    assert forall j | 0 <= j < |r| :: s[j] == r[j] && s[j] != SEMICOLON;
  }

  lemma SizeLineText(digits: Bytes, w: Bytes, t: Bytes)
    requires IsHex(digits) && Blanks(w) && Decode(t).Some? && (t == [] || t[0] == SEMICOLON)
    ensures Decode(digits + w + t).Some?
    ensures Trim(BeforeSemicolon(Trim(Decode(digits + w + t).value))) == digits
  {
    assert forall c <- digits + w :: c < 0x80;
    DecodeAscii(digits + w, t);
    if t != [] {
      DecodeAsciiFirst(t);
    }
    SizeField(digits, w, Decode(t).value);
  }

  lemma HexDigitsParse(digits: Bytes)
    requires IsHex(digits) && HexValue(digits) < USIZE
    ensures FromHex(digits) == Some(HexValue(digits))
  {
    assert digits[0] in digits;
    HexFoldExactly(digits);
  }

  lemma SizeLineParses(digits: Bytes, ext: Bytes, n: nat)
    requires IsSizeLine(digits, ext, n)
    ensures ParseSize(digits + ext) == Some(n)
  {
    hide Decode, Trim, BeforeSemicolon, FromHex, HexValue, HasCrlf;
    var k :| 0 <= k <= |ext| && Blanks(ext[..k]) && Decode(ext[k..]).Some? && (k == |ext| || ext[k] == SEMICOLON);
    assert digits + ext == digits + ext[..k] + ext[k..];
    SizeLineText(digits, ext[..k], ext[k..]);
    HexDigitsParse(digits);
  }

  /** A line without CRLF ends at the CRLF that follows it. */
  lemma LineEnds(line: Bytes, rest: Bytes)
    requires !HasCrlf(line)
    ensures FindSubslice(line + CRLF + rest, CRLF) == Some(|line|)
  {
    var s := line + CRLF + rest;
    assert CrlfAt(s, |line|);
    forall j: nat | j < |line| ensures !CrlfAt(s, j) {
      assert !CrlfAt(line, j);
    }
    FirstCrlf(s, |line|);
  }

  /** Neither has any shorter piece of it a CRLF. */
  lemma NoCrlfInPrefix(line: Bytes, m: nat)
    requires !HasCrlf(line) && m <= |line| + 1
    ensures !HasCrlf((line + CRLF)[..m])
  {
    forall j: nat ensures !CrlfAt((line + CRLF)[..m], j) {
      assert !CrlfAt(line, j);
    }
  }

  lemma DigitsHaveNoCr(digits: Bytes, ext: Bytes)
    requires IsHex(digits) && !HasCrlf(ext)
    ensures !HasCrlf(digits + ext)
  {
    forall j | 0 <= j < |digits| ensures digits[j] != 13 {
      assert digits[j] in digits;
    }
    forall j: nat ensures !CrlfAt(digits + ext, j) {
      if j >= |digits| {
        assert !CrlfAt(ext, j - |digits|);
      }
    }
  }

  // ── Round trip ──────────────────────────────────────────────────────────

  /** A readable size line, its CRLF and that many bytes are one turn of the decoder. */
  lemma PieceDecodes(line: Bytes, data: Bytes, after: Bytes)
    requires !HasCrlf(line) && ParseSize(line) == Some(|data|) && data != []
    ensures Decoding(line + CRLF + (data + after)) == Prepend(data, Decoding(SkipCrlf(after)))
  {
    hide ParseSize, FindSubslice, HasCrlf, SkipCrlf, Prepend;
    var raw := line + CRLF + (data + after);
    LineEnds(line, data + after);
    assert raw[..|line|] == line;
    assert raw[|line| + 2..] == data + after;
    assert (data + after)[..|data|] == data;
    assert (data + after)[|data|..] == after;
  }

  lemma WireParts(c: Chunk, rest: Bytes)
    ensures WireChunk(c) + rest == c.digits + c.ext + CRLF + (c.data + ((if c.closed then CRLF else []) + rest))
  {
  }

  lemma ClosingIsSkipped(c: Chunk, rest: Bytes)
    requires c.closed || !(CRLF <= rest)
    ensures SkipCrlf((if c.closed then CRLF else []) + rest) == rest
  {
    if c.closed {
      assert CRLF <= CRLF + rest && (CRLF + rest)[2..] == rest;
    } else {
      assert [] + rest == rest;
    }
  }

  lemma DecodingChunk(c: Chunk, rest: Bytes)
    requires IsChunk(c) && (c.closed || !(CRLF <= rest))
    ensures Decoding(WireChunk(c) + rest) == Prepend(c.data, Decoding(rest))
  {
    hide ParseSize, HasCrlf, SkipCrlf, Prepend, Decoding, WireChunk;
    DigitsHaveNoCr(c.digits, c.ext);
    SizeLineParses(c.digits, c.ext, |c.data|);
    WireParts(c, rest);
    ClosingIsSkipped(c, rest);
    PieceDecodes(c.digits + c.ext, c.data, (if c.closed then CRLF else []) + rest);
  }

  /** The bytes after a chunk never start with CRLF when they are another size line, cut or not. */
  lemma NextLineIsNoCrlf(cs: seq<Chunk>, zeros: Bytes, ext: Bytes, tail: Bytes, m: nat)
    requires (forall c <- cs :: IsChunk(c)) && IsSizeLine(zeros, ext, 0)
    requires m <= |Wire(cs) + (zeros + ext + CRLF + tail)|
    ensures !(CRLF <= (Wire(cs) + (zeros + ext + CRLF + tail))[..m])
  {
    var s := Wire(cs) + (zeros + ext + CRLF + tail);
    if cs == [] {
      assert s[0] == zeros[0] && zeros[0] in zeros;
    } else {
      assert IsChunk(cs[0]);
      assert s[0] == cs[0].digits[0] && cs[0].digits[0] in cs[0].digits;
    }
  }

  lemma LastLine(zeros: Bytes, ext: Bytes, trailer: Bytes)
    requires IsSizeLine(zeros, ext, 0)
    ensures Decoding(zeros + ext + CRLF + trailer) == Body([])
  {
    DigitsHaveNoCr(zeros, ext);
    LineEnds(zeros + ext, trailer);
    SizeLineParses(zeros, ext, 0);
    assert (zeros + ext + CRLF + trailer)[..|zeros + ext|] == zeros + ext;
  }

  /**
    Decoding undoes encoding: whatever the data (CRLFs included), the hex spelling and the
    extensions, and whatever follows the last-chunk line, the body is the concatenation.
    The CRLF that must close each chunk may even be missing.
   */
  lemma {:induction false} DecodingUndoesEncoding(cs: seq<Chunk>, zeros: Bytes, ext: Bytes, trailer: Bytes)
    requires (forall c <- cs :: IsChunk(c)) && IsSizeLine(zeros, ext, 0)
    ensures Decoding(Wire(cs) + (zeros + ext + CRLF + trailer)) == Body(Payload(cs))
  {
    hide Decoding, WireChunk, IsChunk, IsSizeLine;
    var last := zeros + ext + CRLF + trailer;
    if cs == [] {
      assert Wire(cs) + last == last;
      LastLine(zeros, ext, trailer);
    } else {
      assert cs[0] in cs && forall c <- cs[1..] :: c in cs;
      var rest := Wire(cs[1..]) + last;
      assert Wire(cs) + last == WireChunk(cs[0]) + rest;
      NextLineIsNoCrlf(cs[1..], zeros, ext, trailer, |rest|);
      assert rest[..|rest|] == rest;
      DecodingChunk(cs[0], rest);
      DecodingUndoesEncoding(cs[1..], zeros, ext, trailer);
    }
  }

  // ── Truncation ──────────────────────────────────────────────────────────

  lemma NoLineIsRefused(raw: Bytes)
    requires !HasCrlf(raw)
    ensures Decoding(raw).Refused?
  {
    NoCrlf(raw);
  }

  lemma CutLineIsRefused(digits: Bytes, ext: Bytes, m: nat)
    requires IsHex(digits) && IsExtension(ext) && m < |digits + ext + CRLF|
    ensures Decoding((digits + ext + CRLF)[..m]).Refused?
  {
    DigitsHaveNoCr(digits, ext);
    NoCrlfInPrefix(digits + ext, m);
    NoLineIsRefused((digits + ext + CRLF)[..m]);
  }

  /** A cut inside a chunk: in its line, in its data, or in the CRLF that closes it. */
  lemma CutChunkIsRefused(c: Chunk, m: nat)
    requires IsChunk(c) && m < |WireChunk(c)|
    ensures Decoding(WireChunk(c)[..m]).Refused?
  {
    var line := c.digits + c.ext;
    var raw := WireChunk(c)[..m];
    if m < |line| + 2 {
      assert raw == (line + CRLF)[..m];
      CutLineIsRefused(c.digits, c.ext, m);
    } else {
      var tail := raw[|line| + 2..];
      assert raw == line + CRLF + tail;
      DigitsHaveNoCr(c.digits, c.ext);
      LineEnds(line, tail);
      SizeLineParses(c.digits, c.ext, |c.data|);
      assert raw[..|line|] == line;
      if |tail| >= |c.data| {
        var after := tail[|c.data|..];
        assert c.closed && |after| < 2;
        NoLineIsRefused(after);
      }
    }
  }

  /** Every input cut before the end of the last-chunk line is refused, never shortened. */
  lemma {:induction false} TruncationIsRefused(cs: seq<Chunk>, zeros: Bytes, ext: Bytes, m: nat)
    requires (forall c <- cs :: IsChunk(c)) && IsSizeLine(zeros, ext, 0)
    requires m < |Wire(cs) + (zeros + ext + CRLF)|
    ensures Decoding((Wire(cs) + (zeros + ext + CRLF))[..m]).Refused?
  {
    hide Decoding, WireChunk, IsChunk, IsSizeLine;
    var last := zeros + ext + CRLF;
    var whole := Wire(cs) + last;
    if cs == [] {
      assert whole == last;
      CutLastLineIsRefused(zeros, ext, m);
    } else {
      var w := WireChunk(cs[0]);
      var rest := Wire(cs[1..]) + last;
      assert cs[0] in cs && forall c <- cs[1..] :: c in cs;
      assert whole == w + rest;
      if m < |w| {
        assert whole[..m] == w[..m];
        CutChunkIsRefused(cs[0], m);
      } else {
        assert whole[..m] == w + rest[..m - |w|];
        assert rest == Wire(cs[1..]) + (zeros + ext + CRLF + []);
        NextLineIsNoCrlf(cs[1..], zeros, ext, [], m - |w|);
        DecodingChunk(cs[0], rest[..m - |w|]);
        TruncationIsRefused(cs[1..], zeros, ext, m - |w|);
      }
    }
  }

  lemma CutLastLineIsRefused(zeros: Bytes, ext: Bytes, m: nat)
    requires IsSizeLine(zeros, ext, 0) && m < |zeros + ext + CRLF|
    ensures Decoding((zeros + ext + CRLF)[..m]).Refused?
  {
    CutLineIsRefused(zeros, ext, m);
  }
}
