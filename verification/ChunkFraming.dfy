/** Which inputs the chunked decoder accepts. */
module ChunkFraming {
  import opened Chunked
  import opened Wrappers

  // ── What is accepted ────────────────────────────────────────────────────

  /** One piece as the decoder takes it: a size line, as many bytes as it says, and perhaps a CRLF. */
  datatype Piece = Piece(line: Bytes, data: Bytes, closed: bool)

  /** Pieces, a size line of zero, and whatever follows it. */
  datatype Framing = Framing(pieces: seq<Piece>, lastLine: Bytes, trailer: Bytes)

  /** A line that ends at its CRLF and reads as the size n, in whatever spelling. */
  ghost predicate ReadsAs(line: Bytes, n: nat) {
    !HasCrlf(line) && ParseSize(line) == Some(n)
  }

  ghost predicate IsPiece(p: Piece) {
    p.data != [] && ReadsAs(p.line, |p.data|)
  }

  function PieceBytes(p: Piece): Bytes {
    p.line + CRLF + p.data + if p.closed then CRLF else []
  }

  function PiecesBytes(ps: seq<Piece>): Bytes {
    if ps == [] then [] else PieceBytes(ps[0]) + PiecesBytes(ps[1..])
  }

  function DataOf(ps: seq<Piece>): Bytes {
    if ps == [] then [] else ps[0].data + DataOf(ps[1..])
  }

  function FramingBytes(f: Framing): Bytes {
    PiecesBytes(f.pieces) + (f.lastLine + CRLF + f.trailer)
  }

  ghost predicate IsFraming(f: Framing) {
    (forall p <- f.pieces :: IsPiece(p)) && ReadsAs(f.lastLine, 0)
  }

  lemma EmptyLineIsNoSize()
    ensures ParseSize([]).None?
  {
    assert Decode([]) == Some([]);
    assert Trim([]) == [] && BeforeSemicolon([]) == [];
  }

  /** A size line and its CRLF never start with a CRLF, so the decoder skips no part of the next line. */
  lemma LineStartsNoCrlf(line: Bytes, n: nat, rest: Bytes)
    requires ReadsAs(line, n)
    ensures !(CRLF <= line + CRLF + rest)
  {
    EmptyLineIsNoSize();
    assert !CrlfAt(line, 0);
    var s := line + CRLF + rest;
    assert s[0] == line[0] && (|line| > 1 ==> s[1] == line[1]) && (|line| == 1 ==> s[1] == 13);
  }

  lemma FramingStartsNoCrlf(f: Framing)
    requires IsFraming(f)
    ensures !(CRLF <= FramingBytes(f))
  {
    hide ReadsAs;
    if f.pieces == [] {
      assert FramingBytes(f) == f.lastLine + CRLF + f.trailer;
      LineStartsNoCrlf(f.lastLine, 0, f.trailer);
    } else {
      var p := f.pieces[0];
      assert IsPiece(p);
      var rest := p.data + (if p.closed then CRLF else []) + PiecesBytes(f.pieces[1..]) + (f.lastLine + CRLF + f.trailer);
      assert FramingBytes(f) == p.line + CRLF + rest;
      LineStartsNoCrlf(p.line, |p.data|, rest);
    }
  }

  lemma DecodingPiece(p: Piece, rest: Bytes)
    requires IsPiece(p) && !(CRLF <= rest)
    ensures Decoding(PieceBytes(p) + rest) == Prepend(p.data, Decoding(rest))
  {
    hide ParseSize;
    var tail := p.data + (if p.closed then CRLF else []) + rest;
    var raw := PieceBytes(p) + rest;
    assert raw == p.line + CRLF + tail;
    LineEnds(p.line, tail);
    assert raw[..|p.line|] == p.line && raw[|p.line| + 2..] == tail;
    assert tail[..|p.data|] == p.data;
    var after := tail[|p.data|..];
    assert after == (if p.closed then CRLF else []) + rest;
    assert SkipCrlf(after) == rest;
  }

  lemma DecodingLastLine(line: Bytes, trailer: Bytes)
    requires ReadsAs(line, 0)
    ensures Decoding(line + CRLF + trailer) == Body([])
  {
    hide ParseSize;
    LineEnds(line, trailer);
    assert (line + CRLF + trailer)[..|line|] == line;
  }

  /** Every framing is accepted, and decodes to its data. */
  lemma {:induction false} FramingIsAccepted(f: Framing)
    requires IsFraming(f)
    ensures Decoding(FramingBytes(f)) == Body(DataOf(f.pieces))
    decreases |f.pieces|
  {
    hide Decoding, PieceBytes, IsPiece, ReadsAs;
    if f.pieces == [] {
      assert FramingBytes(f) == f.lastLine + CRLF + f.trailer;
      DecodingLastLine(f.lastLine, f.trailer);
    } else {
      var p, rest := f.pieces[0], f.(pieces := f.pieces[1..]);
      assert IsPiece(p);
      assert FramingBytes(f) == PieceBytes(p) + FramingBytes(rest);
      FramingStartsNoCrlf(rest);
      DecodingPiece(p, FramingBytes(rest));
      FramingIsAccepted(rest);
    }
  }

  /** The line the decoder reads first has no CRLF in it. */
  lemma FirstLine(raw: Bytes)
    requires FindSubslice(raw, CRLF).Some?
    ensures var n := FindSubslice(raw, CRLF).value;
      n + 2 <= |raw| && !HasCrlf(raw[..n]) && raw == raw[..n] + CRLF + raw[n + 2..]
  {
    var n := FindSubslice(raw, CRLF).value;
    WindowIsCrlf(raw, n);
    forall j: nat ensures !CrlfAt(raw[..n], j) {
      WindowIsCrlf(raw, j);
    }
    assert raw[n..n + 2] == CRLF;
    assert raw == raw[..n] + raw[n..n + 2] + raw[n + 2..];
  }

  function AfterLine(size: Option<nat>, rest: Bytes): Decoded {
    if size.None? then Refused(BadSize)
    else if size.value == 0 then Body([])
    else if |rest| < size.value then Refused(Truncated)
    else Prepend(rest[..size.value], Decoding(SkipCrlf(rest[size.value..])))
  }

  /** One step of the decoder. */
  lemma DecodingStep(raw: Bytes)
    ensures var p := FindSubslice(raw, CRLF);
      Decoding(raw)
      == if p.None? then Refused(Malformed) else AfterLine(ParseSize(raw[..p.value]), raw[p.value + 2..])
  {
    hide ParseSize, FindFrom, FindSubslice;
  }

  /** What was accepted has a framing, with the decoded bytes as its data. */
  lemma {:induction false} AcceptedHasFraming(raw: Bytes) returns (f: Framing)
    requires Decoding(raw).Body?
    ensures IsFraming(f) && FramingBytes(f) == raw && DataOf(f.pieces) == Decoding(raw).bytes
    decreases |raw|
  {
    hide ParseSize, Decoding, FindSubslice, HasCrlf, FramingBytes, PieceBytes, DataOf, IsFraming;
    DecodingStep(raw);
    FirstLine(raw);
    var n := FindSubslice(raw, CRLF).value;
    var line, rest := raw[..n], raw[n + 2..];
    var size := ParseSize(line).value;
    if size == 0 {
      f := Framing([], line, rest);
      LastFraming(line, rest);
    } else {
      var after := rest[size..];
      var inner := AcceptedHasFraming(SkipCrlf(after));
      var p := Piece(line, rest[..size], CRLF <= after);
      f := inner.(pieces := [p] + inner.pieces);
      FramingGrows(p, inner);
      PieceThenRest(p, after);
      assert rest[..size] + after == rest;
    }
  }

  lemma LastFraming(line: Bytes, rest: Bytes)
    ensures var f := Framing([], line, rest);
      && FramingBytes(f) == line + CRLF + rest && DataOf(f.pieces) == []
      && (ReadsAs(line, 0) ==> IsFraming(f))
  {
  }

  lemma PieceThenRest(p: Piece, after: Bytes)
    requires p.closed == (CRLF <= after)
    ensures PieceBytes(p) + SkipCrlf(after) == p.line + CRLF + (p.data + after)
  {
    assert after == (if p.closed then CRLF else []) + SkipCrlf(after);
  }

  lemma FramingGrows(p: Piece, f: Framing)
    ensures var g := f.(pieces := [p] + f.pieces);
      && FramingBytes(g) == PieceBytes(p) + FramingBytes(f)
      && DataOf(g.pieces) == p.data + DataOf(f.pieces)
      && (IsPiece(p) && IsFraming(f) ==> IsFraming(g))
  {
    hide PieceBytes, IsPiece, ReadsAs;
    var ps := [p] + f.pieces;
    assert ps[1..] == f.pieces && ps[0] == p;
    assert PiecesBytes(ps) == PieceBytes(p) + PiecesBytes(f.pieces);
  }

  /** The decoder returns a body exactly for the framings whose data it is. */
  lemma AcceptedExactly(raw: Bytes, body: Bytes)
    ensures Decoding(raw) == Body(body)
       <==> exists f :: IsFraming(f) && FramingBytes(f) == raw && DataOf(f.pieces) == body
  {
    hide IsFraming, FramingBytes, DataOf, Decoding;
    if Decoding(raw) == Body(body) {
      var f := AcceptedHasFraming(raw);
    }
    forall f | IsFraming(f) && FramingBytes(f) == raw && DataOf(f.pieces) == body ensures Decoding(raw) == Body(body) {
      FramingIsAccepted(f);
    }
  }
}
