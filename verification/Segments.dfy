/** Cutting a token stream into one slice per statement. */
module Segments {

  datatype TokenKind =
    | Type | Import | V | Mut | Model | Run
    | Ident(name: string)
    | Pipeline | Semicolon | RBrace | RParen
    | OtherToken(text: string)

  datatype Token = Token(kind: TokenKind, start: nat, end: nat)

  predicate StartsStmt(k: TokenKind) {
    k.Type? || k.Import? || k.V? || k.Mut? || k.Model? || k.Run?
  }

  predicate Terminates(k: TokenKind) {
    k.Semicolon? || k.RBrace? || k.RParen?
  }

  /** A statement starts at i: a statement keyword, or `name |>` after a terminator. */
  predicate Cut(tokens: seq<Token>, i: nat)
    requires 0 < i < |tokens|
  {
    || StartsStmt(tokens[i].kind)
    || (&& tokens[i].kind.Ident?
        && i + 1 < |tokens| && tokens[i + 1].kind.Pipeline?
        && Terminates(tokens[i - 1].kind))
  }

  /** The tokens from a up to b, a possible statement: non-empty, starting at a cut, with no cut inside. */
  predicate IsSegment(tokens: seq<Token>, a: nat, b: nat) {
    && a < b <= |tokens|
    && (a > 0 ==> Cut(tokens, a))
    && forall i | a < i < b :: !Cut(tokens, i)
  }

  /** The slices are the segments of the first n tokens, in order. */
  predicate Segmented(tokens: seq<Token>, segments: seq<seq<Token>>, n: nat)
    requires n <= |tokens|
  {
    if segments == [] then n == 0
    else
      var last := segments[|segments| - 1];
      && |last| <= n
      && IsSegment(tokens, n - |last|, n) && last == tokens[n - |last|..n]
      && Segmented(tokens, segments[..|segments| - 1], n - |last|)
  }

  function Flatten(segments: seq<seq<Token>>): seq<Token> {
    if segments == [] then [] else Flatten(segments[..|segments| - 1]) + segments[|segments| - 1]
  }

  /** The segments put together again are the tokens. */
  lemma {:induction false} SegmentsFlatten(tokens: seq<Token>, segments: seq<seq<Token>>, n: nat)
    requires n <= |tokens| && Segmented(tokens, segments, n)
    ensures Flatten(segments) == tokens[..n]
  {
    if segments != [] {
      var last := segments[|segments| - 1];
      SegmentsFlatten(tokens, segments[..|segments| - 1], n - |last|);
      assert tokens[..n - |last|] + tokens[n - |last|..n] == tokens[..n];
    }
  }

  lemma SameStart(tokens: seq<Token>, a: nat, b: nat, n: nat)
    ensures IsSegment(tokens, a, n) && IsSegment(tokens, b, n) ==> a == b
  {
  }

  /** There is only one way to cut the tokens. */
  lemma {:induction false} SegmentsAreUnique(tokens: seq<Token>, a: seq<seq<Token>>, b: seq<seq<Token>>, n: nat)
    requires n <= |tokens| && Segmented(tokens, a, n) && Segmented(tokens, b, n)
    ensures a == b
  {
    if n > 0 {
      var x, y := |a[|a| - 1]|, |b[|b| - 1]|;
      SameStart(tokens, n - x, n - y, n);
      SegmentsAreUnique(tokens, a[..|a| - 1], b[..|b| - 1], n - x);
      assert a == a[..|a| - 1] + [a[|a| - 1]] && b == b[..|b| - 1] + [b[|b| - 1]];
    }
  }

  lemma OneMoreSegment(tokens: seq<Token>, segments: seq<seq<Token>>, a: nat, b: nat)
    requires a < b <= |tokens| && Segmented(tokens, segments, a) && IsSegment(tokens, a, b)
    ensures Segmented(tokens, segments + [tokens[a..b]], b)
  {
    assert (segments + [tokens[a..b]])[..|segments|] == segments;
  }

  lemma LongerSegment(tokens: seq<Token>, a: nat, i: nat)
    requires i < |tokens| && if a == i then a == 0 || Cut(tokens, a) else IsSegment(tokens, a, i) && !Cut(tokens, i)
    ensures IsSegment(tokens, a, i + 1)
    ensures tokens[a..i + 1] == tokens[a..i] + [tokens[i]]
  {
  }

  lemma OnlyOneCut(tokens: seq<Token>, segments: seq<seq<Token>>)
    requires Segmented(tokens, segments, |tokens|)
    ensures Flatten(segments) == tokens && Flatten([tokens]) == tokens
    ensures forall cut | Segmented(tokens, cut, |tokens|) :: cut == segments
  {
    SegmentsFlatten(tokens, segments, |tokens|);
    assert tokens[..|tokens|] == tokens && [tokens][..0] == [];
    assert Flatten([tokens]) == Flatten([tokens][..0]) + tokens;
    forall cut | Segmented(tokens, cut, |tokens|) ensures cut == segments {
      SegmentsAreUnique(tokens, cut, segments, |tokens|);
    }
  }

  /**
   * One slice per statement when the cuts give the expected number of them, otherwise everything in one slice. No token
   * is lost, added or moved either way.
   */
  method SegmentStatements(tokens: seq<Token>, expected: nat) returns (segments: seq<seq<Token>>)
    ensures Flatten(segments) == tokens
    ensures (|segments| == expected && Segmented(tokens, segments, |tokens|))
         || (segments == [tokens] && forall cut | Segmented(tokens, cut, |tokens|) :: |cut| != expected)
  {
    hide Segmented, IsSegment, Flatten;
    segments := [];
    var current: seq<Token> := [];
    ghost var from := 0;
    NoSegments(tokens);
    for i := 0 to |tokens|
      invariant from <= i && (from == i <==> i == 0)
      invariant current == tokens[from..i]
      invariant Segmented(tokens, segments, from)
      invariant i > 0 ==> IsSegment(tokens, from, i)
    {
      var prevTerminates := current != [] && Terminates(current[|current| - 1].kind);
      var exprBoundary := tokens[i].kind.Ident? && i + 1 < |tokens| && tokens[i + 1].kind.Pipeline? && prevTerminates;
      if current != [] && (StartsStmt(tokens[i].kind) || exprBoundary) {
        OneMoreSegment(tokens, segments, from, i);
        segments := segments + [current];
        current := [];
        from := i;
      }
      LongerSegment(tokens, from, i);
      current := current + [tokens[i]];
    }
    if current != [] {
      OneMoreSegment(tokens, segments, from, |tokens|);
      segments := segments + [current];
    }
    OnlyOneCut(tokens, segments);
    if |segments| != expected {
      segments := [tokens];
    }
  }

  lemma NoSegments(tokens: seq<Token>)
    ensures Segmented(tokens, [], 0)
  {
  }

  // ── Cutting undoes writing one statement after the other ────────────────

  /** A statement keyword. */
  predicate IsKeyword(k: TokenKind) {
    k in {Type, Import, V, Mut, Model, Run}
  }

  /** A token that can end a statement. */
  predicate IsEnd(k: TokenKind) {
    k in {Semicolon, RBrace, RParen}
  }

  /** The statement starts with a keyword, or is an expression `name |> ...` after a token that ends the one before. */
  predicate StartsAfter(stmt: seq<Token>, before: seq<Token>) {
    && stmt != [] && before != []
    && (|| IsKeyword(stmt[0].kind)
        || (|stmt| > 1 && stmt[0].kind.Ident? && stmt[1].kind == Pipeline && IsEnd(before[|before| - 1].kind)))
  }

  /** Nothing inside the statement looks like the start of another. */
  predicate IsWhole(stmt: seq<Token>) {
    && stmt != []
    && (forall i | 0 < i < |stmt| :: !IsKeyword(stmt[i].kind))
    && (forall i | 0 < i < |stmt| - 1 ::
          !(stmt[i].kind.Ident? && stmt[i + 1].kind == Pipeline && IsEnd(stmt[i - 1].kind)))
  }

  /** Statements one after the other, each whole, and each but the first starting as a statement does. */
  predicate AreStatements(stmts: seq<seq<Token>>) {
    && (forall stmt <- stmts :: IsWhole(stmt))
    && forall k | 0 < k < |stmts| :: StartsAfter(stmts[k], stmts[k - 1])
  }

  lemma {:induction false} FlattenSplits(stmts: seq<seq<Token>>, k: nat)
    requires k <= |stmts|
    ensures |Flatten(stmts[..k])| <= |Flatten(stmts)| && Flatten(stmts)[..|Flatten(stmts[..k])|] == Flatten(stmts[..k])
  {
    if k == |stmts| {
      assert stmts[..k] == stmts;
    } else {
      var front := stmts[..|stmts| - 1];
      FlattenSplits(front, k);
      assert front[..k] == stmts[..k];
    }
  }

  lemma FlattenNext(stmts: seq<seq<Token>>, k: nat)
    requires k < |stmts|
    ensures Flatten(stmts[..k + 1]) == Flatten(stmts[..k]) + stmts[k]
  {
    assert stmts[..k + 1][..k] == stmts[..k];
  }

  /** Statement k occupies its place in the whole stream. */
  lemma StatementAt(stmts: seq<seq<Token>>, k: nat)
    requires k < |stmts|
    ensures var (tokens, a) := (Flatten(stmts), |Flatten(stmts[..k])|);
      a + |stmts[k]| <= |tokens| && tokens[a..a + |stmts[k]|] == stmts[k] && a + |stmts[k]| == |Flatten(stmts[..k + 1])|
  {
    hide Flatten;
    FlattenSplits(stmts, k + 1);
    FlattenNext(stmts, k);
    var (tokens, a, b) := (Flatten(stmts), |Flatten(stmts[..k])|, |Flatten(stmts[..k + 1])|);
    assert tokens[a..b] == tokens[..b][a..b];
  }

  /** Two neighbours meet at a cut. */
  lemma NeighboursMeetAtCut(stmts: seq<seq<Token>>, k: nat)
    requires AreStatements(stmts) && 0 < k < |stmts|
    ensures var (tokens, a) := (Flatten(stmts), |Flatten(stmts[..k])|); 0 < a < |tokens| && Cut(tokens, a)
  {
    hide Flatten;
    var (tokens, c, a) := (Flatten(stmts), |Flatten(stmts[..k - 1])|, |Flatten(stmts[..k])|);
    var (before, stmt) := (stmts[k - 1], stmts[k]);
    assert before in stmts && IsWhole(before) && StartsAfter(stmt, before);
    StatementAt(stmts, k - 1);
    StatementAt(stmts, k);
    assert tokens[a - 1] == tokens[c..a][|before| - 1] == before[|before| - 1];
    assert tokens[a] == tokens[a..a + |stmt|][0] == stmt[0];
    if |stmt| > 1 {
      assert tokens[a + 1] == tokens[a..a + |stmt|][1] == stmt[1];
    }
  }

  /** What follows a statement is no pipeline token. */
  lemma NextIsNoPipeline(stmts: seq<seq<Token>>, k: nat)
    requires AreStatements(stmts) && k < |stmts|
    ensures var (tokens, b) := (Flatten(stmts), |Flatten(stmts[..k + 1])|); b < |tokens| ==> !tokens[b].kind.Pipeline?
  {
    hide Flatten;
    if k + 1 < |stmts| {
      StatementAt(stmts, k + 1);
      var (tokens, b) := (Flatten(stmts), |Flatten(stmts[..k + 1])|);
      assert StartsAfter(stmts[k + 1], stmts[k]);
      assert tokens[b] == tokens[b..b + |stmts[k + 1]|][0] == stmts[k + 1][0];
    } else {
      assert stmts[..k + 1] == stmts;
    }
  }

  lemma StatementIsSegment(stmts: seq<seq<Token>>, k: nat)
    requires AreStatements(stmts) && k < |stmts|
    ensures var a := |Flatten(stmts[..k])|;
      a + |stmts[k]| <= |Flatten(stmts)| && IsSegment(Flatten(stmts), a, a + |stmts[k]|)
  {
    hide Flatten;
    var (tokens, a) := (Flatten(stmts), |Flatten(stmts[..k])|);
    var b := a + |stmts[k]|;
    assert stmts[k] in stmts && IsWhole(stmts[k]);
    StatementAt(stmts, k);
    if k > 0 {
      NeighboursMeetAtCut(stmts, k);
    } else {
      assert Flatten(stmts[..0]) == [] by { NothingFlattens(stmts); }
    }
    NextIsNoPipeline(stmts, k);
    hide AreStatements;
    forall i | a < i < b ensures !Cut(tokens, i) {
      NoCutInside(tokens, stmts[k], a, i);
    }
  }

  lemma NoCutInside(tokens: seq<Token>, stmt: seq<Token>, a: nat, i: nat)
    requires IsWhole(stmt) && a + |stmt| <= |tokens| && tokens[a..a + |stmt|] == stmt && a < i < a + |stmt|
    requires a + |stmt| < |tokens| ==> !tokens[a + |stmt|].kind.Pipeline?
    ensures !Cut(tokens, i)
  {
    var k := i - a;
    assert tokens[i] == stmt[k] && tokens[i - 1] == stmt[k - 1];
    if k + 1 < |stmt| {
      assert tokens[i + 1] == stmt[k + 1];
    }
  }

  lemma NothingFlattens(stmts: seq<seq<Token>>)
    ensures Flatten(stmts[..0]) == []
  {
  }

  /** The statements are the segments of their concatenation, so cutting finds exactly them. */
  lemma StatementsAreCut(stmts: seq<seq<Token>>)
    requires AreStatements(stmts)
    ensures Segmented(Flatten(stmts), stmts, |Flatten(stmts)|)
  {
    PrefixIsCut(stmts, |stmts|);
    assert stmts[..|stmts|] == stmts;
  }

  lemma {:induction false} PrefixIsCut(stmts: seq<seq<Token>>, k: nat)
    requires AreStatements(stmts) && k <= |stmts|
    ensures |Flatten(stmts[..k])| <= |Flatten(stmts)| && Segmented(Flatten(stmts), stmts[..k], |Flatten(stmts[..k])|)
  {
    hide Flatten, AreStatements, IsSegment;
    FlattenSplits(stmts, k);
    if k == 0 {
      NothingFlattens(stmts);
    } else {
      PrefixIsCut(stmts, k - 1);
      StatementIsSegment(stmts, k - 1);
      StatementAt(stmts, k - 1);
      assert stmts[..k][..k - 1] == stmts[..k - 1];
    }
  }
}
