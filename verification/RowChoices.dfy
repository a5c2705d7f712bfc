/** Which rows the row-choosing operators keep, and in which order. */
module RowChoices {
  import opened Ast
  import opened Frames
  import Programs

  // ── Keeping rows ────────────────────────────────────────────────────────

  /** The rows with a true verdict, in order. */
  function Kept(rows: seq<Row>, verdicts: seq<bool>): seq<Row>
    requires |verdicts| == |rows|
  {
    if rows == [] then [] else (if verdicts[0] then [rows[0]] else []) + Kept(rows[1..], verdicts[1..])
  }

  /** What the conditions of a filter say of the rows. */
  function Verdicts(g: Engine, e: Expr, rows: seq<Row>): (vs: seq<bool>)
    ensures |vs| == |rows|
  {
    if rows == [] then [] else [Programs.Eval(g, e, rows[0]) == BoolV(true)] + Verdicts(g, e, rows[1..])
  }

  /** Which rows have a value in the column. */
  function Present(c: string, rows: seq<Row>): (vs: seq<bool>)
    ensures |vs| == |rows|
  {
    if rows == [] then [] else [Cell(rows[0], c) != Null] + Present(c, rows[1..])
  }

  lemma {:induction false} KeptMore(rows: seq<Row>, verdicts: seq<bool>, r: Row, v: bool)
    requires |verdicts| == |rows|
    ensures Kept(rows + [r], verdicts + [v]) == Kept(rows, verdicts) + if v then [r] else []
  {
    if rows == [] {
      assert rows + [r] == [r] && verdicts + [v] == [v];
      OneKept(r, v);
    } else {
      var (more, all) := (rows + [r], verdicts + [v]);
      assert more[0] == rows[0] && more[1..] == rows[1..] + [r];
      assert all[0] == verdicts[0] && all[1..] == verdicts[1..] + [v];
      KeptMore(rows[1..], verdicts[1..], r, v);
    }
  }

  lemma OneKept(r: Row, v: bool)
    ensures Kept([r], [v]) == (if v then [r] else []) && Kept([], []) == []
  {
    assert [r][1..] == [] && [v][1..] == [];
  }

  /** One more row, and its position if it is kept. */
  lemma OneMorePicked(rows: seq<Row>, at: seq<nat>, truths: seq<bool>, n: nat)
    requires n < |truths| <= |rows| && Pick(rows, at) == Kept(rows[..n], truths[..n])
    ensures Pick(rows, at + if truths[n] then [n] else []) == Kept(rows[..n + 1], truths[..n + 1])
  {
    hide Pick, Kept;
    assert rows[..n + 1] == rows[..n] + [rows[n]] && truths[..n + 1] == truths[..n] + [truths[n]];
    KeptMore(rows[..n], truths[..n], rows[n], truths[n]);
    if truths[n] {
      PickMore(rows, at, n);
    } else {
      assert at + [] == at;
    }
  }

  lemma {:induction false} TruePick(rows: seq<Row>, verdicts: seq<Value>, truths: seq<bool>)
    requires |truths| == |verdicts| <= |rows| && forall i | 0 <= i < |truths| :: truths[i] <==> verdicts[i] == BoolV(true)
    ensures Pick(rows, TruePositions(verdicts)) == Kept(rows[..|truths|], truths)
  {
    hide Pick, Kept;
    if verdicts != [] {
      var n := |verdicts| - 1;
      TruePick(rows, verdicts[..n], truths[..n]);
      OneMorePicked(rows, TruePositions(verdicts[..n]), truths, n);
      assert truths[..n + 1] == truths;
    } else {
      NothingPicked(rows);
      assert truths == [] && rows[..0] == [];
    }
  }

  lemma {:induction false} PresentPick(rows: seq<Row>, vs: seq<Value>, truths: seq<bool>)
    requires |truths| == |vs| <= |rows| && forall i | 0 <= i < |truths| :: truths[i] <==> vs[i] != Null
    ensures Pick(rows, PresentPositions(vs)) == Kept(rows[..|truths|], truths)
  {
    hide Pick, Kept;
    if vs != [] {
      var n := |vs| - 1;
      PresentPick(rows, vs[..n], truths[..n]);
      OneMorePicked(rows, PresentPositions(vs[..n]), truths, n);
      assert truths[..n + 1] == truths;
    } else {
      NothingPicked(rows);
      assert truths == [] && rows[..0] == [];
    }
  }

  lemma NothingPicked(rows: seq<Row>)
    ensures Pick(rows, []) == [] && Kept([], []) == []
  {
  }

  lemma {:induction false} VerdictAt(g: Engine, e: Expr, rows: seq<Row>, i: nat)
    requires i < |rows|
    ensures Verdicts(g, e, rows)[i] <==> Programs.Eval(g, e, rows[i]) == BoolV(true)
    decreases i
  {
    if i > 0 {
      VerdictAt(g, e, rows[1..], i - 1);
    }
  }

  lemma {:induction false} PresentAt(c: string, rows: seq<Row>, i: nat)
    requires i < |rows|
    ensures Present(c, rows)[i] <==> Cell(rows[i], c) != Null
    decreases i
  {
    if i > 0 {
      PresentAt(c, rows[1..], i - 1);
    }
  }

  lemma {:induction false} FirstRows(rows: seq<Row>, n: nat)
    requires n <= |rows|
    ensures Pick(rows, seq(n, i => i)) == rows[..n]
  {
    if n > 0 {
      PickMore(rows, seq(n - 1, i => i), n - 1);
      FirstRows(rows, n - 1);
      assert seq(n, i => i) == seq(n - 1, i => i) + [n - 1];
    }
  }

  lemma {:induction false} PickMore(rows: seq<Row>, at: seq<nat>, k: nat)
    requires k < |rows|
    ensures Pick(rows, at + [k]) == Pick(rows, at) + [rows[k]]
  {
    if at == [] {
      assert at + [k] == [k] && [k][1..] == [];
    } else {
      assert (at + [k])[1..] == at[1..] + [k];
      PickMore(rows, at[1..], k);
    }
  }

  // ── The operators ───────────────────────────────────────────────────────

  /** A filter keeps the rows whose condition is true, in order. */
  lemma FilterKeepsTrueRows(g: Engine, env: Programs.Env, s: Programs.State, e: Expr)
    requires Programs.EvalOp(g, env, s, Filter(e)).Ran?
    ensures var after := Programs.EvalOp(g, env, s, Filter(e)).value.frame;
      after.cols == s.frame.cols && after.rows == Kept(s.frame.rows, Verdicts(g, e, s.frame.rows))
  {
    hide Reading, Pick, TruePositions, Programs.Eval;
    var f := s.frame;
    var truths := Verdicts(g, e, f.rows);
    forall i | 0 <= i < |f.rows| ensures truths[i] <==> Programs.EvalRows(g, e, f)[i] == BoolV(true) {
      VerdictAt(g, e, f.rows, i);
    }
    TruePick(f.rows, Programs.EvalRows(g, e, f), truths);
    assert f.rows[..|f.rows|] == f.rows;
    ReadingPresent(Programs.Refs(e), f, Programs.With(s, Choose(f, TruePositions(Programs.EvalRows(g, e, f)))));
  }

  /** Dropping nulls of a column keeps the rows that have a value in it, in order. */
  lemma DropNullKeepsPresentRows(g: Engine, env: Programs.Env, s: Programs.State, c: string)
    requires Programs.EvalOp(g, env, s, DropNull(c)).Ran?
    ensures var after := Programs.EvalOp(g, env, s, DropNull(c)).value.frame;
      after.cols == s.frame.cols && after.rows == Kept(s.frame.rows, Present(c, s.frame.rows))
  {
    hide Reading, Pick, PresentPositions;
    var f := s.frame;
    var truths := Present(c, f.rows);
    forall i | 0 <= i < |f.rows| ensures truths[i] <==> Column(f, c)[i] != Null {
      PresentAt(c, f.rows, i);
    }
    PresentPick(f.rows, Column(f, c), truths);
    assert f.rows[..|f.rows|] == f.rows;
    ReadingPresent([c], f, Programs.With(s, Choose(f, PresentPositions(Column(f, c)))));
  }

  /** Taking n keeps the first n rows, or all of them when there are fewer. */
  lemma TakeKeepsFirstRows(g: Engine, env: Programs.Env, s: Programs.State, n: nat)
    ensures var after := Programs.EvalOp(g, env, s, Take(n)).value.frame;
      after.cols == s.frame.cols && after.rows == if n < |s.frame.rows| then s.frame.rows[..n] else s.frame.rows
  {
    hide Pick;
    var k := if n < |s.frame.rows| then n else |s.frame.rows|;
    FirstRows(s.frame.rows, k);
    assert FirstPositions(|s.frame.rows|, n) == seq(k, i => i);
    assert s.frame.rows[..|s.frame.rows|] == s.frame.rows;
  }

  // ── Sorting, sampling, filling ──────────────────────────────────────────

  /** All positions, each once. */
  ghost predicate IsPermutation(at: seq<nat>, n: nat) {
    |at| == n && (forall i | 0 <= i < n :: at[i] < n) && forall i, j | 0 <= i < j < n :: at[i] != at[j]
  }

  lemma {:induction false} PickAt(rows: seq<Row>, at: seq<nat>)
    requires forall i | 0 <= i < |at| :: at[i] < |rows|
    ensures |Pick(rows, at)| == |at| && forall i | 0 <= i < |at| :: Pick(rows, at)[i] == rows[at[i]]
  {
    if at != [] {
      PickAt(rows, at[1..]);
    }
  }

  /** Sorting by an order that is a permutation puts row order[i] at place i, and loses none. */
  lemma OrderByRearranges(g: Engine, env: Programs.Env, s: Programs.State, c: string, desc: bool)
    requires Programs.EvalOp(g, env, s, OrderBy(c, desc)).Ran?
    requires IsPermutation(g.sortOrder(Column(s.frame, c), desc), |s.frame.rows|)
    ensures var (after, order) := (Programs.EvalOp(g, env, s, OrderBy(c, desc)).value.frame, g.sortOrder(Column(s.frame, c), desc));
      && after.cols == s.frame.cols && |after.rows| == |s.frame.rows|
      && forall i | 0 <= i < |after.rows| :: after.rows[i] == s.frame.rows[order[i]]
  {
    hide Reading, Pick, Column;
    var order := g.sortOrder(Column(s.frame, c), desc);
    PickAt(s.frame.rows, order);
    ReadingPresent([c], s.frame, Programs.With(s, Choose(s.frame, order)));
  }

  /** Filling with zero is filling with the number 0, and a fill changes nothing but the nulls of its column. */
  lemma FillChangesNulls(g: Engine, env: Programs.Env, s: Programs.State, c: string, v: FillNullValue, i: nat, x: string)
    requires Programs.EvalOp(g, env, s, FillNull(c, v)).Ran? && i < |s.frame.rows|
    ensures Programs.EvalOp(g, env, s, FillNull(c, FillZero)) == Programs.EvalOp(g, env, s, FillNull(c, FillInt(0)))
    ensures var after := Programs.EvalOp(g, env, s, FillNull(c, v)).value.frame;
      && |after.rows| == |s.frame.rows|
      && var (before, now) := (Cell(s.frame.rows[i], x), Cell(after.rows[i], x));
         (x != c || before != Null ==> now == before)
         && (x == c && before == Null ==>
             now == match v
                    case FillInt(n) => IntV(n)
                    case FillFloat(r) => FloatV(r)
                    case FillStr(t) => StrV(t)
                    case FillZero => IntV(0)
                    case FillMean => g.mean(Column(s.frame, c))
                    case FillMedian => g.median(Column(s.frame, c)))
  {
    hide Reading, Column;
    ReadingPresent([c], s.frame, Programs.With(s, FillColumn(s.frame, c, Programs.Fill(g, v, Column(s.frame, c)))));
  }
}
