/** Two column trackers, the checker's and the catalog's: where they agree, and the operators where they part. */
module Trackers {
  import opened Ast
  import opened Catalog
  import opened Checking
  import opened Lowering
  import opened Ordering
  import opened Wrappers
  import Ir
  import Scoping

  /** The catalog lists each column once, and only columns the checker has. */
  ghost predicate Within(p: Provenance, cols: set<string>) {
    Distinct(Columns(p)) && forall c <- Columns(p) :: c in cols
  }

  /** The catalog lists exactly the checker's columns, each once. */
  ghost predicate Agree(p: Provenance, cols: set<string>) {
    Within(p, cols) && forall c <- cols :: c in Columns(p)
  }

  // ── What the table operations do to the listed columns ──────────────────

  lemma ColumnsJoin(p: Provenance, q: Provenance)
    ensures Columns(p + q) == Columns(p) + Columns(q)
  {
  }

  lemma DistinctJoin(a: seq<string>, b: seq<string>)
    ensures Distinct(a + b) <==> Distinct(a) && Distinct(b) && (forall x <- a :: x !in b)
  {
    var ab := a + b;
    if Distinct(ab) {
      assert forall i | 0 <= i < |a| :: ab[i] == a[i];
      assert forall j | 0 <= j < |b| :: ab[|a| + j] == b[j];
      forall i, j | 0 <= i < j < |b| ensures b[i] != b[j] {
        assert ab[|a| + i] != ab[|a| + j];
      }
      forall x | x in a ensures x !in b {
        var i :| 0 <= i < |a| && a[i] == x;
        forall j | 0 <= j < |b| ensures b[j] != x {
          assert ab[i] != ab[|a| + j];
        }
      }
    }
    if Distinct(a) && Distinct(b) && forall x <- a :: x !in b {
      forall i, j | 0 <= i < j < |ab| ensures ab[i] != ab[j] {
        if i < |a| <= j {
          assert a[i] in a && ab[j] in b;
        }
      }
    }
  }

  lemma {:induction false} KeepColumns(p: Provenance, cs: seq<string>)
    ensures forall c :: c in Columns(Keep(p, cs)) <==> c in Columns(p) && c in cs
    ensures Distinct(Columns(p)) ==> Distinct(Columns(Keep(p, cs)))
  {
    if p != [] {
      var n := |p| - 1;
      KeepColumns(p[..n], cs);
      assert p == p[..n] + [p[n]];
      ColumnsJoin(p[..n], [p[n]]);
      ColumnsJoin(Keep(p[..n], cs), [p[n]]);
      assert Columns([p[n]]) == [p[n].column];
      DistinctJoin(Columns(p[..n]), [p[n].column]);
      DistinctJoin(Columns(Keep(p[..n], cs)), [p[n].column]);
      assert Keep(p[..n], cs) + [] == Keep(p[..n], cs);
    }
  }

  lemma WithoutColumn(p: Provenance, c: string)
    requires Distinct(Columns(p))
    ensures Distinct(Columns(Without(p, c)))
    ensures forall x :: x in Columns(Without(p, c)) <==> x in Columns(p) && x != c
  {
    var i := Position(p, c);
    if i < |p| {
      var a, b := p[..i], p[i + 1..];
      assert p == a + [p[i]] + b;
      ColumnsJoin(a + [p[i]], b);
      ColumnsJoin(a, [p[i]]);
      ColumnsJoin(a, b);
      assert Columns([p[i]]) == [c];
      DistinctJoin(Columns(a) + [c], Columns(b));
      DistinctJoin(Columns(a), [c]);
      DistinctJoin(Columns(a), Columns(b));
    }
  }

  lemma PushColumn(p: Provenance, e: ColumnLineage)
    ensures Columns(p + [e]) == Columns(p) + [e.column]
    ensures Distinct(Columns(p + [e])) <==> Distinct(Columns(p)) && e.column !in Columns(p)
  {
    ColumnsJoin(p, [e]);
    assert Columns([e]) == [e.column];
    DistinctJoin(Columns(p), [e.column]);
  }

  lemma AddOnceColumns(p: Provenance, e: ColumnLineage)
    ensures forall x :: x in Columns(AddOnce(p, e)) <==> x in Columns(p) || x == e.column
    ensures Distinct(Columns(p)) ==> Distinct(Columns(AddOnce(p, e)))
  {
    hide Distinct;
    PushColumn(p, e);
  }

  lemma {:induction false} AddAllColumns(p: Provenance, cs: seq<string>, step: nat)
    ensures forall x :: x in Columns(AddAll(p, cs, step)) <==> x in Columns(p) || x in cs
    ensures Distinct(Columns(p)) ==> Distinct(Columns(AddAll(p, cs, step)))
  {
    hide Distinct, AddOnce;
    if cs != [] {
      var n := |cs| - 1;
      AddAllColumns(p, cs[..n], step);
      AddOnceColumns(AddAll(p, cs[..n], step), ColumnLineage(cs[n], [cs[n]], step));
      assert cs == cs[..n] + [cs[n]];
    }
  }

  // ── When one step keeps the trackers together ───────────────────────────

  /** The guard under which an operator keeps the catalog's columns distinct and among the checker's. */
  predicate StaysWithin(op: PipelineOp, cols: set<string>) {
    match op
    case Rename(o, n) => n == o || n !in cols
    case Count(None) => "" in cols
    case Corr(a, b) => CorrName(a, b) in cols
    case _ => true
  }

  /** The guard under which an operator keeps the two trackers equal. */
  predicate StaysEqual(op: PipelineOp, cols: set<string>) {
    match op
    case GroupBy(k) => cols == {k}
    case Predict(_, Some(name)) => name in cols
    case _ => StaysWithin(op, cols)
  }

  lemma {:induction false} ColumnsPresent(cs: seq<string>, context: string, cols: Cols)
    requires ColumnsErrors(cs, context, cols) == []
    ensures forall c <- cs :: c in cols
  {
    if cs != [] {
      ColumnsPresent(cs[..|cs| - 1], context, cols);
      assert cs == cs[..|cs| - 1] + [cs[|cs| - 1]];
    }
  }

  lemma SpecColumnsLower(specs: seq<AggSpec>)
    ensures Ir.SpecColumns(LowerSpecs(specs)) == AggColumns(specs)
  {
  }

  /** The catalog's columns after an operator, and whether they are still distinct. */
  ghost predicate ListsAfter(p: Provenance, op: PipelineOp, q: Provenance) {
    match op
    case Select(cs) => Distinct(Columns(q)) && forall x :: x in Columns(q) <==> x in Columns(p) && x in cs
    case GroupBy(k) => Distinct(Columns(q)) && forall x :: x in Columns(q) <==> x in Columns(p) && x == k
    case WithColumn(name, _) => Distinct(Columns(q)) && forall x :: x in Columns(q) <==> x in Columns(p) || x == name
    case Rename(o, n) =>
      if o in Columns(p) then
        && (forall x :: x in Columns(q) <==> (x in Columns(p) && x != o) || x == n)
        && (Distinct(Columns(q)) <==> n == o || n !in Columns(p))
      else q == p
    case Histogram(_, _) => Columns(q) == ["bin", "n"]
    case Corr(a, b) => Distinct(Columns(q)) && forall x :: x in Columns(q) <==> x in Columns(p) || x == CorrName(a, b)
    case Count(None) => Distinct(Columns(q)) && forall x :: x in Columns(q) <==> x in Columns(p) || x == ""
    case _ => true
  }

  /** The operators that add the columns they read, when these are not listed. */
  predicate ListsWhatItReads(op: PipelineOp) {
    || (op.Count? && op.counted.Some?)
    || (IsPlainAggregate(op) && !op.Count?)
    || op.Quantile? || op.Agg? || op.Join?
  }

  lemma ReshapingLists(p: Provenance, op: PipelineOp, cols: Cols, k: nat)
    requires Distinct(Columns(p))
    requires op.Select? || op.GroupBy? || op.WithColumn? || op.Rename? || op.Histogram?
    ensures ListsAfter(p, op, AfterStep(p, Lower(op, cols), k))
  {
    hide Distinct, Keep, Without, TypeExpr, Ir.Refs;
    match op
    case Select(cs) => KeepColumns(p, cs);
    case GroupBy(c) => KeepColumns(p, [c]);
    case WithColumn(name, e) =>
      WithoutColumn(p, name);
      PushColumn(Without(p, name), ColumnLineage(name, Ir.Refs(TypeExpr(e, cols)), k));
    case Rename(o, n) => RenameLists(p, op, cols, k);
    case Histogram(_, _) =>
  }

  lemma RenameLists(p: Provenance, op: PipelineOp, cols: Cols, k: nat)
    requires Distinct(Columns(p)) && op.Rename?
    ensures ListsAfter(p, op, AfterStep(p, Lower(op, cols), k))
  {
    hide Distinct, Renamed;
    RenamedLists(p, op.oldName, op.newName);
  }

  lemma RenamedLists(p: Provenance, o: string, n: string)
    requires Distinct(Columns(p))
    ensures o !in Columns(p) ==> Renamed(p, o, n) == p
    ensures forall x :: x in Columns(Renamed(p, o, n)) <==> if o in Columns(p) then (x in Columns(p) && x != o) || x == n else x in Columns(p)
    ensures Distinct(Columns(Renamed(p, o, n))) <==> o !in Columns(p) || n == o || n !in Columns(p)
  {
    hide Distinct, Without;
    WithoutColumn(p, o);
    var i := Position(p, o);
    if i < |p| {
      PushColumn(Without(p, o), ColumnLineage(n, p[i].from, p[i].createdByStep));
    }
  }

  lemma AddingLists(p: Provenance, op: PipelineOp, cols: Cols, k: nat)
    requires Distinct(Columns(p))
    requires op.Corr? || op == Count(None)
    ensures ListsAfter(p, op, AfterStep(p, Lower(op, cols), k))
  {
    hide Distinct, AddOnce;
    match op
    case Corr(a, b) => AddOnceColumns(p, ColumnLineage(CorrName(a, b), [a, b], k));
    case Count(_) => AddOnceColumns(p, ColumnLineage("", [""], k));
  }

  /** The column of an aggregate of one column. */
  function ReadColumn(op: PipelineOp): string
    requires ListsWhatItReads(op) && !op.Agg? && !op.Join?
  {
    if op.Count? then op.counted.value else op.col
  }

  lemma AggregateLists(env: Env, p: Provenance, op: PipelineOp, cols: Cols, k: nat)
    requires ListsWhatItReads(op) && !op.Agg? && !op.Join?
    requires OpErrors(env, op, cols) == []
    ensures AfterStep(p, Lower(op, cols), k) == AddOnce(p, ColumnLineage(ReadColumn(op), [ReadColumn(op)], k))
    ensures ReadColumn(op) in cols
  {
    hide AddOnce;
  }

  /** The catalog keeps its columns and adds only ones the checker has. */
  ghost predicate Extends(p: Provenance, q: Provenance, cols: set<string>) {
    && Distinct(Columns(q))
    && (forall x <- Columns(p) :: x in Columns(q))
    && (forall x <- Columns(q) :: x in Columns(p) || x in cols)
  }

  lemma ReadingLists(env: Env, p: Provenance, op: PipelineOp, cols: Cols, k: nat)
    requires Distinct(Columns(p)) && ListsWhatItReads(op)
    requires OpErrors(env, op, cols) == []
    ensures Extends(p, AfterStep(p, Lower(op, cols), k), cols.Keys)
  {
    hide Distinct, AddOnce, AddAll, OpErrors, ReadColumn, IsPlainAggregate, Lower, AfterStep;
    if op.Agg? || op.Join? {
      ListAdds(env, p, op, cols, k);
    } else {
      AggregateLists(env, p, op, cols, k);
      AddOnceColumns(p, ColumnLineage(ReadColumn(op), [ReadColumn(op)], k));
    }
  }

  lemma ListAdds(env: Env, p: Provenance, op: PipelineOp, cols: Cols, k: nat)
    requires Distinct(Columns(p)) && (op.Agg? || op.Join?)
    requires OpErrors(env, op, cols) == []
    ensures Extends(p, AfterStep(p, Lower(op, cols), k), cols.Keys)
  {
    hide Distinct, AddAll, ColumnsErrors, LowerSpecs, Ir.SpecColumns, AggColumns;
    match op
    case Agg(specs) =>
      SpecColumnsLower(specs);
      ColumnsPresent(AggColumns(specs), "aggregate", cols);
      AddAllColumns(p, AggColumns(specs), k);
    case Join(_, leftOn, _, _) =>
      JoinColumnsPresent(env, op, cols);
      AddAllColumns(p, leftOn, k);
  }

  lemma JoinColumnsPresent(env: Env, op: PipelineOp, cols: Cols)
    requires op.Join? && OpErrors(env, op, cols) == []
    ensures forall c <- op.leftOn :: c in cols
  {
    ColumnsPresent(op.leftOn, "join(left_on)", cols);
  }

  /** The operators that leave the catalog as it is and change no column name. */
  predicate LeavesColumns(op: PipelineOp) {
    || op.Filter? || op.OrderBy? || op.Take? || op.DropNull? || op.FillNull? || op.Chart? || op.Cast? || op.Replace?
    || op.Sample? || op.OutlierIqr? || op.Train? || op.WithDp? || op.Save?
  }

  lemma NothingChanges(p: Provenance, op: PipelineOp, cols: Cols, k: nat)
    requires LeavesColumns(op)
    ensures AfterStep(p, Lower(op, cols), k) == p && ColsAfter(op, cols).Keys == cols.Keys
  {
    hide TypeExpr, LowerFill;
  }

  lemma ReadersKeepNames(op: PipelineOp, cols: Cols)
    ensures ListsWhatItReads(op) ==> ColsAfter(op, cols) == cols
  {
  }

  /** Step by step, the trackers stay equal exactly under the operator's guard. */
  lemma StepAgreesExactly(env: Env, p: Provenance, op: PipelineOp, cols: Cols, k: nat)
    requires Agree(p, cols.Keys) && OpErrors(env, op, cols) == []
    ensures Agree(AfterStep(p, Lower(op, cols), k), ColsAfter(op, cols).Keys) <==> StaysEqual(op, cols.Keys)
  {
    hide OpErrors, Lower, AfterStep, ColsAfter, Distinct;
    if LeavesColumns(op) {
      NothingChanges(p, op, cols, k);
    } else if ListsWhatItReads(op) {
      ReadingLists(env, p, op, cols, k);
      ReadersKeepNames(op, cols);
    } else if op.Predict? {
      PredictLists(p, op, cols, k);
    } else if op.Corr? || op.Count? {
      AddingLists(p, op, cols, k);
      AddersKeepNames(op, cols);
    } else {
      ReshapingAgrees(env, p, op, cols, k);
    }
  }

  lemma PredictLists(p: Provenance, op: PipelineOp, cols: Cols, k: nat)
    requires op.Predict?
    ensures AfterStep(p, Lower(op, cols), k) == p
    ensures ColsAfter(op, cols).Keys == cols.Keys + if op.asCol.Some? then {op.asCol.value} else {}
  {
  }

  lemma AddersKeepNames(op: PipelineOp, cols: Cols)
    ensures (op.Corr? || op == Count(None) || op.GroupBy?) ==> ColsAfter(op, cols) == cols
  {
  }

  lemma ReshapingNames(env: Env, op: PipelineOp, cols: Cols)
    requires op.Select? || op.GroupBy? || op.WithColumn? || op.Rename? || op.Histogram?
    requires OpErrors(env, op, cols) == []
    ensures var names := ColsAfter(op, cols).Keys;
      match op
      case Select(cs) => forall x :: x in names <==> x in cols && x in cs
      case GroupBy(k) => names == cols.Keys && k in cols
      case WithColumn(name, _) => names == cols.Keys + {name}
      case Rename(o, n) => o in cols && names == cols.Keys - {o} + {n}
      case Histogram(_, _) => names == {"bin", "n"}
  {
    hide TypeExpr, ExprErrors, ColumnsErrors;
  }

  lemma ReshapingAgrees(env: Env, p: Provenance, op: PipelineOp, cols: Cols, k: nat)
    requires op.Select? || op.GroupBy? || op.WithColumn? || op.Rename? || op.Histogram?
    requires Agree(p, cols.Keys) && OpErrors(env, op, cols) == []
    ensures Agree(AfterStep(p, Lower(op, cols), k), ColsAfter(op, cols).Keys) <==> StaysEqual(op, cols.Keys)
  {
    hide OpErrors, Lower, AfterStep, ColsAfter, Distinct;
    ReshapingLists(p, op, cols, k);
    ReshapingNames(env, op, cols);
    BinAndCount();
  }

  lemma BinAndCount()
    ensures Distinct(["bin", "n"])
  {
  }

  /** Weaker guard, weaker promise: the catalog stays distinct and within the checker's columns. */
  lemma StepStaysWithin(env: Env, p: Provenance, op: PipelineOp, cols: Cols, k: nat)
    requires Within(p, cols.Keys) && OpErrors(env, op, cols) == [] && StaysWithin(op, cols.Keys)
    ensures Within(AfterStep(p, Lower(op, cols), k), ColsAfter(op, cols).Keys)
  {
    hide OpErrors, Lower, AfterStep, ColsAfter, Distinct;
    if LeavesColumns(op) {
      NothingChanges(p, op, cols, k);
    } else if ListsWhatItReads(op) {
      ReadingLists(env, p, op, cols, k);
      ReadersKeepNames(op, cols);
    } else if op.Predict? {
      PredictLists(p, op, cols, k);
    } else if op.Corr? || op.Count? {
      AddingLists(p, op, cols, k);
      AddersKeepNames(op, cols);
    } else {
      ReshapingLists(p, op, cols, k);
      ReshapingNames(env, op, cols);
      BinAndCount();
    }
  }

  // ── Whole pipelines ─────────────────────────────────────────────────────

  /** Every operator performed meets the guard for equality, on the columns it meets. */
  predicate AllStayEqual(env: Env, st: OpState, ops: seq<PipelineOp>)
    decreases |ops|
  {
    ops == [] ||
    (&& StaysEqual(ops[0], st.cols.Keys)
     && (ops[0].Train? || AllStayEqual(env, OpStep(env, st, ops[0]), ops[1..])))
  }

  predicate AllStayWithin(env: Env, st: OpState, ops: seq<PipelineOp>)
    decreases |ops|
  {
    ops == [] ||
    (&& StaysWithin(ops[0], st.cols.Keys)
     && (ops[0].Train? || AllStayWithin(env, OpStep(env, st, ops[0]), ops[1..])))
  }

  lemma {:induction false} LaterStepsDoNotMatter(p: Provenance, steps: seq<Ir.Step>, step: Ir.Step, n: nat)
    requires n <= |steps|
    ensures AfterSteps(p, steps + [step], n) == AfterSteps(p, steps, n)
  {
    hide AfterStep;
    if n > 0 {
      LaterStepsDoNotMatter(p, steps, step, n - 1);
    }
  }

  lemma OneMoreStep(p: Provenance, steps: seq<Ir.Step>, step: Ir.Step)
    ensures AfterSteps(p, steps + [step], |steps| + 1) == AfterStep(AfterSteps(p, steps, |steps|), step, |steps| + 1)
  {
    hide AfterStep;
    LaterStepsDoNotMatter(p, steps, step, |steps|);
  }

  function After(seed: Provenance, st: OpState): Provenance {
    AfterSteps(seed, st.steps, |st.steps|)
  }

  lemma NoErrorYet(env: Env, st: OpState, op: PipelineOp)
    requires OpStep(env, st, op).errors == []
    ensures st.errors == [] && OpErrors(env, op, st.cols) == []
  {
    hide OpErrors;
  }

  lemma StepWalks(env: Env, seed: Provenance, st: OpState, op: PipelineOp)
    ensures After(seed, OpStep(env, st, op)) == AfterStep(After(seed, st), Lower(op, st.cols), |st.steps| + 1)
  {
    hide OpErrors, Lower, ColsAfter, GroupAfter, AfterStep;
    OneMoreStep(seed, st.steps, Lower(op, st.cols));
  }

  /** The trackers agree after the first n operators. */
  ghost predicate AgreeAfter(env: Env, seed: Provenance, st: OpState, ops: seq<PipelineOp>, n: nat)
    requires n <= |ops|
  {
    var t := RunOps(env, st, ops[..n]);
    Agree(After(seed, t), t.cols.Keys)
  }

  lemma FirstOfPrefix(env: Env, st: OpState, ops: seq<PipelineOp>, n: nat)
    requires 0 < n <= |ops|
    ensures var next := OpStep(env, st, ops[0]);
      RunOps(env, st, ops[..n]) == if ops[0].Train? then next else RunOps(env, next, ops[1..][..n - 1])
  {
    hide OpStep;
    assert ops[..n][0] == ops[0] && ops[..n][1..] == ops[1..][..n - 1];
  }

  lemma PrefixAgrees(env: Env, seed: Provenance, st: OpState, ops: seq<PipelineOp>, n: nat)
    requires 0 < n <= |ops|
    ensures var next := OpStep(env, st, ops[0]);
      AgreeAfter(env, seed, st, ops, n)
      <==> if ops[0].Train? then Agree(After(seed, next), next.cols.Keys) else AgreeAfter(env, seed, next, ops[1..], n - 1)
  {
    hide OpStep, RunOps, After, Agree;
    FirstOfPrefix(env, st, ops, n);
  }

  lemma NoOperators(env: Env, seed: Provenance, st: OpState, ops: seq<PipelineOp>)
    ensures AgreeAfter(env, seed, st, ops, 0) <==> Agree(After(seed, st), st.cols.Keys)
  {
    hide After, Agree;
    assert ops[..0] == [];
  }

  /** The trackers agree after every prefix of the operators exactly when every operator performed meets its guard. */
  lemma {:induction false} AgreeThroughoutExactly(env: Env, seed: Provenance, st: OpState, ops: seq<PipelineOp>)
    requires RunOps(env, st, ops).errors == [] && Agree(After(seed, st), st.cols.Keys)
    ensures (forall n | 0 <= n <= |ops| :: AgreeAfter(env, seed, st, ops, n)) <==> AllStayEqual(env, st, ops)
    decreases |ops|
  {
    hide OpErrors, Lower, ColsAfter, GroupAfter, AfterStep, AfterSteps, Agree, StaysEqual, AgreeAfter, OpStep, After;
    NoOperators(env, seed, st, ops);
    if ops != [] {
      var (next, rest) := (OpStep(env, st, ops[0]), ops[1..]);
      AgreeAtFirst(env, seed, st, ops);
      NoOperators(env, seed, next, rest);
      if !ops[0].Train? && StaysEqual(ops[0], st.cols.Keys) {
        AgreeThroughoutExactly(env, seed, next, rest);
      }
      PrefixAgrees(env, seed, st, ops, 1);
      if AllStayEqual(env, st, ops) {
        forall n | 0 <= n <= |ops| ensures AgreeAfter(env, seed, st, ops, n) {
          if n > 0 {
            PrefixAgrees(env, seed, st, ops, n);
          }
        }
      } else if !ops[0].Train? && StaysEqual(ops[0], st.cols.Keys) {
        var n :| 0 <= n <= |rest| && !AgreeAfter(env, seed, next, rest, n);
        PrefixAgrees(env, seed, st, ops, n + 1);
      }
    }
  }

  lemma AgreeAtFirst(env: Env, seed: Provenance, st: OpState, ops: seq<PipelineOp>)
    requires ops != [] && RunOps(env, st, ops).errors == [] && Agree(After(seed, st), st.cols.Keys)
    ensures var next := OpStep(env, st, ops[0]);
      && (Agree(After(seed, next), next.cols.Keys) <==> StaysEqual(ops[0], st.cols.Keys))
      && (!ops[0].Train? ==> RunOps(env, next, ops[1..]).errors == [])
  {
    hide OpErrors, Lower, ColsAfter, GroupAfter, AfterStep, AfterSteps, Agree, StaysEqual;
    Scoping.ErrorsStay(env, OpStep(env, st, ops[0]), ops[1..]);
    NoErrorYet(env, st, ops[0]);
    StepWalks(env, seed, st, ops[0]);
    StepAgreesExactly(env, After(seed, st), ops[0], st.cols, |st.steps| + 1);
  }

  lemma OperatorsAgree(env: Env, seed: Provenance, st: OpState, ops: seq<PipelineOp>)
    requires RunOps(env, st, ops).errors == [] && AllStayEqual(env, st, ops)
    requires Agree(After(seed, st), st.cols.Keys)
    ensures var t := RunOps(env, st, ops); Agree(After(seed, t), t.cols.Keys)
  {
    hide RunOps, Agree, AllStayEqual;
    AgreeThroughoutExactly(env, seed, st, ops);
    assert AgreeAfter(env, seed, st, ops, |ops|) && ops[..|ops|] == ops;
  }

  lemma {:induction false} OperatorsStayWithin(env: Env, seed: Provenance, st: OpState, ops: seq<PipelineOp>)
    requires RunOps(env, st, ops).errors == [] && AllStayWithin(env, st, ops)
    requires Within(After(seed, st), st.cols.Keys)
    ensures var t := RunOps(env, st, ops); Within(After(seed, t), t.cols.Keys)
    decreases |ops|
  {
    hide OpErrors, Lower, ColsAfter, GroupAfter, AfterStep, AfterSteps, Within, StaysWithin;
    if ops != [] {
      var next := OpStep(env, st, ops[0]);
      Scoping.ErrorsStay(env, next, ops[1..]);
      NoErrorYet(env, st, ops[0]);
      StepWalks(env, seed, st, ops[0]);
      StepStaysWithin(env, After(seed, st), ops[0], st.cols, |st.steps| + 1);
      if !ops[0].Train? {
        OperatorsStayWithin(env, seed, next, ops[1..]);
      }
    }
  }

  lemma SchemaNames(cols: Cols)
    ensures forall c :: c in Ir.Names(SchemaFromMap(cols)) <==> c in cols
    ensures Distinct(Ir.Names(SchemaFromMap(cols)))
  {
    var m := map c | c in cols :: ToIrColType(cols[c]);
    assert m.Keys == cols.Keys;
  }

  lemma SeedAgrees(cols: Cols)
    ensures Agree(Seeded(Ir.Names(SchemaFromMap(cols))), cols.Keys)
  {
    hide SchemaFromMap;
    SchemaNames(cols);
  }

  /** The catalog of a checked pipeline lists the columns of its output schema, each once. */
  lemma CatalogListsTheOutput(env: Env, id: nat, binding: Option<string>, source: Ir.Source, cols: Cols, ops: seq<PipelineOp>)
    requires RunOps(env, StartOps(Some(cols)), ops).errors == []
    requires AllStayEqual(env, StartOps(Some(cols)), ops)
    ensures var node := NodeOf(id, binding, source, Some(cols), RunOps(env, StartOps(Some(cols)), ops));
            Agree(Lineage(node), set c | c in Ir.Names(node.outputSchema))
  {
    hide RunOps, AllStayEqual, SchemaFromMap, Distinct;
    SeedAgrees(cols);
    OperatorsAgree(env, Seeded(Ir.Names(SchemaFromMap(cols))), StartOps(Some(cols)), ops);
    SchemaNames(RunOps(env, StartOps(Some(cols)), ops).cols);
  }

  /** The node's catalog lists the columns of its output schema, each once. */
  ghost predicate ListsOutput(node: Ir.PipelineNode) {
    Agree(Lineage(node), set c | c in Ir.Names(node.outputSchema))
  }

  /** Cut after any number of operators, the pipeline's catalog lists its output: that is what the guards say, exactly. */
  lemma EveryPrefixListsItsOutputExactly(
      env: Env, id: nat, binding: Option<string>, source: Ir.Source, cols: Cols, ops: seq<PipelineOp>)
    requires RunOps(env, StartOps(Some(cols)), ops).errors == []
    ensures (forall n | 0 <= n <= |ops| ::
        ListsOutput(NodeOf(id, binding, source, Some(cols), RunOps(env, StartOps(Some(cols)), ops[..n]))))
      <==> AllStayEqual(env, StartOps(Some(cols)), ops)
  {
    hide RunOps, AllStayEqual, SchemaFromMap, Distinct, ListsOutput, AgreeAfter;
    var (seed, st) := (Seeded(Ir.Names(SchemaFromMap(cols))), StartOps(Some(cols)));
    SeedAgrees(cols);
    AgreeThroughoutExactly(env, seed, st, ops);
    forall n | 0 <= n <= |ops|
      ensures ListsOutput(NodeOf(id, binding, source, Some(cols), RunOps(env, st, ops[..n])))
        <==> AgreeAfter(env, seed, st, ops, n)
    {
      NodeLists(env, id, binding, source, cols, ops, n);
    }
  }

  lemma NodeLists(env: Env, id: nat, binding: Option<string>, source: Ir.Source, cols: Cols, ops: seq<PipelineOp>, n: nat)
    requires n <= |ops|
    ensures var (seed, st) := (Seeded(Ir.Names(SchemaFromMap(cols))), StartOps(Some(cols)));
      ListsOutput(NodeOf(id, binding, source, Some(cols), RunOps(env, st, ops[..n]))) <==> AgreeAfter(env, seed, st, ops, n)
  {
    hide RunOps, SchemaFromMap, Distinct;
    SchemaNames(RunOps(env, StartOps(Some(cols)), ops[..n]).cols);
  }

  /** Even with grouping and predictions, the catalog lists only output columns, each once. */
  lemma CatalogStaysWithinTheOutput(env: Env, id: nat, binding: Option<string>, source: Ir.Source, cols: Cols,
                                    ops: seq<PipelineOp>)
    requires RunOps(env, StartOps(Some(cols)), ops).errors == []
    requires AllStayWithin(env, StartOps(Some(cols)), ops)
    ensures var node := NodeOf(id, binding, source, Some(cols), RunOps(env, StartOps(Some(cols)), ops));
            Within(Lineage(node), set c | c in Ir.Names(node.outputSchema))
  {
    hide RunOps, AllStayWithin, SchemaFromMap, Distinct;
    SeedAgrees(cols);
    OperatorsStayWithin(env, Seeded(Ir.Names(SchemaFromMap(cols))), StartOps(Some(cols)), ops);
    SchemaNames(RunOps(env, StartOps(Some(cols)), ops).cols);
  }

  /** A bare count lists a column with no name, which no schema has. */
  lemma BareCountListsNoName(env: Env, p: Provenance, cols: Cols, k: nat)
    requires Agree(p, cols.Keys) && "" !in cols
    ensures OpErrors(env, Count(None), cols) == []
    ensures "" in Columns(AfterStep(p, Lower(Count(None), cols), k))
  {
    hide Distinct;
    PushColumn(p, ColumnLineage("", [""], k));
  }

  /** Renaming onto an existing column lists it twice, while the checker keeps one. */
  lemma RenameCollides(env: Env, p: Provenance, o: string, n: string, cols: Cols, k: nat)
    requires Agree(p, cols.Keys) && o in cols && n in cols && n != o
    ensures OpErrors(env, Rename(o, n), cols) == []
    ensures !Distinct(Columns(AfterStep(p, Lower(Rename(o, n), cols), k)))
  {
    hide Distinct, Lower, AfterStep;
    RenameLists(p, Rename(o, n), cols, k);
  }
}
