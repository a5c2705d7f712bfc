/** Missing columns, operator by operator: what the checker reports against what execution needs. */
module MissingByOperator {
  import opened Ast
  import opened Frames
  import opened Lowering
  import opened Checking
  import opened Wrappers
  import Programs

  /** The report of a missing column that execution needs; a rename needs its column only where it is strict. */
  predicate IsNeeded(strict: bool, e: Error) {
    e.SafeLoadViolation? && (strict || e.context != "rename")
  }

  /** A missing column that execution needs was reported. */
  predicate Stops(strict: bool, errors: Errors) {
    exists e <- errors :: IsNeeded(strict, e)
  }

  /** A missing column was reported. */
  predicate Violates(errors: Errors) {
    exists e <- errors :: e.SafeLoadViolation?
  }

  lemma ViolatesIsStrict(errors: Errors)
    ensures Violates(errors) <==> Stops(true, errors)
  {
    if Violates(errors) {
      var e :| e in errors && e.SafeLoadViolation?;
      assert IsNeeded(true, e);
    }
  }

  lemma StopsEither(strict: bool, a: Errors, b: Errors)
    ensures Stops(strict, a + b) <==> Stops(strict, a) || Stops(strict, b)
  {
    hide IsNeeded;
    if Stops(strict, a) || Stops(strict, b) {
      var e :| e in a + b && IsNeeded(strict, e);
    }
  }

  lemma StopsOne(strict: bool, b: bool, e: Error)
    ensures Stops(strict, When(b, e)) <==> b && IsNeeded(strict, e)
  {
    if b && IsNeeded(strict, e) {
      assert e in When(b, e);
    }
  }

  predicate SomeAbsent(cs: seq<string>, cols: set<string>) {
    exists c <- cs :: c !in cols
  }

  lemma AbsentEither(a: seq<string>, b: seq<string>, cols: set<string>)
    ensures SomeAbsent(a + b, cols) <==> SomeAbsent(a, cols) || SomeAbsent(b, cols)
  {
    if SomeAbsent(a, cols) || SomeAbsent(b, cols) {
      var c :| c in a + b && c !in cols;
    }
  }

  lemma AbsentOne(c: string, cols: set<string>)
    ensures SomeAbsent([c], cols) <==> c !in cols
  {
    assert c in [c];
  }

  // ── What the checker reports for the columns an operator reads ──────────

  lemma {:induction false} ColumnsAreExact(strict: bool, cs: seq<string>, context: string, cols: Cols)
    requires strict || context != "rename"
    ensures Stops(strict, ColumnsErrors(cs, context, cols)) <==> SomeAbsent(cs, cols.Keys)
  {
    hide Stops, SomeAbsent;
    if cs == [] {
      NothingIsAbsent(strict, cols.Keys);
    } else {
      var n := |cs| - 1;
      assert cs == cs[..n] + [cs[n]];
      ColumnsAreExact(strict, cs[..n], context, cols);
      StopsEither(strict, ColumnsErrors(cs[..n], context, cols), ColumnErrors(cs[n], context, cols));
      StopsOne(strict, cs[n] !in cols, SafeLoadViolation(cs[n], context));
      AbsentEither(cs[..n], [cs[n]], cols.Keys);
      AbsentOne(cs[n], cols.Keys);
    }
  }

  lemma NothingIsAbsent(strict: bool, cols: set<string>)
    ensures !SomeAbsent([], cols) && !Stops(strict, [])
  {
  }

  lemma {:induction false} ExpressionsAreExact(strict: bool, e: Expr, cols: Cols)
    ensures Stops(strict, ExprErrors(e, cols)) <==> SomeAbsent(Programs.Refs(e), cols.Keys)
  {
    hide Stops, SomeAbsent;
    NothingIsAbsent(strict, cols.Keys);
    match e
    case Ident(c) =>
      StopsOne(strict, c !in cols, SafeLoadViolation(c, "expression"));
      AbsentOne(c, cols.Keys);
    case BinOp(l, _, r) =>
      ExpressionsAreExact(strict, l, cols);
      ExpressionsAreExact(strict, r, cols);
      StopsEither(strict, ExprErrors(l, cols), ExprErrors(r, cols));
      AbsentEither(Programs.Refs(l), Programs.Refs(r), cols.Keys);
    case _ =>
  }

  /** The operators that neither aggregate, join, train nor predict. */
  predicate Simple(op: PipelineOp) {
    || op.Filter? || op.Select? || op.OrderBy? || op.Take? || op.Sample? || op.DropNull? || op.FillNull? || op.Cast?
    || op.Rename? || op.Replace? || op.WithColumn? || op.Histogram? || op.OutlierIqr? || op.Chart? || op.Save?
    || op.WithDp?
  }

  /** The columns an operator cannot do without. */
  function Reads(strict: bool, op: PipelineOp): seq<string>
    requires Simple(op)
  {
    match op
    case Filter(e) => Programs.Refs(e)
    case Select(cs) => cs
    case OrderBy(c, _) => [c]
    case Take(_) => []
    case Sample(_, _) => []
    case DropNull(c) => [c]
    case FillNull(c, _) => [c]
    case Cast(c, _) => [c]
    case Rename(o, _) => if strict then [o] else []
    case Replace(c, _, _) => [c]
    case WithColumn(_, e) => Programs.Refs(e)
    case Histogram(c, _) => [c]
    case OutlierIqr(c, _) => [c]
    case Chart(config) => config.Columns()
    case Save(_, _) => []
    case WithDp(_) => []
  }

  /** The column names after an operator whose columns all exist. */
  function NamesAfter(op: PipelineOp, cols: set<string>): set<string> {
    match op
    case Select(cs) => cols * set c | c in cs
    case WithColumn(name, _) => cols + {name}
    case Rename(o, n) => if o in cols then cols - {o} + {n} else cols
    case Histogram(_, _) => {"bin", "n"}
    case _ => cols
  }

  lemma OneReadIsExact(strict: bool, c: string, context: string, cols: Cols)
    requires strict || context != "rename"
    ensures Stops(strict, ColumnErrors(c, context, cols)) <==> SomeAbsent([c], cols.Keys)
  {
    hide Stops, SomeAbsent;
    StopsOne(strict, c !in cols, SafeLoadViolation(c, context));
    AbsentOne(c, cols.Keys);
  }

  lemma FillsAndCastsAreExact(strict: bool, env: Env, op: PipelineOp, cols: Cols)
    requires op.FillNull? || op.Cast?
    ensures Stops(strict, OpErrors(env, op, cols)) <==> SomeAbsent(Reads(strict, op), cols.Keys)
  {
    hide Stops, SomeAbsent, ColumnErrors, When;
    match op
    case FillNull(c, _) =>
      var warn, other := c in cols && !cols[c].option && cols[c].name != "unknown", Other(FillOnNonNullable);
      OneReadIsExact(strict, c, "fillNull", cols);
      StopsOne(strict, warn, other);
      StopsEither(strict, ColumnErrors(c, "fillNull", cols), When(warn, other));
    case Cast(c, t) =>
      var bad, other := t !in {"float", "int", "str", "bool"}, Other(UnknownCastType);
      OneReadIsExact(strict, c, "cast", cols);
      StopsOne(strict, bad, other);
      StopsEither(strict, When(bad, other), ColumnErrors(c, "cast", cols));
  }

  /** An operator is reported for a missing column exactly when one it reads is absent. */
  lemma ReportsAreExact(strict: bool, env: Env, op: PipelineOp, cols: Cols)
    requires Simple(op)
    ensures Stops(strict, OpErrors(env, op, cols)) <==> SomeAbsent(Reads(strict, op), cols.Keys)
  {
    hide Stops, SomeAbsent, ColumnErrors, ColumnsErrors, ExprErrors, FillErrors, Programs.Refs;
    if op.FillNull? || op.Cast? {
      FillsAndCastsAreExact(strict, env, op, cols);
    } else if ReadsOne(op) {
      SingleReadsAreExact(strict, env, op, cols);
    } else {
      NothingIsAbsent(strict, cols.Keys);
      match op
      case Filter(e) => ExpressionsAreExact(strict, e, cols);
      case WithColumn(_, e) => ExpressionsAreExact(strict, e, cols);
      case Select(cs) => ColumnsAreExact(strict, cs, "select", cols);
      case Chart(config) => ColumnsAreExact(strict, config.Columns(), "chart", cols);
      case _ =>
    }
  }

  predicate ReadsOne(op: PipelineOp) {
    op.OrderBy? || op.DropNull? || op.Rename? || op.Replace? || op.Histogram? || op.OutlierIqr?
  }

  lemma RenameReadIsExact(strict: bool, c: string, cols: Cols)
    ensures Stops(strict, ColumnErrors(c, "rename", cols)) <==> strict && SomeAbsent([c], cols.Keys)
    ensures !SomeAbsent([], cols.Keys)
  {
    hide Stops;
    StopsOne(strict, c !in cols, SafeLoadViolation(c, "rename"));
    AbsentOne(c, cols.Keys);
  }

  lemma SingleReadsAreExact(strict: bool, env: Env, op: PipelineOp, cols: Cols)
    requires ReadsOne(op)
    ensures Stops(strict, OpErrors(env, op, cols)) <==> SomeAbsent(Reads(strict, op), cols.Keys)
  {
    hide Stops, SomeAbsent, ColumnErrors;
    match op
    case OrderBy(c, _) => OneReadIsExact(strict, c, "orderBy", cols);
    case DropNull(c) => OneReadIsExact(strict, c, "dropNull", cols);
    case Rename(o, _) => RenameReadIsExact(strict, o, cols);
    case Replace(c, _, _) => OneReadIsExact(strict, c, "replace", cols);
    case Histogram(c, _) => OneReadIsExact(strict, c, "aggregate", cols);
    case OutlierIqr(c, _) => OneReadIsExact(strict, c, "aggregate", cols);
  }

  lemma ColumnsTracked(strict: bool, op: PipelineOp, cols: Cols)
    requires Simple(op) && !SomeAbsent(Reads(strict, op), cols.Keys)
    ensures ColsAfter(op, cols).Keys == NamesAfter(op, cols.Keys)
  {
    hide TypeExpr, Programs.Refs;
    if op.Cast? {
      assert op.col in Reads(strict, op);
    }
  }

  // ── What execution does ─────────────────────────────────────────────────

  /** The frame an operator makes once its columns are there. */
  function FrameAfter(g: Engine, f: Frame, op: PipelineOp): Frame
    requires Simple(op)
  {
    match op
    case Filter(e) => Choose(f, TruePositions(Programs.EvalRows(g, e, f)))
    case Select(cs) => KeepColumns(f, set c | c in cs)
    case OrderBy(c, desc) => Choose(f, g.sortOrder(Column(f, c), desc))
    case Take(n) => Choose(f, FirstPositions(|f.rows|, n))
    case Sample(n, seed) => Choose(f, g.sampled(|f.rows|, n, seed))
    case DropNull(c) => Choose(f, PresentPositions(Column(f, c)))
    case FillNull(c, v) => FillColumn(f, c, Programs.Fill(g, v, Column(f, c)))
    case Cast(c, t) => CastColumn(g, f, c, t)
    case Rename(o, n) => RenameOrSkip(f, o, n)
    case Replace(c, from, to) => ReplaceColumn(g, f, c, from, to)
    case WithColumn(name, e) => SetColumn(f, name, Programs.EvalRows(g, e, f))
    case Histogram(c, bins) => HistogramFrame(g, f, c, bins)
    case OutlierIqr(c, factor) => Choose(f, g.inliers(Column(f, c), factor))
    case Chart(_) => f
    case Save(_, _) => f
    case WithDp(args) => NoisedFrame(g, args, f)
  }

  lemma FrameAfterNames(g: Engine, f: Frame, op: PipelineOp)
    requires Simple(op) && !SomeAbsent(Reads(g.strictRename, op), f.cols)
    ensures FrameAfter(g, f, op).cols == NamesAfter(op, f.cols)
  {
    hide Programs.EvalRows, Programs.Refs, TruePositions, PresentPositions, Programs.Fill;
    if op.FillNull? || op.Cast? || op.Replace? {
      assert op.col in Reads(g.strictRename, op);
    }
  }

  lemma OperatorReads(g: Engine, run: Programs.Env, s: Programs.State, op: PipelineOp)
    requires Simple(op) && s.group == None
    ensures Programs.EvalOp(g, run, s, op)
         == Reading(Reads(g.strictRename, op), s.frame, Ran(Programs.State(FrameAfter(g, s.frame, op), None)))
  {
    hide Choose, Programs.EvalRows, Programs.Refs, TruePositions, PresentPositions, Programs.Fill, KeepColumns, FillColumn;
    hide CastColumn, RenameOrSkip, ReplaceColumn, SetColumn, HistogramFrame, NoisedFrame, Column, FirstPositions, Reading;
    ReadingPresent([], s.frame, Ran(Programs.State(FrameAfter(g, s.frame, op), None)));
  }

  /** Execution of one operator stops for a missing column exactly when the checker reports one it needs. */
  lemma OperatorIsExact(g: Engine, run: Programs.Env, env: Env, s: Programs.State, op: PipelineOp, cols: Cols)
    requires Simple(op) && s.group == None && s.frame.cols == cols.Keys
    ensures var o := Programs.EvalOp(g, run, s, op);
      if Stops(g.strictRename, OpErrors(env, op, cols)) then o.MissingColumn?
      else o.Ran? && o.value.group == None && o.value.frame.cols == ColsAfter(op, cols).Keys
  {
    hide Reads, NamesAfter, FrameAfter, OpErrors, ColsAfter, Programs.EvalOp, Stops, Simple, Reading;
    OperatorReads(g, run, s, op);
    ReportsAreExact(g.strictRename, env, op, cols);
    ReadingPresent(Reads(g.strictRename, op), s.frame, Ran(Programs.State(FrameAfter(g, s.frame, op), None)));
    if !SomeAbsent(Reads(g.strictRename, op), cols.Keys) {
      ColumnsTracked(g.strictRename, op, cols);
      FrameAfterNames(g, s.frame, op);
    }
  }

  // ── Training ────────────────────────────────────────────────────────────

  /** Training needs its target column, exactly; the checker does not look at it. */
  lemma TrainStopsExactly(
      strict: bool, env: Env, run: Programs.Env, model: string, config: TrainConfig, f: Frame, cols: Cols)
    requires run.graphs == env.models && f.cols == cols.Keys && model in env.models
    ensures !Stops(strict, OpErrors(env, Train(model, config), cols))
    ensures var o := Programs.EvalTrain(run, f, model, config);
      if config.target in cols then o == Ran(Programs.ModelProduct(Model(env.models[model], config, f)))
      else o == MissingColumn(config.target)
  {
    hide Stops, SweepErrors, VocabErrors, Reading;
    OneColumn(config.target, f, Ran(Programs.ModelProduct(Model(env.models[model], config, f))));
    OptionsAreNotColumns(strict, config, env.models, model, cols);
    var (sweep, vocab) := (SweepErrors(config), VocabErrors(env.models, model, config.target, cols));
    StopsEither(strict, sweep + [], vocab);
    StopsEither(strict, sweep, []);
    NothingIsAbsent(strict, {});
  }

  lemma OptionsAreNotColumns(
      strict: bool, c: TrainConfig, models: map<string, seq<LayerKind>>, model: string, cols: Cols)
    ensures !Stops(strict, SweepErrors(c)) && !Stops(strict, VocabErrors(models, model, c.target, cols))
  {
    hide Features;
    ZerosAreNotColumns(strict, c.sweep.epochs);
    ZerosAreNotColumns(strict, c.sweep.batchSize);
    RatesAreNotColumns(strict, c.sweep.learningRate);
  }

  lemma {:induction false} ZerosAreNotColumns(strict: bool, xs: seq<nat>)
    ensures !Stops(strict, ZeroErrors(xs))
  {
    if xs != [] {
      ZerosAreNotColumns(strict, xs[..|xs| - 1]);
    }
  }

  lemma {:induction false} RatesAreNotColumns(strict: bool, xs: seq<real>)
    ensures !Stops(strict, RateErrors(xs))
  {
    if xs != [] {
      RatesAreNotColumns(strict, xs[..|xs| - 1]);
    }
  }
}
