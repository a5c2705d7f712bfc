/** Lowering keeps a program's meaning: running the IR is running the source. */
module Preservation {
  import opened Ast
  import opened Frames
  import opened Lowering
  import opened Checking
  import opened Wrappers
  import Ir
  import Plans
  import Programs

  // ── The two machines' states side by side ───────────────────────────────

  function PlanState(s: Programs.State): Plans.State {
    Plans.State(s.frame, s.group)
  }

  function PlanTables(env: Programs.Env): Plans.Tables {
    Plans.Tables(env.frames, env.models)
  }

  function StateOutcome(o: Outcome<Programs.State>): Outcome<Plans.State> {
    match o
    case Ran(s) => Ran(PlanState(s))
    case MissingColumn(c) => MissingColumn(c)
    case Unbound(v) => Unbound(v)
  }

  function ProductOutcome(o: Outcome<Programs.Product>): Outcome<Plans.Result> {
    match o
    case Ran(FrameProduct(f)) => Ran(Plans.Table(f))
    case Ran(ModelProduct(m)) => Ran(Plans.Trained(m))
    case MissingColumn(c) => MissingColumn(c)
    case Unbound(v) => Unbound(v)
  }

  function WorldOutcome(o: Outcome<Programs.World>): Outcome<Plans.Tables> {
    match o
    case Ran(w) => Ran(PlanTables(w.env))
    case MissingColumn(c) => MissingColumn(c)
    case Unbound(v) => Unbound(v)
  }

  // ── Expressions, fills and statistics ───────────────────────────────────

  lemma {:induction false} TypingKeepsValue(g: Engine, e: Expr, cols: Cols, row: Row)
    ensures Plans.Eval(g, TypeExpr(e, cols), row) == Programs.Eval(g, e, row)
  {
    match e
    case BinOp(l, _, r) =>
      TypingKeepsValue(g, l, cols, row);
      TypingKeepsValue(g, r, cols, row);
    case _ =>
  }

  lemma {:induction false} TypingKeepsRefs(e: Expr, cols: Cols)
    ensures Ir.Refs(TypeExpr(e, cols)) == Programs.Refs(e)
  {
    match e
    case BinOp(l, _, r) =>
      TypingKeepsRefs(l, cols);
      TypingKeepsRefs(r, cols);
    case _ =>
  }

  lemma TypingKeepsRows(g: Engine, e: Expr, cols: Cols, f: Frame)
    ensures Plans.EvalRows(g, TypeExpr(e, cols), f) == Programs.EvalRows(g, e, f)
  {
    hide TypeExpr, Plans.Eval, Programs.Eval;
    forall i | 0 <= i < |f.rows|
      ensures Plans.Eval(g, TypeExpr(e, cols), f.rows[i]) == Programs.Eval(g, e, f.rows[i])
    {
      TypingKeepsValue(g, e, cols, f.rows[i]);
    }
  }

  lemma SpecsKeepStatistics(specs: seq<AggSpec>)
    ensures Plans.StatisticsOf(LowerSpecs(specs)) == Programs.StatisticsOf(specs)
    ensures Ir.SpecColumns(LowerSpecs(specs)) == AggColumns(specs)
  {
  }

  lemma FillKeepsValue(g: Engine, v: FillNullValue, column: seq<Value>)
    ensures Plans.Fill(g, LowerFill(v), column) == Programs.Fill(g, v, column)
  {
  }

  // ── Operators ───────────────────────────────────────────────────────────

  lemma {:induction false} ReadingLifts(cs: seq<string>, f: Frame, o: Outcome<Programs.State>)
    ensures Reading(cs, f, StateOutcome(o)) == StateOutcome(Reading(cs, f, o))
  {
    if cs != [] {
      ReadingLifts(cs[1..], f, o);
    }
  }

  predicate SameMeaning(g: Engine, env: Programs.Env, s: Programs.State, op: PipelineOp, cols: Cols)
    requires !op.Train?
  {
    && !(Lower(op, cols).ML? && Lower(op, cols).ml.Train?)
    && Plans.EvalStep(g, PlanTables(env), PlanState(s), Lower(op, cols)) == StateOutcome(Programs.EvalOp(g, env, s, op))
  }

  /** The statistic of a plain aggregate, and the column it reads. */
  function PlainStatistic(op: PipelineOp): (seq<string>, Statistic)
    requires IsPlainAggregate(op)
  {
    match op
    case Count(None) => ([], RowCount)
    case Count(Some(c)) => ([c], CountOf(c))
    case Sum(c) => ([c], SumOf(c))
    case Mean(c) => ([c], MeanOf(c))
    case Min(c) => ([c], MinOf(c))
    case Max(c) => ([c], MaxOf(c))
    case Median(c) => ([c], MedianOf(c))
    case Variance(c) => ([c], VarianceOf(c))
    case Std(c) => ([c], StdOf(c))
    case Skew(c) => ([c], SkewOf(c))
    case Kurtosis(c) => ([c], KurtosisOf(c))
  }

  lemma AggregateEvaluates(g: Engine, env: Programs.Env, s: Programs.State, op: PipelineOp)
    requires IsPlainAggregate(op)
    ensures var (cs, stat) := PlainStatistic(op);
            Programs.EvalOp(g, env, s, op) == Reading(cs, s.frame, Programs.Summarized(g, s, stat))
  {
    hide Programs.Summarized;
  }

  lemma AggregateLowers(op: PipelineOp, cols: Cols)
    requires IsPlainAggregate(op)
    ensures var (cs, stat) := PlainStatistic(op);
      && Lower(op, cols).Data? && Lower(op, cols).data.Aggregate?
      && (var data := Lower(op, cols).data;
          stat == Plans.StatisticOf(data.kind, data.col) && cs == if data.kind.KLen? then [] else [data.col])
  {
  }

  lemma AggregatesMean(g: Engine, env: Programs.Env, s: Programs.State, op: PipelineOp, cols: Cols)
    requires IsPlainAggregate(op)
    ensures SameMeaning(g, env, s, op, cols)
  {
    hide Reading, PlainStatistic, Lower, IsPlainAggregate, Programs.EvalOp, Plans.StatisticOf;
    var (cs, stat) := PlainStatistic(op);
    AggregateEvaluates(g, env, s, op);
    AggregateLowers(op, cols);
    ReadingLifts(cs, s.frame, Programs.Summarized(g, s, stat));
  }

  lemma PartsMean(g: Engine, env: Programs.Env, s: Programs.State, op: PipelineOp, cols: Cols)
    requires HasParts(op)
    ensures SameMeaning(g, env, s, op, cols)
  {
    hide Reading, TypeExpr, Ir.Refs, Programs.Refs, Plans.EvalRows, Programs.EvalRows, LowerFill, LowerSpecs;
    hide Plans.Fill, Programs.Fill, Plans.StatisticsOf, Programs.StatisticsOf, Ir.SpecColumns, AggColumns;
    hide Choose, TruePositions, SetColumn, FillColumn, Column;
    var f := s.frame;
    match op
    case Filter(e) =>
      TypingKeepsRefs(e, cols);
      TypingKeepsRows(g, e, cols, f);
      ReadingLifts(Programs.Refs(e), f, Programs.With(s, Choose(f, TruePositions(Programs.EvalRows(g, e, f)))));
    case WithColumn(name, e) =>
      TypingKeepsRefs(e, cols);
      TypingKeepsRows(g, e, cols, f);
      ReadingLifts(Programs.Refs(e), f, Programs.With(s, SetColumn(f, name, Programs.EvalRows(g, e, f))));
    case FillNull(c, v) =>
      FillKeepsValue(g, v, Column(f, c));
      ReadingLifts([c], f, Programs.With(s, FillColumn(f, c, Programs.Fill(g, v, Column(f, c)))));
    case Agg(specs) =>
      SpecsKeepStatistics(specs);
      ReadingLifts(AggColumns(specs), f,
        Ran(Programs.State(g.aggregateList(f, s.group, Programs.StatisticsOf(specs)), None)));
  }

  lemma JoinMeans(g: Engine, env: Programs.Env, s: Programs.State, op: PipelineOp, cols: Cols)
    requires op.Join?
    ensures SameMeaning(g, env, s, op, cols)
  {
    hide Reading;
    if op.other in env.frames {
      var right := env.frames[op.other];
      var joined := Programs.With(s, g.join(s.frame, right, op.leftOn, op.rightOn, op.how));
      ReadingLifts(op.rightOn, right, joined);
      ReadingLifts(op.leftOn, s.frame, Reading(op.rightOn, right, joined));
    }
  }

  /** Operators that read columns and give a frame or a summary. */
  predicate IsTableOp(op: PipelineOp) {
    || op.Select? || op.GroupBy? || op.Quantile? || op.Corr?
  }

  /** Operators that choose rows by the values of one column. */
  predicate IsChoice(op: PipelineOp) {
    op.OrderBy? || op.DropNull? || op.OutlierIqr?
  }

  lemma ChoicesMean(g: Engine, env: Programs.Env, s: Programs.State, op: PipelineOp, cols: Cols)
    requires IsChoice(op)
    ensures SameMeaning(g, env, s, op, cols)
  {
    hide Reading, Choose, Column, PresentPositions;
    var f := s.frame;
    match op
    case OrderBy(c, desc) => ReadingLifts([c], f, Programs.With(s, Choose(f, g.sortOrder(Column(f, c), desc))));
    case DropNull(c) => ReadingLifts([c], f, Programs.With(s, Choose(f, PresentPositions(Column(f, c)))));
    case OutlierIqr(c, factor) =>
      ReadingLifts([c], f, Programs.With(s, Choose(f, g.inliers(Column(f, c), factor))));
  }

  lemma TableOpsMean(g: Engine, env: Programs.Env, s: Programs.State, op: PipelineOp, cols: Cols)
    requires IsTableOp(op)
    ensures SameMeaning(g, env, s, op, cols)
  {
    hide Reading, Choose, Column, KeepColumns, PresentPositions;
    var f := s.frame;
    match op
    case Select(cs) => ReadingLifts(cs, f, Programs.With(s, KeepColumns(f, set c | c in cs)));
    case GroupBy(k) => ReadingLifts([k], f, Ran(s.(group := Some(k))));
    case Quantile(c, q) => ReadingLifts([c], f, Programs.Summarized(g, s, QuantileOf(c, q)));
    case Corr(a, b) => ReadingLifts([a, b], f, Programs.Summarized(g, s, CorrOf(a, b)));
  }

  /** Operators that rewrite one column or replace the frame. */
  predicate IsCellOp(op: PipelineOp) {
    op.Cast? || op.Rename? || op.Replace? || op.Histogram?
  }

  lemma CellOpsMean(g: Engine, env: Programs.Env, s: Programs.State, op: PipelineOp, cols: Cols)
    requires IsCellOp(op)
    ensures SameMeaning(g, env, s, op, cols)
  {
    hide Reading, CastColumn, RenameNeeds, RenameOrSkip, ReplaceColumn, HistogramFrame;
    var f := s.frame;
    match op
    case Cast(c, t) => ReadingLifts([c], f, Programs.With(s, CastColumn(g, f, c, t)));
    case Rename(o, n) => ReadingLifts(RenameNeeds(g, o), f, Programs.With(s, RenameOrSkip(f, o, n)));
    case Replace(c, from, to) => ReadingLifts([c], f, Programs.With(s, ReplaceColumn(g, f, c, from, to)));
    case Histogram(c, bins) => ReadingLifts([c], f, Ran(Programs.State(HistogramFrame(g, f, c, bins), None)));
  }

  lemma OtherOpsMean(g: Engine, env: Programs.Env, s: Programs.State, op: PipelineOp, cols: Cols)
    requires op.Take? || op.Sample? || op.WithDp? || op.Save? || op.Predict?
    ensures SameMeaning(g, env, s, op, cols)
  {
    hide Reading, Choose, FirstPositions, NoisedFrame;
  }

  lemma ChartMeans(g: Engine, env: Programs.Env, s: Programs.State, op: PipelineOp, cols: Cols)
    requires op.Chart?
    ensures SameMeaning(g, env, s, op, cols)
  {
    hide Reading;
    ReadingLifts(op.config.Columns(), s.frame, Ran(s));
  }

  /** An operator and the step it lowers to do the same, whatever columns the checker thought there were. */
  lemma StepMeansOperator(g: Engine, env: Programs.Env, s: Programs.State, op: PipelineOp, cols: Cols)
    requires !op.Train?
    ensures SameMeaning(g, env, s, op, cols)
  {
    hide SameMeaning;
    if IsPlainAggregate(op) {
      AggregatesMean(g, env, s, op, cols);
    } else if HasParts(op) {
      PartsMean(g, env, s, op, cols);
    } else if IsTableOp(op) {
      TableOpsMean(g, env, s, op, cols);
    } else if op.Join? {
      JoinMeans(g, env, s, op, cols);
    } else if op.Chart? {
      ChartMeans(g, env, s, op, cols);
    } else if IsChoice(op) {
      ChoicesMean(g, env, s, op, cols);
    } else if IsCellOp(op) {
      CellOpsMean(g, env, s, op, cols);
    } else {
      OtherOpsMean(g, env, s, op, cols);
    }
  }

  // ── Steps are the image of the operators ────────────────────────────────

  /** The operators a pipeline performs: up to and including the first train. */
  function Performed(ops: seq<PipelineOp>): seq<PipelineOp> {
    if ops == [] then []
    else if ops[0].Train? then [ops[0]]
    else [ops[0]] + Performed(ops[1..])
  }

  function RaiseAll(steps: seq<Ir.Step>): seq<PipelineOp> {
    seq(|steps|, i requires 0 <= i < |steps| => Raise(steps[i]))
  }

  lemma RaiseOneMore(steps: seq<Ir.Step>, step: Ir.Step)
    ensures RaiseAll(steps + [step]) == RaiseAll(steps) + [Raise(step)]
  {
    hide Raise;
  }

  lemma StepIsAdded(env: Env, s: OpState, op: PipelineOp)
    ensures OpStep(env, s, op).steps == s.steps + [Lower(op, s.cols)]
  {
    hide OpErrors, Lower, ColsAfter, GroupAfter;
  }

  /** The steps are, one for one and in order, the operators performed. */
  lemma {:induction false} StepsAreTheOperators(env: Env, s: OpState, ops: seq<PipelineOp>)
    ensures RaiseAll(RunOps(env, s, ops).steps) == RaiseAll(s.steps) + Performed(ops)
    ensures s.steps <= RunOps(env, s, ops).steps
    decreases |ops|
  {
    hide OpStep, Lower, Raise, RaiseAll;
    if ops != [] {
      StepIsAdded(env, s, ops[0]);
      LoweringIsFaithful(ops[0], s.cols);
      RaiseOneMore(s.steps, Lower(ops[0], s.cols));
      if !ops[0].Train? {
        StepsAreTheOperators(env, OpStep(env, s, ops[0]), ops[1..]);
        assert RaiseAll(s.steps) + [ops[0]] + Performed(ops[1..]) == RaiseAll(s.steps) + ([ops[0]] + Performed(ops[1..]));
      }
    }
  }

  /** The steps of a pipeline checked from its start: the operators performed, and nothing else. */
  lemma PipelineStepsAreTheOperators(env: Env, cols: Option<Cols>, ops: seq<PipelineOp>)
    ensures var steps := RunOps(env, StartOps(cols), ops).steps;
      && |steps| == |Performed(ops)| <= |ops|
      && forall i | 0 <= i < |steps| :: Raise(steps[i]) == ops[i]
  {
    hide RunOps, Raise, RaiseAll, Performed;
    StepsAreTheOperators(env, StartOps(cols), ops);
    PerformedIsPrefix(ops);
    var steps := RunOps(env, StartOps(cols), ops).steps;
    RaisedOneByOne([]);
    RaisedOneByOne(steps);
    assert RaiseAll([]) + Performed(ops) == Performed(ops);
  }

  lemma RaisedOneByOne(steps: seq<Ir.Step>)
    ensures |RaiseAll(steps)| == |steps| && forall i | 0 <= i < |steps| :: RaiseAll(steps)[i] == Raise(steps[i])
  {
    hide Raise;
  }

  lemma {:induction false} PerformedIsPrefix(ops: seq<PipelineOp>)
    ensures Performed(ops) <= ops
  {
    if ops != [] && !ops[0].Train? {
      PerformedIsPrefix(ops[1..]);
    }
  }

  // ── Pipelines ───────────────────────────────────────────────────────────

  /** The registry the IR runs with knows every network declared so far. */
  predicate Knows(reg: Plans.Registry, models: map<string, seq<LayerKind>>) {
    forall m <- models :: m in reg && reg[m] == models[m]
  }

  lemma TrainMeans(g: Engine, reg: Plans.Registry, env: Env, run: Programs.Env, s: Programs.State, st: OpState, op: PipelineOp)
    requires op.Train? && OpStep(env, st, op).errors == []
    requires Knows(reg, env.models) && run.graphs == env.models
    ensures Plans.EvalSteps(g, reg, PlanTables(run), PlanState(s), [Lower(op, st.cols)])
         == ProductOutcome(Programs.EvalTrain(run, s.frame, op.modelName, op.train))
  {
    hide SweepErrors, VocabErrors, Reading;
    assert op.modelName in env.models;
    var cs, f := [op.train.target], s.frame;
    var model := Model(reg[op.modelName], op.train, f);
    ReadingPresent(cs, f, Ran(Plans.Trained(model)));
    ReadingPresent(cs, f, Ran(Programs.ModelProduct(model)));
    assert Plans.EvalSteps(g, reg, PlanTables(run), PlanState(s), [Lower(op, st.cols)])
        == Plans.EvalTrain(reg, f, op.modelName, op.train);
    assert Reading(cs, f, Ran(Plans.Trained(model))) == ProductOutcome(Reading(cs, f, Ran(Programs.ModelProduct(model)))) by {
      OneColumn(cs[0], f, Ran(Plans.Trained(model)));
      OneColumn(cs[0], f, Ran(Programs.ModelProduct(model)));
    }
  }

  lemma OneStep(g: Engine, reg: Plans.Registry, t: Plans.Tables, s: Plans.State, step: Ir.Step, rest: seq<Ir.Step>)
    requires !(step.ML? && step.ml.Train?)
    ensures var o := Plans.EvalStep(g, t, s, step);
      Plans.EvalSteps(g, reg, t, s, [step] + rest)
      == if o.Ran? then Plans.EvalSteps(g, reg, t, o.value, rest)
         else if o.MissingColumn? then MissingColumn(o.col) else Unbound(o.name)
  {
    hide Plans.EvalStep;
    assert ([step] + rest)[1..] == rest;
  }

  /** Running the steps a checked pipeline lowered to is running its operators. */
  lemma {:induction false} StepsMeanOperators(
      g: Engine, reg: Plans.Registry, env: Env, run: Programs.Env, st: OpState, s: Programs.State, ops: seq<PipelineOp>)
    requires RunOps(env, st, ops).errors == []
    requires Knows(reg, env.models) && run.graphs == env.models
    ensures st.steps <= RunOps(env, st, ops).steps
    ensures Plans.EvalSteps(g, reg, PlanTables(run), PlanState(s), RunOps(env, st, ops).steps[|st.steps|..])
         == ProductOutcome(Programs.EvalOps(g, run, s, ops))
    decreases |ops|
  {
    hide OpErrors, ColsAfter, GroupAfter, Lower, Programs.EvalOp, Plans.EvalStep, Programs.EvalTrain, Plans.EvalTrain, Knows;
    StepsAreTheOperators(env, st, ops);
    if ops == [] {
      assert st.steps[|st.steps|..] == [];
    } else {
      var op, next := ops[0], OpStep(env, st, ops[0]);
      var step := Lower(op, st.cols);
      if op.Train? {
        assert next.steps[|st.steps|..] == [step];
        TrainMeans(g, reg, env, run, s, st, op);
      } else {
        StepMeansOperator(g, run, s, op, st.cols);
        StepsAreTheOperators(env, next, ops[1..]);
        var all := RunOps(env, next, ops[1..]).steps;
        FirstOfRest(st.steps, step, all);
        OneStep(g, reg, PlanTables(run), PlanState(s), step, all[|next.steps|..]);
        match Programs.EvalOp(g, run, s, op)
        case Ran(after) => StepsMeanOperators(g, reg, env, run, next, after, ops[1..]);
        case _ =>
      }
    }
  }

  lemma FirstOfRest(before: seq<Ir.Step>, step: Ir.Step, all: seq<Ir.Step>)
    ensures before + [step] <= all ==> all[|before|..] == [step] + all[|before| + 1..]
  {
  }
}
