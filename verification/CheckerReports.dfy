/** What the checker's reports say: which columns, in which order, how many, and what they count. */
module CheckerReports {
  import opened Ast
  import opened Checking
  import opened Cleanliness
  import opened Frames
  import opened Lowering
  import opened Wrappers
  import Programs

  // ── Missing columns ─────────────────────────────────────────────────────

  /** The columns reported missing, in the order of the reports. */
  function Reported(errors: Errors): seq<string> {
    if errors == [] then []
    else (if errors[0].SafeLoadViolation? then [errors[0].col] else []) + Reported(errors[1..])
  }

  /** The columns that are absent, in the order they are asked for. */
  function Absent(cs: seq<string>, cols: set<string>): seq<string> {
    if cs == [] then [] else (if cs[0] in cols then [] else [cs[0]]) + Absent(cs[1..], cols)
  }

  lemma {:induction false} ReportedTwice(a: Errors, b: Errors)
    ensures Reported(a + b) == Reported(a) + Reported(b)
  {
    if a == [] {
      assert a + b == b;
    } else {
      assert (a + b)[0] == a[0] && (a + b)[1..] == a[1..] + b;
      ReportedTwice(a[1..], b);
    }
  }

  lemma {:induction false} AbsentTwice(a: seq<string>, b: seq<string>, cols: set<string>)
    ensures Absent(a + b, cols) == Absent(a, cols) + Absent(b, cols)
  {
    if a == [] {
      assert a + b == b;
    } else {
      assert (a + b)[1..] == a[1..] + b;
      AbsentTwice(a[1..], b, cols);
    }
  }

  lemma OneReported(c: string, context: string, cols: Cols)
    ensures Reported(ColumnErrors(c, context, cols)) == Absent([c], cols.Keys)
  {
    assert [c][1..] == [];
    var e := SafeLoadViolation(c, context);
    assert [e][1..] == [];
  }

  lemma NoneReported(b: bool, e: Error)
    requires !e.SafeLoadViolation?
    ensures Reported(When(b, e)) == []
  {
    assert [e][1..] == [];
  }

  lemma {:induction false} ColumnsReported(cs: seq<string>, context: string, cols: Cols)
    ensures Reported(ColumnsErrors(cs, context, cols)) == Absent(cs, cols.Keys)
  {
    hide ColumnErrors, Reported, Absent;
    if cs == [] {
      NothingReported(cols.Keys);
    } else {
      var (front, last) := (cs[..|cs| - 1], cs[|cs| - 1]);
      ColumnsReported(front, context, cols);
      ReportedTwice(ColumnsErrors(front, context, cols), ColumnErrors(last, context, cols));
      OneReported(last, context, cols);
      AbsentTwice(front, [last], cols.Keys);
      assert cs == front + [last];
    }
  }

  lemma NothingReported(cols: set<string>)
    ensures Reported([]) == [] && Absent([], cols) == []
  {
  }

  lemma {:induction false} ExpressionReported(e: Expr, cols: Cols)
    ensures Reported(ExprErrors(e, cols)) == Absent(Programs.Refs(e), cols.Keys)
  {
    hide ColumnErrors, Reported, Absent;
    NothingReported(cols.Keys);
    match e
    case Ident(c) => OneReported(c, "expression", cols);
    case BinOp(l, _, r) =>
      ExpressionReported(l, cols);
      ExpressionReported(r, cols);
      ReportedTwice(ExprErrors(l, cols), ExprErrors(r, cols));
      AbsentTwice(Programs.Refs(l), Programs.Refs(r), cols.Keys);
    case _ =>
  }

  /** What an operator needs of the frame it meets, and a join of its known partner too. */
  function Missing(env: Env, op: PipelineOp, cols: Cols): seq<string> {
    Absent(Needs(op), cols.Keys)
    + if op.Join? && op.other in env.vars && op.other !in env.trained then Absent(op.rightOn, env.vars[op.other].Keys) else []
  }

  predicate Several(op: PipelineOp) {
    op.Corr? || op.FillNull? || op.Cast? || op.Join? || op.Train?
  }

  lemma SeveralReported(env: Env, op: PipelineOp, cols: Cols)
    requires Several(op) && !op.Train?
    ensures Reported(OpErrors(env, op, cols)) == Missing(env, op, cols)
  {
    hide ColumnErrors, ColumnsErrors, Reported, Absent, When;
    NothingReported(cols.Keys);
    match op
    case Corr(a, b) =>
      OneReported(a, "aggregate", cols);
      OneReported(b, "aggregate", cols);
      ReportedTwice(ColumnErrors(a, "aggregate", cols), ColumnErrors(b, "aggregate", cols));
      AbsentTwice([a], [b], cols.Keys);
      assert [a] + [b] == [a, b];
    case FillNull(c, _) =>
      var warn := c in cols && !cols[c].option && cols[c].name != "unknown";
      OneReported(c, "fillNull", cols);
      NoneReported(warn, Other(FillOnNonNullable));
      ReportedTwice(ColumnErrors(c, "fillNull", cols), When(warn, Other(FillOnNonNullable)));
    case Cast(c, t) =>
      var bad := t !in {"float", "int", "str", "bool"};
      OneReported(c, "cast", cols);
      NoneReported(bad, Other(UnknownCastType));
      ReportedTwice(When(bad, Other(UnknownCastType)), ColumnErrors(c, "cast", cols));
    case Join(other, l, r, _) =>
      ColumnsReported(l, "join(left_on)", cols);
      UndeclaredIsNoColumn(other);
      if other in env.vars && other !in env.trained {
        ColumnsReported(r, "join(right_on)", env.vars[other]);
        ReportedTwice(ColumnsErrors(l, "join(left_on)", cols), ColumnsErrors(r, "join(right_on)", env.vars[other]));
      } else {
        ReportedTwice(ColumnsErrors(l, "join(left_on)", cols), [UndeclaredVariable(other)]);
      }
  }

  lemma UndeclaredIsNoColumn(v: string)
    ensures Reported([UndeclaredVariable(v)]) == []
  {
    assert [UndeclaredVariable(v)][1..] == [];
  }

  lemma {:induction false} ZerosReportNoColumn(xs: seq<nat>)
    ensures Reported(ZeroErrors(xs)) == []
  {
    if xs != [] {
      var (front, bad) := (xs[..|xs| - 1], xs[|xs| - 1] == 0);
      ZerosReportNoColumn(front);
      NoneReported(bad, Other(BadHyperparameter));
      ReportedTwice(ZeroErrors(front), When(bad, Other(BadHyperparameter)));
    }
  }

  lemma {:induction false} RatesReportNoColumn(xs: seq<real>)
    ensures Reported(RateErrors(xs)) == []
  {
    if xs != [] {
      var (front, bad) := (xs[..|xs| - 1], xs[|xs| - 1] <= 0.0);
      RatesReportNoColumn(front);
      NoneReported(bad, Other(BadHyperparameter));
      ReportedTwice(RateErrors(front), When(bad, Other(BadHyperparameter)));
    }
  }

  lemma TrainReportsNoColumn(env: Env, op: PipelineOp, cols: Cols)
    requires op.Train?
    ensures Reported(OpErrors(env, op, cols)) == []
  {
    hide Reported, When, ZeroErrors, RateErrors;
    var (c, m) := (op.train, op.modelName);
    var split := c.timeColumn.Some? && c.splitStrategy != Sequential;
    var (a, b, r, d) := (When(split, Other(IncompatibleSplit)), ZeroErrors(c.sweep.epochs), RateErrors(c.sweep.learningRate),
                         ZeroErrors(c.sweep.batchSize));
    NoneReported(split, Other(IncompatibleSplit));
    ZerosReportNoColumn(c.sweep.epochs);
    RatesReportNoColumn(c.sweep.learningRate);
    ZerosReportNoColumn(c.sweep.batchSize);
    ReportedTwice(a, b);
    ReportedTwice(a + b, r);
    ReportedTwice(a + b + r, d);
    var (undeclared, vocab) := (When(m !in env.models, Other(UndeclaredModel)), VocabErrors(env.models, m, c.target, cols));
    NoneReported(m !in env.models, Other(UndeclaredModel));
    VocabularyReportsNoColumn(env.models, m, c.target, cols);
    ReportedTwice(a + b + r + d, undeclared);
    ReportedTwice(a + b + r + d + undeclared, vocab);
  }

  lemma VocabularyReportsNoColumn(models: map<string, seq<LayerKind>>, m: string, target: string, cols: Cols)
    ensures Reported(VocabErrors(models, m, target, cols)) == []
  {
    hide Features, Reported, When;
    NothingReported({});
    forall b: bool ensures Reported(When(b, Other(VocabLength))) == [] {
      NoneReported(b, Other(VocabLength));
    }
  }

  /** For every operator: the columns reported missing are the absent ones among those it needs, one by one and in order. */
  lemma ReportsNameTheAbsentColumns(env: Env, op: PipelineOp, cols: Cols)
    ensures Reported(OpErrors(env, op, cols)) == Missing(env, op, cols)
  {
    hide ColumnErrors, ColumnsErrors, ExprErrors, Reported, Absent, FillErrors, JoinErrors, SweepErrors, VocabErrors, When;
    NothingReported(cols.Keys);
    if op.Train? {
      TrainReportsNoColumn(env, op, cols);
    } else if Several(op) {
      SeveralReported(env, op, cols);
    } else {
      PlainReported(env, op, cols);
    }
  }

  lemma PlainReported(env: Env, op: PipelineOp, cols: Cols)
    requires !Several(op)
    ensures Reported(OpErrors(env, op, cols)) == Absent(Needs(op), cols.Keys)
  {
    hide ColumnErrors, ColumnsErrors, ExprErrors, Reported, Absent, FillErrors, JoinErrors, SweepErrors, VocabErrors, When;
    NothingReported(cols.Keys);
    match op
    case Filter(e) => ExpressionReported(e, cols);
    case WithColumn(_, e) => ExpressionReported(e, cols);
    case Select(cs) => ColumnsReported(cs, "select", cols);
    case Agg(specs) => ColumnsReported(AggColumns(specs), "aggregate", cols);
    case Chart(config) => ColumnsReported(config.Columns(), "chart", cols);
    case Predict(m, _) =>
      UndeclaredIsNoColumn(m);
      assert OpErrors(env, op, cols) in {[], [UndeclaredVariable(m)]} by { PredictErrors(env, op, cols); }
    case _ => OneColumnReported(env, op, cols);
  }

  lemma PredictErrors(env: Env, op: PipelineOp, cols: Cols)
    requires op.Predict?
    ensures OpErrors(env, op, cols) in {[], [UndeclaredVariable(op.modelVar)]}
  {
  }

  lemma OneColumnReported(env: Env, op: PipelineOp, cols: Cols)
    requires !Several(op) && !op.Filter? && !op.WithColumn? && !op.Select? && !op.Agg? && !op.Chart? && !op.Predict?
    ensures Reported(OpErrors(env, op, cols)) == Absent(Needs(op), cols.Keys)
  {
    hide ColumnErrors, Reported, Absent;
    NothingReported(cols.Keys);
    forall c, context ensures Reported(ColumnErrors(c, context, cols)) == Absent([c], cols.Keys) {
      OneReported(c, context, cols);
    }
  }

  // ── Options ─────────────────────────────────────────────────────────────

  /** How many of the values are not positive. */
  function Offending(xs: seq<real>): nat {
    if xs == [] then 0 else (if xs[0] > 0.0 then 0 else 1) + Offending(xs[1..])
  }

  lemma {:induction false} OffendingTwice(a: seq<real>, b: seq<real>)
    ensures Offending(a + b) == Offending(a) + Offending(b)
  {
    if a == [] {
      assert a + b == b;
    } else {
      assert (a + b)[1..] == a[1..] + b;
      OffendingTwice(a[1..], b);
    }
  }

  lemma {:induction false} ZerosCounted(xs: seq<nat>)
    ensures |ZeroErrors(xs)| == multiset(xs)[0] && forall e <- ZeroErrors(xs) :: e == Other(BadHyperparameter)
  {
    if xs != [] {
      ZerosCounted(xs[..|xs| - 1]);
      assert xs == xs[..|xs| - 1] + [xs[|xs| - 1]];
    }
  }

  lemma {:induction false} RatesCounted(xs: seq<real>)
    ensures |RateErrors(xs)| == Offending(xs) && forall e <- RateErrors(xs) :: e == Other(BadHyperparameter)
  {
    if xs != [] {
      var (front, last) := (xs[..|xs| - 1], xs[|xs| - 1]);
      RatesCounted(front);
      assert xs == front + [last];
      OffendingTwice(front, [last]);
      assert [last][1..] == [];
    }
  }

  /** One report per bad value of a sweep, after the one about the split. */
  lemma SweepReportsCount(c: TrainConfig)
    ensures var split := c.timeColumn.Some? && c.splitStrategy != Sequential;
      var bad := multiset(c.sweep.epochs)[0] + Offending(c.sweep.learningRate) + multiset(c.sweep.batchSize)[0];
      var errors := SweepErrors(c);
      && |errors| == bad + (if split then 1 else 0)
      && (split ==> errors[0] == Other(IncompatibleSplit))
      && forall i | (if split then 1 else 0) <= i < |errors| :: errors[i] == Other(BadHyperparameter)
  {
    hide ZeroErrors, RateErrors, Offending;
    ZerosCounted(c.sweep.epochs);
    RatesCounted(c.sweep.learningRate);
    ZerosCounted(c.sweep.batchSize);
    var first := When(c.timeColumn.Some? && c.splitStrategy != Sequential, Other(IncompatibleSplit));
    var rest := ZeroErrors(c.sweep.epochs) + RateErrors(c.sweep.learningRate) + ZeroErrors(c.sweep.batchSize);
    assert SweepErrors(c) == first + rest;
    assert forall e <- rest :: e == Other(BadHyperparameter);
    forall i | |first| <= i < |SweepErrors(c)| ensures SweepErrors(c)[i] == Other(BadHyperparameter) {
      assert SweepErrors(c)[i] == rest[i - |first|] && rest[i - |first|] in rest;
    }
  }

  // ── Networks ────────────────────────────────────────────────────────────

  /** A convolution without channels or without a kernel. */
  predicate BadConvAt(ls: seq<LayerKind>, i: nat) {
    i < |ls| && ls[i].Conv1d? && (ls[i].outChannels == 0 || ls[i].kernelSize == 0)
  }

  /** An embedding without dimensions, without a vocabulary, or with an empty vocabulary. */
  predicate BadEmbeddingAt(ls: seq<LayerKind>, i: nat) {
    && i < |ls| && ls[i].Embedding?
    && (ls[i].embedDim == 0
        || match ls[i].vocab case Shared(v) => v == 0 case PerColumn(vs) => vs == [] || 0 in vs)
  }

  predicate LateEmbeddingAt(ls: seq<LayerKind>, i: nat) {
    0 < i < |ls| && ls[i].Embedding?
  }

  function IfCounted(b: bool): nat {
    if b then 1 else 0
  }

  lemma OneCounted(b: bool, given: Tag, t: Tag)
    ensures multiset(When(b, Other(given)))[Other(t)] == IfCounted(b && given == t)
  {
  }

  lemma ConvCounted(ls: seq<LayerKind>, i: nat)
    requires i < |ls| && ls[i].Conv1d?
    ensures var errors := multiset(LayerErrors(ls[i], i));
      && errors[Other(BadConv)] == IfCounted(BadConvAt(ls, i))
      && errors[Other(BadEmbedding)] == IfCounted(BadEmbeddingAt(ls, i))
      && errors[Other(EmbeddingNotFirst)] == IfCounted(LateEmbeddingAt(ls, i))
      && errors[Other(NoTrainableLayer)] == 0
  {
    hide When;
    var bad := ls[i].outChannels == 0 || ls[i].kernelSize == 0;
    forall t ensures multiset(When(bad, Other(BadConv)))[Other(t)] == IfCounted(bad && BadConv == t) {
      OneCounted(bad, BadConv, t);
    }
  }

  lemma EmbeddingCounted(ls: seq<LayerKind>, i: nat)
    requires i < |ls| && ls[i].Embedding?
    ensures var errors := multiset(LayerErrors(ls[i], i));
      && errors[Other(BadConv)] == IfCounted(BadConvAt(ls, i))
      && errors[Other(BadEmbedding)] == IfCounted(BadEmbeddingAt(ls, i))
      && errors[Other(EmbeddingNotFirst)] == IfCounted(LateEmbeddingAt(ls, i))
      && errors[Other(NoTrainableLayer)] == 0
  {
    hide When;
    var (bad, late) := (!ls[i].vocab.IsValid() || ls[i].embedDim == 0, i != 0);
    assert bad <==> BadEmbeddingAt(ls, i);
    hide BadEmbeddingAt;
    assert LayerErrors(ls[i], i) == When(bad, Other(BadEmbedding)) + When(late, Other(EmbeddingNotFirst));
    forall t ensures multiset(When(bad, Other(BadEmbedding)))[Other(t)] == IfCounted(bad && BadEmbedding == t) {
      OneCounted(bad, BadEmbedding, t);
    }
    forall t ensures multiset(When(late, Other(EmbeddingNotFirst)))[Other(t)] == IfCounted(late && EmbeddingNotFirst == t) {
      OneCounted(late, EmbeddingNotFirst, t);
    }
  }

  lemma LayerCounted(ls: seq<LayerKind>, i: nat)
    requires i < |ls|
    ensures var errors := multiset(LayerErrors(ls[i], i));
      && errors[Other(BadConv)] == IfCounted(BadConvAt(ls, i))
      && errors[Other(BadEmbedding)] == IfCounted(BadEmbeddingAt(ls, i))
      && errors[Other(EmbeddingNotFirst)] == IfCounted(LateEmbeddingAt(ls, i))
      && errors[Other(NoTrainableLayer)] == 0
  {
    if ls[i].Conv1d? {
      ConvCounted(ls, i);
    } else if ls[i].Embedding? {
      EmbeddingCounted(ls, i);
    }
  }

  lemma {:induction false} LayersCounted(ls: seq<LayerKind>, n: nat)
    requires n <= |ls|
    ensures var errors := multiset(LayersErrors(ls, n));
      && errors[Other(BadConv)] == |set i: nat | i < n && BadConvAt(ls, i)|
      && errors[Other(BadEmbedding)] == |set i: nat | i < n && BadEmbeddingAt(ls, i)|
      && errors[Other(EmbeddingNotFirst)] == |set i: nat | i < n && LateEmbeddingAt(ls, i)|
      && errors[Other(NoTrainableLayer)] == 0
  {
    hide LayerErrors, BadConvAt, BadEmbeddingAt, LateEmbeddingAt;
    if n > 0 {
      var k := n - 1;
      LayersCounted(ls, k);
      LayerCounted(ls, k);
      OneMoreBadConv(ls, k);
      OneMoreBadEmbedding(ls, k);
      OneMoreLateEmbedding(ls, k);
    }
  }

  lemma OneMoreBadConv(ls: seq<LayerKind>, k: nat)
    ensures |set i: nat | i < k + 1 && BadConvAt(ls, i)| == |set i: nat | i < k && BadConvAt(ls, i)| + IfCounted(BadConvAt(ls, k))
  {
    hide BadConvAt;
    assert (set i: nat | i < k + 1 && BadConvAt(ls, i)) == (set i: nat | i < k && BadConvAt(ls, i)) + if BadConvAt(ls, k) then {k} else {};
  }

  lemma OneMoreBadEmbedding(ls: seq<LayerKind>, k: nat)
    ensures |set i: nat | i < k + 1 && BadEmbeddingAt(ls, i)| == |set i: nat | i < k && BadEmbeddingAt(ls, i)| + IfCounted(BadEmbeddingAt(ls, k))
  {
    hide BadEmbeddingAt;
    assert (set i: nat | i < k + 1 && BadEmbeddingAt(ls, i)) == (set i: nat | i < k && BadEmbeddingAt(ls, i)) + if BadEmbeddingAt(ls, k) then {k} else {};
  }

  lemma OneMoreLateEmbedding(ls: seq<LayerKind>, k: nat)
    ensures |set i: nat | i < k + 1 && LateEmbeddingAt(ls, i)| == |set i: nat | i < k && LateEmbeddingAt(ls, i)| + IfCounted(LateEmbeddingAt(ls, k))
  {
    hide LateEmbeddingAt;
    assert (set i: nat | i < k + 1 && LateEmbeddingAt(ls, i)) == (set i: nat | i < k && LateEmbeddingAt(ls, i)) + if LateEmbeddingAt(ls, k) then {k} else {};
  }

  /**
   * One report per layer that is wrong in each way, and one about the network when nothing in it trains: no dense layer with
   * a unit, no convolution with a channel and a kernel.
   */
  lemma NetworkReportsCount(ls: seq<LayerKind>)
    ensures var errors := multiset(ModelErrors(ls));
      && errors[Other(BadConv)] == |set i: nat | i < |ls| && BadConvAt(ls, i)|
      && errors[Other(BadEmbedding)] == |set i: nat | i < |ls| && BadEmbeddingAt(ls, i)|
      && errors[Other(EmbeddingNotFirst)] == |set i: nat | i < |ls| && LateEmbeddingAt(ls, i)|
      && errors[Other(NoTrainableLayer)]
         == IfCounted(forall l <- ls :: (l.Dense? ==> l.units == 0) && (l.Conv1d? ==> l.outChannels == 0 || l.kernelSize == 0))
  {
    hide LayersErrors, BadConvAt, BadEmbeddingAt, LateEmbeddingAt;
    LayersCounted(ls, |ls|);
  }

  /** Layers are reported in order: one more layer only adds to the reports, unless it makes the network trainable. */
  lemma LayersAreReportedInOrder(ls: seq<LayerKind>, l: LayerKind)
    ensures !Trainable(l) || (exists k <- ls :: Trainable(k)) ==> ModelErrors(ls) <= ModelErrors(ls + [l])
    ensures Other(NoTrainableLayer) in ModelErrors(ls) ==> ModelErrors(ls)[0] == Other(NoTrainableLayer)
  {
    hide Trainable, LayerErrors;
    var more := ls + [l];
    SameLayers(ls, l, |ls|);
    LayersCountedFirst(ls, |ls|);
    assert LayersErrors(more, |more|) == LayersErrors(ls, |ls|) + LayerErrors(l, |ls|);
    assert (forall k <- more :: !Trainable(k)) <==> (forall k <- ls :: !Trainable(k)) && !Trainable(l) by {
      assert more[|ls|] == l && forall k <- ls :: k in more;
    }
  }

  lemma {:induction false} SameLayers(ls: seq<LayerKind>, l: LayerKind, n: nat)
    requires n <= |ls|
    ensures LayersErrors(ls + [l], n) == LayersErrors(ls, n)
  {
    if n > 0 {
      SameLayers(ls, l, n - 1);
    }
  }

  lemma LayersCountedFirst(ls: seq<LayerKind>, n: nat)
    requires n <= |ls|
    ensures Other(NoTrainableLayer) !in LayersErrors(ls, n)
  {
    LayersCounted(ls, n);
  }

  // ── Features ────────────────────────────────────────────────────────────

  /** The features of no columns are none, and one more column is one more feature if it is a number and not the target. */
  lemma FeaturesCount(cols: Cols, target: string, c: string, ty: CheckerColType)
    requires c !in cols
    ensures Features(map[], target) == {}
    ensures |Features(cols[c := ty], target)|
         == |Features(cols, target)| + IfCounted(c != target && ty.name in {"int", "float"})
  {
    var (less, more) := (Features(cols, target), Features(cols[c := ty], target));
    assert more == if c != target && ty.IsNumeric() then less + {c} else less;
  }

  // ── Groups ──────────────────────────────────────────────────────────────

  predicate Aggregates(op: PipelineOp) {
    IsPlainAggregate(op) || op.Quantile? || op.Corr? || op.Agg? || op.Histogram? || op.GroupBy?
  }

  lemma AggregateGroups(g: Engine, env: Programs.Env, s: Programs.State, op: PipelineOp)
    requires Aggregates(op) && Programs.EvalOp(g, env, s, op).Ran?
    ensures Programs.EvalOp(g, env, s, op).value.group == GroupAfter(op, s.group)
  {
    hide Reading, HistogramFrame, Programs.StatisticsOf, AggColumns;
    forall cs, o: Outcome<Programs.State> ensures Reading(cs, s.frame, o).Ran? ==> Reading(cs, s.frame, o) == o {
      ReadingPresent(cs, s.frame, o);
    }
  }

  /** The group the checker thinks is waiting is the one execution has waiting, after every operator that runs. */
  lemma WaitingGroupIsTheRuns(g: Engine, env: Programs.Env, s: Programs.State, op: PipelineOp)
    requires !op.Train? && Programs.EvalOp(g, env, s, op).Ran?
    ensures Programs.EvalOp(g, env, s, op).value.group == GroupAfter(op, s.group)
  {
    hide Reading, HistogramFrame, Programs.StatisticsOf, AggColumns, Choose, TruePositions, PresentPositions, FirstPositions;
    hide Column, KeepColumns, FillColumn, CastColumn, ReplaceColumn, SetColumn, NoisedFrame, Programs.EvalRows, Programs.Refs;
    if Aggregates(op) {
      AggregateGroups(g, env, s, op);
    } else {
      OtherGroups(g, env, s, op);
    }
  }

  lemma OtherGroups(g: Engine, env: Programs.Env, s: Programs.State, op: PipelineOp)
    requires !op.Train? && !Aggregates(op) && Programs.EvalOp(g, env, s, op).Ran?
    ensures Programs.EvalOp(g, env, s, op).value.group == s.group == GroupAfter(op, s.group)
  {
    hide Reading, Choose, TruePositions, PresentPositions, FirstPositions, RenameOrSkip, RenameNeeds, Programs.Fill;
    hide Column, KeepColumns, FillColumn, CastColumn, ReplaceColumn, SetColumn, NoisedFrame, Programs.EvalRows, Programs.Refs;
    forall cs, o: Outcome<Programs.State> ensures Reading(cs, s.frame, o).Ran? ==> Reading(cs, s.frame, o) == o {
      ReadingPresent(cs, s.frame, o);
    }
    if op.Join? && op.other in env.frames {
      var right := env.frames[op.other];
      forall cs, o: Outcome<Programs.State> ensures Reading(cs, right, o).Ran? ==> Reading(cs, right, o) == o {
        ReadingPresent(cs, right, o);
      }
    }
  }

  /** A pie draws its label and its value, any other chart its two axes, as far as they are given. */
  lemma ChartDraws(config: ChartConfig, c: string)
    ensures c in config.Columns()
       <==> if config.chartType == Pie then config.labelCol == Some(c) || config.valueCol == Some(c)
            else config.x == Some(c) || config.y == Some(c)
  {
  }
}
