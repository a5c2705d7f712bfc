/** When the checker reports nothing: the exact conditions, operator by operator and for declarations. */
module Cleanliness {
  import opened Ast
  import opened Checking
  import opened Lowering
  import opened Wrappers
  import Programs

  predicate AllIn(cs: seq<string>, cols: Cols) {
    forall c <- cs :: c in cols
  }

  // ── Columns and options ─────────────────────────────────────────────────

  lemma {:induction false} ColumnsClean(cs: seq<string>, context: string, cols: Cols)
    ensures ColumnsErrors(cs, context, cols) == [] <==> AllIn(cs, cols)
  {
    if cs != [] {
      var n := |cs| - 1;
      ColumnsClean(cs[..n], context, cols);
      assert cs == cs[..n] + [cs[n]];
    }
  }

  lemma {:induction false} ExpressionClean(e: Expr, cols: Cols)
    ensures ExprErrors(e, cols) == [] <==> AllIn(Programs.Refs(e), cols)
  {
    match e
    case Ident(c) => assert c in [c];
    case BinOp(l, _, r) =>
      ExpressionClean(l, cols);
      ExpressionClean(r, cols);
      var (a, b) := (Programs.Refs(l), Programs.Refs(r));
      assert AllIn(a + b, cols) ==> AllIn(a, cols) && AllIn(b, cols) by {
        assert forall c <- a :: c in a + b;
        assert forall c <- b :: c in a + b;
      }
    case _ =>
  }

  lemma {:induction false} ZerosClean(xs: seq<nat>)
    ensures ZeroErrors(xs) == [] <==> forall i | 0 <= i < |xs| :: xs[i] >= 1
  {
    if xs != [] {
      var n := |xs| - 1;
      ZerosClean(xs[..n]);
    }
  }

  predicate Positive(x: real) {
    x > 0.0
  }

  lemma LastRate(before: Errors, x: real)
    ensures before + When(x <= 0.0, Other(BadHyperparameter)) == [] <==> before == [] && Positive(x)
  {
  }

  lemma {:induction false} RatesClean(xs: seq<real>)
    ensures RateErrors(xs) == [] <==> forall i | 0 <= i < |xs| :: Positive(xs[i])
  {
    hide Positive, When;
    if xs != [] {
      var n := |xs| - 1;
      RatesClean(xs[..n]);
      LastRate(RateErrors(xs[..n]), xs[n]);
    }
  }

  /** A sweep whose values are in range, and no shuffling of timed rows. */
  predicate SoundOptions(c: TrainConfig) {
    && (c.timeColumn.Some? ==> c.splitStrategy == Sequential)
    && (forall i | 0 <= i < |c.sweep.epochs| :: c.sweep.epochs[i] >= 1)
    && (forall i | 0 <= i < |c.sweep.learningRate| :: Positive(c.sweep.learningRate[i]))
    && (forall i | 0 <= i < |c.sweep.batchSize| :: c.sweep.batchSize[i] >= 1)
  }

  lemma OptionsCleanExactly(c: TrainConfig)
    ensures SweepErrors(c) == [] <==> SoundOptions(c)
  {
    hide ZeroErrors, RateErrors, Positive;
    ZerosClean(c.sweep.epochs);
    RatesClean(c.sweep.learningRate);
    ZerosClean(c.sweep.batchSize);
  }

  // ── Networks ────────────────────────────────────────────────────────────

  predicate SoundLayer(l: LayerKind, i: nat) {
    match l
    case Conv1d(outChannels, kernelSize) => outChannels >= 1 && kernelSize >= 1
    case Embedding(vocab, embedDim) => vocab.IsValid() && embedDim >= 1 && i == 0
    case _ => true
  }

  /** Something to train, convolutions and embeddings with sizes, and an embedding only in front. */
  predicate SoundNetwork(layers: seq<LayerKind>) {
    && (exists l <- layers :: Trainable(l))
    && forall i | 0 <= i < |layers| :: SoundLayer(layers[i], i)
  }

  lemma {:induction false} LayersClean(layers: seq<LayerKind>, n: nat)
    requires n <= |layers|
    ensures LayersErrors(layers, n) == [] <==> forall i | 0 <= i < n :: SoundLayer(layers[i], i)
  {
    hide SoundLayer, LayerErrors;
    if n > 0 {
      LayersClean(layers, n - 1);
      LayerClean(layers[n - 1], n - 1);
    }
  }

  lemma LayerClean(l: LayerKind, i: nat)
    ensures LayerErrors(l, i) == [] <==> SoundLayer(l, i)
  {
  }

  lemma NetworkCleanExactly(layers: seq<LayerKind>)
    ensures ModelErrors(layers) == [] <==> SoundNetwork(layers)
  {
    hide LayersErrors, SoundLayer, Trainable;
    LayersClean(layers, |layers|);
  }

  // ── Operators ───────────────────────────────────────────────────────────

  /** The columns an operator needs in the frame it meets, as far as the checker looks. */
  function Needs(op: PipelineOp): seq<string> {
    match op
    case Filter(e) => Programs.Refs(e)
    case WithColumn(_, e) => Programs.Refs(e)
    case Select(cs) => cs
    case Count(c) => if c.Some? then [c.value] else []
    case GroupBy(k) => [k]
    case Corr(a, b) => [a, b]
    case Agg(specs) => AggColumns(specs)
    case Join(_, leftOn, _, _) => leftOn
    case Chart(config) => config.Columns()
    case Rename(o, _) => [o]
    case Take(_) => []
    case Sample(_, _) => []
    case Train(_, _) => []
    case Predict(_, _) => []
    case WithDp(_) => []
    case Save(_, _) => []
    case _ => [op.col]
  }

  /** A per-column vocabulary has one entry for each input feature. */
  predicate VocabularyFits(layers: seq<LayerKind>, target: string, cols: Cols) {
    target in cols && cols[target].IsNumeric() && layers != [] && layers[0].Embedding? && layers[0].vocab.PerColumn? ==>
      |layers[0].vocab.sizes| == |Features(cols, target)|
  }

  /** What else must hold, once the columns are there. */
  predicate Allowed(env: Env, op: PipelineOp, cols: Cols) {
    match op
    case FillNull(c, _) => c in cols ==> cols[c].option || cols[c].name == "unknown"
    case Cast(_, toType) => toType in {"float", "int", "str", "bool"}
    case Join(other, _, rightOn, _) => other in env.vars && other !in env.trained && AllIn(rightOn, env.vars[other])
    case Train(m, c) => SoundOptions(c) && m in env.models && VocabularyFits(env.models[m], c.target, cols)
    case Predict(m, _) => m in env.trained
    case _ => true
  }

  predicate Clean(env: Env, op: PipelineOp, cols: Cols) {
    AllIn(Needs(op), cols) && Allowed(env, op, cols)
  }

  lemma OneClean(c: string, context: string, cols: Cols)
    ensures ColumnErrors(c, context, cols) == [] <==> AllIn([c], cols)
  {
    assert c in [c];
  }

  lemma PairClean(a: string, b: string, context: string, cols: Cols)
    ensures ColumnErrors(a, context, cols) + ColumnErrors(b, context, cols) == [] <==> AllIn([a, b], cols)
  {
    assert a in [a, b] && b in [a, b];
  }

  lemma AggregateClean(env: Env, op: PipelineOp, cols: Cols)
    requires IsPlainAggregate(op)
    ensures OpErrors(env, op, cols) == [] <==> Clean(env, op, cols)
  {
    hide ColumnErrors, AllIn;
    if op == Count(None) {
      NothingNeeded(cols);
    } else if op.Count? {
      OneClean(op.counted.value, "count", cols);
    } else {
      OneClean(op.col, "aggregate", cols);
    }
  }

  lemma NothingNeeded(cols: Cols)
    ensures AllIn([], cols)
  {
  }

  lemma JoinClean(env: Env, op: PipelineOp, cols: Cols)
    requires op.Join?
    ensures OpErrors(env, op, cols) == [] <==> Clean(env, op, cols)
  {
    hide ColumnsErrors, AllIn;
    ColumnsClean(op.leftOn, "join(left_on)", cols);
    if op.other in env.vars {
      ColumnsClean(op.rightOn, "join(right_on)", env.vars[op.other]);
    }
  }

  lemma TrainClean(env: Env, op: PipelineOp, cols: Cols)
    requires op.Train?
    ensures OpErrors(env, op, cols) == [] <==> Clean(env, op, cols)
  {
    hide SweepErrors, SoundOptions, AllIn, Features;
    NothingNeeded(cols);
    OptionsCleanExactly(op.train);
  }

  predicate ReadsOneColumn(op: PipelineOp) {
    || op.GroupBy? || op.Quantile? || op.OrderBy? || op.DropNull? || op.Rename? || op.Replace? || op.Histogram?
    || op.OutlierIqr? || op.FillNull? || op.Cast?
  }

  lemma OneColumnClean(env: Env, op: PipelineOp, cols: Cols)
    requires ReadsOneColumn(op)
    ensures OpErrors(env, op, cols) == [] <==> Clean(env, op, cols)
  {
    hide ColumnErrors, AllIn;
    match op
    case GroupBy(k) => OneClean(k, "groupBy", cols);
    case Quantile(c, _) => OneClean(c, "aggregate", cols);
    case OrderBy(c, _) => OneClean(c, "orderBy", cols);
    case DropNull(c) => OneClean(c, "dropNull", cols);
    case Rename(o, _) => OneClean(o, "rename", cols);
    case Replace(c, _, _) => OneClean(c, "replace", cols);
    case Histogram(c, _) => OneClean(c, "aggregate", cols);
    case OutlierIqr(c, _) => OneClean(c, "aggregate", cols);
    case FillNull(c, _) => OneClean(c, "fillNull", cols);
    case Cast(c, _) => OneClean(c, "cast", cols);
  }

  lemma ManyColumnsClean(env: Env, op: PipelineOp, cols: Cols)
    requires op.Filter? || op.WithColumn? || op.Select? || op.Chart? || op.Agg? || op.Corr?
    ensures OpErrors(env, op, cols) == [] <==> Clean(env, op, cols)
  {
    hide ColumnErrors, ColumnsErrors, ExprErrors, AllIn, Programs.Refs;
    match op
    case Filter(e) => ExpressionClean(e, cols);
    case WithColumn(_, e) => ExpressionClean(e, cols);
    case Select(cs) => ColumnsClean(cs, "select", cols);
    case Chart(config) => ColumnsClean(config.Columns(), "chart", cols);
    case Agg(specs) => ColumnsClean(AggColumns(specs), "aggregate", cols);
    case Corr(a, b) => PairClean(a, b, "aggregate", cols);
  }

  /** Nothing is reported for an operator if and only if its columns are there and what it names is allowed. */
  lemma OperatorCleanExactly(env: Env, op: PipelineOp, cols: Cols)
    ensures OpErrors(env, op, cols) == [] <==> Clean(env, op, cols)
  {
    hide Clean, OpErrors;
    if IsPlainAggregate(op) {
      AggregateClean(env, op, cols);
    } else if op.Join? {
      JoinClean(env, op, cols);
    } else if op.Train? {
      TrainClean(env, op, cols);
    } else if ReadsOneColumn(op) {
      OneColumnClean(env, op, cols);
    } else if op.Filter? || op.WithColumn? || op.Select? || op.Chart? || op.Agg? || op.Corr? {
      ManyColumnsClean(env, op, cols);
    } else {
      PlainClean(env, op, cols);
    }
  }

  lemma PlainClean(env: Env, op: PipelineOp, cols: Cols)
    ensures (op.Take? || op.Sample? || op.Predict? || op.WithDp? || op.Save?)
        ==> (OpErrors(env, op, cols) == [] <==> Clean(env, op, cols))
  {
  }
}
