/** The syntax tree of a pipeline program. */
module Ast {
  import opened Wrappers

  datatype BinOpKind = Eq | NotEq | Lt | Gt | LtEq | GtEq | Add | Sub | Mul | Div

  datatype Expr =
    | Ident(name: string)
    | StringLit(s: string)
    | IntLit(n: int)
    | FloatLit(f: real)
    | BoolLit(b: bool)
    | BinOp(lhs: Expr, op: BinOpKind, rhs: Expr)

  datatype FillNullValue = FillInt(n: int) | FillFloat(f: real) | FillStr(s: string) | FillMean | FillMedian | FillZero

  datatype JoinHow = Inner | Left | Outer | Cross

  datatype ChartType = Bar | Line | Pie | Scatter

  datatype ChartConfig = ChartConfig(
    chartType: ChartType, title: Option<string>, x: Option<string>, y: Option<string>,
    labelCol: Option<string>, valueCol: Option<string>)
  {
    /** The columns a chart draws. */
    function Columns(): seq<string> {
      var (a, b) := if chartType.Pie? then (labelCol, valueCol) else (x, y);
      (if a.Some? then [a.value] else []) + (if b.Some? then [b.value] else [])
    }
  }

  datatype AggFn = FnSum | FnMean | FnMin | FnMax | FnCount | FnMedian | FnVariance | FnStd | FnSkew | FnKurtosis

  datatype AggSpec = AggSpec(func: AggFn, col: string)

  /** The columns of a list of aggregates, in order. */
  function AggColumns(specs: seq<AggSpec>): seq<string> {
    seq(|specs|, i requires 0 <= i < |specs| => specs[i].col)
  }

  datatype SaveFormat = Csv | Parquet | Arrow

  datatype DpMechanism = Laplace | Gaussian

  datatype DpArgs = DpArgs(
    epsilon: real, mechanism: DpMechanism, sensitivity: real, delta: Option<real>, seed: Option<int>)

  datatype SplitStrategy = Sequential | Stratified | Random

  datatype SweepGrid = SweepGrid(epochs: seq<nat>, learningRate: seq<real>, batchSize: seq<nat>)

  /** The fields of a training configuration that static checking reads. */
  datatype TrainConfig = TrainConfig(
    target: string, sweep: SweepGrid, validationSplit: Option<real>, splitStrategy: SplitStrategy,
    timeColumn: Option<string>)

  datatype PipelineOp =
    | Filter(cond: Expr)
    | Select(cols: seq<string>)
    | Count(counted: Option<string>)
    | GroupBy(key: string)
    | Sum(col: string)
    | Mean(col: string)
    | Min(col: string)
    | Max(col: string)
    | OrderBy(col: string, desc: bool)
    | Take(n: int)
    | DropNull(col: string)
    | FillNull(col: string, fill: FillNullValue)
    | Join(other: string, leftOn: seq<string>, rightOn: seq<string>, how: JoinHow)
    | WithColumn(name: string, expr: Expr)
    | Chart(config: ChartConfig)
    | Cast(col: string, toType: string)
    | Rename(oldName: string, newName: string)
    | Replace(col: string, from: string, to: string)
    | Sample(n: int, seed: Option<int>)
    | Median(col: string)
    | Variance(col: string)
    | Std(col: string)
    | Skew(col: string)
    | Kurtosis(col: string)
    | Quantile(col: string, q: real)
    | Corr(a: string, b: string)
    | Histogram(col: string, bins: nat)
    | OutlierIqr(col: string, factor: real)
    | Agg(specs: seq<AggSpec>)
    | Train(modelName: string, train: TrainConfig)
    | Predict(modelVar: string, asCol: Option<string>)
    | WithDp(args: DpArgs)
    | Save(path: string, format: SaveFormat)

  datatype EmbeddingVocab = Shared(size: nat) | PerColumn(sizes: seq<nat>) {
    predicate IsValid() {
      match this
      case Shared(v) => v >= 1
      case PerColumn(vs) => vs != [] && forall v <- vs :: v >= 1
    }
  }

  datatype LayerKind =
    | Dense(units: nat)
    | ReLU | Sigmoid | Tanh | Softmax
    | Dropout(rate: real)
    | BatchNorm
    | Conv1d(outChannels: nat, kernelSize: nat)
    | Embedding(vocab: EmbeddingVocab, embedDim: nat)

  datatype LoadOptions = LoadOptions(separator: Option<nat>, hasHeader: Option<bool>)

  datatype PipelineSource =
    | Load(filePath: string, schemaName: string, options: LoadOptions)
    | VarRef(name: string)

  datatype StructField = StructField(name: string, fieldType: string)

  datatype Stmt =
    | Import(path: string)
    | TypeDecl(name: string, fields: seq<StructField>)
    | ModelDecl(name: string, layers: seq<LayerKind>)
    | VarDecl(varName: string, source: PipelineSource, ops: seq<PipelineOp>)
    | ExprStmt(source: PipelineSource, ops: seq<PipelineOp>)
    | TrainStmt(sourceVar: string, modelName: string, config: TrainConfig)
}
