/** What static checking reports and records, as functions of programs. */
module Checking {
  import opened Ast
  import opened Lowering
  import opened Wrappers
  import Ir

  datatype Tag =
    | UnresolvedImport | DuplicateSchema | DuplicateModel | DuplicateVariable
    | NoTrainableLayer | BadConv | BadEmbedding | EmbeddingNotFirst
    | IncompatibleSplit | BadHyperparameter | UndeclaredModel | MissingAggregate
    | FillOnNonNullable | UnknownCastType | VocabLength

  datatype Error =
    | SafeLoadViolation(col: string, context: string)
    | UndeclaredType(name: string)
    | UndeclaredVariable(name: string)
    | Other(tag: Tag)

  type Errors = seq<Error>

  /** The symbol tables an operator is checked against. */
  datatype Env = Env(models: map<string, seq<LayerKind>>, vars: map<string, Cols>, trained: set<string>)

  function When(b: bool, e: Error): Errors {
    if b then [e] else []
  }

  // ── Columns ─────────────────────────────────────────────────────────────

  function ColumnErrors(c: string, context: string, cols: Cols): Errors {
    When(c !in cols, SafeLoadViolation(c, context))
  }

  /** One error per absent column of the list, in order. */
  function ColumnsErrors(cs: seq<string>, context: string, cols: Cols): Errors {
    if cs == [] then []
    else ColumnsErrors(cs[..|cs| - 1], context, cols) + ColumnErrors(cs[|cs| - 1], context, cols)
  }

  function ExprErrors(e: Expr, cols: Cols): Errors {
    match e
    case Ident(c) => ColumnErrors(c, "expression", cols)
    case BinOp(l, _, r) => ExprErrors(l, cols) + ExprErrors(r, cols)
    case _ => []
  }

  // ── Models ──────────────────────────────────────────────────────────────

  predicate Trainable(l: LayerKind) {
    || (l.Dense? && l.units > 0)
    || (l.Conv1d? && l.outChannels > 0 && l.kernelSize > 0)
  }

  function LayerErrors(l: LayerKind, i: nat): Errors {
    match l
    case Conv1d(o, k) => When(o == 0 || k == 0, Other(BadConv))
    case Embedding(v, d) => When(!v.IsValid() || d == 0, Other(BadEmbedding)) + When(i != 0, Other(EmbeddingNotFirst))
    case _ => []
  }

  function LayersErrors(ls: seq<LayerKind>, n: nat): Errors
    requires n <= |ls|
  {
    if n == 0 then [] else LayersErrors(ls, n - 1) + LayerErrors(ls[n - 1], n - 1)
  }

  function ModelErrors(ls: seq<LayerKind>): Errors {
    When(forall l <- ls :: !Trainable(l), Other(NoTrainableLayer)) + LayersErrors(ls, |ls|)
  }

  // ── Training options ────────────────────────────────────────────────────

  function ZeroErrors(xs: seq<nat>): Errors {
    if xs == [] then [] else ZeroErrors(xs[..|xs| - 1]) + When(xs[|xs| - 1] == 0, Other(BadHyperparameter))
  }

  function RateErrors(xs: seq<real>): Errors {
    if xs == [] then [] else RateErrors(xs[..|xs| - 1]) + When(xs[|xs| - 1] <= 0.0, Other(BadHyperparameter))
  }

  function SweepErrors(c: TrainConfig): Errors {
    When(c.timeColumn.Some? && c.splitStrategy != Sequential, Other(IncompatibleSplit))
    + ZeroErrors(c.sweep.epochs) + RateErrors(c.sweep.learningRate) + ZeroErrors(c.sweep.batchSize)
  }

  /** The numeric columns other than the target. */
  function Features(cols: Cols, target: string): set<string> {
    set c | c in cols && c != target && cols[c].IsNumeric()
  }

  function VocabErrors(models: map<string, seq<LayerKind>>, model: string, target: string, cols: Cols): Errors {
    if target !in cols || !cols[target].IsNumeric() || model !in models || models[model] == [] then []
    else
      var first := models[model][0];
      if first.Embedding? && first.vocab.PerColumn? then
        When(|first.vocab.sizes| != |Features(cols, target)|, Other(VocabLength))
      else []
  }

  // ── Operators ───────────────────────────────────────────────────────────

  function FillErrors(col: string, cols: Cols): Errors {
    ColumnErrors(col, "fillNull", cols)
    + When(col in cols && !cols[col].option && cols[col].name != "unknown", Other(FillOnNonNullable))
  }

  function JoinErrors(env: Env, other: string, leftOn: seq<string>, rightOn: seq<string>, cols: Cols): Errors {
    ColumnsErrors(leftOn, "join(left_on)", cols)
    + if other in env.trained then [UndeclaredVariable(other)]
      else if other in env.vars then ColumnsErrors(rightOn, "join(right_on)", env.vars[other])
      else [UndeclaredVariable(other)]
  }

  /** What the checker reports for one operator that meets the given columns. */
  function OpErrors(env: Env, op: PipelineOp, cols: Cols): Errors {
    match op
    case Filter(e) => ExprErrors(e, cols)
    case Select(cs) => ColumnsErrors(cs, "select", cols)
    case Count(Some(c)) => ColumnErrors(c, "count", cols)
    case Count(None) => []
    case GroupBy(k) => ColumnErrors(k, "groupBy", cols)
    case Sum(c) => ColumnErrors(c, "aggregate", cols)
    case Mean(c) => ColumnErrors(c, "aggregate", cols)
    case Min(c) => ColumnErrors(c, "aggregate", cols)
    case Max(c) => ColumnErrors(c, "aggregate", cols)
    case Median(c) => ColumnErrors(c, "aggregate", cols)
    case Variance(c) => ColumnErrors(c, "aggregate", cols)
    case Std(c) => ColumnErrors(c, "aggregate", cols)
    case Skew(c) => ColumnErrors(c, "aggregate", cols)
    case Kurtosis(c) => ColumnErrors(c, "aggregate", cols)
    case OrderBy(c, _) => ColumnErrors(c, "orderBy", cols)
    case Take(_) => []
    case DropNull(c) => ColumnErrors(c, "dropNull", cols)
    case FillNull(c, _) => FillErrors(c, cols)
    case Join(o, l, r, _) => JoinErrors(env, o, l, r, cols)
    case WithColumn(_, e) => ExprErrors(e, cols)
    case Chart(c) => ColumnsErrors(c.Columns(), "chart", cols)
    case Cast(c, t) => When(t !in {"float", "int", "str", "bool"}, Other(UnknownCastType)) + ColumnErrors(c, "cast", cols)
    case Rename(o, _) => ColumnErrors(o, "rename", cols)
    case Replace(c, _, _) => ColumnErrors(c, "replace", cols)
    case Sample(_, _) => []
    case Quantile(c, _) => ColumnErrors(c, "aggregate", cols)
    case Corr(a, b) => ColumnErrors(a, "aggregate", cols) + ColumnErrors(b, "aggregate", cols)
    case Histogram(c, _) => ColumnErrors(c, "aggregate", cols)
    case OutlierIqr(c, _) => ColumnErrors(c, "aggregate", cols)
    case Agg(specs) => ColumnsErrors(AggColumns(specs), "aggregate", cols)
    case Train(m, c) =>
      SweepErrors(c) + When(m !in env.models, Other(UndeclaredModel)) + VocabErrors(env.models, m, c.target, cols)
    case Predict(m, _) => When(m !in env.trained, UndeclaredVariable(m))
    case WithDp(_) => []
    case Save(_, _) => []
  }

  /** The group key still waiting for an aggregate. */
  function GroupAfter(op: PipelineOp, g: Option<string>): Option<string> {
    match op
    case GroupBy(k) => Some(k)
    case Count(_) => None
    case Sum(_) => None
    case Mean(_) => None
    case Min(_) => None
    case Max(_) => None
    case Median(_) => None
    case Variance(_) => None
    case Std(_) => None
    case Skew(_) => None
    case Kurtosis(_) => None
    case Quantile(_, _) => None
    case Corr(_, _) => None
    case Histogram(_, _) => None
    case Agg(_) => None
    case _ => g
  }

  // ── Pipelines ───────────────────────────────────────────────────────────

  /** The checker inside a pipeline, with the errors found so far. */
  datatype OpState = OpState(
    cols: Cols, steps: seq<Ir.Step>, group: Option<string>, yieldsModel: bool, errors: Errors)

  function OpStep(env: Env, s: OpState, op: PipelineOp): OpState {
    OpState(ColsAfter(op, s.cols), s.steps + [Lower(op, s.cols)], GroupAfter(op, s.group),
            s.yieldsModel || op.Train?, s.errors + OpErrors(env, op, s.cols))
  }

  /** Operators are checked in order; a train operator ends the pipeline. */
  function RunOps(env: Env, s: OpState, ops: seq<PipelineOp>): OpState
    decreases |ops|
  {
    if ops == [] then s
    else if ops[0].Train? then OpStep(env, s, ops[0])
    else RunOps(env, OpStep(env, s, ops[0]), ops[1..])
  }

  /** The analyzer between two statements. */
  datatype Analysis = Analysis(
    schemas: map<string, seq<StructField>>, models: map<string, seq<LayerKind>>, vars: map<string, Cols>,
    trained: set<string>, errors: Errors, ir: Ir.TypedProgram)
  {
    function Tables(): Env {
      Env(models, vars, trained)
    }
  }

  const EMPTY := Analysis(map[], map[], map[], {}, [], Ir.TypedProgram([], [], []))

  /** The columns a source provides, the IR source, and what is wrong with it. */
  function ResolveSource(a: Analysis, source: PipelineSource): (Option<Cols>, Ir.Source, Errors) {
    match source
    case Load(path, schema, options) =>
      if schema in a.schemas then
        (Some(ColsOfFields(a.schemas[schema])), Ir.Load(path, Some(SchemaFromFields(a.schemas[schema])), options), [])
      else
        (None, Ir.Load(path, None, options), [UndeclaredType(schema)])
    case VarRef(v) =>
      if v in a.trained then (None, Ir.Ref(v), [UndeclaredVariable(v)])
      else if v in a.vars then (Some(a.vars[v]), Ir.Ref(v), [])
      else (None, Ir.Ref(v), [UndeclaredVariable(v)])
  }

  function StartOps(cols: Option<Cols>): OpState {
    OpState(if cols.Some? then cols.value else map[], [], None, false, [])
  }

  /** The node a checked pipeline leaves in the IR. */
  function NodeOf(id: nat, binding: Option<string>, source: Ir.Source, cols: Option<Cols>, s: OpState): Ir.PipelineNode {
    Ir.PipelineNode(id, binding, source, if cols.Some? then Some(SchemaFromMap(cols.value)) else None,
                    SchemaFromMap(s.cols), s.steps, s.yieldsModel)
  }

  function AddNode(ir: Ir.TypedProgram, node: Ir.PipelineNode): Ir.TypedProgram {
    ir.(pipelines := ir.pipelines + [node])
  }

  function AfterPipeline(a: Analysis, binding: Option<string>, source: PipelineSource, ops: seq<PipelineOp>): Analysis {
    var (cols, irSource, sourceErrors) := ResolveSource(a, source);
    var s := RunOps(a.Tables(), StartOps(cols), ops);
    a.(errors := a.errors + sourceErrors + s.errors + When(s.group.Some?, Other(MissingAggregate)),
       ir := AddNode(a.ir, NodeOf(|a.ir.pipelines|, binding, irSource, cols, s)),
       vars := if binding.Some? then a.vars[binding.value := s.cols] else a.vars)
  }

  function PipelineYields(a: Analysis, source: PipelineSource, ops: seq<PipelineOp>): bool {
    RunOps(a.Tables(), StartOps(ResolveSource(a, source).0), ops).yieldsModel
  }

  // ── Statements ──────────────────────────────────────────────────────────

  function AfterVarDecl(a: Analysis, v: string, source: PipelineSource, ops: seq<PipelineOp>): Analysis {
    if v in a.vars || v in a.trained then a.(errors := a.errors + [Other(DuplicateVariable)])
    else
      var b := AfterPipeline(a, Some(v), source, ops);
      if PipelineYields(a, source, ops) then b.(trained := b.trained + {v}) else b
  }

  /** The node of a `run v |> train(...)` statement: it trains, but yields no model variable. */
  function RunNode(id: nat, v: string, model: string, config: TrainConfig, cols: Cols): Ir.PipelineNode {
    Ir.PipelineNode(id, None, Ir.Ref(v), Some(SchemaFromMap(cols)), SchemaFromMap(cols),
                    [Ir.ML(Ir.Train(model, config))], false)
  }

  function AfterTrainStmt(a: Analysis, v: string, model: string, config: TrainConfig): Analysis {
    var errors := a.errors + SweepErrors(config);
    if v !in a.vars then a.(errors := errors + [UndeclaredVariable(v)])
    else if model !in a.models then a.(errors := errors + [Other(UndeclaredModel)])
    else
      a.(errors := errors + ColumnErrors(config.target, v, a.vars[v])
                   + VocabErrors(a.models, model, config.target, a.vars[v]),
         ir := AddNode(a.ir, RunNode(|a.ir.pipelines|, v, model, config, a.vars[v])))
  }

  function AfterStmt(a: Analysis, stmt: Stmt): Analysis {
    match stmt
    case Import(_) => a.(errors := a.errors + [Other(UnresolvedImport)])
    case TypeDecl(name, fields) =>
      if name in a.schemas then a.(errors := a.errors + [Other(DuplicateSchema)])
      else a.(schemas := a.schemas[name := fields],
              ir := a.ir.(types := a.ir.types + [Ir.NamedSchema(name, SchemaFromFields(fields))]))
    case ModelDecl(name, layers) =>
      if name in a.models then a.(errors := a.errors + [Other(DuplicateModel)])
      else a.(errors := a.errors + ModelErrors(layers),
              models := a.models[name := layers],
              ir := a.ir.(models := a.ir.models + [Ir.ModelGraph(name, layers)]))
    case VarDecl(v, source, ops) => AfterVarDecl(a, v, source, ops)
    case ExprStmt(source, ops) => AfterPipeline(a, None, source, ops)
    case TrainStmt(v, model, config) => AfterTrainStmt(a, v, model, config)
  }

  function AfterStmts(a: Analysis, stmts: seq<Stmt>): Analysis
    decreases |stmts|
  {
    if stmts == [] then a else AfterStmts(AfterStmt(a, stmts[0]), stmts[1..])
  }

  /** The result of checking a whole program. */
  function Checked(program: seq<Stmt>): Analysis {
    AfterStmts(EMPTY, program)
  }
}
