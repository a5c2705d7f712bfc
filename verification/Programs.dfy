/** The meaning of source programs: pipelines over frames, statement by statement. */
module Programs {
  import opened Ast
  import opened Frames
  import opened Wrappers
  import Lowering

  function Eval(g: Engine, e: Expr, row: Row): Value {
    match e
    case Ident(c) => Cell(row, c)
    case StringLit(s) => StrV(s)
    case IntLit(n) => IntV(n)
    case FloatLit(f) => FloatV(f)
    case BoolLit(b) => BoolV(b)
    case BinOp(l, op, r) => g.apply(op, Eval(g, l, row), Eval(g, r, row))
  }

  function EvalRows(g: Engine, e: Expr, f: Frame): (vs: seq<Value>)
    ensures |vs| == |f.rows|
  {
    seq(|f.rows|, i requires 0 <= i < |f.rows| => Eval(g, e, f.rows[i]))
  }

  /** The columns an expression reads, left to right. */
  function Refs(e: Expr): seq<string> {
    match e
    case Ident(c) => [c]
    case BinOp(l, _, r) => Refs(l) + Refs(r)
    case _ => []
  }

  function Fill(g: Engine, v: FillNullValue, column: seq<Value>): Value {
    match v
    case FillInt(n) => IntV(n)
    case FillFloat(f) => FloatV(f)
    case FillStr(s) => StrV(s)
    case FillMean => g.mean(column)
    case FillMedian => g.median(column)
    case FillZero => IntV(0)
  }

  function StatisticOf(spec: AggSpec): Statistic {
    match spec.func
    case FnSum => SumOf(spec.col)
    case FnMean => MeanOf(spec.col)
    case FnMin => MinOf(spec.col)
    case FnMax => MaxOf(spec.col)
    case FnCount => CountOf(spec.col)
    case FnMedian => MedianOf(spec.col)
    case FnVariance => VarianceOf(spec.col)
    case FnStd => StdOf(spec.col)
    case FnSkew => SkewOf(spec.col)
    case FnKurtosis => KurtosisOf(spec.col)
  }

  function StatisticsOf(specs: seq<AggSpec>): seq<Statistic> {
    seq(|specs|, i requires 0 <= i < |specs| => StatisticOf(specs[i]))
  }

  // ── Operators ───────────────────────────────────────────────────────────

  /** A frame and the group key waiting for an aggregate. */
  datatype State = State(frame: Frame, group: Option<string>)

  /** What is bound: frames and models by variable, network graphs by model name. */
  datatype Env = Env(frames: map<string, Frame>, models: map<string, Model>, graphs: map<string, seq<LayerKind>>)

  function With(s: State, f: Frame): Outcome<State> {
    Ran(s.(frame := f))
  }

  function Summarized(g: Engine, s: State, stat: Statistic): Outcome<State> {
    Ran(State(g.summarize(s.frame, s.group, [stat]), None))
  }

  function EvalJoin(g: Engine, env: Env, s: State, other: string, leftOn: seq<string>, rightOn: seq<string>, how: JoinHow)
    : Outcome<State>
  {
    if other !in env.frames then Unbound(other)
    else
      var right := env.frames[other];
      Reading(leftOn, s.frame, Reading(rightOn, right, With(s, g.join(s.frame, right, leftOn, rightOn, how))))
  }

  /** The meaning of every operator but train. */
  function EvalOp(g: Engine, env: Env, s: State, op: PipelineOp): Outcome<State>
    requires !op.Train?
  {
    var f := s.frame;
    match op
    case Filter(e) => Reading(Refs(e), f, With(s, Choose(f, TruePositions(EvalRows(g, e, f)))))
    case Select(cs) => Reading(cs, f, With(s, KeepColumns(f, set c | c in cs)))
    case Count(None) => Summarized(g, s, RowCount)
    case Count(Some(c)) => Reading([c], f, Summarized(g, s, CountOf(c)))
    case GroupBy(k) => Reading([k], f, Ran(s.(group := Some(k))))
    case Sum(c) => Reading([c], f, Summarized(g, s, SumOf(c)))
    case Mean(c) => Reading([c], f, Summarized(g, s, MeanOf(c)))
    case Min(c) => Reading([c], f, Summarized(g, s, MinOf(c)))
    case Max(c) => Reading([c], f, Summarized(g, s, MaxOf(c)))
    case Median(c) => Reading([c], f, Summarized(g, s, MedianOf(c)))
    case Variance(c) => Reading([c], f, Summarized(g, s, VarianceOf(c)))
    case Std(c) => Reading([c], f, Summarized(g, s, StdOf(c)))
    case Skew(c) => Reading([c], f, Summarized(g, s, SkewOf(c)))
    case Kurtosis(c) => Reading([c], f, Summarized(g, s, KurtosisOf(c)))
    case Quantile(c, q) => Reading([c], f, Summarized(g, s, QuantileOf(c, q)))
    case Corr(a, b) => Reading([a, b], f, Summarized(g, s, CorrOf(a, b)))
    case Agg(specs) =>
      Reading(AggColumns(specs), f, Ran(State(g.aggregateList(f, s.group, StatisticsOf(specs)), None)))
    case OrderBy(c, desc) => Reading([c], f, With(s, Choose(f, g.sortOrder(Column(f, c), desc))))
    case Take(n) => With(s, Choose(f, FirstPositions(|f.rows|, n)))
    case Sample(n, seed) => With(s, Choose(f, g.sampled(|f.rows|, n, seed)))
    case DropNull(c) => Reading([c], f, With(s, Choose(f, PresentPositions(Column(f, c)))))
    case OutlierIqr(c, factor) => Reading([c], f, With(s, Choose(f, g.inliers(Column(f, c), factor))))
    case FillNull(c, v) => Reading([c], f, With(s, FillColumn(f, c, Fill(g, v, Column(f, c)))))
    case Join(other, l, r, how) => EvalJoin(g, env, s, other, l, r, how)
    case WithColumn(name, e) => Reading(Refs(e), f, With(s, SetColumn(f, name, EvalRows(g, e, f))))
    case Cast(c, t) => Reading([c], f, With(s, CastColumn(g, f, c, t)))
    case Rename(o, n) => Reading(RenameNeeds(g, o), f, With(s, RenameOrSkip(f, o, n)))
    case Replace(c, from, to) => Reading([c], f, With(s, ReplaceColumn(g, f, c, from, to)))
    case Histogram(c, bins) => Reading([c], f, Ran(State(HistogramFrame(g, f, c, bins), None)))
    case Chart(config) => Reading(config.Columns(), f, Ran(s))
    case WithDp(args) => With(s, NoisedFrame(g, args, f))
    case Save(_, _) => Ran(s)
    case Predict(m, asCol) =>
      if m in env.models then With(s, g.predict(env.models[m], f, asCol)) else Unbound(m)
  }

  /** What a pipeline leaves: a frame, or a model when it trains. */
  datatype Product = FrameProduct(frame: Frame) | ModelProduct(model: Model)

  /** Training ends a pipeline; it needs a declared network and its target column. */
  function EvalTrain(env: Env, f: Frame, model: string, config: TrainConfig): Outcome<Product> {
    if model !in env.graphs then Unbound(model)
    else Reading([config.target], f, Ran(ModelProduct(Model(env.graphs[model], config, f))))
  }

  function EvalOps(g: Engine, env: Env, s: State, ops: seq<PipelineOp>): Outcome<Product>
    decreases |ops|
  {
    if ops == [] then Ran(FrameProduct(s.frame))
    else
      match ops[0]
      case Train(model, config) => EvalTrain(env, s.frame, model, config)
      case op =>
        match EvalOp(g, env, s, op)
        case Ran(next) => EvalOps(g, env, next, ops[1..])
        case MissingColumn(c) => MissingColumn(c)
        case Unbound(name) => Unbound(name)
  }

  // ── Statements ──────────────────────────────────────────────────────────

  /** The declared schemas and everything bound so far. */
  datatype World = World(schemas: map<string, seq<StructField>>, env: Env)

  const START := World(map[], Env(map[], map[], map[]))

  function EvalSource(g: Engine, w: World, source: PipelineSource): Outcome<Frame> {
    match source
    case Load(path, schema, options) =>
      if schema in w.schemas then Ran(g.load(path, Some(Lowering.SchemaFromFields(w.schemas[schema])), options))
      else Unbound(schema)
    case VarRef(v) => if v in w.env.frames then Ran(w.env.frames[v]) else Unbound(v)
  }

  function EvalPipeline(g: Engine, w: World, source: PipelineSource, ops: seq<PipelineOp>): Outcome<Product> {
    match EvalSource(g, w, source)
    case Ran(f) => EvalOps(g, w.env, State(f, None), ops)
    case MissingColumn(c) => MissingColumn(c)
    case Unbound(name) => Unbound(name)
  }

  function Bind(env: Env, name: Option<string>, product: Product): Env {
    if name.None? then env
    else
      match product
      case FrameProduct(f) => env.(frames := env.frames[name.value := f])
      case ModelProduct(m) => env.(models := env.models[name.value := m])
  }

  function Bound(w: World, name: Option<string>, product: Outcome<Product>): Outcome<World> {
    match product
    case Ran(value) => Ran(w.(env := Bind(w.env, name, value)))
    case MissingColumn(c) => MissingColumn(c)
    case Unbound(v) => Unbound(v)
  }

  function EvalStmt(g: Engine, w: World, stmt: Stmt): Outcome<World> {
    match stmt
    case Import(path) => Unbound(path)
    case TypeDecl(name, fields) => Ran(w.(schemas := w.schemas[name := fields]))
    case ModelDecl(name, layers) => Ran(w.(env := w.env.(graphs := w.env.graphs[name := layers])))
    case VarDecl(v, source, ops) => Bound(w, Some(v), EvalPipeline(g, w, source, ops))
    case ExprStmt(source, ops) => Bound(w, None, EvalPipeline(g, w, source, ops))
    case TrainStmt(v, model, config) =>
      if v in w.env.frames then Bound(w, None, EvalTrain(w.env, w.env.frames[v], model, config)) else Unbound(v)
  }

  function EvalStmts(g: Engine, w: World, stmts: seq<Stmt>): Outcome<World>
    decreases |stmts|
  {
    if stmts == [] then Ran(w)
    else
      match EvalStmt(g, w, stmts[0])
      case Ran(next) => EvalStmts(g, next, stmts[1..])
      case MissingColumn(c) => MissingColumn(c)
      case Unbound(name) => Unbound(name)
  }

  function EvalProgram(g: Engine, program: seq<Stmt>): Outcome<World> {
    EvalStmts(g, START, program)
  }
}
