/** The meaning of the intermediate representation, as the runtime walks it node by node. */
module Plans {
  import opened Frames
  import opened Wrappers
  import Ast
  import Ir

  function Eval(g: Engine, e: Ir.TypedExpr, row: Row): Value {
    match e.kind
    case Column(c) => Cell(row, c)
    case Int(n) => IntV(n)
    case Float(f) => FloatV(f)
    case Str(s) => StrV(s)
    case Bool(b) => BoolV(b)
    case BinOp(op, l, r) => g.apply(op, Eval(g, l, row), Eval(g, r, row))
  }

  function EvalRows(g: Engine, e: Ir.TypedExpr, f: Frame): (vs: seq<Value>)
    ensures |vs| == |f.rows|
  {
    seq(|f.rows|, i requires 0 <= i < |f.rows| => Eval(g, e, f.rows[i]))
  }

  function Fill(g: Engine, v: Ir.FillValue, column: seq<Value>): Value {
    match v
    case FillInt(n) => IntV(n)
    case FillFloat(f) => FloatV(f)
    case FillStr(s) => StrV(s)
    case FillMean => g.mean(column)
    case FillMedian => g.median(column)
    case FillZero => IntV(0)
  }

  function StatisticOf(kind: Ir.AggKind, col: string): Statistic {
    match kind
    case KCount => CountOf(col)
    case KLen => RowCount
    case KSum => SumOf(col)
    case KMean => MeanOf(col)
    case KMin => MinOf(col)
    case KMax => MaxOf(col)
    case KMedian => MedianOf(col)
    case KVariance => VarianceOf(col)
    case KStd => StdOf(col)
    case KSkew => SkewOf(col)
    case KKurtosis => KurtosisOf(col)
  }

  function StatisticsOf(specs: seq<(Ir.AggKind, string)>): seq<Statistic> {
    seq(|specs|, i requires 0 <= i < |specs| => StatisticOf(specs[i].0, specs[i].1))
  }

  // ── Steps ───────────────────────────────────────────────────────────────

  datatype State = State(frame: Frame, pendingGroup: Option<string>)

  datatype Tables = Tables(frames: map<string, Frame>, models: map<string, Model>)

  function Summarized(g: Engine, s: State, stat: Statistic): Outcome<State> {
    Ran(State(g.summarize(s.frame, s.pendingGroup, [stat]), None))
  }

  function EvalJoin(g: Engine, t: Tables, s: State, other: string, leftOn: seq<string>, rightOn: seq<string>,
                    how: Ast.JoinHow): Outcome<State>
  {
    if other !in t.frames then Unbound(other)
    else
      var right := t.frames[other];
      Reading(leftOn, s.frame,
        Reading(rightOn, right, Ran(s.(frame := g.join(s.frame, right, leftOn, rightOn, how)))))
  }

  function EvalData(g: Engine, t: Tables, s: State, op: Ir.DataOp): Outcome<State> {
    var f := s.frame;
    match op
    case Filter(e) => Reading(Ir.Refs(e), f, Ran(s.(frame := Choose(f, TruePositions(EvalRows(g, e, f))))))
    case Select(cs) => Reading(cs, f, Ran(s.(frame := KeepColumns(f, set c | c in cs))))
    case GroupBy(k) => Reading([k], f, Ran(s.(pendingGroup := Some(k))))
    case Aggregate(kind, c) => Reading(if kind.KLen? then [] else [c], f, Summarized(g, s, StatisticOf(kind, c)))
    case AggList(specs) =>
      Reading(Ir.SpecColumns(specs), f,
        Ran(State(g.aggregateList(f, s.pendingGroup, StatisticsOf(specs)), None)))
    case Quantile(c, q) => Reading([c], f, Summarized(g, s, QuantileOf(c, q)))
    case Corr(a, b) => Reading([a, b], f, Summarized(g, s, CorrOf(a, b)))
    case Histogram(c, bins) => Reading([c], f, Ran(State(HistogramFrame(g, f, c, bins), None)))
    case OutlierIqr(c, factor) => Reading([c], f, Ran(s.(frame := Choose(f, g.inliers(Column(f, c), factor)))))
    case Sort(c, desc) => Reading([c], f, Ran(s.(frame := Choose(f, g.sortOrder(Column(f, c), desc)))))
    case Limit(n) => Ran(s.(frame := Choose(f, FirstPositions(|f.rows|, n))))
    case Sample(n, seed) => Ran(s.(frame := Choose(f, g.sampled(|f.rows|, n, seed))))
    case DropNull(c) => Reading([c], f, Ran(s.(frame := Choose(f, PresentPositions(Column(f, c))))))
    case FillNull(c, v) => Reading([c], f, Ran(s.(frame := FillColumn(f, c, Fill(g, v, Column(f, c))))))
    case Join(other, l, r, how) => EvalJoin(g, t, s, other, l, r, how)
    case WithColumn(name, e) => Reading(Ir.Refs(e), f, Ran(s.(frame := SetColumn(f, name, EvalRows(g, e, f)))))
    case Cast(c, to) => Reading([c], f, Ran(s.(frame := CastColumn(g, f, c, to))))
    case Rename(o, n) => Reading(RenameNeeds(g, o), f, Ran(s.(frame := RenameOrSkip(f, o, n))))
    case Replace(c, from, to) => Reading([c], f, Ran(s.(frame := ReplaceColumn(g, f, c, from, to))))
  }

  function EvalSide(g: Engine, s: State, op: Ir.SideOp): Outcome<State> {
    match op
    case Chart(config) => Reading(config.Columns(), s.frame, Ran(s))
    case WithDp(args) => Ran(s.(frame := NoisedFrame(g, args, s.frame)))
    case Save(_, _) => Ran(s)
  }

  /** The meaning of every step but train. */
  function EvalStep(g: Engine, t: Tables, s: State, step: Ir.Step): Outcome<State>
    requires !(step.ML? && step.ml.Train?)
  {
    match step
    case Data(op) => EvalData(g, t, s, op)
    case Side(op) => EvalSide(g, s, op)
    case ML(Predict(m, asCol)) =>
      if m in t.models then Ran(s.(frame := g.predict(t.models[m], s.frame, asCol))) else Unbound(m)
  }

  /** What a node produces; a model is stored only when the node says so. */
  datatype Result = Table(frame: Frame) | Trained(model: Model)

  type Registry = map<string, seq<Ast.LayerKind>>

  function EvalTrain(reg: Registry, f: Frame, model: string, config: Ast.TrainConfig): Outcome<Result> {
    if model in reg then Reading([config.target], f, Ran(Trained(Model(reg[model], config, f)))) else Unbound(model)
  }

  function EvalSteps(g: Engine, reg: Registry, t: Tables, s: State, steps: seq<Ir.Step>): Outcome<Result>
    decreases |steps|
  {
    if steps == [] then Ran(Table(s.frame))
    else
      match steps[0]
      case ML(Train(model, config)) => EvalTrain(reg, s.frame, model, config)
      case step =>
        match EvalStep(g, t, s, step)
        case Ran(next) => EvalSteps(g, reg, t, next, steps[1..])
        case MissingColumn(c) => MissingColumn(c)
        case Unbound(name) => Unbound(name)
  }

  // ── Nodes ───────────────────────────────────────────────────────────────

  function EvalSource(g: Engine, t: Tables, source: Ir.Source): Outcome<Frame> {
    match source
    case Load(path, schema, options) => Ran(g.load(path, schema, options))
    case Ref(v) => if v in t.frames then Ran(t.frames[v]) else Unbound(v)
  }

  function EvalNode(g: Engine, reg: Registry, t: Tables, p: Ir.PipelineNode): Outcome<Tables> {
    match EvalSource(g, t, p.source)
    case MissingColumn(c) => MissingColumn(c)
    case Unbound(v) => Unbound(v)
    case Ran(f) =>
      (match EvalSteps(g, reg, t, State(f, None), p.steps)
       case MissingColumn(c) => MissingColumn(c)
       case Unbound(v) => Unbound(v)
       case Ran(Table(frame)) =>
         Ran(if p.name.Some? then t.(frames := t.frames[p.name.value := frame]) else t)
       case Ran(Trained(model)) =>
         Ran(if p.name.Some? && p.yieldsModel then t.(models := t.models[p.name.value := model]) else t))
  }

  function EvalNodes(g: Engine, reg: Registry, t: Tables, ps: seq<Ir.PipelineNode>): Outcome<Tables>
    decreases |ps|
  {
    if ps == [] then Ran(t)
    else
      match EvalNode(g, reg, t, ps[0])
      case Ran(next) => EvalNodes(g, reg, next, ps[1..])
      case MissingColumn(c) => MissingColumn(c)
      case Unbound(v) => Unbound(v)
  }

  /** The declared networks by name; a later declaration would win. */
  function RegistryOf(graphs: seq<Ir.ModelGraph>): Registry {
    if graphs == [] then map[]
    else
      var last := graphs[|graphs| - 1];
      RegistryOf(graphs[..|graphs| - 1])[last.name := last.layers]
  }

  function EvalIr(g: Engine, ir: Ir.TypedProgram): Outcome<Tables> {
    EvalNodes(g, RegistryOf(ir.models), Tables(map[], map[]), ir.pipelines)
  }
}
