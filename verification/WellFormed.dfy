/** Well-formed programs, defined on declarations alone: the checker reports nothing for these and no others. */
module WellFormed {
  import opened Ast
  import opened Checking
  import opened Cleanliness
  import opened Lowering
  import opened Wrappers
  import Scoping

  /** What has been declared so far. */
  datatype Context = Context(
    schemas: map<string, seq<StructField>>, networks: map<string, seq<LayerKind>>, columns: map<string, Cols>,
    models: set<string>)
  {
    function Names(): Env {
      Env(networks, columns, models)
    }
  }

  const NOTHING := Context(map[], map[], map[], {})

  // ── Pipelines ───────────────────────────────────────────────────────────

  /** Every operator up to the first train is clean where it stands, and no group is left without its aggregate. */
  predicate PipelineFits(env: Env, cols: Cols, group: Option<string>, ops: seq<PipelineOp>)
    decreases |ops|
  {
    if ops == [] then group.None?
    else
      && Clean(env, ops[0], cols)
      && if ops[0].Train? then group.None?
         else PipelineFits(env, ColsAfter(ops[0], cols), GroupAfter(ops[0], group), ops[1..])
  }

  /** The columns a pipeline ends with. */
  function ColumnsOut(cols: Cols, ops: seq<PipelineOp>): Cols
    decreases |ops|
  {
    if ops == [] then cols
    else if ops[0].Train? then ColsAfter(ops[0], cols)
    else ColumnsOut(ColsAfter(ops[0], cols), ops[1..])
  }

  predicate SourceFits(c: Context, source: PipelineSource) {
    match source
    case Load(_, schema, _) => schema in c.schemas
    case VarRef(v) => v in c.columns && v !in c.models
  }

  function SourceColumns(c: Context, source: PipelineSource): Cols
    requires SourceFits(c, source)
  {
    match source
    case Load(_, schema, _) => ColsOfFields(c.schemas[schema])
    case VarRef(v) => c.columns[v]
  }

  predicate PipelineIsWellFormed(c: Context, source: PipelineSource, ops: seq<PipelineOp>) {
    SourceFits(c, source) && PipelineFits(c.Names(), SourceColumns(c, source), None, ops)
  }

  // ── Statements and programs ─────────────────────────────────────────────

  predicate StmtIsWellFormed(c: Context, stmt: Stmt) {
    match stmt
    case Import(_) => false
    case TypeDecl(name, _) => name !in c.schemas
    case ModelDecl(name, layers) => name !in c.networks && SoundNetwork(layers)
    case VarDecl(v, source, ops) => v !in c.columns && v !in c.models && PipelineIsWellFormed(c, source, ops)
    case ExprStmt(source, ops) => PipelineIsWellFormed(c, source, ops)
    case TrainStmt(v, network, config) =>
      && SoundOptions(config) && v in c.columns && network in c.networks
      && config.target in c.columns[v] && VocabularyFits(c.networks[network], config.target, c.columns[v])
  }

  function Declare(c: Context, stmt: Stmt): Context
    requires StmtIsWellFormed(c, stmt)
  {
    match stmt
    case TypeDecl(name, fields) => c.(schemas := c.schemas[name := fields])
    case ModelDecl(name, layers) => c.(networks := c.networks[name := layers])
    case VarDecl(v, source, ops) =>
      c.(columns := c.columns[v := ColumnsOut(SourceColumns(c, source), ops)],
         models := if Scoping.HasTrain(ops) then c.models + {v} else c.models)
    case _ => c
  }

  predicate AllWellFormed(c: Context, stmts: seq<Stmt>)
    decreases |stmts|
  {
    stmts == [] || (StmtIsWellFormed(c, stmts[0]) && AllWellFormed(Declare(c, stmts[0]), stmts[1..]))
  }

  predicate IsWellFormed(program: seq<Stmt>) {
    AllWellFormed(NOTHING, program)
  }

  // ── The checker agrees ──────────────────────────────────────────────────

  function ContextOf(a: Analysis): Context {
    Context(a.schemas, a.models, a.vars, a.trained)
  }

  lemma {:induction false} PipelineFitsExactly(env: Env, s: OpState, ops: seq<PipelineOp>)
    requires s.errors == []
    ensures var t := RunOps(env, s, ops);
      && (t.errors == [] && t.group.None? <==> PipelineFits(env, s.cols, s.group, ops))
      && t.cols == ColumnsOut(s.cols, ops)
    decreases |ops|
  {
    hide OpErrors, Clean, ColsAfter, Lower, GroupAfter;
    if ops != [] {
      var next := OpStep(env, s, ops[0]);
      OperatorCleanExactly(env, ops[0], s.cols);
      if ops[0].Train? {
        TrainKeepsGroup(ops[0], s.group);
      } else if next.errors == [] {
        PipelineFitsExactly(env, next, ops[1..]);
      } else {
        Scoping.ErrorsStay(env, next, ops[1..]);
        ColumnsOutIsTracked(env, next, ops[1..]);
      }
    }
  }

  lemma TrainKeepsGroup(op: PipelineOp, group: Option<string>)
    ensures op.Train? ==> GroupAfter(op, group) == group
  {
  }

  lemma {:induction false} ColumnsOutIsTracked(env: Env, s: OpState, ops: seq<PipelineOp>)
    ensures RunOps(env, s, ops).cols == ColumnsOut(s.cols, ops)
    decreases |ops|
  {
    hide OpErrors, ColsAfter, Lower, GroupAfter;
    if ops != [] && !ops[0].Train? {
      ColumnsOutIsTracked(env, OpStep(env, s, ops[0]), ops[1..]);
    }
  }

  lemma SourceFitsExactly(a: Analysis, source: PipelineSource)
    ensures var (cols, _, errors) := ResolveSource(a, source);
      && (errors == [] <==> SourceFits(ContextOf(a), source))
      && (errors == [] ==> cols == Some(SourceColumns(ContextOf(a), source)))
  {
    hide ColsOfFields;
  }

  lemma PipelineIsExact(a: Analysis, binding: Option<string>, source: PipelineSource, ops: seq<PipelineOp>)
    requires a.errors == []
    ensures AfterPipeline(a, binding, source, ops).errors == [] <==> PipelineIsWellFormed(ContextOf(a), source, ops)
    ensures PipelineYields(a, source, ops) == Scoping.HasTrain(ops)
    ensures PipelineIsWellFormed(ContextOf(a), source, ops) && binding.Some? ==>
      AfterPipeline(a, binding, source, ops).vars
      == a.vars[binding.value := ColumnsOut(SourceColumns(ContextOf(a), source), ops)]
  {
    hide RunOps, ResolveSource, SchemaFromMap, PipelineFits, SourceFits, SourceColumns, Scoping.HasTrain, ColumnsOut;
    SourceFitsExactly(a, source);
    var cols := ResolveSource(a, source).0;
    PipelineFitsExactly(a.Tables(), StartOps(cols), ops);
    Scoping.YieldsExactlyWithTrain(a.Tables(), StartOps(cols), ops);
  }

  lemma RunIsExact(a: Analysis, v: string, network: string, config: TrainConfig)
    requires a.errors == []
    ensures AfterTrainStmt(a, v, network, config).errors == []
       <==> StmtIsWellFormed(ContextOf(a), TrainStmt(v, network, config))
  {
    hide SweepErrors, SoundOptions, SchemaFromMap, Features;
    OptionsCleanExactly(config);
  }

  /** A statement adds no error exactly when it is well formed, and then declares what it should. */
  lemma StmtIsExact(a: Analysis, stmt: Stmt)
    requires a.errors == []
    ensures var b := AfterStmt(a, stmt);
      && (b.errors == [] <==> StmtIsWellFormed(ContextOf(a), stmt))
      && (b.errors == [] ==> ContextOf(b) == Declare(ContextOf(a), stmt))
  {
    hide AfterPipeline, PipelineYields, AfterTrainStmt, ModelErrors, SoundNetwork, PipelineIsWellFormed, SourceColumns;
    hide SoundOptions, Scoping.HasTrain, ColumnsOut, SchemaFromFields;
    match stmt
    case ModelDecl(_, layers) => NetworkCleanExactly(layers);
    case VarDecl(v, source, ops) =>
      PipelineIsExact(a, Some(v), source, ops);
      PipelineKeepsTables(a, Some(v), source, ops);
    case ExprStmt(source, ops) =>
      PipelineIsExact(a, None, source, ops);
      PipelineKeepsTables(a, None, source, ops);
    case TrainStmt(v, network, config) =>
      RunIsExact(a, v, network, config);
      RunKeepsTables(a, v, network, config);
    case _ =>
  }

  lemma PipelineKeepsTables(a: Analysis, binding: Option<string>, source: PipelineSource, ops: seq<PipelineOp>)
    ensures var b := AfterPipeline(a, binding, source, ops);
      && (b.schemas, b.models, b.trained) == (a.schemas, a.models, a.trained)
      && (binding.None? ==> b.vars == a.vars)
  {
  }

  lemma RunKeepsTables(a: Analysis, v: string, network: string, config: TrainConfig)
    ensures ContextOf(AfterTrainStmt(a, v, network, config)) == ContextOf(a)
  {
  }

  lemma {:induction false} StmtsAreExact(a: Analysis, stmts: seq<Stmt>)
    requires a.errors == []
    ensures AfterStmts(a, stmts).errors == [] <==> AllWellFormed(ContextOf(a), stmts)
    decreases |stmts|
  {
    hide AfterStmt, StmtIsWellFormed, Declare;
    if stmts != [] {
      var b := AfterStmt(a, stmts[0]);
      StmtIsExact(a, stmts[0]);
      if b.errors == [] {
        StmtsAreExact(b, stmts[1..]);
      } else {
        Scoping.StmtsErrorsOnlyGrow(b, stmts[1..]);
      }
    }
  }

  /** The checker reports nothing exactly for the well-formed programs. */
  lemma CleanProgramsAreWellFormed(program: seq<Stmt>)
    ensures Checked(program).errors == [] <==> IsWellFormed(program)
  {
    hide AfterStmts, AllWellFormed;
    StmtsAreExact(EMPTY, program);
  }
}
