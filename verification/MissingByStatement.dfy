/** Missing columns in pipelines and statements: the checker's tables against the frames execution makes. */
module MissingByStatement {
  import opened Ast
  import opened Frames
  import opened Lowering
  import opened Checking
  import opened MissingByOperator
  import opened Wrappers
  import Programs
  import ProgramPreservation
  import Scoping

  // ── Pipelines ───────────────────────────────────────────────────────────

  /** Simple operators, and training with a declared network. */
  predicate Admitted(ops: seq<PipelineOp>, models: set<string>) {
    forall op <- ops :: Simple(op) || (op.Train? && op.modelName in models)
  }

  /** The first train operator's target is absent from the columns tracked there. */
  predicate MissesTarget(env: Env, st: OpState, ops: seq<PipelineOp>)
    decreases |ops|
  {
    ops != [] &&
    if ops[0].Train? then ops[0].train.target !in st.cols else MissesTarget(env, OpStep(env, st, ops[0]), ops[1..])
  }

  lemma {:induction false} StopsStay(strict: bool, env: Env, st: OpState, ops: seq<PipelineOp>)
    requires Stops(strict, st.errors)
    ensures Stops(strict, RunOps(env, st, ops).errors)
  {
    hide RunOps, IsNeeded;
    Scoping.ErrorsStay(env, st, ops);
    var e :| e in st.errors && IsNeeded(strict, e);
    assert e in RunOps(env, st, ops).errors;
  }

  lemma FirstIsAdmitted(ops: seq<PipelineOp>, models: set<string>)
    requires ops != [] && Admitted(ops, models)
    ensures if ops[0].Train? then ops[0].modelName in models else Simple(ops[0])
    ensures Admitted(ops[1..], models)
  {
    hide Simple;
    assert ops[0] in ops && forall op <- ops[1..] :: op in ops;
    SimpleIsNotTrain(ops[0]);
  }

  /**
   * Running an operator list stops for a missing column exactly when a needed one is reported or a train target is missed,
   * and the columns stay the ones tracked even past a rename that is reported and skipped.
   */
  lemma {:induction false} OperatorsAreExact(
      g: Engine, run: Programs.Env, env: Env, s: Programs.State, st: OpState, ops: seq<PipelineOp>)
    requires Admitted(ops, env.models.Keys) && run.graphs == env.models
    requires s.group == None && s.frame.cols == st.cols.Keys
    requires !Stops(g.strictRename, st.errors) && !st.yieldsModel
    ensures var (o, t) := (Programs.EvalOps(g, run, s, ops), RunOps(env, st, ops));
      if Stops(g.strictRename, t.errors) || MissesTarget(env, st, ops) then o.MissingColumn?
      else o.Ran? && (o.value.FrameProduct? ==> o.value.frame.cols == t.cols.Keys)
    decreases |ops|
  {
    hide Stops, OpErrors, ColsAfter, Programs.EvalOp, Programs.EvalTrain, GroupAfter, Lower, Simple, Admitted;
    if ops != [] {
      FirstIsAdmitted(ops, env.models.Keys);
      var next := OpStep(env, st, ops[0]);
      StopsEither(g.strictRename, st.errors, OpErrors(env, ops[0], st.cols));
      if ops[0].Train? {
        TrainStopsExactly(g.strictRename, env, run, ops[0].modelName, ops[0].train, s.frame, st.cols);
      } else {
        OperatorIsExact(g, run, env, s, ops[0], st.cols);
        if Stops(g.strictRename, next.errors) {
          StopsStay(g.strictRename, env, next, ops[1..]);
        } else {
          OperatorsAreExact(g, run, env, Programs.EvalOp(g, run, s, ops[0]).value, next, ops[1..]);
        }
      }
    }
  }

  lemma SimpleIsNotTrain(op: PipelineOp)
    ensures Simple(op) ==> !op.Train?
  {
  }

  // ── Programs ────────────────────────────────────────────────────────────

  predicate SourceKnown(source: PipelineSource, schemas: set<string>, frames: set<string>) {
    match source
    case Load(_, schema, _) => schema in schemas
    case VarRef(v) => v in frames
  }

  /**
   * Names are declared once and before use, in their own kind, and pipelines are admitted. A variable whose pipeline trains
   * is a model; the others are frames.
   */
  predicate Resolves(stmts: seq<Stmt>, schemas: set<string>, graphs: set<string>, frames: set<string>, models: set<string>)
    decreases |stmts|
  {
    if stmts == [] then true
    else
      var rest := stmts[1..];
      match stmts[0]
      case Import(_) => false
      case TypeDecl(name, _) => name !in schemas && Resolves(rest, schemas + {name}, graphs, frames, models)
      case ModelDecl(name, _) => name !in graphs && Resolves(rest, schemas, graphs + {name}, frames, models)
      case VarDecl(v, source, ops) =>
        && v !in frames + models && SourceKnown(source, schemas, frames) && Admitted(ops, graphs)
        && if Scoping.HasTrain(ops) then Resolves(rest, schemas, graphs, frames, models + {v})
           else Resolves(rest, schemas, graphs, frames + {v}, models)
      case ExprStmt(source, ops) =>
        SourceKnown(source, schemas, frames) && Admitted(ops, graphs) && Resolves(rest, schemas, graphs, frames, models)
      case TrainStmt(v, model, _) => v in frames && model in graphs && Resolves(rest, schemas, graphs, frames, models)
  }

  /** A program whose names resolve from nothing. */
  predicate NamesResolve(program: seq<Stmt>) {
    var none: set<string> := {};
    Resolves(program, none, none, none, none)
  }

  /** The statement is a pipeline that misses its train target. */
  predicate StmtMisses(a: Analysis, stmt: Stmt) {
    match stmt
    case VarDecl(_, source, ops) => MissesTarget(a.Tables(), StartOps(ResolveSource(a, source).0), ops)
    case ExprStmt(source, ops) => MissesTarget(a.Tables(), StartOps(ResolveSource(a, source).0), ops)
    case _ => false
  }

  /** The errors reported between two stages of checking. */
  function Added(a: Analysis, b: Analysis): Errors
    requires a.errors <= b.errors
  {
    b.errors[|a.errors|..]
  }

  /** A column the statement needs is reported missing; a `run` statement renames nothing, so it needs every one reported. */
  predicate StmtReports(strict: bool, a: Analysis, stmt: Stmt) {
    Scoping.ErrorsOnlyGrow(a, stmt);
    Stops(strict || stmt.TrainStmt?, Added(a, AfterStmt(a, stmt)))
  }

  /** The checker's tables describe the frames execution has made. */
  predicate Synced(a: Analysis, w: Programs.World) {
    && w.schemas == a.schemas && w.env.graphs == a.models
    && a.vars.Keys == w.env.frames.Keys + a.trained
    && w.env.frames.Keys !! a.trained
    && forall v <- w.env.frames :: w.env.frames[v].cols == a.vars[v].Keys
  }

  lemma SourceIsExact(g: Engine, a: Analysis, w: Programs.World, source: PipelineSource)
    requires Conforming(g) && Synced(a, w) && SourceKnown(source, a.schemas.Keys, w.env.frames.Keys)
    ensures var (cols, _, errors) := ResolveSource(a, source);
            var o := Programs.EvalSource(g, w, source);
      && errors == []
      && cols.Some? && o.Ran? && o.value.cols == cols.value.Keys
  {
    match source
    case Load(path, schema, options) =>
      var fields := a.schemas[schema];
      FieldNames(fields);
      assert g.load(path, Some(SchemaFromFields(fields)), options).cols == set f | f in SchemaFromFields(fields) :: f.name;
    case VarRef(v) =>
  }

  lemma FieldNames(fields: seq<StructField>)
    ensures (set f | f in SchemaFromFields(fields) :: f.name) == ColsOfFields(fields).Keys
  {
    var s := SchemaFromFields(fields);
    forall c ensures c in (set f | f in s :: f.name) <==> c in ColsOfFields(fields) {
      if c in ColsOfFields(fields) {
        var i :| 0 <= i < |fields| && fields[i].name == c;
        assert s[i] in s && s[i].name == c;
      }
    }
  }

  /** What a statement comes to, executed and checked. */
  predicate Exact(g: Engine, a: Analysis, stmt: Stmt, o: Outcome<Programs.World>) {
    if StmtReports(g.strictRename, a, stmt) || StmtMisses(a, stmt) then o.MissingColumn?
    else o.Ran? && Synced(AfterStmt(a, stmt), o.value)
  }

  /** The names a binding adds, by what the pipeline produced. */
  function Trained(binding: Option<string>, ops: seq<PipelineOp>): set<string> {
    if binding.Some? && Scoping.HasTrain(ops) then {binding.value} else {}
  }

  lemma PipelineIsExact(
      g: Engine, a: Analysis, w: Programs.World, binding: Option<string>, source: PipelineSource, ops: seq<PipelineOp>)
    requires Conforming(g) && Synced(a, w)
    requires SourceKnown(source, a.schemas.Keys, w.env.frames.Keys) && Admitted(ops, a.models.Keys)
    requires binding.Some? ==> binding.value !in a.vars
    ensures var b := AfterPipeline(a, binding, source, ops);
            var o := Programs.Bound(w, binding, Programs.EvalPipeline(g, w, source, ops));
      && PipelineYields(a, source, ops) == Scoping.HasTrain(ops)
      && a.errors <= b.errors
      && if Stops(g.strictRename, Added(a, b)) || MissesTarget(a.Tables(), StartOps(ResolveSource(a, source).0), ops)
         then o.MissingColumn?
         else o.Ran? && Synced(b.(trained := b.trained + Trained(binding, ops)), o.value)
  {
    hide Stops, RunOps, ResolveSource, Programs.EvalOps, Programs.EvalSource, Admitted, Conforming, When, Scoping.HasTrain;
    hide NodeOf, SourceKnown, Synced, Programs.Bind, MissesTarget;
    SourceIsExact(g, a, w, source);
    var cols := ResolveSource(a, source).0;
    var f := Programs.EvalSource(g, w, source).value;
    NothingIsAbsent(g.strictRename, {});
    SyncedGraphs(a, w);
    OperatorsAreExact(g, w.env, a.Tables(), Programs.State(f, None), StartOps(cols), ops);
    Scoping.YieldsExactlyWithTrain(a.Tables(), StartOps(cols), ops);
    ProgramPreservation.ModelsComeFromTraining(g, w.env, Programs.State(f, None), ops);
    var t := RunOps(a.Tables(), StartOps(cols), ops);
    PipelineErrors(g.strictRename, a.errors, t.errors, t.group.Some?);
    var o := Programs.EvalOps(g, w.env, Programs.State(f, None), ops);
    if o.Ran? {
      var b := AfterPipeline(a, binding, source, ops);
      StaySynced(a, w, binding, t.cols, o.value, b.(trained := b.trained + Trained(binding, ops)), Scoping.HasTrain(ops));
    }
  }

  lemma SyncedGraphs(a: Analysis, w: Programs.World)
    ensures Synced(a, w) ==> w.env.graphs == a.models
  {
  }

  lemma PipelineErrors(strict: bool, base: Errors, found: Errors, grouped: bool)
    ensures var all := base + [] + found + When(grouped, Other(MissingAggregate));
      base <= all && (Stops(strict, all[|base|..]) <==> Stops(strict, found))
  {
    hide Stops, When;
    var missing := When(grouped, Other(MissingAggregate));
    StopsOne(strict, grouped, Other(MissingAggregate));
    StopsEither(strict, found, missing);
    assert (base + [] + found + missing)[|base|..] == found + missing;
  }

  lemma StaySynced(
      a: Analysis, w: Programs.World, binding: Option<string>, cols: Cols, p: Programs.Product, b: Analysis, trains: bool)
    requires Synced(a, w) && (p.ModelProduct? <==> trains) && (p.FrameProduct? ==> p.frame.cols == cols.Keys)
    requires binding.Some? ==> binding.value !in a.vars
    requires (b.schemas, b.models) == (a.schemas, a.models)
    requires b.trained == a.trained + if binding.Some? && trains then {binding.value} else {}
    requires b.vars == if binding.Some? then a.vars[binding.value := cols] else a.vars
    ensures Synced(b, w.(env := Programs.Bind(w.env, binding, p)))
  {
  }

  lemma RunIsExact(g: Engine, a: Analysis, w: Programs.World, v: string, model: string, config: TrainConfig)
    requires Synced(a, w) && v in w.env.frames && model in a.models
    ensures Exact(g, a, TrainStmt(v, model, config), Programs.EvalStmt(g, w, TrainStmt(v, model, config)))
  {
    hide Stops, SweepErrors, VocabErrors, SchemaFromMap, Reading;
    assert v in a.vars;
    var f := w.env.frames[v];
    OneColumn(config.target, f, Ran(Programs.ModelProduct(Model(w.env.graphs[model], config, f))));
    var (sweep, column) := (SweepErrors(config), ColumnErrors(config.target, v, a.vars[v]));
    var vocab := VocabErrors(a.models, model, config.target, a.vars[v]);
    OptionsAreNotColumns(true, config, a.models, model, a.vars[v]);
    StopsOne(true, config.target !in a.vars[v], SafeLoadViolation(config.target, v));
    StopsEither(true, sweep + column, vocab);
    StopsEither(true, sweep, column);
    assert (a.errors + sweep + column + vocab)[|a.errors|..] == sweep + column + vocab;
  }

  lemma DeclarationIsExact(g: Engine, a: Analysis, w: Programs.World, stmt: Stmt)
    requires Synced(a, w)
    requires (stmt.TypeDecl? && stmt.name !in a.schemas) || (stmt.ModelDecl? && stmt.name !in a.models)
    ensures var (b, o) := (AfterStmt(a, stmt), Programs.EvalStmt(g, w, stmt));
      !StmtReports(g.strictRename, a, stmt) && o.Ran? && Synced(b, o.value)
  {
    hide Stops, ModelErrors, SchemaFromFields;
    if stmt.ModelDecl? {
      LayersAreNotColumns(g.strictRename, stmt.layers);
      assert (a.errors + ModelErrors(stmt.layers))[|a.errors|..] == ModelErrors(stmt.layers);
    } else {
      NothingIsAbsent(g.strictRename, {});
      assert a.errors[|a.errors|..] == [];
    }
  }

  lemma LayersAreNotColumns(strict: bool, layers: seq<LayerKind>)
    ensures !Stops(strict, ModelErrors(layers))
  {
    hide LayersErrors, Trainable;
    LayerPrefixesAreNotColumns(strict, layers, |layers|);
  }

  lemma {:induction false} LayerPrefixesAreNotColumns(strict: bool, layers: seq<LayerKind>, n: nat)
    requires n <= |layers|
    ensures !Stops(strict, LayersErrors(layers, n))
  {
    if n > 0 {
      LayerPrefixesAreNotColumns(strict, layers, n - 1);
    }
  }

  lemma VarDeclIsExact(g: Engine, a: Analysis, w: Programs.World, v: string, source: PipelineSource, ops: seq<PipelineOp>)
    requires Conforming(g) && Synced(a, w) && v !in w.env.frames.Keys + a.trained
    requires SourceKnown(source, a.schemas.Keys, w.env.frames.Keys) && Admitted(ops, a.models.Keys)
    ensures var stmt := VarDecl(v, source, ops); Exact(g, a, stmt, Programs.EvalStmt(g, w, stmt))
    ensures var b := AfterVarDecl(a, v, source, ops);
      && b.schemas == a.schemas && b.models == a.models
      && b.trained == a.trained + if Scoping.HasTrain(ops) then {v} else {}
  {
    hide Stops, AfterPipeline, PipelineYields, Programs.EvalPipeline, Admitted, Conforming, Scoping.HasTrain, MissesTarget;
    PipelineIsExact(g, a, w, Some(v), source, ops);
    ProgramPreservation.PipelineKeepsDeclarations(a, Some(v), source, ops);
    PipelineKeepsTrained(a, Some(v), source, ops);
    var b := AfterPipeline(a, Some(v), source, ops);
    assert b.(trained := b.trained + {}) == b;
  }

  lemma PipelineKeepsTrained(a: Analysis, binding: Option<string>, source: PipelineSource, ops: seq<PipelineOp>)
    ensures AfterPipeline(a, binding, source, ops).trained == a.trained
  {
  }

  /** The names a statement leaves resolved are the ones its successor's tables have. */
  predicate ResolvesIn(stmts: seq<Stmt>, b: Analysis, w: Programs.World) {
    Resolves(stmts, b.schemas.Keys, b.models.Keys, w.env.frames.Keys, b.trained)
  }

  lemma FramesAfter(a: Analysis, w: Programs.World, b: Analysis, v: string, trains: bool, o: Outcome<Programs.World>)
    requires Synced(a, w) && o.Ran? && Synced(b, o.value) && v !in w.env.frames.Keys + a.trained
    requires b.trained == a.trained + if trains then {v} else {}
    requires b.vars.Keys == a.vars.Keys + {v}
    ensures o.value.env.frames.Keys == w.env.frames.Keys + if trains then {} else {v}
  {
  }

  lemma StatementIsExact(g: Engine, a: Analysis, w: Programs.World, stmts: seq<Stmt>)
    requires Conforming(g) && Synced(a, w)
    requires stmts != [] && ResolvesIn(stmts, a, w)
    ensures var (b, o) := (AfterStmt(a, stmts[0]), Programs.EvalStmt(g, w, stmts[0]));
      && Exact(g, a, stmts[0], o)
      && (o.Ran? ==> ResolvesIn(stmts[1..], b, o.value))
  {
    hide Stops, ModelErrors, SchemaFromFields, PipelineYields, Programs.EvalPipeline, Programs.EvalTrain, MissesTarget;
    hide Admitted, Conforming, SourceKnown, AfterPipeline, AfterTrainStmt, AfterVarDecl, ColumnErrors, Scoping.HasTrain;
    var stmt := stmts[0];
    var o := Programs.EvalStmt(g, w, stmt);
    match stmt
    case TypeDecl(name, fields) =>
      DeclarationIsExact(g, a, w, stmt);
      assert a.schemas[name := fields].Keys == a.schemas.Keys + {name};
    case ModelDecl(name, layers) =>
      DeclarationIsExact(g, a, w, stmt);
      assert a.models[name := layers].Keys == a.models.Keys + {name};
    case VarDecl(v, source, ops) =>
      VarDeclIsExact(g, a, w, v, source, ops);
      VarDeclDeclares(a, v, source, ops);
      if o.Ran? {
        FramesAfter(a, w, AfterStmt(a, stmt), v, Scoping.HasTrain(ops), o);
        assert w.env.frames.Keys + {} == w.env.frames.Keys && a.trained + {} == a.trained;
      }
    case ExprStmt(source, ops) =>
      PipelineIsExact(g, a, w, None, source, ops);
      ProgramPreservation.PipelineKeepsDeclarations(a, None, source, ops);
      PipelineKeepsTrained(a, None, source, ops);
      var b := AfterPipeline(a, None, source, ops);
      assert b.(trained := b.trained + {}) == b;
      if o.Ran? {
        UnboundKeepsFrames(g, w, source, ops);
      }
    case TrainStmt(v, model, config) =>
      RunIsExact(g, a, w, v, model, config);
      RunKeepsTables(g, a, w, v, model, config);
  }

  lemma VarDeclDeclares(a: Analysis, v: string, source: PipelineSource, ops: seq<PipelineOp>)
    requires v !in a.vars && v !in a.trained
    ensures AfterVarDecl(a, v, source, ops).vars.Keys == a.vars.Keys + {v}
  {
    hide RunOps, ResolveSource, SchemaFromMap;
  }

  lemma UnboundKeepsFrames(g: Engine, w: Programs.World, source: PipelineSource, ops: seq<PipelineOp>)
    ensures var o := Programs.EvalStmt(g, w, ExprStmt(source, ops)); o.Ran? ==> o.value.env == w.env
  {
    hide Programs.EvalPipeline;
  }

  lemma RunKeepsTables(
      g: Engine, a: Analysis, w: Programs.World, v: string, model: string, config: TrainConfig)
    ensures var (b, o) := (AfterTrainStmt(a, v, model, config), Programs.EvalStmt(g, w, TrainStmt(v, model, config)));
      && (b.schemas, b.models, b.trained) == (a.schemas, a.models, a.trained)
      && (o.Ran? ==> o.value.env == w.env)
  {
    hide Programs.EvalTrain, SweepErrors, VocabErrors, ColumnErrors;
  }
}
