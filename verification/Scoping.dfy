/** Names in the checked program: what an error-free program guarantees about every lookup. */
module Scoping {
  import opened Ast
  import opened Lowering
  import opened Checking
  import opened Wrappers
  import Ir

  // ── What it means for a program's names to be in order ──────────────────

  /** The frame variables bound by the first n pipelines. */
  function FramesBefore(ps: seq<Ir.PipelineNode>, n: nat): set<string>
    requires n <= |ps|
  {
    set i | 0 <= i < n && ps[i].name.Some? && !ps[i].yieldsModel :: ps[i].name.value
  }

  /** The model variables bound by the first n pipelines. */
  function ModelsBefore(ps: seq<Ir.PipelineNode>, n: nat): set<string>
    requires n <= |ps|
  {
    set i | 0 <= i < n && ps[i].name.Some? && ps[i].yieldsModel :: ps[i].name.value
  }

  function GraphNames(graphs: seq<Ir.ModelGraph>): set<string> {
    set g | g in graphs :: g.name
  }

  predicate IsTrain(step: Ir.Step) {
    step.ML? && step.ml.Train?
  }

  predicate EndsInTrain(p: Ir.PipelineNode) {
    p.steps != [] && IsTrain(p.steps[|p.steps| - 1])
  }

  predicate NeverTrains(p: Ir.PipelineNode) {
    forall step <- p.steps :: !IsTrain(step)
  }

  /** A `run v |> train(...)` statement: it binds nothing and only trains. */
  predicate IsRunNode(p: Ir.PipelineNode) {
    p.name.None? && !p.yieldsModel && |p.steps| == 1 && EndsInTrain(p)
  }

  predicate StepScoped(step: Ir.Step, frames: set<string>, models: set<string>, graphs: set<string>) {
    match step
    case Data(Join(other, _, _, _)) => other in frames
    case ML(Train(m, _)) => m in graphs
    case ML(Predict(m, _)) => m in models
    case _ => true
  }

  /** A source names an earlier frame; a `run` statement's source may also be an earlier model variable. */
  predicate SourceScoped(p: Ir.PipelineNode, frames: set<string>, models: set<string>) {
    p.source.Ref? ==> p.source.name in frames || (IsRunNode(p) && p.source.name in models)
  }

  predicate NodeScoped(ps: seq<Ir.PipelineNode>, j: nat, graphs: set<string>)
    requires j < |ps|
  {
    var p, frames, models := ps[j], FramesBefore(ps, j), ModelsBefore(ps, j);
    && p.id == j
    && (p.name.Some? ==> p.name.value !in frames + models)
    && (if p.yieldsModel then EndsInTrain(p) else NeverTrains(p) || IsRunNode(p))
    && SourceScoped(p, frames, models)
    && forall step <- p.steps :: StepScoped(step, frames, models, graphs)
  }

  predicate WellScoped(ir: Ir.TypedProgram) {
    forall j | 0 <= j < |ir.pipelines| :: NodeScoped(ir.pipelines, j, GraphNames(ir.models))
  }

  // ── Appending a pipeline keeps the earlier ones in order ────────────────

  lemma NamesBeforeAreStable(ps: seq<Ir.PipelineNode>, p: Ir.PipelineNode, n: nat)
    requires n <= |ps|
    ensures FramesBefore(ps + [p], n) == FramesBefore(ps, n)
    ensures ModelsBefore(ps + [p], n) == ModelsBefore(ps, n)
  {
    assert forall i | 0 <= i < n :: (ps + [p])[i] == ps[i];
  }

  lemma NamesAfterAppend(ps: seq<Ir.PipelineNode>, p: Ir.PipelineNode)
    ensures FramesBefore(ps + [p], |ps| + 1)
         == FramesBefore(ps, |ps|) + if p.name.Some? && !p.yieldsModel then {p.name.value} else {}
    ensures ModelsBefore(ps + [p], |ps| + 1)
         == ModelsBefore(ps, |ps|) + if p.name.Some? && p.yieldsModel then {p.name.value} else {}
  {
    var all := ps + [p];
    assert forall i | 0 <= i < |ps| :: all[i] == ps[i];
    assert all[|ps|] == p;
  }

  lemma GraphsGrow(step: Ir.Step, frames: set<string>, models: set<string>, graphs: set<string>, more: set<string>)
    ensures graphs <= more && StepScoped(step, frames, models, graphs) ==> StepScoped(step, frames, models, more)
  {
  }

  lemma NodesStayScoped(ps: seq<Ir.PipelineNode>, p: Ir.PipelineNode, graphs: set<string>, more: set<string>)
    requires graphs <= more
    requires forall j | 0 <= j < |ps| :: NodeScoped(ps, j, graphs)
    ensures forall j | 0 <= j < |ps| :: NodeScoped(ps + [p], j, more)
  {
    forall j | 0 <= j < |ps| ensures NodeScoped(ps + [p], j, more) {
      hide StepScoped;
      NamesBeforeAreStable(ps, p, j);
      assert (ps + [p])[j] == ps[j] && NodeScoped(ps, j, graphs);
      forall step <- ps[j].steps
        ensures StepScoped(step, FramesBefore(ps, j), ModelsBefore(ps, j), more)
      {
        GraphsGrow(step, FramesBefore(ps, j), ModelsBefore(ps, j), graphs, more);
      }
    }
  }

  lemma NodesKeepWithMoreGraphs(ps: seq<Ir.PipelineNode>, graphs: set<string>, more: set<string>)
    requires graphs <= more
    requires forall j | 0 <= j < |ps| :: NodeScoped(ps, j, graphs)
    ensures forall j | 0 <= j < |ps| :: NodeScoped(ps, j, more)
  {
    forall j | 0 <= j < |ps| ensures NodeScoped(ps, j, more) {
      hide StepScoped;
      assert NodeScoped(ps, j, graphs);
      forall step <- ps[j].steps
        ensures StepScoped(step, FramesBefore(ps, j), ModelsBefore(ps, j), more)
      {
        GraphsGrow(step, FramesBefore(ps, j), ModelsBefore(ps, j), graphs, more);
      }
    }
  }

  // ── One pipeline without errors ─────────────────────────────────────────

  /** An operator without errors lowers to a step whose names the symbol tables hold. */
  lemma OpIsScoped(env: Env, op: PipelineOp, cols: Cols)
    requires OpErrors(env, op, cols) == []
    ensures StepScoped(Lower(op, cols), env.vars.Keys - env.trained, env.trained, env.models.Keys)
  {
    if op.Join? {
      assert op.other !in env.trained && op.other in env.vars;
    } else if !op.Train? && !op.Predict? {
      OthersNameNothing(op, cols);
    }
  }

  lemma OthersNameNothing(op: PipelineOp, cols: Cols)
    requires !op.Join? && !op.Train? && !op.Predict?
    ensures Lower(op, cols).Data? ==> !Lower(op, cols).data.Join?
    ensures !Lower(op, cols).ML?
  {
    hide TypeExpr, LowerFill, LowerSpecs;
  }

  predicate StepsScoped(steps: seq<Ir.Step>, env: Env) {
    forall step <- steps :: StepScoped(step, env.vars.Keys - env.trained, env.trained, env.models.Keys)
  }

  lemma StepKeepsScope(env: Env, s: OpState, op: PipelineOp)
    requires OpStep(env, s, op).errors == []
    requires StepsScoped(s.steps, env)
    ensures s.errors == [] && StepsScoped(OpStep(env, s, op).steps, env)
  {
    hide OpErrors, Lower, ColsAfter, GroupAfter, StepScoped;
    OpIsScoped(env, op, s.cols);
  }

  /** A model is recorded exactly when the last step trains. */
  predicate LastTrains(s: OpState) {
    if s.yieldsModel then s.steps != [] && IsTrain(s.steps[|s.steps| - 1]) else forall step <- s.steps :: !IsTrain(step)
  }

  lemma TrainStepIsLast(env: Env, s: OpState, op: PipelineOp)
    requires op.Train?
    ensures LastTrains(OpStep(env, s, op))
  {
    var steps := OpStep(env, s, op).steps;
    assert steps[|steps| - 1] == Lower(op, s.cols);
  }

  lemma OtherStepsDoNotTrain(env: Env, s: OpState, op: PipelineOp)
    requires !op.Train? && LastTrains(s) && !s.yieldsModel
    ensures LastTrains(OpStep(env, s, op)) && !OpStep(env, s, op).yieldsModel
  {
    hide ColsAfter, GroupAfter, OpErrors;
    NoTrainLowered(op, s.cols);
  }

  lemma NoTrainLowered(op: PipelineOp, cols: Cols)
    requires !op.Train?
    ensures !IsTrain(Lower(op, cols))
  {
    if !op.Join? && !op.Predict? {
      OthersNameNothing(op, cols);
    }
  }

  lemma {:induction false} OpsAreScoped(env: Env, s: OpState, ops: seq<PipelineOp>)
    requires RunOps(env, s, ops).errors == []
    requires StepsScoped(s.steps, env) && !s.yieldsModel && LastTrains(s)
    ensures s.errors == [] && StepsScoped(RunOps(env, s, ops).steps, env) && LastTrains(RunOps(env, s, ops))
    decreases |ops|
  {
    hide StepsScoped, LastTrains;
    if ops != [] {
      var next := OpStep(env, s, ops[0]);
      if ops[0].Train? {
        StepKeepsScope(env, s, ops[0]);
        TrainStepIsLast(env, s, ops[0]);
      } else {
        ErrorsStay(env, next, ops[1..]);
        StepKeepsScope(env, s, ops[0]);
        OtherStepsDoNotTrain(env, s, ops[0]);
        OpsAreScoped(env, next, ops[1..]);
      }
    }
  }

  lemma {:induction false} ErrorsStay(env: Env, s: OpState, ops: seq<PipelineOp>)
    ensures s.errors <= RunOps(env, s, ops).errors
    decreases |ops|
  {
    hide OpErrors, Lower, ColsAfter, GroupAfter;
    if ops != [] && !ops[0].Train? {
      ErrorsStay(env, OpStep(env, s, ops[0]), ops[1..]);
    }
  }

  // ── The invariant between statements ────────────────────────────────────

  predicate TablesMatch(a: Analysis) {
    var ps := a.ir.pipelines;
    && a.trained == ModelsBefore(ps, |ps|)
    && a.vars.Keys == FramesBefore(ps, |ps|) + a.trained
    && FramesBefore(ps, |ps|) !! a.trained
    && a.models.Keys == GraphNames(a.ir.models)
  }

  predicate Sound(a: Analysis) {
    a.errors == [] ==> TablesMatch(a) && WellScoped(a.ir)
  }

  /** Adding a scoped pipeline keeps the program scoped and the tables in step with it. */
  lemma AppendKeepsSound(a: Analysis, p: Ir.PipelineNode, b: Analysis)
    requires TablesMatch(a) && WellScoped(a.ir)
    requires p.id == |a.ir.pipelines|
    requires p.name.Some? ==> p.name.value !in a.vars
    requires if p.yieldsModel then EndsInTrain(p) else NeverTrains(p) || IsRunNode(p)
    requires SourceScoped(p, a.vars.Keys - a.trained, a.trained)
    requires StepsScoped(p.steps, a.Tables())
    requires b.ir == AddNode(a.ir, p) && b.models == a.models
    requires b.vars.Keys == a.vars.Keys + if p.name.Some? then {p.name.value} else {}
    requires b.trained == a.trained + if p.name.Some? && p.yieldsModel then {p.name.value} else {}
    ensures TablesMatch(b) && WellScoped(b.ir)
  {
    hide StepScoped, SourceScoped, EndsInTrain, NeverTrains, IsRunNode;
    var ps, n := a.ir.pipelines, |a.ir.pipelines|;
    NamesBeforeAreStable(ps, p, n);
    NamesAfterAppend(ps, p);
    assert FramesBefore(ps, n) == a.vars.Keys - a.trained;
    NodesStayScoped(ps, p, GraphNames(a.ir.models), GraphNames(a.ir.models));
    assert (ps + [p])[n] == p;
    assert NodeScoped(ps + [p], n, GraphNames(a.ir.models));
  }

  lemma SourceResolves(a: Analysis, source: PipelineSource)
    ensures ResolveSource(a, source).2 == []
        ==> (var s := ResolveSource(a, source).1; s.Ref? ==> s.name in a.vars.Keys - a.trained)
  {
  }

  lemma PipelineIsSound(a: Analysis, binding: Option<string>, source: PipelineSource, ops: seq<PipelineOp>)
    requires TablesMatch(a) && WellScoped(a.ir)
    requires binding.Some? ==> binding.value !in a.vars
    requires AfterPipeline(a, binding, source, ops).errors == []
    ensures var b := AfterPipeline(a, binding, source, ops);
            var c := b.(trained := b.trained + if binding.Some? && PipelineYields(a, source, ops) then {binding.value} else {});
            TablesMatch(c) && WellScoped(c.ir)
  {
    hide RunOps, ResolveSource, SchemaFromMap, TablesMatch, WellScoped, StepScoped;
    var (cols, irSource, sourceErrors) := ResolveSource(a, source);
    var s := RunOps(a.Tables(), StartOps(cols), ops);
    var node := NodeOf(|a.ir.pipelines|, binding, irSource, cols, s);
    assert sourceErrors == [] && s.errors == [];
    SourceResolves(a, source);
    OpsAreScoped(a.Tables(), StartOps(cols), ops);
    var b := AfterPipeline(a, binding, source, ops);
    AppendKeepsSound(a, node,
      b.(trained := b.trained + if binding.Some? && PipelineYields(a, source, ops) then {binding.value} else {}));
  }

  lemma RunNodeIsSound(a: Analysis, v: string, model: string, config: TrainConfig)
    requires TablesMatch(a) && WellScoped(a.ir)
    requires AfterTrainStmt(a, v, model, config).errors == []
    ensures var b := AfterTrainStmt(a, v, model, config); TablesMatch(b) && WellScoped(b.ir)
  {
    hide SchemaFromMap, TablesMatch, WellScoped, SweepErrors, VocabErrors, ColumnErrors;
    if v in a.vars && model in a.models {
      var node := RunNode(|a.ir.pipelines|, v, model, config, a.vars[v]);
      AppendKeepsSound(a, node, AfterTrainStmt(a, v, model, config));
    }
  }

  lemma ModelDeclIsSound(a: Analysis, name: string, layers: seq<LayerKind>)
    requires TablesMatch(a) && WellScoped(a.ir) && name !in a.models
    ensures var b := AfterStmt(a, ModelDecl(name, layers)); TablesMatch(b) && WellScoped(b.ir)
  {
    hide NodeScoped, ModelErrors, FramesBefore, ModelsBefore;
    var b := AfterStmt(a, ModelDecl(name, layers));
    assert GraphNames(b.ir.models) == GraphNames(a.ir.models) + {name};
    NodesKeepWithMoreGraphs(a.ir.pipelines, GraphNames(a.ir.models), GraphNames(b.ir.models));
  }

  lemma ErrorsOnlyGrow(a: Analysis, stmt: Stmt)
    ensures a.errors <= AfterStmt(a, stmt).errors
  {
    hide RunOps, ResolveSource, SchemaFromMap, SweepErrors, VocabErrors, ColumnErrors, ModelErrors, SchemaFromFields;
  }

  /** Every statement that adds no error keeps the IR scoped and the symbol tables equal to what it binds. */
  lemma StmtKeepsSound(a: Analysis, stmt: Stmt)
    requires Sound(a)
    ensures Sound(AfterStmt(a, stmt))
  {
    hide TablesMatch, WellScoped, AfterPipeline, PipelineYields, AfterTrainStmt, ModelErrors;
    ErrorsOnlyGrow(a, stmt);
    var b := AfterStmt(a, stmt);
    if b.errors == [] {
      match stmt
      case Import(_) =>
      case TypeDecl(name, fields) => TypesDoNotBind(a, b);
      case ModelDecl(name, layers) => ModelDeclIsSound(a, name, layers);
      case VarDecl(v, source, ops) => VarDeclIsSound(a, v, source, ops);
      case ExprStmt(source, ops) => ExprStmtIsSound(a, source, ops);
      case TrainStmt(v, model, config) => RunNodeIsSound(a, v, model, config);
    }
  }

  lemma TypesDoNotBind(a: Analysis, b: Analysis)
    requires TablesMatch(a) && WellScoped(a.ir)
    requires b.ir.pipelines == a.ir.pipelines && b.ir.models == a.ir.models
    requires (b.vars, b.trained, b.models) == (a.vars, a.trained, a.models)
    ensures TablesMatch(b) && WellScoped(b.ir)
  {
    hide NodeScoped;
  }

  lemma VarDeclIsSound(a: Analysis, v: string, source: PipelineSource, ops: seq<PipelineOp>)
    requires TablesMatch(a) && WellScoped(a.ir)
    requires AfterVarDecl(a, v, source, ops).errors == []
    ensures var b := AfterVarDecl(a, v, source, ops); TablesMatch(b) && WellScoped(b.ir)
  {
    hide TablesMatch, WellScoped, AfterPipeline, PipelineYields;
    if v !in a.vars && v !in a.trained {
      PipelineIsSound(a, Some(v), source, ops);
      var b := AfterPipeline(a, Some(v), source, ops);
      assert b.(trained := b.trained + {}) == b;
    }
  }

  lemma ExprStmtIsSound(a: Analysis, source: PipelineSource, ops: seq<PipelineOp>)
    requires TablesMatch(a) && WellScoped(a.ir)
    requires AfterPipeline(a, None, source, ops).errors == []
    ensures var b := AfterPipeline(a, None, source, ops); TablesMatch(b) && WellScoped(b.ir)
  {
    hide TablesMatch, WellScoped, AfterPipeline, PipelineYields;
    PipelineIsSound(a, None, source, ops);
    var b := AfterPipeline(a, None, source, ops);
    assert b.(trained := b.trained + {}) == b;
  }

  lemma {:induction false} StmtsKeepSound(a: Analysis, stmts: seq<Stmt>)
    requires Sound(a)
    ensures Sound(AfterStmts(a, stmts))
    decreases |stmts|
  {
    hide Sound, AfterStmt;
    if stmts != [] {
      StmtKeepsSound(a, stmts[0]);
      StmtsKeepSound(AfterStmt(a, stmts[0]), stmts[1..]);
    }
  }

  /** An error-free program has a well-scoped IR. */
  lemma ErrorFreeIsWellScoped(program: seq<Stmt>)
    requires Checked(program).errors == []
    ensures WellScoped(Checked(program).ir)
  {
    hide AfterStmts, WellScoped;
    EmptyIsSound();
    StmtsKeepSound(EMPTY, program);
  }

  lemma EmptyIsSound()
    ensures Sound(EMPTY)
  {
  }

  // ── When every source is a frame ────────────────────────────────────────

  predicate SourceIsFrame(ps: seq<Ir.PipelineNode>, j: nat)
    requires j < |ps|
  {
    ps[j].source.Ref? ==> ps[j].source.name in FramesBefore(ps, j)
  }

  predicate SourcesAreFrames(ps: seq<Ir.PipelineNode>) {
    forall j | 0 <= j < |ps| :: SourceIsFrame(ps, j)
  }

  predicate HasTrain(ops: seq<PipelineOp>) {
    exists i :: 0 <= i < |ops| && ops[i].Train?
  }

  /** No `run v` statement follows a declaration of v that trains; models are the names declared so far. */
  predicate RunsOnFrames(stmts: seq<Stmt>, models: set<string>)
    decreases |stmts|
  {
    stmts == [] ||
    (&& (stmts[0].TrainStmt? ==> stmts[0].sourceVar !in models)
     && RunsOnFrames(stmts[1..],
          models + if stmts[0].VarDecl? && HasTrain(stmts[0].ops) then {stmts[0].varName} else {}))
  }

  lemma SourcesAfterAppend(ps: seq<Ir.PipelineNode>, p: Ir.PipelineNode)
    ensures SourcesAreFrames(ps + [p])
       <==> SourcesAreFrames(ps) && (p.source.Ref? ==> p.source.name in FramesBefore(ps, |ps|))
  {
    hide FramesBefore;
    var all := ps + [p];
    forall j | 0 <= j < |ps| ensures SourceIsFrame(all, j) == SourceIsFrame(ps, j) {
      NamesBeforeAreStable(ps, p, j);
      assert all[j] == ps[j];
    }
    NamesBeforeAreStable(ps, p, |ps|);
    assert all[|ps|] == p && SourceIsFrame(all, |ps|) == (p.source.Ref? ==> p.source.name in FramesBefore(ps, |ps|));
    if SourcesAreFrames(all) {
      forall j | 0 <= j < |ps| ensures SourceIsFrame(ps, j) {
        assert SourceIsFrame(all, j);
      }
    }
  }

  /** A pipeline yields a model exactly when a train operator occurs in it. */
  lemma {:induction false} YieldsExactlyWithTrain(env: Env, s: OpState, ops: seq<PipelineOp>)
    ensures RunOps(env, s, ops).yieldsModel <==> s.yieldsModel || HasTrain(ops)
    decreases |ops|
  {
    hide OpErrors, Lower, ColsAfter, GroupAfter;
    if ops != [] {
      if ops[0].Train? {
        assert HasTrain(ops);
      } else {
        YieldsExactlyWithTrain(env, OpStep(env, s, ops[0]), ops[1..]);
        if HasTrain(ops) {
          var i :| 0 <= i < |ops| && ops[i].Train?;
          assert ops[1..][i - 1] == ops[i];
        }
        if HasTrain(ops[1..]) {
          var i :| 0 <= i < |ops| - 1 && ops[1..][i].Train?;
          assert ops[i + 1].Train?;
        }
      }
    }
  }

  lemma StmtKeepsSources(a: Analysis, stmt: Stmt)
    requires TablesMatch(a) && AfterStmt(a, stmt).errors == []
    ensures SourcesAreFrames(AfterStmt(a, stmt).ir.pipelines)
       <==> SourcesAreFrames(a.ir.pipelines) && (stmt.TrainStmt? ==> stmt.sourceVar !in a.trained)
    ensures AfterStmt(a, stmt).trained
         == a.trained + if stmt.VarDecl? && HasTrain(stmt.ops) then {stmt.varName} else {}
  {
    hide SourcesAreFrames, AfterPipeline, PipelineYields, AfterTrainStmt, ModelErrors, HasTrain, TablesMatch;
    match stmt
    case VarDecl(v, source, ops) => PipelineKeepsSources(a, Some(v), source, ops);
    case ExprStmt(source, ops) => PipelineKeepsSources(a, None, source, ops);
    case TrainStmt(v, model, config) => RunDecidesSources(a, v, model, config);
    case _ =>
  }

  lemma PipelineKeepsSources(a: Analysis, binding: Option<string>, source: PipelineSource, ops: seq<PipelineOp>)
    requires TablesMatch(a)
    ensures var b := AfterPipeline(a, binding, source, ops);
      && (b.errors == [] ==> SourcesAreFrames(b.ir.pipelines) == SourcesAreFrames(a.ir.pipelines))
      && PipelineYields(a, source, ops) == HasTrain(ops)
      && b.trained == a.trained
  {
    hide SourcesAreFrames, RunOps, SchemaFromMap, WellScoped, HasTrain;
    var (cols, irSource, sourceErrors) := ResolveSource(a, source);
    YieldsExactlyWithTrain(a.Tables(), StartOps(cols), ops);
    SourcesAfterAppend(a.ir.pipelines,
      NodeOf(|a.ir.pipelines|, binding, irSource, cols, RunOps(a.Tables(), StartOps(cols), ops)));
  }

  lemma RunDecidesSources(a: Analysis, v: string, model: string, config: TrainConfig)
    requires TablesMatch(a)
    ensures var b := AfterTrainStmt(a, v, model, config);
      && (b.errors == [] ==>
            (SourcesAreFrames(b.ir.pipelines) <==> SourcesAreFrames(a.ir.pipelines) && v !in a.trained))
      && b.trained == a.trained
  {
    hide SourcesAreFrames, SchemaFromMap, SweepErrors, VocabErrors, ColumnErrors;
    if v in a.vars && model in a.models {
      SourcesAfterAppend(a.ir.pipelines, RunNode(|a.ir.pipelines|, v, model, config, a.vars[v]));
    }
  }

  lemma {:induction false} StmtsDecideSources(a: Analysis, stmts: seq<Stmt>)
    requires Sound(a) && AfterStmts(a, stmts).errors == []
    ensures SourcesAreFrames(AfterStmts(a, stmts).ir.pipelines)
       <==> SourcesAreFrames(a.ir.pipelines) && RunsOnFrames(stmts, a.trained)
    decreases |stmts|
  {
    hide SourcesAreFrames, AfterStmt, HasTrain, TablesMatch, WellScoped;
    if stmts != [] {
      var b := AfterStmt(a, stmts[0]);
      StmtKeepsSound(a, stmts[0]);
      ErrorsOnlyGrow(a, stmts[0]);
      StmtsErrorsOnlyGrow(b, stmts[1..]);
      StmtKeepsSources(a, stmts[0]);
      StmtsDecideSources(b, stmts[1..]);
    }
  }

  lemma {:induction false} StmtsErrorsOnlyGrow(a: Analysis, stmts: seq<Stmt>)
    ensures a.errors <= AfterStmts(a, stmts).errors
    decreases |stmts|
  {
    hide AfterStmt;
    if stmts != [] {
      ErrorsOnlyGrow(a, stmts[0]);
      StmtsErrorsOnlyGrow(AfterStmt(a, stmts[0]), stmts[1..]);
    }
  }

  /** In an error-free program every pipeline reads an earlier frame unless a `run` statement names a model variable. */
  lemma SourcesAreFramesExactly(program: seq<Stmt>)
    requires Checked(program).errors == []
    ensures SourcesAreFrames(Checked(program).ir.pipelines) <==> RunsOnFrames(program, {})
  {
    hide AfterStmts, SourcesAreFrames, RunsOnFrames;
    EmptyIsSound();
    StmtsDecideSources(EMPTY, program);
    NoPipelinesAreFrames();
  }

  lemma NoPipelinesAreFrames()
    ensures SourcesAreFrames(EMPTY.ir.pipelines)
  {
  }

  // ── A run statement on a model variable is accepted ─────────────────────

  const PLAIN := TrainConfig("x", SweepGrid([], [], []), None, Sequential, None)

  /** One schema, one network, and a variable that trains it on the schema's rows. */
  function TrainingProgram(config: TrainConfig): seq<Stmt> {
    [TypeDecl("T", [StructField("x", "int")]),
     ModelDecl("M", [Dense(1)]),
     VarDecl("v", Load("data.csv", "T", LoadOptions(None, None)), [Train("M", config)])]
  }

  const RUN_ON_MODEL: seq<Stmt> := TrainingProgram(PLAIN) + [TrainStmt("v", "M", PLAIN)]

  lemma PlainTrainIsClean(a: Analysis, config: TrainConfig)
    requires a.models == map["M" := [Dense(1)]] && a.schemas == map["T" := [StructField("x", "int")]]
    requires a.vars == map[] && a.trained == {} && a.errors == [] && SweepErrors(config) == []
    ensures var b := AfterStmt(a, TrainingProgram(config)[2]);
            b.errors == [] && b.models == a.models && b.vars.Keys == {"v"} && "x" in b.vars["v"]
  {
    hide SchemaFromMap, VocabErrors, ColTypeOfField, SweepErrors;
    var source := Load("data.csv", "T", LoadOptions(None, None));
    var cols := ResolveSource(a, source).0.value;
    assert [StructField("x", "int")][0].name == "x";
    PlainModelHasNoVocab(a.models, config.target, cols);
    var s := RunOps(a.Tables(), StartOps(Some(cols)), [Train("M", config)]);
    assert s == OpStep(a.Tables(), StartOps(Some(cols)), Train("M", config));
    assert s.errors == [] && s.group == None && s.cols == cols;
  }

  /** The training program has no errors, whatever the target is. */
  lemma TrainingProgramIsClean(config: TrainConfig)
    requires SweepErrors(config) == []
    ensures var a := Checked(TrainingProgram(config));
      && a.errors == [] && a.models == map["M" := [Dense(1)]] && a.vars.Keys == {"v"} && "x" in a.vars["v"]
  {
    hide SchemaFromMap, AfterVarDecl, VocabErrors, SchemaFromFields, AfterStmts, ModelErrors, SweepErrors;
    var p := TrainingProgram(config);
    PlainModelIsClean();
    var a := AfterStmt(AfterStmt(EMPTY, p[0]), p[1]);
    PlainTrainIsClean(a, config);
    ThreeStmts(EMPTY, p);
  }

  lemma PlainModelHasNoVocab(models: map<string, seq<LayerKind>>, target: string, cols: Cols)
    requires models == map["M" := [Dense(1)]]
    ensures VocabErrors(models, "M", target, cols) == []
  {
    assert models["M"][0] == Dense(1);
  }

  lemma PlainModelIsClean()
    ensures ModelErrors([Dense(1)]) == []
  {
    var layers := [Dense(1)];
    assert layers[0] == Dense(1) && Trainable(layers[0]);
    assert LayersErrors(layers, 1) == LayersErrors(layers, 0) + LayerErrors(layers[0], 0);
  }

  lemma ThreeStmts(a: Analysis, p: seq<Stmt>)
    requires |p| == 3
    ensures AfterStmts(a, p) == AfterStmt(AfterStmt(AfterStmt(a, p[0]), p[1]), p[2])
  {
    hide AfterStmt;
    var b := AfterStmt(a, p[0]);
    var c := AfterStmt(b, p[1]);
    assert AfterStmts(a, p) == AfterStmts(b, p[1..]);
    assert AfterStmts(b, p[1..]) == AfterStmts(c, p[1..][1..]) && p[1..][1..] == p[2..];
    assert AfterStmts(c, p[2..]) == AfterStmts(AfterStmt(c, p[2]), p[2..][1..]) && p[2..][1..] == [];
  }

  lemma {:induction false} OneMoreStmt(a: Analysis, p: seq<Stmt>, stmt: Stmt)
    ensures AfterStmts(a, p + [stmt]) == AfterStmt(AfterStmts(a, p), stmt)
    decreases |p|
  {
    hide AfterStmt;
    var all := p + [stmt];
    if p == [] {
      assert all == [stmt] && all[1..] == [];
    } else {
      assert all[1..] == p[1..] + [stmt];
      OneMoreStmt(AfterStmt(a, p[0]), p[1..], stmt);
    }
  }

  lemma ModelRunsAreSeen(p: seq<Stmt>)
    requires |p| == 4 && p[2].VarDecl? && HasTrain(p[2].ops) && p[3].TrainStmt? && p[3].sourceVar == p[2].varName
    requires p[0].TypeDecl? && p[1].ModelDecl?
    ensures !RunsOnFrames(p, {})
  {
    hide HasTrain;
    var none: set<string> := {};
    assert none + {} == none && none + {p[2].varName} == {p[2].varName};
    assert p[1..][1..] == p[2..] && p[2..][1..] == p[3..];
    assert !RunsOnFrames(p[3..], {p[2].varName});
    assert !RunsOnFrames(p[2..], none);
    assert !RunsOnFrames(p[1..], none);
  }

  /** The checker accepts `run v |> train(...)` where v is a model, though no frame has that name. */
  lemma RunOnModelIsAccepted()
    ensures Checked(RUN_ON_MODEL).errors == []
    ensures !RunsOnFrames(RUN_ON_MODEL, {}) && !SourcesAreFrames(Checked(RUN_ON_MODEL).ir.pipelines)
  {
    hide SchemaFromMap, SourcesAreFrames, AfterVarDecl, VocabErrors, SchemaFromFields, AfterStmts, ModelErrors, HasTrain;
    hide RunsOnFrames;
    var p := TrainingProgram(PLAIN);
    TrainingProgramIsClean(PLAIN);
    var b := Checked(p);
    PlainModelHasNoVocab(b.models, "x", b.vars["v"]);
    OneMoreStmt(EMPTY, p, TrainStmt("v", "M", PLAIN));
    assert HasTrain(RUN_ON_MODEL[2].ops) by { TrainIsThere(); }
    ModelRunsAreSeen(RUN_ON_MODEL);
    SourcesAreFramesExactly(RUN_ON_MODEL);
  }

  lemma TrainIsThere()
    ensures HasTrain([Train("M", PLAIN)])
  {
    assert [Train("M", PLAIN)][0].Train?;
  }
}
