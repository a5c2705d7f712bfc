/** Whole programs: the checked IR computes what the source program means. */
module ProgramPreservation {
  import opened Ast
  import opened Frames
  import opened Checking
  import opened Lowering
  import opened Preservation
  import opened Wrappers
  import Ir
  import Plans
  import Programs
  import Scoping

  /** The analyzer's schemas and networks are the declared ones. */
  predicate InStep(a: Analysis, w: Programs.World) {
    w.schemas == a.schemas && w.env.graphs == a.models
  }

  // ── Pipelines ───────────────────────────────────────────────────────────

  lemma SourceMeans(g: Engine, a: Analysis, w: Programs.World, source: PipelineSource)
    requires InStep(a, w) && ResolveSource(a, source).2 == []
    ensures Plans.EvalSource(g, PlanTables(w.env), ResolveSource(a, source).1) == Programs.EvalSource(g, w, source)
  {
    hide SchemaFromFields, ColsOfFields;
  }

  /** Only a pipeline that trains can leave a model. */
  lemma {:induction false} ModelsComeFromTraining(g: Engine, env: Programs.Env, s: Programs.State, ops: seq<PipelineOp>)
    ensures var o := Programs.EvalOps(g, env, s, ops); o.Ran? ==> (o.value.ModelProduct? <==> Scoping.HasTrain(ops))
    decreases |ops|
  {
    hide Programs.EvalOp, Reading;
    if ops == [] {
    } else if ops[0].Train? {
      OneColumn(ops[0].train.target, s.frame,
        Ran(Programs.ModelProduct(
          Model(if ops[0].modelName in env.graphs then env.graphs[ops[0].modelName] else [], ops[0].train, s.frame))));
      assert Scoping.HasTrain(ops);
    } else {
      TrainIsInTheRest(ops);
      match Programs.EvalOp(g, env, s, ops[0])
      case Ran(next) => ModelsComeFromTraining(g, env, next, ops[1..]);
      case _ =>
    }
  }

  lemma TrainIsInTheRest(ops: seq<PipelineOp>)
    requires ops != [] && !ops[0].Train?
    ensures Scoping.HasTrain(ops) <==> Scoping.HasTrain(ops[1..])
  {
    if Scoping.HasTrain(ops) {
      var i :| 0 <= i < |ops| && ops[i].Train?;
      assert ops[1..][i - 1] == ops[i];
    }
    if Scoping.HasTrain(ops[1..]) {
      var i :| 0 <= i < |ops| - 1 && ops[1..][i].Train?;
      assert ops[i + 1].Train?;
    }
  }

  function CheckedNode(a: Analysis, binding: Option<string>, source: PipelineSource, ops: seq<PipelineOp>): Ir.PipelineNode {
    var (cols, irSource, _) := ResolveSource(a, source);
    NodeOf(|a.ir.pipelines|, binding, irSource, cols, RunOps(a.Tables(), StartOps(cols), ops))
  }

  lemma NodeBinds(g: Engine, reg: Plans.Registry, w: Programs.World, p: Ir.PipelineNode, f: Frame,
                  product: Outcome<Programs.Product>)
    ensures
      && Plans.EvalSource(g, PlanTables(w.env), p.source) == Ran(f)
      && Plans.EvalSteps(g, reg, PlanTables(w.env), Plans.State(f, None), p.steps) == ProductOutcome(product)
      && (product.Ran? ==> (product.value.ModelProduct? <==> p.yieldsModel))
      ==> Plans.EvalNode(g, reg, PlanTables(w.env), p) == WorldOutcome(Programs.Bound(w, p.name, product))
  {
    hide Plans.EvalSteps, Plans.EvalSource;
  }

  /** A checked pipeline's node does to the tables what the pipeline does to the world. */
  lemma PipelineMeans(
      g: Engine, reg: Plans.Registry, a: Analysis, w: Programs.World, binding: Option<string>, source: PipelineSource,
      ops: seq<PipelineOp>)
    requires InStep(a, w) && Knows(reg, a.models)
    requires AfterPipeline(a, binding, source, ops).errors == []
    ensures Plans.EvalNode(g, reg, PlanTables(w.env), CheckedNode(a, binding, source, ops))
         == WorldOutcome(Programs.Bound(w, binding, Programs.EvalPipeline(g, w, source, ops)))
  {
    hide RunOps, ResolveSource, SchemaFromMap, Knows, Plans.EvalSteps, Plans.EvalSource, Programs.EvalOps, Programs.EvalSource;
    hide Plans.EvalNode, Scoping.HasTrain;
    var (cols, irSource, sourceErrors) := ResolveSource(a, source);
    var st := RunOps(a.Tables(), StartOps(cols), ops);
    assert sourceErrors == [] && st.errors == [];
    SourceMeans(g, a, w, source);
    Scoping.YieldsExactlyWithTrain(a.Tables(), StartOps(cols), ops);
    match Programs.EvalSource(g, w, source)
    case Ran(f) =>
      var s := Programs.State(f, None);
      StepsMeanOperators(g, reg, a.Tables(), w.env, StartOps(cols), s, ops);
      assert st.steps[0..] == st.steps;
      ModelsComeFromTraining(g, w.env, s, ops);
      NodeBinds(g, reg, w, CheckedNode(a, binding, source, ops), f, Programs.EvalOps(g, w.env, s, ops));
    case _ => SourceStops(g, reg, w, CheckedNode(a, binding, source, ops));
  }

  lemma SourceStops(g: Engine, reg: Plans.Registry, w: Programs.World, p: Ir.PipelineNode)
    ensures var o := Plans.EvalSource(g, PlanTables(w.env), p.source);
      && (o.MissingColumn? ==> Plans.EvalNode(g, reg, PlanTables(w.env), p) == MissingColumn(o.col))
      && (o.Unbound? ==> Plans.EvalNode(g, reg, PlanTables(w.env), p) == Unbound(o.name))
  {
  }

  lemma RunMeans(
      g: Engine, reg: Plans.Registry, a: Analysis, w: Programs.World, v: string, model: string, config: TrainConfig)
    requires InStep(a, w) && Knows(reg, a.models)
    requires v in a.vars && model in a.models
    ensures var node := RunNode(|a.ir.pipelines|, v, model, config, a.vars[v]);
      Plans.EvalNode(g, reg, PlanTables(w.env), node)
      == WorldOutcome(Programs.EvalStmt(g, w, TrainStmt(v, model, config)))
  {
    hide SchemaFromMap, Reading;
    if v in w.env.frames {
      var f := w.env.frames[v];
      OneColumn(config.target, f, Ran(Plans.Trained(Model(reg[model], config, f))));
      OneColumn(config.target, f, Ran(Programs.ModelProduct(Model(reg[model], config, f))));
    }
  }

  // ── Statements ──────────────────────────────────────────────────────────

  /** The nodes a statement adds to the IR: none, or one. */
  function NewNodes(a: Analysis, stmt: Stmt): seq<Ir.PipelineNode> {
    match stmt
    case VarDecl(v, source, ops) => [CheckedNode(a, Some(v), source, ops)]
    case ExprStmt(source, ops) => [CheckedNode(a, None, source, ops)]
    case TrainStmt(v, model, config) =>
      if v in a.vars then [RunNode(|a.ir.pipelines|, v, model, config, a.vars[v])] else []
    case _ => []
  }

  lemma StmtAddsNodes(a: Analysis, stmt: Stmt)
    ensures AfterStmt(a, stmt).errors == [] ==> AfterStmt(a, stmt).ir.pipelines == a.ir.pipelines + NewNodes(a, stmt)
  {
    hide RunOps, ResolveSource, SchemaFromMap, SweepErrors, VocabErrors, ColumnErrors, ModelErrors, NodeOf, SchemaFromFields;
  }

  /** A statement keeps the analyzer in step and its nodes do what it means. */
  lemma StmtMeans(g: Engine, reg: Plans.Registry, a: Analysis, w: Programs.World, stmt: Stmt)
    requires InStep(a, w) && Knows(reg, a.models)
    requires AfterStmt(a, stmt).errors == []
    ensures Plans.EvalNodes(g, reg, PlanTables(w.env), NewNodes(a, stmt)) == WorldOutcome(Programs.EvalStmt(g, w, stmt))
    ensures var o := Programs.EvalStmt(g, w, stmt); o.Ran? ==> InStep(AfterStmt(a, stmt), o.value)
  {
    hide Plans.EvalNode, AfterPipeline, Knows, CheckedNode, RunNode, Programs.EvalPipeline, PipelineYields;
    hide Programs.EvalTrain, SweepErrors, VocabErrors, ColumnErrors, ModelErrors;
    match stmt
    case VarDecl(v, source, ops) =>
      PipelineMeans(g, reg, a, w, Some(v), source, ops);
      OneNode(g, reg, PlanTables(w.env), CheckedNode(a, Some(v), source, ops));
      PipelineKeepsDeclarations(a, Some(v), source, ops);
    case ExprStmt(source, ops) =>
      PipelineMeans(g, reg, a, w, None, source, ops);
      OneNode(g, reg, PlanTables(w.env), CheckedNode(a, None, source, ops));
      PipelineKeepsDeclarations(a, None, source, ops);
    case TrainStmt(v, model, config) =>
      assert v in a.vars && model in a.models;
      RunMeans(g, reg, a, w, v, model, config);
      OneNode(g, reg, PlanTables(w.env), RunNode(|a.ir.pipelines|, v, model, config, a.vars[v]));
    case _ =>
  }

  lemma PipelineKeepsDeclarations(a: Analysis, binding: Option<string>, source: PipelineSource, ops: seq<PipelineOp>)
    ensures var b := AfterPipeline(a, binding, source, ops); b.schemas == a.schemas && b.models == a.models
  {
  }

  lemma OneNode(g: Engine, reg: Plans.Registry, t: Plans.Tables, p: Ir.PipelineNode)
    ensures Plans.EvalNodes(g, reg, t, [p]) == Plans.EvalNode(g, reg, t, p)
  {
    hide Plans.EvalNode;
    assert [p][1..] == [];
  }

  lemma NodesAppend(g: Engine, reg: Plans.Registry, t: Plans.Tables, ps: seq<Ir.PipelineNode>, rest: seq<Ir.PipelineNode>)
    requires |ps| <= 1
    ensures var o := Plans.EvalNodes(g, reg, t, ps);
            Plans.EvalNodes(g, reg, t, ps + rest) == if o.Ran? then Plans.EvalNodes(g, reg, o.value, rest) else o
  {
    hide Plans.EvalNode;
    if ps == [] {
      assert ps + rest == rest;
    } else {
      assert ps == [ps[0]];
      OneNode(g, reg, t, ps[0]);
      assert (ps + rest)[1..] == rest;
    }
  }

  // ── Programs ────────────────────────────────────────────────────────────

  lemma StmtGrowsModels(a: Analysis, stmt: Stmt)
    requires AfterStmt(a, stmt).errors == []
    requires Plans.RegistryOf(a.ir.models) == a.models
    ensures var b := AfterStmt(a, stmt); Knows(b.models, a.models) && Plans.RegistryOf(b.ir.models) == b.models
  {
    hide AfterPipeline, AfterVarDecl, AfterTrainStmt, ModelErrors, SchemaFromFields, Plans.RegistryOf;
    match stmt
    case ModelDecl(name, layers) => RegistryGrows(a.ir.models, Ir.ModelGraph(name, layers));
    case VarDecl(v, source, ops) => VarDeclKeepsModels(a, v, source, ops);
    case ExprStmt(source, ops) => PipelineKeepsModels(a, None, source, ops);
    case TrainStmt(v, model, config) => TrainKeepsModels(a, v, model, config);
    case _ =>
  }

  lemma RegistryGrows(graphs: seq<Ir.ModelGraph>, graph: Ir.ModelGraph)
    ensures Plans.RegistryOf(graphs + [graph]) == Plans.RegistryOf(graphs)[graph.name := graph.layers]
  {
    var more := graphs + [graph];
    assert more[..|more| - 1] == graphs;
  }

  lemma VarDeclKeepsModels(a: Analysis, v: string, source: PipelineSource, ops: seq<PipelineOp>)
    ensures var b := AfterVarDecl(a, v, source, ops); b.models == a.models && b.ir.models == a.ir.models
  {
    hide AfterPipeline, PipelineYields;
    PipelineKeepsModels(a, Some(v), source, ops);
  }

  lemma PipelineKeepsModels(a: Analysis, binding: Option<string>, source: PipelineSource, ops: seq<PipelineOp>)
    ensures var b := AfterPipeline(a, binding, source, ops); b.models == a.models && b.ir.models == a.ir.models
  {
  }

  lemma TrainKeepsModels(a: Analysis, v: string, model: string, config: TrainConfig)
    ensures var b := AfterTrainStmt(a, v, model, config); b.models == a.models && b.ir.models == a.ir.models
  {
  }

  lemma {:induction false} StmtsGrowModels(a: Analysis, stmts: seq<Stmt>)
    requires AfterStmts(a, stmts).errors == []
    requires Plans.RegistryOf(a.ir.models) == a.models
    ensures var b := AfterStmts(a, stmts); Knows(b.models, a.models) && Plans.RegistryOf(b.ir.models) == b.models
    decreases |stmts|
  {
    hide AfterStmt, Plans.RegistryOf;
    if stmts != [] {
      var b := AfterStmt(a, stmts[0]);
      Scoping.StmtsErrorsOnlyGrow(b, stmts[1..]);
      StmtGrowsModels(a, stmts[0]);
      StmtsGrowModels(b, stmts[1..]);
    }
  }

  lemma {:induction false} StmtsAddNodes(a: Analysis, stmts: seq<Stmt>)
    requires AfterStmts(a, stmts).errors == []
    ensures a.ir.pipelines <= AfterStmts(a, stmts).ir.pipelines
    decreases |stmts|
  {
    hide AfterStmt, NewNodes;
    if stmts != [] {
      var b := AfterStmt(a, stmts[0]);
      Scoping.StmtsErrorsOnlyGrow(b, stmts[1..]);
      StmtAddsNodes(a, stmts[0]);
      StmtsAddNodes(b, stmts[1..]);
    }
  }

  lemma KnowsBefore(reg: Plans.Registry, later: map<string, seq<LayerKind>>, earlier: map<string, seq<LayerKind>>)
    ensures Knows(reg, later) && Knows(later, earlier) ==> Knows(reg, earlier)
  {
  }

  lemma SplitNodes(before: seq<Ir.PipelineNode>, added: seq<Ir.PipelineNode>, all: seq<Ir.PipelineNode>)
    ensures before + added <= all ==> all[|before|..] == added + all[|before| + |added|..]
  {
  }

  lemma {:induction false} StmtsMean(g: Engine, reg: Plans.Registry, a: Analysis, w: Programs.World, stmts: seq<Stmt>)
    requires AfterStmts(a, stmts).errors == []
    requires InStep(a, w) && Knows(reg, AfterStmts(a, stmts).models)
    requires Plans.RegistryOf(a.ir.models) == a.models
    requires a.ir.pipelines <= AfterStmts(a, stmts).ir.pipelines
    ensures Plans.EvalNodes(g, reg, PlanTables(w.env), AfterStmts(a, stmts).ir.pipelines[|a.ir.pipelines|..])
         == WorldOutcome(Programs.EvalStmts(g, w, stmts))
    decreases |stmts|
  {
    hide AfterStmt, Programs.EvalStmt, NewNodes, Knows, Plans.RegistryOf, Plans.EvalNodes, InStep;
    var all := AfterStmts(a, stmts).ir.pipelines;
    if stmts == [] {
      assert all[|a.ir.pipelines|..] == [];
      NoNodes(g, reg, PlanTables(w.env));
    } else {
      var b, added := AfterStmt(a, stmts[0]), NewNodes(a, stmts[0]);
      Scoping.StmtsErrorsOnlyGrow(b, stmts[1..]);
      StmtGrowsModels(a, stmts[0]);
      StmtsGrowModels(b, stmts[1..]);
      KnowsBefore(reg, AfterStmts(a, stmts).models, b.models);
      KnowsBefore(reg, b.models, a.models);
      StmtMeans(g, reg, a, w, stmts[0]);
      StmtAddsNodes(a, stmts[0]);
      StmtsAddNodes(b, stmts[1..]);
      SplitNodes(a.ir.pipelines, added, all);
      AtMostOneNode(a, stmts[0]);
      NodesAppend(g, reg, PlanTables(w.env), added, all[|b.ir.pipelines|..]);
      match Programs.EvalStmt(g, w, stmts[0])
      case Ran(next) => StmtsMean(g, reg, b, next, stmts[1..]);
      case _ =>
    }
  }

  lemma NoNodes(g: Engine, reg: Plans.Registry, t: Plans.Tables)
    ensures Plans.EvalNodes(g, reg, t, []) == Ran(t)
  {
  }

  lemma AtMostOneNode(a: Analysis, stmt: Stmt)
    ensures |NewNodes(a, stmt)| <= 1
  {
  }

  /** Whatever the engine does, an error-free program and its IR bind the same frames and models, or stop alike. */
  lemma LoweringKeepsMeaning(g: Engine, program: seq<Stmt>)
    requires Checked(program).errors == []
    ensures Plans.EvalIr(g, Checked(program).ir) == WorldOutcome(Programs.EvalProgram(g, program))
  {
    hide AfterStmts, Programs.EvalStmts, Plans.EvalNodes;
    var final := Checked(program);
    StmtsGrowModels(EMPTY, program);
    assert final.ir.pipelines[0..] == final.ir.pipelines;
    StmtsMean(g, Plans.RegistryOf(final.ir.models), EMPTY, Programs.START, program);
  }
}
