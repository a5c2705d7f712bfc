/** Running a well-scoped IR: which lookups can fail. */
module BoundRuns {
  import opened Frames
  import opened Scoping
  import opened Wrappers
  import Ast
  import Checking
  import Ir
  import Plans

  lemma {:induction false} ReadingNeverUnbinds<T>(cs: seq<string>, f: Frame, o: Outcome<T>)
    requires !o.Unbound?
    ensures !Reading(cs, f, o).Unbound?
  {
    if cs != [] {
      ReadingNeverUnbinds(cs[1..], f, o);
    }
  }

  lemma DataStaysBound(g: Engine, t: Plans.Tables, s: Plans.State, op: Ir.DataOp)
    requires op.Join? ==> op.other in t.frames
    ensures !Plans.EvalData(g, t, s, op).Unbound?
  {
    hide Choose, TruePositions, Plans.EvalRows, KeepColumns, CastColumn, RenameColumn, ReplaceColumn, FillColumn, HistogramFrame;
    forall cs: seq<string>, f, o: Outcome<Plans.State> | !o.Unbound? ensures !Reading(cs, f, o).Unbound? {
      ReadingNeverUnbinds(cs, f, o);
    }
  }

  lemma StepStaysBound(g: Engine, t: Plans.Tables, s: Plans.State, step: Ir.Step, graphs: set<string>)
    requires !IsTrain(step) && StepScoped(step, t.frames.Keys, t.models.Keys, graphs)
    ensures !Plans.EvalStep(g, t, s, step).Unbound?
  {
    hide Plans.EvalData, NoisedFrame, Reading;
    match step
    case Data(op) => DataStaysBound(g, t, s, op);
    case Side(Chart(config)) => ReadingNeverUnbinds(config.Columns(), s.frame, Ran(s));
    case _ =>
  }

  /** Scoped steps look up only what is there, and leave a model exactly when one of them trains. */
  lemma {:induction false} StepsStayBound(
      g: Engine, reg: Plans.Registry, t: Plans.Tables, s: Plans.State, steps: seq<Ir.Step>, graphs: set<string>)
    requires graphs <= reg.Keys
    requires forall step <- steps :: StepScoped(step, t.frames.Keys, t.models.Keys, graphs)
    ensures var o := Plans.EvalSteps(g, reg, t, s, steps);
      && !o.Unbound?
      && (o.Ran? ==> (o.value.Trained? <==> exists step <- steps :: IsTrain(step)))
    decreases |steps|
  {
    hide Plans.EvalStep, Reading;
    if steps != [] {
      assert steps == [steps[0]] + steps[1..];
      assert StepScoped(steps[0], t.frames.Keys, t.models.Keys, graphs);
      if IsTrain(steps[0]) {
        TrainingStaysBound(reg, s.frame, steps[0].ml.model, steps[0].ml.config);
      } else {
        StepStaysBound(g, t, s, steps[0], graphs);
        match Plans.EvalStep(g, t, s, steps[0])
        case Ran(next) => StepsStayBound(g, reg, t, next, steps[1..], graphs);
        case _ =>
      }
    }
  }

  lemma TrainingStaysBound(reg: Plans.Registry, f: Frame, model: string, config: Ast.TrainConfig)
    requires model in reg
    ensures var o := Plans.EvalTrain(reg, f, model, config); !o.Unbound? && (o.Ran? ==> o.value.Trained?)
  {
    OneColumn(config.target, f, Ran(Plans.Trained(Model(reg[model], config, f))));
  }

  // ── Nodes in order ──────────────────────────────────────────────────────

  /** What is bound after n nodes is what their names say. */
  predicate BindsAsNamed(t: Plans.Tables, ps: seq<Ir.PipelineNode>, n: nat)
    requires n <= |ps|
  {
    t.frames.Keys == FramesBefore(ps, n) && t.models.Keys == ModelsBefore(ps, n)
  }

  lemma NamesGrow(ps: seq<Ir.PipelineNode>, n: nat)
    requires n < |ps|
    ensures FramesBefore(ps, n + 1)
         == FramesBefore(ps, n) + if ps[n].name.Some? && !ps[n].yieldsModel then {ps[n].name.value} else {}
    ensures ModelsBefore(ps, n + 1)
         == ModelsBefore(ps, n) + if ps[n].name.Some? && ps[n].yieldsModel then {ps[n].name.value} else {}
  {
  }

  /** A `run` statement whose source is the model variable v. */
  predicate RunsOnModel(ps: seq<Ir.PipelineNode>, v: string) {
    exists j :: 0 <= j < |ps| && IsRunNode(ps[j]) && ps[j].source == Ir.Ref(v) && v in ModelsBefore(ps, j)
  }

  lemma NodeStaysBound(g: Engine, reg: Plans.Registry, t: Plans.Tables, ps: seq<Ir.PipelineNode>, n: nat, graphs: set<string>)
    requires n < |ps| && graphs <= reg.Keys
    requires NodeScoped(ps, n, graphs) && BindsAsNamed(t, ps, n)
    ensures var o := Plans.EvalNode(g, reg, t, ps[n]);
      && (o.Unbound? ==> RunsOnModel(ps, o.name))
      && (o.Ran? ==> BindsAsNamed(o.value, ps, n + 1) && SourceIsFrame(ps, n))
  {
    hide FramesBefore, ModelsBefore, Plans.EvalSteps, StepScoped;
    var p := ps[n];
    NamesGrow(ps, n);
    match Plans.EvalSource(g, t, p.source)
    case Ran(f) => StepsStayBound(g, reg, t, Plans.State(f, None), p.steps, graphs);
    case _ =>
  }

  lemma {:induction false} NodesStayBound(
      g: Engine, reg: Plans.Registry, t: Plans.Tables, ps: seq<Ir.PipelineNode>, n: nat, graphs: set<string>)
    requires n <= |ps| && graphs <= reg.Keys
    requires forall j | 0 <= j < |ps| :: NodeScoped(ps, j, graphs)
    requires BindsAsNamed(t, ps, n)
    ensures var o := Plans.EvalNodes(g, reg, t, ps[n..]);
      && (o.Unbound? ==> RunsOnModel(ps, o.name))
      && (o.Ran? ==> BindsAsNamed(o.value, ps, |ps|) && forall j | n <= j < |ps| :: SourceIsFrame(ps, j))
    decreases |ps| - n
  {
    hide NodeScoped, BindsAsNamed, Plans.EvalNode, RunsOnModel, SourceIsFrame;
    if n < |ps| {
      assert ps[n..][0] == ps[n] && ps[n..][1..] == ps[n + 1..];
      NodeStaysBound(g, reg, t, ps, n, graphs);
      match Plans.EvalNode(g, reg, t, ps[n])
      case Ran(next) => NodesStayBound(g, reg, next, ps, n + 1, graphs);
      case _ =>
    }
  }

  lemma {:induction false} RegistryHasAll(graphs: seq<Ir.ModelGraph>)
    ensures Plans.RegistryOf(graphs).Keys == GraphNames(graphs)
  {
    if graphs != [] {
      var n := |graphs| - 1;
      RegistryHasAll(graphs[..n]);
      assert graphs == graphs[..n] + [graphs[n]];
    }
  }

  /**
   * In a run of an error-free program's IR the only name that can be missing is a model variable named by a `run`
   * statement; a run that ends binds exactly the names the nodes carry.
   */
  lemma RunsLookUpBoundNames(g: Engine, program: seq<Ast.Stmt>)
    requires Checking.Checked(program).errors == []
    ensures var ir := Checking.Checked(program).ir;
            var o := Plans.EvalIr(g, ir);
      && (o.Unbound? ==> RunsOnModel(ir.pipelines, o.name))
      && (o.Ran? ==> BindsAsNamed(o.value, ir.pipelines, |ir.pipelines|) && SourcesAreFrames(ir.pipelines))
  {
    hide SourceIsFrame, Checking.AfterStmts, Plans.EvalNodes, Plans.RegistryOf, NodeScoped, RunsOnModel;
    var ir := Checking.Checked(program).ir;
    ErrorFreeIsWellScoped(program);
    RegistryHasAll(ir.models);
    assert ir.pipelines[0..] == ir.pipelines;
    assert BindsAsNamed(Plans.Tables(map[], map[]), ir.pipelines, 0);
    NodesStayBound(g, Plans.RegistryOf(ir.models), Plans.Tables(map[], map[]), ir.pipelines, 0, GraphNames(ir.models));
  }

  /** Without such a `run` statement no lookup ever fails. */
  lemma RunsNeverUnbound(g: Engine, program: seq<Ast.Stmt>)
    requires Checking.Checked(program).errors == []
    requires RunsOnFrames(program, {})
    ensures !Plans.EvalIr(g, Checking.Checked(program).ir).Unbound?
  {
    hide Checking.AfterStmts, Plans.EvalNodes, Plans.RegistryOf, RunsOnFrames, NodeScoped;
    RunsLookUpBoundNames(g, program);
    SourcesAreFramesExactly(program);
    ErrorFreeIsWellScoped(program);
    var ir := Checking.Checked(program).ir;
    forall v: string ensures !RunsOnModel(ir.pipelines, v) {
      FramesAreNotModels(ir, v);
    }
  }

  /**
   * On every engine, a run of an error-free program that finds its columns stops at an unbound name if and only if some
   * `run` statement names a variable whose declaration trains.
   */
  lemma UnboundExactly(g: Engine, program: seq<Ast.Stmt>)
    requires Checking.Checked(program).errors == []
    ensures var o := Plans.EvalIr(g, Checking.Checked(program).ir);
      && (o.Ran? ==> RunsOnFrames(program, {}))
      && (o.Unbound? ==> !RunsOnFrames(program, {}))
      && (!o.MissingColumn? ==> (o.Unbound? <==> !RunsOnFrames(program, {})))
  {
    hide Checking.AfterStmts, Plans.EvalIr, RunsOnFrames, SourcesAreFrames, BindsAsNamed, RunsOnModel;
    RunsLookUpBoundNames(g, program);
    SourcesAreFramesExactly(program);
    if RunsOnFrames(program, {}) {
      RunsNeverUnbound(g, program);
    }
  }

  lemma FramesAreNotModels(ir: Ir.TypedProgram, v: string)
    requires WellScoped(ir) && SourcesAreFrames(ir.pipelines)
    ensures !RunsOnModel(ir.pipelines, v)
  {
    hide StepScoped, SourceScoped;
    var ps := ir.pipelines;
    forall j | 0 <= j < |ps| ensures ps[j].source == Ir.Ref(v) ==> v !in ModelsBefore(ps, j) {
      assert SourceIsFrame(ps, j);
      NamesStayApart(ps, j, GraphNames(ir.models));
    }
  }

  lemma {:induction false} NamesStayApart(ps: seq<Ir.PipelineNode>, n: nat, graphs: set<string>)
    requires n <= |ps| && forall j | 0 <= j < |ps| :: NodeScoped(ps, j, graphs)
    ensures FramesBefore(ps, n) !! ModelsBefore(ps, n)
  {
    hide StepScoped, SourceScoped, FramesBefore, ModelsBefore;
    if n == 0 {
      NoNames(ps);
    } else {
      NamesStayApart(ps, n - 1, graphs);
      NamesGrow(ps, n - 1);
      assert NodeScoped(ps, n - 1, graphs);
    }
  }

  lemma NoNames(ps: seq<Ir.PipelineNode>)
    ensures FramesBefore(ps, 0) == {} && ModelsBefore(ps, 0) == {}
  {
  }
}
