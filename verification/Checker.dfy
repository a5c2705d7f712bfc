/** The analyzer object: symbol tables, diagnostics and IR, updated statement by statement. */
module Checker {
  import opened Ast
  import opened Lowering
  import opened Checking
  import opened Wrappers
  import Ir

  /** Mutable state of one pipeline, shared by the operator handlers. */
  class PipelineCheckState {
    var cols: Cols
    var steps: seq<Ir.Step>
    var pendingGroup: Option<string>
    var yieldsModel: bool

    constructor (cols: Cols)
      ensures this.cols == cols && steps == [] && pendingGroup == None && !yieldsModel
    {
      this.cols, steps, pendingGroup, yieldsModel := cols, [], None, false;
    }
  }

  class Analyzer {
    var schemas: map<string, seq<StructField>>
    var models: map<string, seq<LayerKind>>
    var vars: map<string, Cols>
    var trainedVars: set<string>
    var errors: Errors
    var ir: Ir.TypedProgram

    constructor ()
      ensures State() == EMPTY
    {
      schemas, models, vars, trainedVars, errors := map[], map[], map[], {}, [];
      ir := Ir.TypedProgram([], [], []);
    }

    /** Everything the analyzer knows. */
    function State(): Analysis
      reads this
    {
      Analysis(schemas, models, vars, trainedVars, errors, ir)
    }

    function Tables(): Env
      reads this
    {
      Env(models, vars, trainedVars)
    }

    // ── Single checks ─────────────────────────────────────────────────────

    method Report(e: Error)
      modifies this`errors
      ensures errors == old(errors) + [e]
    {
      errors := errors + [e];
    }

    method CheckColumn(c: string, context: string, cols: Cols)
      modifies this`errors
      ensures errors == old(errors) + ColumnErrors(c, context, cols)
    {
      if c !in cols {
        Report(SafeLoadViolation(c, context));
      }
    }

    method CheckColumns(cs: seq<string>, context: string, cols: Cols)
      modifies this`errors
      ensures errors == old(errors) + ColumnsErrors(cs, context, cols)
    {
      for i := 0 to |cs|
        invariant errors == old(errors) + ColumnsErrors(cs[..i], context, cols)
      {
        assert cs[..i + 1][..i] == cs[..i];
        CheckColumn(cs[i], context, cols);
      }
      assert cs[..|cs|] == cs;
    }

    method CheckExprColumns(e: Expr, cols: Cols)
      modifies this`errors
      ensures errors == old(errors) + ExprErrors(e, cols)
    {
      match e {
        case Ident(c) => CheckColumn(c, "expression", cols);
        case BinOp(l, _, r) =>
          CheckExprColumns(l, cols);
          CheckExprColumns(r, cols);
          Reassociate(old(errors), ExprErrors(l, cols), ExprErrors(r, cols));
        case _ =>
      }
    }

    method ReportZeros(xs: seq<nat>)
      modifies this`errors
      ensures errors == old(errors) + ZeroErrors(xs)
    {
      for i := 0 to |xs|
        invariant errors == old(errors) + ZeroErrors(xs[..i])
      {
        assert xs[..i + 1][..i] == xs[..i];
        if xs[i] == 0 {
          Report(Other(BadHyperparameter));
        }
      }
      assert xs[..|xs|] == xs;
    }

    method ReportRates(xs: seq<real>)
      modifies this`errors
      ensures errors == old(errors) + RateErrors(xs)
    {
      for i := 0 to |xs|
        invariant errors == old(errors) + RateErrors(xs[..i])
      {
        assert xs[..i + 1][..i] == xs[..i];
        if xs[i] <= 0.0 {
          Report(Other(BadHyperparameter));
        }
      }
      assert xs[..|xs|] == xs;
    }

    method ValidateTrainSweep(c: TrainConfig)
      modifies this`errors
      ensures errors == old(errors) + SweepErrors(c)
    {
      hide ZeroErrors, RateErrors;
      if c.timeColumn.Some? && c.splitStrategy != Sequential {
        Report(Other(IncompatibleSplit));
      }
      ReportZeros(c.sweep.epochs);
      ReportRates(c.sweep.learningRate);
      ReportZeros(c.sweep.batchSize);
      var split := When(c.timeColumn.Some? && c.splitStrategy != Sequential, Other(IncompatibleSplit));
      Reassociate4(old(errors), split, ZeroErrors(c.sweep.epochs), RateErrors(c.sweep.learningRate),
                   ZeroErrors(c.sweep.batchSize));
    }

    method ValidateEmbeddingVocab(model: string, target: string, cols: Cols)
      modifies this`errors
      ensures errors == old(errors) + VocabErrors(models, model, target, cols)
    {
      if target !in cols || !cols[target].IsNumeric() || model !in models || models[model] == [] {
        return;
      }
      var first := models[model][0];
      if first.Embedding? && first.vocab.PerColumn? && |first.vocab.sizes| != |Features(cols, target)| {
        Report(Other(VocabLength));
      }
    }

    // ── Operators with work of their own ──────────────────────────────────

    /** Keeps the selected columns that exist and reports the others. */
    method CheckSelectOp(cs: seq<string>, st: PipelineCheckState)
      modifies this`errors, st`cols
      ensures errors == old(errors) + ColumnsErrors(cs, "select", old(st.cols))
      ensures st.cols == ColsAfter(Select(cs), old(st.cols))
    {
      var next: Cols := map[];
      for i := 0 to |cs|
        invariant st.cols == old(st.cols)
        invariant errors == old(errors) + ColumnsErrors(cs[..i], "select", st.cols)
        invariant next == map c | c in cs[..i] && c in st.cols :: st.cols[c]
      {
        assert cs[..i + 1][..i] == cs[..i] && cs[..i + 1] == cs[..i] + [cs[i]];
        if cs[i] in st.cols {
          next := next[cs[i] := st.cols[cs[i]]];
        } else {
          Report(SafeLoadViolation(cs[i], "select"));
        }
      }
      assert cs[..|cs|] == cs;
      st.cols := next;
    }

    method CheckFillNullOp(c: string, st: PipelineCheckState)
      modifies this`errors
      ensures errors == old(errors) + FillErrors(c, st.cols)
    {
      CheckColumn(c, "fillNull", st.cols);
      if c in st.cols && !st.cols[c].option && st.cols[c].name != "unknown" {
        Report(Other(FillOnNonNullable));
      }
    }

    method CheckJoinOp(other: string, leftOn: seq<string>, rightOn: seq<string>, st: PipelineCheckState)
      modifies this`errors
      ensures errors == old(errors) + JoinErrors(Tables(), other, leftOn, rightOn, st.cols)
    {
      CheckColumns(leftOn, "join(left_on)", st.cols);
      if other in trainedVars {
        Report(UndeclaredVariable(other));
      } else if other in vars {
        CheckColumns(rightOn, "join(right_on)", vars[other]);
      } else {
        Report(UndeclaredVariable(other));
      }
    }

    method CheckTrainOp(model: string, config: TrainConfig, st: PipelineCheckState)
      modifies this`errors, st`yieldsModel
      ensures errors == old(errors) + OpErrors(Tables(), Train(model, config), st.cols)
      ensures st.yieldsModel
    {
      hide SweepErrors, VocabErrors;
      ValidateTrainSweep(config);
      if model !in models {
        Report(Other(UndeclaredModel));
      }
      ValidateEmbeddingVocab(model, config.target, st.cols);
      Reassociate4(old(errors), SweepErrors(config), When(model !in models, Other(UndeclaredModel)),
                   VocabErrors(models, model, config.target, st.cols), []);
      st.yieldsModel := true;
    }

    method CheckCastOp(c: string, toType: string, st: PipelineCheckState)
      modifies this`errors, st`cols
      ensures errors == old(errors) + OpErrors(Tables(), Cast(c, toType), old(st.cols))
      ensures st.cols == ColsAfter(Cast(c, toType), old(st.cols))
    {
      if toType !in {"float", "int", "str", "bool"} {
        Report(Other(UnknownCastType));
      }
      CheckColumn(c, "cast", st.cols);
      if c in st.cols {
        st.cols := st.cols[c := CheckerColType(NormalizeType(toType), st.cols[c].option)];
      }
    }

    method CheckRenameOp(oldName: string, newName: string, st: PipelineCheckState)
      modifies this`errors, st`cols
      ensures errors == old(errors) + ColumnErrors(oldName, "rename", old(st.cols))
      ensures st.cols == ColsAfter(Rename(oldName, newName), old(st.cols))
    {
      CheckColumn(oldName, "rename", st.cols);
      if oldName in st.cols {
        var t := st.cols[oldName];
        st.cols := st.cols - {oldName};
        st.cols := st.cols[newName := t];
      }
    }

    /** After noise injection every numeric column is a float column. */
    method CheckWithDpOp(args: DpArgs, st: PipelineCheckState)
      modifies st`cols
      ensures st.cols == ColsAfter(WithDp(args), old(st.cols))
    {
      ghost var cols := st.cols;
      var todo := st.cols.Keys;
      while todo != {}
        invariant todo <= cols.Keys == st.cols.Keys
        invariant forall c | c in todo :: st.cols[c] == cols[c]
        invariant forall c | c in cols && c !in todo ::
          st.cols[c] == if cols[c].IsNumeric() then CheckerColType("float", cols[c].option) else cols[c]
        decreases |todo|
      {
        var c :| c in todo;
        if st.cols[c].IsNumeric() {
          st.cols := st.cols[c := CheckerColType("float", st.cols[c].option)];
        }
        todo := todo - {c};
      }
    }

    method CheckCorrOp(a: string, b: string, st: PipelineCheckState)
      modifies this`errors
      ensures errors == old(errors) + OpErrors(Tables(), Corr(a, b), st.cols)
    {
      CheckColumn(a, "aggregate", st.cols);
      CheckColumn(b, "aggregate", st.cols);
    }

    // ── One operator ──────────────────────────────────────────────────────

    /** The aggregates of one column all check it the same way. */
    method CheckAggregateOp(op: PipelineOp, st: PipelineCheckState)
      requires IsPlainAggregate(op) && !op.Count?
      modifies this`errors
      ensures errors == old(errors) + OpErrors(Tables(), op, st.cols)
    {
      hide ColumnErrors;
      CheckColumn(AggregatedColumn(op), "aggregate", st.cols);
    }

    /** The other operators that name columns without changing them. */
    method CheckReadingOp(op: PipelineOp, st: PipelineCheckState)
      requires !ChangesColumns(op) && (IsPlainAggregate(op) ==> op.Count?)
      modifies this`errors
      ensures errors == old(errors) + OpErrors(Tables(), op, st.cols)
    {
      hide ColumnsErrors, ColumnErrors, ExprErrors, FillErrors, JoinErrors;
      match op {
        case Filter(e) => CheckExprColumns(e, st.cols);
        case GroupBy(k) => CheckColumn(k, "groupBy", st.cols);
        case Count(Some(c)) => CheckColumn(c, "count", st.cols);
        case Count(None) =>
        case Quantile(c, _) => CheckColumn(c, "aggregate", st.cols);
        case Corr(a, b) => CheckCorrOp(a, b, st);
        case OutlierIqr(c, _) => CheckColumn(c, "aggregate", st.cols);
        case Agg(specs) => CheckColumns(AggColumns(specs), "aggregate", st.cols);
        case OrderBy(c, _) => CheckColumn(c, "orderBy", st.cols);
        case Take(_) =>
        case Sample(_, _) =>
        case DropNull(c) => CheckColumn(c, "dropNull", st.cols);
        case FillNull(c, _) => CheckFillNullOp(c, st);
        case Join(o, l, r, _) => CheckJoinOp(o, l, r, st);
        case Chart(c) => CheckColumns(c.Columns(), "chart", st.cols);
        case Replace(c, _, _) => CheckColumn(c, "replace", st.cols);
        case Save(_, _) =>
      }
    }

    method CheckPredictOp(model: string, asCol: Option<string>, st: PipelineCheckState)
      modifies this`errors, st`cols
      ensures errors == old(errors) + OpErrors(Tables(), Predict(model, asCol), old(st.cols))
      ensures st.cols == ColsAfter(Predict(model, asCol), old(st.cols))
    {
      if model !in trainedVars {
        Report(UndeclaredVariable(model));
      }
      if asCol.Some? {
        st.cols := st.cols[asCol.value := CheckerColType("float", true)];
      }
    }

    method CheckHistogramOp(col: string, bins: nat, st: PipelineCheckState)
      modifies this`errors, st`cols
      ensures errors == old(errors) + OpErrors(Tables(), Histogram(col, bins), old(st.cols))
      ensures st.cols == ColsAfter(Histogram(col, bins), old(st.cols))
    {
      CheckColumn(col, "aggregate", st.cols);
      st.cols := map["bin" := CheckerColType("str", false), "n" := CheckerColType("int", false)];
    }

    method CheckWithColumnOp(name: string, e: Expr, st: PipelineCheckState)
      modifies this`errors, st`cols
      ensures errors == old(errors) + OpErrors(Tables(), WithColumn(name, e), old(st.cols))
      ensures st.cols == ColsAfter(WithColumn(name, e), old(st.cols))
    {
      hide TypeExpr, ExprErrors;
      CheckExprColumns(e, st.cols);
      st.cols := st.cols[name := ToCheckerColType(TypeExpr(e, st.cols).ty)];
    }

    method CheckChangingOp(op: PipelineOp, st: PipelineCheckState)
      requires ChangesColumns(op)
      modifies this`errors, st`cols, st`yieldsModel
      ensures errors == old(errors) + OpErrors(Tables(), op, old(st.cols))
      ensures st.cols == ColsAfter(op, old(st.cols))
      ensures st.yieldsModel == (old(st.yieldsModel) || op.Train?)
    {
      hide ColumnsErrors, ColumnErrors, ExprErrors, SweepErrors, VocabErrors, TypeExpr, NormalizeType;
      hide ColsAfter;
      TrainKeepsColumns(op, st.cols);
      match op {
        case Train(m, c) => CheckTrainOp(m, c, st);
        case Predict(m, asCol) => CheckPredictOp(m, asCol, st);
        case Select(cs) => CheckSelectOp(cs, st);
        case Histogram(c, bins) => CheckHistogramOp(c, bins, st);
        case WithColumn(name, e) => CheckWithColumnOp(name, e, st);
        case Cast(c, t) => CheckCastOp(c, t, st);
        case Rename(o, n) => CheckRenameOp(o, n, st);
        case WithDp(args) => CheckWithDpOp(args, st);
      }
    }

    /** What the operator's own handler reports and changes. */
    method CheckOpKind(op: PipelineOp, st: PipelineCheckState)
      modifies this`errors, st`cols, st`yieldsModel
      ensures errors == old(errors) + OpErrors(Tables(), op, old(st.cols))
      ensures st.cols == ColsAfter(op, old(st.cols))
      ensures st.yieldsModel == (old(st.yieldsModel) || op.Train?)
    {
      hide OpErrors, ColsAfter, ChangesColumns, IsPlainAggregate;
      ReadersKeepColumns(op, st.cols);
      if ChangesColumns(op) {
        CheckChangingOp(op, st);
      } else if IsPlainAggregate(op) && !op.Count? {
        CheckAggregateOp(op, st);
      } else {
        CheckReadingOp(op, st);
      }
    }

    /** Checks one operator and appends its IR step; true halts the pipeline. */
    method CheckOp(op: PipelineOp, st: PipelineCheckState) returns (halt: bool)
      modifies this`errors, st
      ensures halt == op.Train?
      ensures OpState(st.cols, st.steps, st.pendingGroup, st.yieldsModel, errors)
           == OpStep(Tables(), old(OpState(st.cols, st.steps, st.pendingGroup, st.yieldsModel, errors)), op)
    {
      hide OpErrors, Lower, GroupAfter, ColsAfter;
      var step := Lower(op, st.cols);
      CheckOpKind(op, st);
      st.steps := st.steps + [step];
      st.pendingGroup := GroupAfter(op, st.pendingGroup);
      halt := op.Train?;
      ghost var s := old(OpState(st.cols, st.steps, st.pendingGroup, st.yieldsModel, errors));
      assert errors == s.errors + OpErrors(Tables(), op, s.cols) && st.steps == s.steps + [step];
    }

    /** Checks operators in order until one halts the pipeline. */
    method CheckOps(ops: seq<PipelineOp>, st: PipelineCheckState)
      modifies this`errors, st
      ensures OpState(st.cols, st.steps, st.pendingGroup, st.yieldsModel, errors)
           == RunOps(Tables(), old(OpState(st.cols, st.steps, st.pendingGroup, st.yieldsModel, errors)), ops)
    {
      hide OpStep;
      ghost var start := OpState(st.cols, st.steps, st.pendingGroup, st.yieldsModel, errors);
      assert ops[0..] == ops && ops[|ops|..] == [];
      for i := 0 to |ops|
        invariant RunOps(Tables(), start, ops)
               == RunOps(Tables(), OpState(st.cols, st.steps, st.pendingGroup, st.yieldsModel, errors), ops[i..])
      {
        assert ops[i..][0] == ops[i] && ops[i..][1..] == ops[i + 1..];
        var halt := CheckOp(ops[i], st);
        if halt {
          return;
        }
      }
    }

    // ── Pipelines ─────────────────────────────────────────────────────────

    method SchemaColumns(fields: seq<StructField>) returns (cols: Cols)
      ensures cols == ColsOfFields(fields)
    {
      cols := map[];
      for i := 0 to |fields|
        invariant cols == ColsOfFields(fields[..i])
      {
        assert fields[..i + 1][..i] == fields[..i];
        cols := cols[fields[i].name := ColTypeOfField(fields[i].fieldType)];
      }
      assert fields[..|fields|] == fields;
    }

    method ResolvePipelineSource(source: PipelineSource) returns (cols: Option<Cols>, irSource: Ir.Source)
      modifies this`errors
      ensures cols == ResolveSource(old(State()), source).0
      ensures irSource == ResolveSource(old(State()), source).1
      ensures errors == old(errors) + ResolveSource(old(State()), source).2
    {
      hide ColsOfFields, SchemaFromFields;
      match source {
        case Load(path, schema, options) =>
          if schema in schemas {
            var fields := schemas[schema];
            var found := SchemaColumns(fields);
            cols, irSource := Some(found), Ir.Load(path, Some(SchemaFromFields(fields)), options);
          } else {
            Report(UndeclaredType(schema));
            cols, irSource := None, Ir.Load(path, None, options);
          }
        case VarRef(v) =>
          irSource := Ir.Ref(v);
          if v in trainedVars {
            Report(UndeclaredVariable(v));
            cols := None;
          } else if v in vars {
            cols := Some(vars[v]);
          } else {
            Report(UndeclaredVariable(v));
            cols := None;
          }
      }
    }

    method CheckPipeline(binding: Option<string>, source: PipelineSource, ops: seq<PipelineOp>)
      returns (yieldsModel: bool)
      modifies this`errors, this`ir, this`vars
      ensures State() == AfterPipeline(old(State()), binding, source, ops)
      ensures yieldsModel == PipelineYields(old(State()), source, ops)
    {
      hide ResolveSource, RunOps, SchemaFromMap;
      var cols, irSource := ResolvePipelineSource(source);
      var st := new PipelineCheckState(if cols.Some? then cols.value else map[]);
      RunOpsAppends(Tables(), StartOps(cols), errors, ops);
      assert errors + [] == errors;
      CheckOps(ops, st);
      if st.pendingGroup.Some? {
        Report(Other(MissingAggregate));
      }
      var node := NodeOf(|ir.pipelines|, binding, irSource, cols,
                         OpState(st.cols, st.steps, st.pendingGroup, st.yieldsModel, errors));
      ir := ir.(pipelines := ir.pipelines + [node]);
      if binding.Some? {
        vars := vars[binding.value := st.cols];
      }
      yieldsModel := st.yieldsModel;
    }

    // ── Statements ────────────────────────────────────────────────────────

    method CheckVarDecl(v: string, source: PipelineSource, ops: seq<PipelineOp>)
      modifies this
      ensures State() == AfterVarDecl(old(State()), v, source, ops)
    {
      hide AfterPipeline, PipelineYields;
      if v in vars || v in trainedVars {
        Report(Other(DuplicateVariable));
        return;
      }
      PipelineKeepsTrained(State(), Some(v), source, ops);
      var isTrained := CheckPipeline(Some(v), source, ops);
      if isTrained {
        trainedVars := trainedVars + {v};
      }
    }

    method CheckLayer(layer: LayerKind, i: nat)
      modifies this`errors
      ensures errors == old(errors) + LayerErrors(layer, i)
    {
      match layer {
        case Conv1d(outChannels, kernelSize) =>
          if outChannels == 0 || kernelSize == 0 {
            Report(Other(BadConv));
          }
        case Embedding(vocab, embedDim) =>
          if !vocab.IsValid() || embedDim == 0 {
            Report(Other(BadEmbedding));
          }
          if i != 0 {
            Report(Other(EmbeddingNotFirst));
          }
        case _ =>
      }
    }

    method CheckLayers(layers: seq<LayerKind>)
      modifies this`errors
      ensures errors == old(errors) + ModelErrors(layers)
    {
      hide LayerErrors, Trainable;
      if forall l | l in layers :: !Trainable(l) {
        Report(Other(NoTrainableLayer));
      }
      ghost var base := errors;
      for i := 0 to |layers|
        invariant errors == base + LayersErrors(layers, i)
      {
        CheckLayer(layers[i], i);
      }
    }

    method CheckModelDecl(name: string, layers: seq<LayerKind>)
      modifies this
      ensures State() == AfterStmt(old(State()), ModelDecl(name, layers))
    {
      hide ModelErrors, Trainable;
      if name in models {
        Report(Other(DuplicateModel));
        return;
      }
      CheckLayers(layers);
      models := models[name := layers];
      ir := ir.(models := ir.models + [Ir.ModelGraph(name, layers)]);
    }

    method CheckTrainStmt(v: string, model: string, config: TrainConfig)
      modifies this
      ensures State() == AfterTrainStmt(old(State()), v, model, config)
    {
      hide SweepErrors, VocabErrors, SchemaFromMap;
      ValidateTrainSweep(config);
      if v !in vars {
        Report(UndeclaredVariable(v));
        return;
      }
      if model !in models {
        Report(Other(UndeclaredModel));
        return;
      }
      CheckColumn(config.target, v, vars[v]);
      ValidateEmbeddingVocab(model, config.target, vars[v]);
      var schema := SchemaFromMap(vars[v]);
      ir := ir.(pipelines := ir.pipelines +
        [Ir.PipelineNode(|ir.pipelines|, None, Ir.Ref(v), Some(schema), schema,
                         [Ir.ML(Ir.Train(model, config))], false)]);
    }

    method CheckStmt(stmt: Stmt)
      modifies this
      ensures State() == AfterStmt(old(State()), stmt)
    {
      hide AfterPipeline, AfterVarDecl, AfterTrainStmt, ModelErrors;
      match stmt {
        case Import(_) => Report(Other(UnresolvedImport));
        case TypeDecl(name, fields) =>
          if name in schemas {
            Report(Other(DuplicateSchema));
          } else {
            schemas := schemas[name := fields];
            ir := ir.(types := ir.types + [Ir.NamedSchema(name, SchemaFromFields(fields))]);
          }
        case ModelDecl(name, layers) => CheckModelDecl(name, layers);
        case VarDecl(v, source, ops) => CheckVarDecl(v, source, ops);
        case ExprStmt(source, ops) =>
          PipelineKeepsTrained(State(), None, source, ops);
          var _ := CheckPipeline(None, source, ops);
        case TrainStmt(v, model, config) => CheckTrainStmt(v, model, config);
      }
    }

    /** The whole program, statement by statement. */
    method CheckProgram(program: seq<Stmt>)
      modifies this
      ensures State() == AfterStmts(old(State()), program)
    {
      hide AfterStmt;
      assert program[0..] == program && program[|program|..] == [];
      for i := 0 to |program|
        invariant AfterStmts(old(State()), program) == AfterStmts(State(), program[i..])
      {
        assert program[i..][0] == program[i] && program[i..][1..] == program[i + 1..];
        CheckStmt(program[i]);
      }
    }
  }

  /** The operators after which the columns may differ. */
  predicate ChangesColumns(op: PipelineOp) {
    || op.Train? || op.Predict? || op.Select? || op.Histogram? || op.WithColumn? || op.Cast? || op.Rename?
    || op.WithDp?
  }

  function AggregatedColumn(op: PipelineOp): string
    requires IsPlainAggregate(op) && !op.Count?
  {
    op.col
  }

  lemma TrainKeepsColumns(op: PipelineOp, cols: Cols)
    ensures op.Train? ==> ColsAfter(op, cols) == cols
  {
  }

  lemma ReadersKeepColumns(op: PipelineOp, cols: Cols)
    ensures !ChangesColumns(op) ==> ColsAfter(op, cols) == cols && !op.Train?
  {
  }

  lemma Reassociate(a: Errors, b: Errors, c: Errors)
    ensures a + b + c == a + (b + c)
  {
  }

  lemma Reassociate4(a: Errors, b: Errors, c: Errors, d: Errors, e: Errors)
    ensures a + b + c + d + e == a + (b + c + d + e)
    ensures a + b + c + d == a + (b + c + d)
  {
  }

  lemma OpStepAppends(env: Env, s: OpState, base: Errors, op: PipelineOp)
    ensures OpStep(env, s.(errors := base + s.errors), op)
         == OpStep(env, s, op).(errors := base + OpStep(env, s, op).errors)
  {
    hide OpErrors, ColsAfter, Lower, GroupAfter;
    Reassociate(base, s.errors, OpErrors(env, op, s.cols));
  }

  /** Errors found earlier are only carried along. */
  lemma {:induction false} RunOpsAppends(env: Env, s: OpState, base: Errors, ops: seq<PipelineOp>)
    ensures RunOps(env, s.(errors := base + s.errors), ops)
         == RunOps(env, s, ops).(errors := base + RunOps(env, s, ops).errors)
    decreases |ops|
  {
    hide OpStep;
    if ops != [] {
      OpStepAppends(env, s, base, ops[0]);
      RunOpsAppends(env, OpStep(env, s, ops[0]), base, ops[1..]);
    }
  }

  lemma PipelineKeepsTrained(a: Analysis, binding: Option<string>, source: PipelineSource, ops: seq<PipelineOp>)
    ensures AfterPipeline(a, binding, source, ops).trained == a.trained
  {
  }

  /** A fresh analyzer computes the checking function. */
  method CheckFresh(program: seq<Stmt>) returns (a: Analysis)
    ensures a == Checked(program)
  {
    var analyzer := new Analyzer();
    analyzer.CheckProgram(program);
    a := analyzer.State();
  }
}
