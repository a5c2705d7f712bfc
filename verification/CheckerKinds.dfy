/** Which kind of report each mistake gets, and how many reports of a kind a whole program gets. */
module CheckerKinds {
  import opened Ast
  import opened Checking
  import opened Cleanliness
  import opened Lowering
  import opened Wrappers
  import Scoping

  // ── Operators ───────────────────────────────────────────────────────────

  /** A partner or a model that names no frame or no model, as the operator needs. */
  predicate LooksUp(env: Env, op: PipelineOp, v: string) {
    || (op.Join? && v == op.other && (v in env.trained || v !in env.vars))
    || (op.Predict? && v == op.modelVar && v !in env.trained)
  }

  /** A training configuration with a value no run can use. */
  predicate HasBadValue(c: TrainConfig) {
    || 0 in c.sweep.epochs || 0 in c.sweep.batchSize
    || exists i | 0 <= i < |c.sweep.learningRate| :: !Positive(c.sweep.learningRate[i])
  }

  /** What an operator can get reported for, kind by kind, apart from absent columns. */
  predicate Earns(env: Env, op: PipelineOp, cols: Cols, t: Tag) {
    match t
    case FillOnNonNullable => op.FillNull? && op.col in cols && !cols[op.col].option && cols[op.col].name != "unknown"
    case UnknownCastType => op.Cast? && op.toType !in {"float", "int", "str", "bool"}
    case UndeclaredModel => op.Train? && op.modelName !in env.models
    case IncompatibleSplit => op.Train? && op.train.timeColumn.Some? && op.train.splitStrategy != Sequential
    case BadHyperparameter => op.Train? && HasBadValue(op.train)
    case VocabLength =>
      op.Train? && op.modelName in env.models && !VocabularyFits(env.models[op.modelName], op.train.target, cols)
    case _ => false
  }

  lemma {:induction false} ZeroIsReported(xs: seq<nat>)
    ensures forall e <- ZeroErrors(xs) :: e == Other(BadHyperparameter)
    ensures ZeroErrors(xs) != [] <==> 0 in xs
  {
    if xs != [] {
      ZeroIsReported(xs[..|xs| - 1]);
      assert xs == xs[..|xs| - 1] + [xs[|xs| - 1]];
    }
  }

  lemma {:induction false} RateIsReported(xs: seq<real>)
    ensures forall e <- RateErrors(xs) :: e == Other(BadHyperparameter)
    ensures RateErrors(xs) != [] <==> exists i | 0 <= i < |xs| :: !Positive(xs[i])
  {
    RatesClean(xs);
    if xs != [] {
      RateIsReported(xs[..|xs| - 1]);
    }
  }

  lemma SweepIsReported(c: TrainConfig)
    ensures Other(IncompatibleSplit) in SweepErrors(c) <==> c.timeColumn.Some? && c.splitStrategy != Sequential
    ensures Other(BadHyperparameter) in SweepErrors(c) <==> HasBadValue(c)
    ensures forall e <- SweepErrors(c) :: e in {Other(IncompatibleSplit), Other(BadHyperparameter)}
  {
    hide ZeroErrors, RateErrors, Positive;
    ZeroIsReported(c.sweep.epochs);
    RateIsReported(c.sweep.learningRate);
    ZeroIsReported(c.sweep.batchSize);
    var (a, b, d) := (ZeroErrors(c.sweep.epochs), RateErrors(c.sweep.learningRate), ZeroErrors(c.sweep.batchSize));
    assert a != [] ==> a[0] in SweepErrors(c);
    assert b != [] ==> b[0] in SweepErrors(c);
    assert d != [] ==> d[0] in SweepErrors(c);
  }

  lemma {:induction false} ColumnsAreViolations(cs: seq<string>, context: string, cols: Cols)
    ensures forall e <- ColumnsErrors(cs, context, cols) :: e.SafeLoadViolation?
  {
    if cs != [] {
      ColumnsAreViolations(cs[..|cs| - 1], context, cols);
    }
  }

  lemma {:induction false} ReadsAreViolations(e: Expr, cols: Cols)
    ensures forall r <- ExprErrors(e, cols) :: r.SafeLoadViolation?
  {
    match e
    case BinOp(l, _, r) =>
      ReadsAreViolations(l, cols);
      ReadsAreViolations(r, cols);
    case _ =>
  }

  lemma TrainKinds(env: Env, op: PipelineOp, cols: Cols, t: Tag)
    requires op.Train?
    ensures Other(t) in OpErrors(env, op, cols) <==> Earns(env, op, cols, t)
    ensures forall e <- OpErrors(env, op, cols) :: e.Other?
  {
    hide SweepErrors, Features, HasBadValue;
    SweepIsReported(op.train);
  }

  lemma JoinKinds(env: Env, op: PipelineOp, cols: Cols, v: string)
    requires op.Join?
    ensures UndeclaredVariable(v) in OpErrors(env, op, cols) <==> LooksUp(env, op, v)
    ensures forall e <- OpErrors(env, op, cols) :: e.SafeLoadViolation? || e == UndeclaredVariable(op.other)
  {
    hide ColumnsErrors;
    ColumnsAreViolations(op.leftOn, "join(left_on)", cols);
    if op.other in env.vars {
      ColumnsAreViolations(op.rightOn, "join(right_on)", env.vars[op.other]);
    }
    if LooksUp(env, op, v) {
      assert OpErrors(env, op, cols)[|ColumnsErrors(op.leftOn, "join(left_on)", cols)|] == UndeclaredVariable(v);
    }
  }

  /** The operators that can be reported for more than an absent column. */
  predicate IsParticular(op: PipelineOp) {
    op.Train? || op.Join? || op.FillNull? || op.Cast? || op.Predict?
  }

  predicate ReadsAList(op: PipelineOp) {
    op.Filter? || op.WithColumn? || op.Select? || op.Agg? || op.Chart?
  }

  lemma ListsAreViolations(env: Env, op: PipelineOp, cols: Cols)
    requires ReadsAList(op)
    ensures forall e <- OpErrors(env, op, cols) :: e.SafeLoadViolation?
  {
    hide ColumnsErrors, ExprErrors;
    match op
    case Filter(e) => ReadsAreViolations(e, cols);
    case WithColumn(_, e) => ReadsAreViolations(e, cols);
    case Select(cs) => ColumnsAreViolations(cs, "select", cols);
    case Agg(specs) => ColumnsAreViolations(AggColumns(specs), "aggregate", cols);
    case Chart(config) => ColumnsAreViolations(config.Columns(), "chart", cols);
  }

  lemma AggregatesAreViolations(env: Env, op: PipelineOp, cols: Cols)
    requires IsPlainAggregate(op)
    ensures forall e <- OpErrors(env, op, cols) :: e.SafeLoadViolation?
  {
  }

  lemma ReadersAreViolations(env: Env, op: PipelineOp, cols: Cols)
    requires !IsParticular(op) && !ReadsAList(op) && !IsPlainAggregate(op)
    ensures forall e <- OpErrors(env, op, cols) :: e.SafeLoadViolation?
  {
  }

  lemma OnlyParticularsEarn(env: Env, op: PipelineOp, cols: Cols, t: Tag, v: string)
    ensures !IsParticular(op) ==> !Earns(env, op, cols, t) && !LooksUp(env, op, v)
    ensures op.Join? ==> !Earns(env, op, cols, t)
    ensures op.Train? ==> !LooksUp(env, op, v)
  {
    hide VocabularyFits, HasBadValue;
  }

  lemma ColumnKinds(env: Env, op: PipelineOp, cols: Cols, t: Tag, v: string)
    requires op.FillNull? || op.Cast? || op.Predict?
    ensures Other(t) in OpErrors(env, op, cols) <==> Earns(env, op, cols, t)
    ensures UndeclaredVariable(v) in OpErrors(env, op, cols) <==> LooksUp(env, op, v)
    ensures UndeclaredType(v) !in OpErrors(env, op, cols)
  {
    hide VocabularyFits, HasBadValue;
  }

  /** Every operator is reported for a kind of mistake exactly when it makes it. */
  lemma ReportsAreOfTheirKind(env: Env, op: PipelineOp, cols: Cols, t: Tag, v: string)
    ensures Other(t) in OpErrors(env, op, cols) <==> Earns(env, op, cols, t)
    ensures UndeclaredVariable(v) in OpErrors(env, op, cols) <==> LooksUp(env, op, v)
    ensures UndeclaredType(v) !in OpErrors(env, op, cols)
  {
    hide OpErrors, Earns, LooksUp;
    OnlyParticularsEarn(env, op, cols, t, v);
    if op.Train? {
      TrainKinds(env, op, cols, t);
    } else if op.Join? {
      JoinKinds(env, op, cols, v);
    } else if IsParticular(op) {
      ColumnKinds(env, op, cols, t, v);
    } else if ReadsAList(op) {
      ListsAreViolations(env, op, cols);
    } else if IsPlainAggregate(op) {
      AggregatesAreViolations(env, op, cols);
    } else {
      ReadersAreViolations(env, op, cols);
    }
  }

  /** The word a report of an absent column puts to the operator that reads it. */
  predicate IsContext(op: PipelineOp, context: string) {
    match op
    case Filter(_) => context == "expression"
    case WithColumn(_, _) => context == "expression"
    case Select(_) => context == "select"
    case Count(Some(_)) => context == "count"
    case GroupBy(_) => context == "groupBy"
    case OrderBy(_, _) => context == "orderBy"
    case DropNull(_) => context == "dropNull"
    case FillNull(_, _) => context == "fillNull"
    case Join(_, _, _, _) => context == "join(left_on)" || context == "join(right_on)"
    case Chart(_) => context == "chart"
    case Cast(_, _) => context == "cast"
    case Rename(_, _) => context == "rename"
    case Replace(_, _, _) => context == "replace"
    case _ => context == "aggregate"
  }

  predicate AllInContext(errors: Errors, op: PipelineOp) {
    forall e <- errors :: e.SafeLoadViolation? ==> IsContext(op, e.context)
  }

  lemma {:induction false} ColumnsInContext(op: PipelineOp, cs: seq<string>, context: string, cols: Cols)
    requires IsContext(op, context)
    ensures AllInContext(ColumnsErrors(cs, context, cols), op)
  {
    hide IsContext;
    if cs != [] {
      ColumnsInContext(op, cs[..|cs| - 1], context, cols);
    }
  }

  lemma {:induction false} ReadsInContext(op: PipelineOp, e: Expr, cols: Cols)
    requires IsContext(op, "expression")
    ensures AllInContext(ExprErrors(e, cols), op)
  {
    hide IsContext;
    match e
    case BinOp(l, _, r) =>
      ReadsInContext(op, l, cols);
      ReadsInContext(op, r, cols);
    case _ =>
  }

  /** A report of an absent column names the operator that reads it. */
  lemma ReportsNameTheirOperator(env: Env, op: PipelineOp, cols: Cols)
    ensures AllInContext(OpErrors(env, op, cols), op)
  {
    hide ColumnsErrors, ExprErrors, SweepErrors, VocabErrors, IsContext;
    if op.Train? {
      hide OpErrors;
      TrainKinds(env, op, cols, VocabLength);
    } else if ReadsAList(op) || op.Join? {
      ListsInContext(env, op, cols);
    } else {
      OneInContext(env, op, cols);
    }
  }

  lemma ListsInContext(env: Env, op: PipelineOp, cols: Cols)
    requires ReadsAList(op) || op.Join?
    ensures AllInContext(OpErrors(env, op, cols), op)
  {
    hide ColumnsErrors, ExprErrors;
    match op
    case Filter(e) => ReadsInContext(op, e, cols);
    case WithColumn(_, e) => ReadsInContext(op, e, cols);
    case Select(cs) => ColumnsInContext(op, cs, "select", cols);
    case Agg(specs) => ColumnsInContext(op, AggColumns(specs), "aggregate", cols);
    case Chart(config) => ColumnsInContext(op, config.Columns(), "chart", cols);
    case Join(other, l, r, _) =>
      ColumnsInContext(op, l, "join(left_on)", cols);
      if other in env.vars {
        ColumnsInContext(op, r, "join(right_on)", env.vars[other]);
      }
  }

  lemma OneInContext(env: Env, op: PipelineOp, cols: Cols)
    requires !op.Train? && !ReadsAList(op) && !op.Join?
    ensures AllInContext(OpErrors(env, op, cols), op)
  {
  }

  // ── Groups left waiting ─────────────────────────────────────────────────

  predicate UsesGroup(op: PipelineOp) {
    IsPlainAggregate(op) || op.Quantile? || op.Corr? || op.Agg? || op.Histogram?
  }

  /** Operator k runs: no train comes before it. */
  predicate IsReached(ops: seq<PipelineOp>, k: nat)
    requires k < |ops|
  {
    forall j | 0 <= j < k :: !ops[j].Train?
  }

  /** An operator that is reached uses the group, from k on. */
  predicate UsedFrom(ops: seq<PipelineOp>, k: nat) {
    exists j | k <= j < |ops| :: IsReached(ops, j) && UsesGroup(ops[j])
  }

  predicate LeftAt(ops: seq<PipelineOp>, k: nat)
    requires k < |ops|
  {
    IsReached(ops, k) && ops[k].GroupBy? && !UsedFrom(ops, k + 1)
  }

  /** Some groupBy that is reached has no aggregate behind it that is reached. */
  predicate LeavesGroup(ops: seq<PipelineOp>) {
    exists k | 0 <= k < |ops| :: LeftAt(ops, k)
  }

  lemma ReachedInRest(ops: seq<PipelineOp>, k: nat)
    requires k < |ops| - 1
    ensures IsReached(ops, k + 1) <==> !ops[0].Train? && IsReached(ops[1..], k)
  {
    if IsReached(ops, k + 1) {
      assert !ops[0].Train?;
      forall j | 0 <= j < k ensures !ops[1..][j].Train? {
        assert !ops[j + 1].Train?;
      }
    }
  }

  lemma UsedInRest(ops: seq<PipelineOp>, k: nat)
    requires ops != [] && !ops[0].Train?
    ensures UsedFrom(ops, k + 1) <==> UsedFrom(ops[1..], k)
  {
    hide IsReached, UsesGroup;
    if UsedFrom(ops, k + 1) {
      var j :| k + 1 <= j < |ops| && IsReached(ops, j) && UsesGroup(ops[j]);
      ReachedInRest(ops, j - 1);
      assert IsReached(ops[1..], j - 1) && UsesGroup(ops[1..][j - 1]);
    }
    if UsedFrom(ops[1..], k) {
      var j :| k <= j < |ops[1..]| && IsReached(ops[1..], j) && UsesGroup(ops[1..][j]);
      ReachedInRest(ops, j);
      assert IsReached(ops, j + 1) && UsesGroup(ops[j + 1]);
    }
  }

  lemma LeftInRest(ops: seq<PipelineOp>)
    requires ops != [] && !ops[0].Train?
    ensures LeavesGroup(ops) <==> LeavesGroup(ops[1..]) || (ops[0].GroupBy? && !UsedFrom(ops[1..], 0))
    ensures UsedFrom(ops, 0) <==> UsesGroup(ops[0]) || UsedFrom(ops[1..], 0)
  {
    hide UsesGroup;
    assert IsReached(ops, 0);
    UsedInRest(ops, 0);
    hide IsReached, UsedFrom;
    assert UsedFrom(ops, 0) <==> UsesGroup(ops[0]) || UsedFrom(ops, 1) by { UsedAtStart(ops); }
    if LeavesGroup(ops) {
      var k :| 0 <= k < |ops| && LeftAt(ops, k);
      if k > 0 {
        ReachedInRest(ops, k - 1);
        UsedInRest(ops, k);
        assert LeftAt(ops[1..], k - 1);
      }
    }
    if LeavesGroup(ops[1..]) {
      var k :| 0 <= k < |ops[1..]| && LeftAt(ops[1..], k);
      ReachedInRest(ops, k);
      UsedInRest(ops, k + 1);
      assert LeftAt(ops, k + 1);
    }
    if ops[0].GroupBy? && !UsedFrom(ops[1..], 0) {
      assert LeftAt(ops, 0);
    }
  }

  lemma UsedAtStart(ops: seq<PipelineOp>)
    requires ops != []
    ensures UsedFrom(ops, 0) <==> UsesGroup(ops[0]) || UsedFrom(ops, 1)
  {
    hide UsesGroup;
    assert IsReached(ops, 0);
    if UsedFrom(ops, 0) {
      var j :| 0 <= j < |ops| && IsReached(ops, j) && UsesGroup(ops[j]);
    }
  }

  lemma GroupsAfter(op: PipelineOp, group: Option<string>)
    ensures GroupAfter(op, group).Some? <==> op.GroupBy? || (group.Some? && !UsesGroup(op))
    ensures op.Train? || op.GroupBy? ==> !UsesGroup(op)
  {
  }

  /** A pipeline ends with a group waiting exactly when it leaves one, or never uses the one it starts with. */
  lemma {:induction false} GroupIsLeftExactly(env: Env, s: OpState, ops: seq<PipelineOp>)
    ensures RunOps(env, s, ops).group.Some? <==> LeavesGroup(ops) || (s.group.Some? && !UsedFrom(ops, 0))
    decreases |ops|
  {
    hide OpErrors, ColsAfter, Lower, GroupAfter, UsesGroup;
    if ops == [] {
    } else if ops[0].Train? {
      TrainEnds(ops);
      GroupsAfter(ops[0], s.group);
    } else {
      GroupsAfter(ops[0], s.group);
      LeftInRest(ops);
      GroupIsLeftExactly(env, OpStep(env, s, ops[0]), ops[1..]);
    }
  }

  lemma TrainEnds(ops: seq<PipelineOp>)
    requires ops != [] && ops[0].Train?
    ensures !LeavesGroup(ops) && !UsedFrom(ops, 0)
  {
    forall j | 0 < j < |ops| ensures !IsReached(ops, j) {
    }
  }

  // ── Programs ────────────────────────────────────────────────────────────

  /** How many reports of one kind there are. */
  function Reports(errors: Errors, t: Tag): nat {
    multiset(errors)[Other(t)]
  }

  lemma ReportsAdd(a: Errors, b: Errors, t: Tag)
    ensures Reports(a + b, t) == Reports(a, t) + Reports(b, t)
  {
  }

  lemma NoReports(errors: Errors, t: Tag)
    requires Other(t) !in errors
    ensures Reports(errors, t) == 0
  {
  }

  /** The kinds that statements are reported for, and operators never. */
  predicate IsOfStatements(t: Tag) {
    t in {UnresolvedImport, DuplicateSchema, DuplicateModel, DuplicateVariable, MissingAggregate}
  }

  lemma {:induction false} OperatorsAddNone(env: Env, s: OpState, ops: seq<PipelineOp>, t: Tag)
    requires IsOfStatements(t)
    ensures Reports(RunOps(env, s, ops).errors, t) == Reports(s.errors, t)
    decreases |ops|
  {
    hide OpErrors, ColsAfter, Lower, GroupAfter, Reports;
    if ops != [] {
      var next := OpStep(env, s, ops[0]);
      ReportsAreOfTheirKind(env, ops[0], s.cols, t, "");
      NoReports(OpErrors(env, ops[0], s.cols), t);
      ReportsAdd(s.errors, OpErrors(env, ops[0], s.cols), t);
      if !ops[0].Train? {
        OperatorsAddNone(env, next, ops[1..], t);
      }
    }
  }

  /** Statement i declares what an earlier one of the same sort declared. */
  predicate Repeats(p: seq<Stmt>, i: nat)
    requires i < |p|
  {
    exists j | 0 <= j < i ::
      || (p[i].TypeDecl? && p[j].TypeDecl? && p[i].name == p[j].name)
      || (p[i].ModelDecl? && p[j].ModelDecl? && p[i].name == p[j].name)
      || (p[i].VarDecl? && p[j].VarDecl? && p[i].varName == p[j].varName)
  }

  /** What statement i is reported for, by the program text alone. */
  predicate Mistaken(p: seq<Stmt>, i: nat, t: Tag) {
    && i < |p|
    && match t
       case UnresolvedImport => p[i].Import?
       case DuplicateSchema => p[i].TypeDecl? && Repeats(p, i)
       case DuplicateModel => p[i].ModelDecl? && Repeats(p, i)
       case DuplicateVariable => p[i].VarDecl? && Repeats(p, i)
       case MissingAggregate =>
         (p[i].ExprStmt? || (p[i].VarDecl? && !Repeats(p, i))) && LeavesGroup(p[i].ops)
       case _ => false
  }

  predicate Declares(p: seq<Stmt>, t: Tag, name: string) {
    exists j | 0 <= j < |p| ::
      match t
      case DuplicateSchema => p[j].TypeDecl? && p[j].name == name
      case DuplicateModel => p[j].ModelDecl? && p[j].name == name
      case DuplicateVariable => p[j].VarDecl? && p[j].varName == name
      case _ => false
  }

  /** The tables hold what the statements declare. */
  ghost predicate Holds(a: Analysis, p: seq<Stmt>) {
    && (forall n :: n in a.schemas <==> Declares(p, DuplicateSchema, n))
    && (forall n :: n in a.models <==> Declares(p, DuplicateModel, n))
    && (forall n :: n in a.vars || n in a.trained <==> Declares(p, DuplicateVariable, n))
  }

  lemma DeclaresMore(p: seq<Stmt>, s: Stmt, t: Tag, n: string)
    ensures Declares(p + [s], t, n) <==>
      || Declares(p, t, n)
      || (t == DuplicateSchema && s.TypeDecl? && s.name == n)
      || (t == DuplicateModel && s.ModelDecl? && s.name == n)
      || (t == DuplicateVariable && s.VarDecl? && s.varName == n)
  {
    var q := p + [s];
    assert q[|p|] == s;
    if Declares(p, t, n) {
      var j :| 0 <= j < |p| && match t
        case DuplicateSchema => p[j].TypeDecl? && p[j].name == n
        case DuplicateModel => p[j].ModelDecl? && p[j].name == n
        case DuplicateVariable => p[j].VarDecl? && p[j].varName == n
        case _ => false;
      assert q[j] == p[j];
    }
  }

  lemma RepeatsLast(p: seq<Stmt>, s: Stmt)
    ensures Repeats(p + [s], |p|) <==>
      || (s.TypeDecl? && Declares(p, DuplicateSchema, s.name))
      || (s.ModelDecl? && Declares(p, DuplicateModel, s.name))
      || (s.VarDecl? && Declares(p, DuplicateVariable, s.varName))
  {
    var q := p + [s];
    assert q[|p|] == s && forall j | 0 <= j < |p| :: q[j] == p[j];
  }

  lemma MistakenBefore(p: seq<Stmt>, s: Stmt, i: nat, t: Tag)
    requires i < |p|
    ensures Mistaken(p + [s], i, t) <==> Mistaken(p, i, t)
  {
    hide LeavesGroup;
    var q := p + [s];
    assert forall j | 0 <= j < |p| :: q[j] == p[j];
  }

  /** What one statement does to the tables and the reports. */
  lemma PipelineAdds(a: Analysis, binding: Option<string>, source: PipelineSource, ops: seq<PipelineOp>, t: Tag)
    requires IsOfStatements(t)
    ensures var b := AfterPipeline(a, binding, source, ops);
      && Reports(b.errors, t) == Reports(a.errors, t) + (if t == MissingAggregate && LeavesGroup(ops) then 1 else 0)
      && (b.schemas, b.models, b.trained) == (a.schemas, a.models, a.trained)
      && b.vars.Keys == a.vars.Keys + if binding.Some? then {binding.value} else {}
  {
    hide RunOps, LeavesGroup, UsedFrom, ColsOfFields, SchemaFromFields, SchemaFromMap, Reports;
    var (cols, irSource, sourceErrors) := ResolveSource(a, source);
    var s := RunOps(a.Tables(), StartOps(cols), ops);
    OperatorsAddNone(a.Tables(), StartOps(cols), ops, t);
    GroupIsLeftExactly(a.Tables(), StartOps(cols), ops);
    NoReports(sourceErrors, t);
    NoReports([], t);
    var last := When(s.group.Some?, Other(MissingAggregate));
    assert Reports(last, t) == if t == MissingAggregate && s.group.Some? then 1 else 0 by { OneReport(s.group.Some?, MissingAggregate, t); }
    ReportsAdd(a.errors, sourceErrors, t);
    ReportsAdd(a.errors + sourceErrors, s.errors, t);
    ReportsAdd(a.errors + sourceErrors + s.errors, last, t);
  }

  lemma OneReport(b: bool, given: Tag, t: Tag)
    ensures Reports(When(b, Other(given)), t) == if b && given == t then 1 else 0
  {
  }

  lemma {:induction false} NetworkAddsNone(ls: seq<LayerKind>, n: nat, t: Tag)
    requires n <= |ls| && IsOfStatements(t)
    ensures Other(t) !in LayersErrors(ls, n)
  {
    if n > 0 {
      NetworkAddsNone(ls, n - 1, t);
    }
  }

  lemma RunAddsNone(a: Analysis, v: string, model: string, config: TrainConfig, t: Tag)
    requires IsOfStatements(t)
    ensures var b := AfterTrainStmt(a, v, model, config);
      && Reports(b.errors, t) == Reports(a.errors, t)
      && (b.schemas, b.models, b.vars, b.trained) == (a.schemas, a.models, a.vars, a.trained)
  {
    hide SweepErrors, Features, SchemaFromMap, Reports;
    SweepIsReported(config);
    var before := a.errors + SweepErrors(config);
    NoReports(SweepErrors(config), t);
    ReportsAdd(a.errors, SweepErrors(config), t);
    if v !in a.vars {
      NoReports([UndeclaredVariable(v)], t);
      ReportsAdd(before, [UndeclaredVariable(v)], t);
    } else if model !in a.models {
      NoReports([Other(UndeclaredModel)], t);
      ReportsAdd(before, [Other(UndeclaredModel)], t);
    } else {
      var (target, vocab) := (ColumnErrors(config.target, v, a.vars[v]), VocabErrors(a.models, model, config.target, a.vars[v]));
      NoReports(target, t);
      NoReports(vocab, t);
      ReportsAdd(before, target, t);
      ReportsAdd(before + target, vocab, t);
    }
  }

  lemma StatementAdds(a: Analysis, p: seq<Stmt>, s: Stmt, t: Tag)
    requires Holds(a, p) && IsOfStatements(t)
    ensures var b := AfterStmt(a, s);
      && Reports(b.errors, t) == Reports(a.errors, t) + (if Mistaken(p + [s], |p|, t) then 1 else 0)
      && Holds(b, p + [s])
  {
    hide AfterPipeline, PipelineYields, AfterTrainStmt, ModelErrors, LeavesGroup, Repeats, Declares, SchemaFromFields, Reports;
    RepeatsLast(p, s);
    assert (p + [s])[|p|] == s;
    StatementDeclares(a, p, s);
    hide Holds;
    match s
    case Import(_) => DeclarationAdds(a, UnresolvedImport, t);
    case TypeDecl(_, _) => DeclarationAdds(a, DuplicateSchema, t);
    case ModelDecl(_, layers) =>
      DeclarationAdds(a, DuplicateModel, t);
      NetworkReportsNone(layers, t);
      ReportsAdd(a.errors, ModelErrors(layers), t);
    case VarDecl(v, source, ops) =>
      DeclarationAdds(a, DuplicateVariable, t);
      PipelineAdds(a, Some(v), source, ops, t);
    case ExprStmt(source, ops) => PipelineAdds(a, None, source, ops, t);
    case TrainStmt(v, model, config) => RunAddsNone(a, v, model, config, t);
  }

  lemma TablesGrow(a: Analysis, s: Stmt)
    ensures var b := AfterStmt(a, s);
      && b.schemas.Keys == a.schemas.Keys + (if s.TypeDecl? then {s.name} else {})
      && b.models.Keys == a.models.Keys + (if s.ModelDecl? then {s.name} else {})
      && b.vars.Keys + b.trained == a.vars.Keys + a.trained + if s.VarDecl? then {s.varName} else {}
  {
    hide AfterPipeline, AfterTrainStmt, PipelineYields, ModelErrors, SchemaFromFields, LeavesGroup, Reports;
    match s
    case VarDecl(v, source, ops) => PipelineAdds(a, Some(v), source, ops, DuplicateVariable);
    case ExprStmt(source, ops) => PipelineAdds(a, None, source, ops, DuplicateVariable);
    case TrainStmt(v, model, config) => RunAddsNone(a, v, model, config, DuplicateVariable);
    case _ =>
  }

  lemma StatementDeclares(a: Analysis, p: seq<Stmt>, s: Stmt)
    requires Holds(a, p)
    ensures Holds(AfterStmt(a, s), p + [s])
  {
    hide AfterStmt, Declares;
    TablesGrow(a, s);
    forall u, n ensures Declares(p + [s], u, n) <==>
      || Declares(p, u, n)
      || (u == DuplicateSchema && s.TypeDecl? && s.name == n)
      || (u == DuplicateModel && s.ModelDecl? && s.name == n)
      || (u == DuplicateVariable && s.VarDecl? && s.varName == n)
    {
      DeclaresMore(p, s, u, n);
    }
    var b := AfterStmt(a, s);
    assert forall n :: n in b.schemas <==> n in b.schemas.Keys;
    assert forall n :: n in b.models <==> n in b.models.Keys;
    assert forall n :: n in b.vars || n in b.trained <==> n in b.vars.Keys + b.trained;
  }

  lemma DeclarationAdds(a: Analysis, given: Tag, t: Tag)
    ensures Reports(a.errors + [Other(given)], t) == Reports(a.errors, t) + if given == t then 1 else 0
  {
  }

  lemma NetworkReportsNone(ls: seq<LayerKind>, t: Tag)
    requires IsOfStatements(t)
    ensures Reports(ModelErrors(ls), t) == 0
  {
    hide LayersErrors;
    NetworkAddsNone(ls, |ls|, t);
  }

  lemma OneMoreMistaken(p: seq<Stmt>, s: Stmt, t: Tag)
    ensures |set i: nat | i < |p| + 1 && Mistaken(p + [s], i, t)|
         == |set i: nat | i < |p| && Mistaken(p, i, t)| + if Mistaken(p + [s], |p|, t) then 1 else 0
  {
    hide Mistaken;
    forall i: nat | i < |p| ensures Mistaken(p + [s], i, t) <==> Mistaken(p, i, t) {
      MistakenBefore(p, s, i, t);
    }
    var before := set i: nat | i < |p| && Mistaken(p, i, t);
    var after := set i: nat | i < |p| + 1 && Mistaken(p + [s], i, t);
    if Mistaken(p + [s], |p|, t) {
      assert after == before + {|p|} && |p| !in before;
    } else {
      assert after == before;
    }
  }

  lemma {:induction false} StatementsAreReported(p: seq<Stmt>, t: Tag)
    requires IsOfStatements(t)
    ensures Reports(Checked(p).errors, t) == |set i: nat | i < |p| && Mistaken(p, i, t)|
    ensures Holds(Checked(p), p)
  {
    hide AfterStmt, Mistaken, Reports, Holds, AfterStmts;
    if p == [] {
      NothingReported(t);
    } else {
      var (front, last) := (p[..|p| - 1], p[|p| - 1]);
      assert p == front + [last];
      StatementsAreReported(front, t);
      Scoping.OneMoreStmt(EMPTY, front, last);
      StatementAdds(Checked(front), front, last, t);
      OneMoreMistaken(front, last, t);
    }
  }

  lemma NothingReported(t: Tag)
    ensures Reports(Checked([]).errors, t) == 0 && Holds(Checked([]), [])
  {
  }

  /**
   * A whole program gets exactly one report for each import, for each second declaration of a name and for each checked
   * pipeline that leaves a group without an aggregate, whatever else is wrong with it.
   */
  lemma MistakesAreCounted(p: seq<Stmt>)
    ensures forall t | IsOfStatements(t) :: Reports(Checked(p).errors, t) == |set i: nat | i < |p| && Mistaken(p, i, t)|
  {
    hide Checked, Mistaken, Reports;
    forall t | IsOfStatements(t) ensures Reports(Checked(p).errors, t) == |set i: nat | i < |p| && Mistaken(p, i, t)| {
      StatementsAreReported(p, t);
    }
  }

  // ── The order of reports ────────────────────────────────────────────────

  /** What a source is reported for. */
  function SourceReport(a: Analysis, source: PipelineSource): Errors {
    match source
    case Load(_, schema, _) => if schema in a.schemas then [] else [UndeclaredType(schema)]
    case VarRef(v) => if v in a.vars && v !in a.trained then [] else [UndeclaredVariable(v)]
  }

  /** A pipeline's source is reported before its operators, and a group left waiting after them. */
  lemma PipelineReportsInOrder(a: Analysis, binding: Option<string>, source: PipelineSource, ops: seq<PipelineOp>)
    ensures var errors := AfterPipeline(a, binding, source, ops).errors;
      && a.errors + SourceReport(a, source) <= errors
      && (LeavesGroup(ops) ==> errors != [] && errors[|errors| - 1] == Other(MissingAggregate))
      && (errors != [] && errors[|errors| - 1] == Other(MissingAggregate) ==>
          LeavesGroup(ops) || errors == a.errors)
  {
    hide RunOps, LeavesGroup, UsedFrom, ColsOfFields, SchemaFromFields, SchemaFromMap;
    var (cols, irSource, sourceErrors) := ResolveSource(a, source);
    assert sourceErrors == SourceReport(a, source);
    var s := RunOps(a.Tables(), StartOps(cols), ops);
    GroupIsLeftExactly(a.Tables(), StartOps(cols), ops);
    OperatorsAddNone(a.Tables(), StartOps(cols), ops, MissingAggregate);
    assert Other(MissingAggregate) !in s.errors by {
      assert multiset(s.errors)[Other(MissingAggregate)] == Reports(StartOps(cols).errors, MissingAggregate) == 0;
    }
    var errors := AfterPipeline(a, binding, source, ops).errors;
    assert errors == (a.errors + sourceErrors) + (s.errors + When(s.group.Some?, Other(MissingAggregate)));
    assert !s.group.Some? && s.errors != [] ==> errors[|errors| - 1] in s.errors;
  }

  /** A run statement is reported for its options first, and then for the first name it misses, or for its target. */
  lemma RunReportsInOrder(a: Analysis, v: string, model: string, config: TrainConfig)
    ensures var (errors, n) := (AfterTrainStmt(a, v, model, config).errors, |a.errors| + |SweepErrors(config)|);
      && a.errors + SweepErrors(config) <= errors
      && (UndeclaredVariable(v) in errors[n..] <==> v !in a.vars)
      && (Other(UndeclaredModel) in errors[n..] <==> v in a.vars && model !in a.models)
      && (SafeLoadViolation(config.target, v) in errors[n..] <==>
          v in a.vars && model in a.models && config.target !in a.vars[v])
      && (Other(VocabLength) in errors[n..] <==>
          v in a.vars && model in a.models && !VocabularyFits(a.models[model], config.target, a.vars[v]))
      && |errors| <= n + 1
  {
    hide SweepErrors, Features, SchemaFromMap;
    var (b, before) := (AfterTrainStmt(a, v, model, config), a.errors + SweepErrors(config));
    if v in a.vars && model in a.models {
      var (target, vocab) := (ColumnErrors(config.target, v, a.vars[v]), VocabErrors(a.models, model, config.target, a.vars[v]));
      assert b.errors == before + (target + vocab);
      assert b.errors[|before|..] == target + vocab;
    }
  }
}
