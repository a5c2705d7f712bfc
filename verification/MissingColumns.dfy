/** Missing-column checking against the reference interpreter: reported exactly when execution would stop for it. */
module MissingColumns {
  import opened Ast
  import opened Frames
  import opened Checking
  import opened MissingByOperator
  import opened MissingByStatement
  import opened Wrappers
  import Ir
  import Programs
  import ProgramPreservation
  import Scoping

  /** Some statement is reported for a missing column it needs, on the tables checked up to there. */
  predicate ReportsLater(strict: bool, a: Analysis, stmts: seq<Stmt>)
    decreases |stmts|
  {
    stmts != [] && (StmtReports(strict, a, stmts[0]) || ReportsLater(strict, AfterStmt(a, stmts[0]), stmts[1..]))
  }

  predicate ReportsNeeded(strict: bool, program: seq<Stmt>) {
    ReportsLater(strict, EMPTY, program)
  }

  /** Some pipeline of the program misses its train target, on the columns tracked there. */
  predicate MissesLater(a: Analysis, stmts: seq<Stmt>)
    decreases |stmts|
  {
    stmts != [] && (StmtMisses(a, stmts[0]) || MissesLater(AfterStmt(a, stmts[0]), stmts[1..]))
  }

  predicate MissesTrainTarget(program: seq<Stmt>) {
    MissesLater(EMPTY, program)
  }

  lemma {:induction false} StatementsAreExact(g: Engine, a: Analysis, w: Programs.World, stmts: seq<Stmt>)
    requires Conforming(g) && Synced(a, w) && ResolvesIn(stmts, a, w)
    ensures var o := Programs.EvalStmts(g, w, stmts);
      if ReportsLater(g.strictRename, a, stmts) || MissesLater(a, stmts) then o.MissingColumn? else o.Ran?
    decreases |stmts|
  {
    hide AfterStmt, Programs.EvalStmt, Conforming, Synced, ResolvesIn, StmtMisses, StmtReports;
    if stmts != [] {
      StatementIsExact(g, a, w, stmts);
      if !StmtReports(g.strictRename, a, stmts[0]) && !StmtMisses(a, stmts[0]) {
        StatementsAreExact(g, AfterStmt(a, stmts[0]), Programs.EvalStmt(g, w, stmts[0]).value, stmts[1..]);
      }
    }
  }

  /**
   * On every conforming input, a program whose names resolve stops on a missing column exactly when the checker reports one
   * that the backend needs or some pipeline's train target is absent from the columns tracked there, and otherwise it
   * executes to the end.
   */
  lemma MissingColumnsAreExact(g: Engine, program: seq<Stmt>)
    requires Conforming(g) && NamesResolve(program)
    ensures var (needed, o) := (ReportsNeeded(g.strictRename, program), Programs.EvalProgram(g, program));
      && (o.MissingColumn? <==> needed || MissesTrainTarget(program))
      && (o.Ran? <==> !needed && !MissesTrainTarget(program))
  {
    hide ReportsLater, Programs.EvalStmts, Resolves, Conforming, MissesLater;
    var (none, graphs, vars) := (EMPTY.schemas, EMPTY.models, EMPTY.vars);
    assert none.Keys == {} && graphs.Keys == {} && vars.Keys == {} && Programs.START.env.frames.Keys == {};
    StatementsAreExact(g, EMPTY, Programs.START, program);
  }

  // ── The errors a report is among ────────────────────────────────────────

  /** `rename` is a keyword, so no program text names a variable so. */
  predicate RenameIsNoVariable(stmts: seq<Stmt>) {
    forall stmt <- stmts :: stmt.TrainStmt? ==> stmt.sourceVar != "rename"
  }

  /** What a `run` statement reports is needed by every backend. */
  lemma RunReports(strict: bool, a: Analysis, stmt: Stmt)
    requires strict || (stmt.TrainStmt? ==> stmt.sourceVar != "rename")
    ensures a.errors <= AfterStmt(a, stmt).errors
    ensures StmtReports(strict, a, stmt) <==> Stops(strict, Added(a, AfterStmt(a, stmt)))
  {
    hide Stops, SweepErrors, VocabErrors;
    Scoping.ErrorsOnlyGrow(a, stmt);
    if stmt.TrainStmt? && !strict {
      RunErrors(a, stmt.sourceVar, stmt.modelName, stmt.config, strict);
      RunErrors(a, stmt.sourceVar, stmt.modelName, stmt.config, true);
    }
  }

  lemma RunErrors(a: Analysis, v: string, model: string, config: TrainConfig, strict: bool)
    requires strict || v != "rename"
    ensures a.errors <= AfterTrainStmt(a, v, model, config).errors
    ensures Stops(strict, Added(a, AfterTrainStmt(a, v, model, config)))
       <==> v in a.vars && model in a.models && config.target !in a.vars[v]
  {
    hide Stops, SweepErrors, VocabErrors;
    var sweep := SweepErrors(config);
    var cols := if v in a.vars then a.vars[v] else map[];
    OptionsAreNotColumns(strict, config, a.models, model, cols);
    if v !in a.vars {
      StopsOne(strict, true, UndeclaredVariable(v));
      StopsEither(strict, sweep, [UndeclaredVariable(v)]);
      assert (a.errors + sweep + [UndeclaredVariable(v)])[|a.errors|..] == sweep + [UndeclaredVariable(v)];
    } else if model !in a.models {
      StopsOne(strict, true, Other(UndeclaredModel));
      StopsEither(strict, sweep, [Other(UndeclaredModel)]);
      assert (a.errors + sweep + [Other(UndeclaredModel)])[|a.errors|..] == sweep + [Other(UndeclaredModel)];
    } else {
      var (column, vocab) := (ColumnErrors(config.target, v, cols), VocabErrors(a.models, model, config.target, cols));
      StopsOne(strict, config.target !in cols, SafeLoadViolation(config.target, v));
      StopsEither(strict, sweep + column, vocab);
      StopsEither(strict, sweep, column);
      assert (a.errors + sweep + column + vocab)[|a.errors|..] == sweep + column + vocab;
    }
  }

  lemma {:induction false} ReportsAddUp(strict: bool, a: Analysis, stmts: seq<Stmt>)
    requires strict || RenameIsNoVariable(stmts)
    ensures Stops(strict, AfterStmts(a, stmts).errors) <==> Stops(strict, a.errors) || ReportsLater(strict, a, stmts)
    decreases |stmts|
  {
    hide Stops, AfterStmt, StmtReports;
    if stmts != [] {
      assert stmts[0] in stmts && forall stmt <- stmts[1..] :: stmt in stmts;
      var b := AfterStmt(a, stmts[0]);
      RunReports(strict, a, stmts[0]);
      StopsEither(strict, a.errors, Added(a, b));
      assert a.errors + Added(a, b) == b.errors;
      ReportsAddUp(strict, b, stmts[1..]);
    }
  }

  /**
   * Where every rename is strict, the needed reports are all the reported missing columns; on a backend that skips renames
   * they are the ones of every operator but rename.
   */
  lemma NeededReportsAreErrors(strict: bool, program: seq<Stmt>)
    ensures ReportsNeeded(true, program) <==> Violates(Checked(program).errors)
    ensures strict || RenameIsNoVariable(program) ==>
      (ReportsNeeded(strict, program) <==> Stops(strict, Checked(program).errors))
  {
    hide AfterStmts, Stops, Violates, ReportsLater, RenameIsNoVariable;
    NothingIsAbsent(true, {});
    NothingIsAbsent(strict, {});
    ViolatesIsStrict(Checked(program).errors);
    ReportsAddUp(true, EMPTY, program);
    if strict || RenameIsNoVariable(program) {
      ReportsAddUp(strict, EMPTY, program);
    }
  }

  // ── What the report is worth ────────────────────────────────────────────

  /**
   * The checker is right about a run if and only if one of the columns it reports is needed, or a train target is missed,
   * where it reports one, and no train target is missed where it reports none.
   */
  lemma ReportIsRightExactly(g: Engine, program: seq<Stmt>)
    requires Conforming(g) && NamesResolve(program)
    ensures var reported := Violates(Checked(program).errors);
      (Programs.EvalProgram(g, program).MissingColumn? <==> reported)
      <==> if reported then ReportsNeeded(g.strictRename, program) || MissesTrainTarget(program)
           else !MissesTrainTarget(program)
  {
    hide NamesResolve, Conforming, Programs.EvalProgram, AfterStmts, Violates, MissesTrainTarget;
    MissingColumnsAreExact(g, program);
    NeededReportsAreErrors(true, program);
    if ReportsNeeded(g.strictRename, program) {
      NeededIsReported(g.strictRename, EMPTY, program);
    }
  }

  lemma {:induction false} NeededIsReported(strict: bool, a: Analysis, stmts: seq<Stmt>)
    requires ReportsLater(strict, a, stmts)
    ensures ReportsLater(true, a, stmts)
    decreases |stmts|
  {
    hide AfterStmt;
    if StmtReports(strict, a, stmts[0]) {
      NeededIsStrict(a, stmts[0], strict);
    } else {
      NeededIsReported(strict, AfterStmt(a, stmts[0]), stmts[1..]);
    }
  }

  lemma NeededIsStrict(a: Analysis, stmt: Stmt, strict: bool)
    requires StmtReports(strict, a, stmt)
    ensures StmtReports(true, a, stmt)
  {
    hide AfterStmt;
    Scoping.ErrorsOnlyGrow(a, stmt);
    var e :| e in Added(a, AfterStmt(a, stmt)) && IsNeeded(strict || stmt.TrainStmt?, e);
    assert IsNeeded(true, e);
  }

  /** Without train operators nothing can be missed; where every rename is strict, report and run agree. */
  lemma ReportsMatchRuns(g: Engine, program: seq<Stmt>)
    requires Conforming(g) && NamesResolve(program)
    requires forall stmt <- program :: stmt.VarDecl? || stmt.ExprStmt? ==> !Scoping.HasTrain(stmt.ops)
    ensures ReportsNeeded(g.strictRename, program) <==> Programs.EvalProgram(g, program).MissingColumn?
    ensures g.strictRename ==> (Violates(Checked(program).errors) <==> Programs.EvalProgram(g, program).MissingColumn?)
  {
    hide NamesResolve, Conforming, Programs.EvalProgram, AfterStmts, Violates, Scoping.HasTrain, MissesLater, ReportsLater;
    MissingColumnsAreExact(g, program);
    NeededReportsAreErrors(true, program);
    NothingMissed(EMPTY, program);
  }

  lemma {:induction false} NothingMissed(a: Analysis, stmts: seq<Stmt>)
    requires forall stmt <- stmts :: stmt.VarDecl? || stmt.ExprStmt? ==> !Scoping.HasTrain(stmt.ops)
    ensures !MissesLater(a, stmts)
    decreases |stmts|
  {
    hide AfterStmt, Scoping.HasTrain, MissesTarget;
    if stmts != [] {
      assert stmts[0] in stmts && forall stmt <- stmts[1..] :: stmt in stmts;
      if stmts[0].VarDecl? || stmts[0].ExprStmt? {
        NoTrainMissesNothing(a.Tables(), StartOps(ResolveSource(a, stmts[0].source).0), stmts[0].ops);
      }
      NothingMissed(AfterStmt(a, stmts[0]), stmts[1..]);
    }
  }

  lemma {:induction false} NoTrainMissesNothing(env: Env, st: OpState, ops: seq<PipelineOp>)
    ensures !Scoping.HasTrain(ops) ==> !MissesTarget(env, st, ops)
    decreases |ops|
  {
    hide OpStep;
    if ops != [] && !ops[0].Train? {
      ProgramPreservation.TrainIsInTheRest(ops);
      NoTrainMissesNothing(env, OpStep(env, st, ops[0]), ops[1..]);
    }
  }

  /** Among backends that treat renames alike, stopping on a missing column depends on the program and the schemas alone. */
  lemma DataDoesNotDecide(g: Engine, h: Engine, program: seq<Stmt>)
    requires Conforming(g) && Conforming(h) && g.strictRename == h.strictRename && NamesResolve(program)
    ensures Programs.EvalProgram(g, program).MissingColumn? <==> Programs.EvalProgram(h, program).MissingColumn?
  {
    hide NamesResolve, Conforming, Programs.EvalProgram, ReportsNeeded, MissesTrainTarget;
    MissingColumnsAreExact(g, program);
    MissingColumnsAreExact(h, program);
  }

  /** An engine over empty tables, which already decides every program. */
  function EmptyTables(strictRename: bool): (g: Engine)
    ensures Conforming(g) && g.strictRename == strictRename
  {
    Engine(strictRename,
           (_: string, schema: Option<Ir.Schema>, _: LoadOptions) =>
             Frame(if schema.Some? then set f | f in schema.value :: f.name else {}, []),
           (_, _, _) => Null, (_, _) => [], (_, _, _) => [], (_, _) => [], (_, _) => Null, (_, _, _) => Null,
           _ => Null, _ => Null, (_, _) => [], (_, _, _, _) => Null,
           (f, _, _) => f, (f, _, _) => f, (f, _, _, _, _) => f, (_, f, _) => f)
  }

  /** What a dry run over empty tables finds is what the checker reports as needed, and the train targets it misses. */
  lemma DryRunDecides(strict: bool, program: seq<Stmt>)
    requires NamesResolve(program)
    ensures Programs.EvalProgram(EmptyTables(strict), program).MissingColumn?
       <==> ReportsNeeded(strict, program) || MissesTrainTarget(program)
  {
    hide NamesResolve, Programs.EvalProgram, ReportsNeeded, MissesTrainTarget;
    MissingColumnsAreExact(EmptyTables(strict), program);
  }
}
