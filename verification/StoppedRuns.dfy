/** Programs whose report and run part: two accepted that every run stops on, one reported that a lenient backend runs. */
module StoppedRuns {
  import opened Ast
  import opened Checking
  import opened Frames
  import opened MissingByStatement
  import opened Wrappers
  import Lowering
  import Plans
  import ProgramPreservation
  import Programs
  import Scoping

  /** Training on a column the schema does not have. */
  const ABSENT := TrainConfig("y", SweepGrid([], [], []), None, Sequential, None)

  lemma {:induction false} OneMoreRun(g: Engine, w: Programs.World, p: seq<Stmt>, stmt: Stmt)
    ensures var o := Programs.EvalStmts(g, w, p);
      Programs.EvalStmts(g, w, p + [stmt]) == if o.Ran? then Programs.EvalStmt(g, o.value, stmt) else o
    decreases |p|
  {
    hide Programs.EvalStmt;
    var all := p + [stmt];
    if p == [] {
      assert all == [stmt] && all[1..] == [];
    } else {
      assert all[1..] == p[1..] + [stmt];
      match Programs.EvalStmt(g, w, p[0])
      case Ran(next) => OneMoreRun(g, next, p[1..], stmt);
      case _ =>
    }
  }

  /** The world once the schema T and the network M are declared. */
  function Declared(): Programs.World {
    Programs.World(map["T" := [StructField("x", "int")]], Programs.Env(map[], map[], map["M" := [Dense(1)]]))
  }

  lemma DeclarationsRun(g: Engine, config: TrainConfig)
    ensures var p := Scoping.TrainingProgram(config);
      Programs.EvalStmts(g, Programs.START, [p[0], p[1]]) == Ran(Declared())
  {
    var p := Scoping.TrainingProgram(config);
    OneMoreRun(g, Programs.START, [p[0]], p[1]);
    OneMoreRun(g, Programs.START, [], p[0]);
    assert [] + [p[0]] == [p[0]] && [p[0]] + [p[1]] == [p[0], p[1]];
  }

  lemma TrainingReadsTarget(g: Engine, config: TrainConfig)
    requires Conforming(g)
    ensures var o := Programs.EvalStmt(g, Declared(), Scoping.TrainingProgram(config)[2]);
      if config.target == "x" then o.Ran? && o.value.env.frames == map[] && o.value.env.models.Keys == {"v"}
      else o == MissingColumn(config.target)
  {
    hide Reading, Lowering.SchemaFromFields, Conforming;
    var fields := [StructField("x", "int")];
    var schema := Lowering.SchemaFromFields(fields);
    var f := g.load("data.csv", Some(schema), LoadOptions(None, None));
    var env := Declared().env;
    var model := Model(env.graphs["M"], config, f);
    LoadedColumns(g, "data.csv", fields, LoadOptions(None, None));
    OneColumn(config.target, f, Ran(Programs.ModelProduct(model)));
    assert Programs.EvalOps(g, env, Programs.State(f, None), [Train("M", config)]) == Programs.EvalTrain(env, f, "M", config);
  }

  lemma LoadedColumns(g: Engine, path: string, fields: seq<StructField>, options: LoadOptions)
    requires Conforming(g) && |fields| == 1
    ensures g.load(path, Some(Lowering.SchemaFromFields(fields)), options).cols == {fields[0].name}
  {
    var s := Lowering.SchemaFromFields(fields);
    assert s[0] in s && forall f <- s :: f == s[0];
    assert (set f | f in s :: f.name) == {fields[0].name};
  }

  lemma TrainingProgramRuns(g: Engine, config: TrainConfig)
    requires Conforming(g)
    ensures var o := Programs.EvalProgram(g, Scoping.TrainingProgram(config));
      if config.target == "x" then o.Ran? && o.value.env.frames == map[] else o == MissingColumn(config.target)
  {
    hide Programs.EvalStmts, Programs.EvalStmt;
    var p := Scoping.TrainingProgram(config);
    DeclarationsRun(g, config);
    OneMoreRun(g, Programs.START, [p[0], p[1]], p[2]);
    assert [p[0], p[1]] + [p[2]] == p;
    TrainingReadsTarget(g, config);
  }

  /** The training program's names resolve, so the exactness theorem speaks of it. */
  lemma TrainingProgramResolves(config: TrainConfig)
    ensures NamesResolve(Scoping.TrainingProgram(config))
  {
    var p := Scoping.TrainingProgram(config);
    var none: set<string> := {};
    var ops := p[2].ops;
    assert ops[0].Train?;
    assert p[1..][1..] == p[2..] && p[2..][1..] == [];
    assert Resolves(p[2..], none + {"T"}, none + {"M"}, none, none);
    assert Resolves(p[1..], none + {"T"}, none, none, none);
  }

  /** Training on an absent column: the names resolve, no error is reported, and every conforming run stops on it. */
  lemma AbsentTargetIsAcceptedAndStops(g: Engine)
    requires Conforming(g)
    ensures NamesResolve(Scoping.TrainingProgram(ABSENT)) && Checked(Scoping.TrainingProgram(ABSENT)).errors == []
    ensures Programs.EvalProgram(g, Scoping.TrainingProgram(ABSENT)) == MissingColumn("y")
  {
    hide Checked, Programs.EvalProgram, NamesResolve;
    TrainingProgramResolves(ABSENT);
    Scoping.TrainingProgramIsClean(ABSENT);
    TrainingProgramRuns(g, ABSENT);
  }

  /** Running on a model variable: no error is reported, and every conforming run of the IR stops on the name. */
  lemma RunOnModelStops(g: Engine)
    requires Conforming(g)
    ensures Checked(Scoping.RUN_ON_MODEL).errors == []
    ensures Plans.EvalIr(g, Checked(Scoping.RUN_ON_MODEL).ir) == Unbound("v")
  {
    hide Checked, Plans.EvalIr, Programs.EvalStmts;
    var p := Scoping.TrainingProgram(Scoping.PLAIN);
    Scoping.RunOnModelIsAccepted();
    ProgramPreservation.LoweringKeepsMeaning(g, Scoping.RUN_ON_MODEL);
    TrainingProgramRuns(g, Scoping.PLAIN);
    OneMoreRun(g, Programs.START, p, TrainStmt("v", "M", Scoping.PLAIN));
  }

  // ── A report that no lenient run stops on ───────────────────────────────

  /** Renaming a column the schema does not have. */
  const RENAMES_ABSENT: seq<Stmt> :=
    [TypeDecl("T", [StructField("x", "int")]),
     VarDecl("v", Load("data.csv", "T", LoadOptions(None, None)), [Rename("y", "z")])]

  lemma AbsentRenameIsReported()
    ensures Checked(RENAMES_ABSENT).errors == [SafeLoadViolation("y", "rename")]
  {
    hide AfterVarDecl;
    var p := RENAMES_ABSENT;
    var a := AfterStmt(EMPTY, p[0]);
    assert p[1..] == [p[1]] && [p[1]][1..] == [];
    assert Checked(p) == AfterStmts(a, [p[1]]) && AfterStmts(a, [p[1]]) == AfterStmt(a, p[1]);
    DeclarationReports(a);
  }

  lemma DeclarationReports(a: Analysis)
    requires a.schemas == map["T" := [StructField("x", "int")]] && a.vars == map[] && a.trained == {} && a.errors == []
    ensures AfterStmt(a, RENAMES_ABSENT[1]).errors == [SafeLoadViolation("y", "rename")]
  {
    hide RunOps, Lowering.ColsOfFields;
    var source := Load("data.csv", "T", LoadOptions(None, None));
    var cols := ResolveSource(a, source).0.value;
    OneField(a.schemas["T"]);
    RenameReports(a.Tables(), cols);
  }

  lemma RenameReports(env: Env, cols: Lowering.Cols)
    requires cols.Keys == {"x"}
    ensures var s := RunOps(env, StartOps(Some(cols)), [Rename("y", "z")]);
      s.errors == [SafeLoadViolation("y", "rename")] && s.group == None
  {
    var (st, op) := (StartOps(Some(cols)), Rename("y", "z"));
    assert "y"[0] != "x"[0];
    assert "y" !in cols;
    assert [op][1..] == [];
    assert RunOps(env, st, [op]) == OpStep(env, st, op);
    assert st.errors + ColumnErrors("y", "rename", cols) == ColumnErrors("y", "rename", cols);
  }

  lemma OneField(fields: seq<StructField>)
    requires |fields| == 1
    ensures Lowering.ColsOfFields(fields).Keys == {fields[0].name}
  {
  }

  lemma AbsentRenameRuns(g: Engine)
    requires Conforming(g)
    ensures var o := Programs.EvalProgram(g, RENAMES_ABSENT);
      if g.strictRename then o == MissingColumn("y") else o.Ran? && "v" in o.value.env.frames && o.value.env.frames["v"].cols == {"x"}
  {
    hide Reading, Lowering.SchemaFromFields, Conforming;
    var p := RENAMES_ABSENT;
    var fields := [StructField("x", "int")];
    var f := g.load("data.csv", Some(Lowering.SchemaFromFields(fields)), LoadOptions(None, None));
    LoadedColumns(g, "data.csv", fields, LoadOptions(None, None));
    var w := Programs.World(map["T" := fields], Programs.Env(map[], map[], map[]));
    OneMoreRun(g, Programs.START, [], p[0]);
    OneMoreRun(g, Programs.START, [p[0]], p[1]);
    assert [] + [p[0]] == [p[0]] && [p[0]] + [p[1]] == p;
    assert "y"[0] != "x"[0] && "y" !in f.cols;
    var s := Programs.State(f, None);
    OneColumn("y", f, Ran(s));
    ReadingPresent([], f, Ran(s));
    assert Programs.EvalOp(g, w.env, s, Rename("y", "z")) == if g.strictRename then MissingColumn("y") else Ran(s);
    assert [Rename("y", "z")][1..] == [];
  }

  lemma RenamesAbsentResolves()
    ensures NamesResolve(RENAMES_ABSENT)
  {
    var p := RENAMES_ABSENT;
    var none: set<string> := {};
    assert p[1..] == [p[1]] && p[1..][1..] == [] && p[1].ops[1..] == [];
    assert p[1].ops[0].Rename?;
    assert Resolves(p[1..], none + {"T"}, none, none, none);
  }

  /**
   * A rename of an absent column: the names resolve, the only error is that report, a strict backend stops on it and a
   * lenient one does not.
   */
  lemma AbsentRenameIsReportedAndRuns(g: Engine)
    requires Conforming(g)
    ensures NamesResolve(RENAMES_ABSENT) && Checked(RENAMES_ABSENT).errors == [SafeLoadViolation("y", "rename")]
    ensures var o := Programs.EvalProgram(g, RENAMES_ABSENT);
      if g.strictRename then o == MissingColumn("y") else o.Ran?
  {
    hide Checked, Programs.EvalProgram, NamesResolve;
    RenamesAbsentResolves();
    AbsentRenameIsReported();
    AbsentRenameRuns(g);
  }
}
