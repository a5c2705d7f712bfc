/** One engine with strict and with lenient renames: what a backend that skips a rename of an absent column changes. */
module LenientRename {
  import opened Ast
  import opened Checking
  import opened Frames
  import opened MissingByOperator
  import opened MissingByStatement
  import opened MissingColumns
  import opened Wrappers
  import Programs

  function Strict(g: Engine): Engine {
    g.(strictRename := true)
  }

  function Lenient(g: Engine): Engine {
    g.(strictRename := false)
  }

  // ── Nothing but rename looks at the difference ──────────────────────────

  lemma {:induction false} ExpressionsAgree(g: Engine, e: Expr, row: Row)
    ensures Programs.Eval(Strict(g), e, row) == Programs.Eval(Lenient(g), e, row)
  {
    match e
    case BinOp(l, _, r) =>
      ExpressionsAgree(g, l, row);
      ExpressionsAgree(g, r, row);
    case _ =>
  }

  lemma RowsAgree(g: Engine, e: Expr, f: Frame)
    ensures Programs.EvalRows(Strict(g), e, f) == Programs.EvalRows(Lenient(g), e, f)
  {
    hide Programs.Eval;
    forall i | 0 <= i < |f.rows|
      ensures Programs.Eval(Strict(g), e, f.rows[i]) == Programs.Eval(Lenient(g), e, f.rows[i])
    {
      ExpressionsAgree(g, e, f.rows[i]);
    }
  }

  lemma CellsAgree(g: Engine, f: Frame, c: string, from: string, to: string)
    ensures CastColumn(Strict(g), f, c, to) == CastColumn(Lenient(g), f, c, to)
    ensures ReplaceColumn(Strict(g), f, c, from, to) == ReplaceColumn(Lenient(g), f, c, from, to)
  {
    hide SetColumn;
    var (s, l) := (Strict(g), Lenient(g));
    assert seq(|f.rows|, i requires 0 <= i < |f.rows| => s.cast(Cell(f.rows[i], c), to))
        == seq(|f.rows|, i requires 0 <= i < |f.rows| => l.cast(Cell(f.rows[i], c), to));
    assert seq(|f.rows|, i requires 0 <= i < |f.rows| => s.replace(Cell(f.rows[i], c), from, to))
        == seq(|f.rows|, i requires 0 <= i < |f.rows| => l.replace(Cell(f.rows[i], c), from, to));
  }

  lemma NoiseAgrees(g: Engine, f: Frame, args: DpArgs)
    ensures NoisedFrame(Strict(g), args, f) == NoisedFrame(Lenient(g), args, f)
  {
    var (s, l) := (Strict(g), Lenient(g));
    assert NoisedFrame(s, args, f).rows == NoisedFrame(l, args, f).rows;
  }

  predicate CellByCell(op: PipelineOp) {
    op.Filter? || op.WithColumn? || op.Cast? || op.Replace? || op.Histogram? || op.WithDp?
  }

  lemma CellOpsAgree(g: Engine, env: Programs.Env, s: Programs.State, op: PipelineOp)
    requires CellByCell(op)
    ensures Programs.EvalOp(Strict(g), env, s, op) == Programs.EvalOp(Lenient(g), env, s, op)
  {
    hide Programs.EvalRows, CastColumn, ReplaceColumn, NoisedFrame, Reading, SetColumn, Choose, TruePositions, Programs.Refs;
    match op
    case Filter(e) => RowsAgree(g, e, s.frame);
    case WithColumn(_, e) => RowsAgree(g, e, s.frame);
    case Cast(c, t) => CellsAgree(g, s.frame, c, "", t);
    case Replace(c, from, to) => CellsAgree(g, s.frame, c, from, to);
    case Histogram(c, bins) => assert HistogramFrame(Strict(g), s.frame, c, bins) == HistogramFrame(Lenient(g), s.frame, c, bins);
    case WithDp(args) => NoiseAgrees(g, s.frame, args);
  }

  lemma OtherOpsAgree(g: Engine, env: Programs.Env, s: Programs.State, op: PipelineOp)
    requires !op.Train? && !op.Rename? && !CellByCell(op)
    ensures Programs.EvalOp(Strict(g), env, s, op) == Programs.EvalOp(Lenient(g), env, s, op)
  {
    hide Reading, Choose, PresentPositions, FirstPositions, Column, KeepColumns, FillColumn, AggColumns;
    hide Programs.StatisticsOf;
  }

  /** At one operator the backends differ exactly where a rename misses its column, which only the strict one needs. */
  lemma OperatorsAgree(g: Engine, env: Programs.Env, s: Programs.State, op: PipelineOp)
    requires !op.Train?
    ensures var (o, l) := (Programs.EvalOp(Strict(g), env, s, op), Programs.EvalOp(Lenient(g), env, s, op));
      if op.Rename? && op.oldName !in s.frame.cols then o == MissingColumn(op.oldName) && l == Ran(s) else o == l
  {
    hide Programs.EvalOp, CellByCell;
    if op.Rename? {
      RenamesPart(g, env, s, op);
    } else if CellByCell(op) {
      CellOpsAgree(g, env, s, op);
    } else {
      OtherOpsAgree(g, env, s, op);
    }
  }

  lemma RenamesPart(g: Engine, env: Programs.Env, s: Programs.State, op: PipelineOp)
    requires op.Rename?
    ensures var (o, l) := (Programs.EvalOp(Strict(g), env, s, op), Programs.EvalOp(Lenient(g), env, s, op));
      if op.oldName !in s.frame.cols then o == MissingColumn(op.oldName) && l == Ran(s) else o == l
  {
    hide RenameColumn, Reading;
    var after := Programs.With(s, RenameOrSkip(s.frame, op.oldName, op.newName));
    OneColumn(op.oldName, s.frame, after);
    ReadingPresent([], s.frame, after);
  }

  lemma {:induction false} PipelinesAgree(g: Engine, env: Programs.Env, s: Programs.State, ops: seq<PipelineOp>)
    ensures var (o, l) := (Programs.EvalOps(Strict(g), env, s, ops), Programs.EvalOps(Lenient(g), env, s, ops));
      o.MissingColumn? || l == o
    decreases |ops|
  {
    hide Programs.EvalOp, Programs.EvalTrain;
    if ops != [] && !ops[0].Train? {
      OperatorsAgree(g, env, s, ops[0]);
      match Programs.EvalOp(Strict(g), env, s, ops[0])
      case Ran(next) => PipelinesAgree(g, env, next, ops[1..]);
      case _ =>
    }
  }

  lemma StatementsAgree(g: Engine, w: Programs.World, stmt: Stmt)
    ensures var (o, l) := (Programs.EvalStmt(Strict(g), w, stmt), Programs.EvalStmt(Lenient(g), w, stmt));
      o.MissingColumn? || l == o
  {
    hide Programs.EvalOps;
    if stmt.VarDecl? || stmt.ExprStmt? {
      match Programs.EvalSource(Strict(g), w, stmt.source)
      case Ran(f) => PipelinesAgree(g, w.env, Programs.State(f, None), stmt.ops);
      case _ =>
    }
  }

  lemma {:induction false} RunsAgree(g: Engine, w: Programs.World, stmts: seq<Stmt>)
    ensures var (o, l) := (Programs.EvalStmts(Strict(g), w, stmts), Programs.EvalStmts(Lenient(g), w, stmts));
      o.MissingColumn? || l == o
    decreases |stmts|
  {
    hide Programs.EvalStmt;
    if stmts != [] {
      StatementsAgree(g, w, stmts[0]);
      match Programs.EvalStmt(Strict(g), w, stmts[0])
      case Ran(next) => RunsAgree(g, next, stmts[1..]);
      case _ =>
    }
  }

  // ── Whole programs ──────────────────────────────────────────────────────

  /**
   * A program the strict backend runs to the end has the same result on the lenient one, and the lenient one runs a program
   * that the strict one stops exactly when every missing column reported is a rename's and no train target is missed.
   */
  lemma BackendsPartExactly(g: Engine, program: seq<Stmt>)
    requires Conforming(g) && NamesResolve(program)
    ensures var (o, l) := (Programs.EvalProgram(Strict(g), program), Programs.EvalProgram(Lenient(g), program));
      && (o.Ran? ==> l == o)
      && (l.Ran? && l != o
          <==> Violates(Checked(program).errors) && !ReportsNeeded(false, program) && !MissesTrainTarget(program))
  {
    hide Programs.EvalStmts, NamesResolve, AfterStmts, Violates, ReportsNeeded, MissesTrainTarget;
    assert Conforming(Strict(g)) && Conforming(Lenient(g));
    RunsAgree(g, Programs.START, program);
    MissingColumnsAreExact(Strict(g), program);
    MissingColumnsAreExact(Lenient(g), program);
    NeededReportsAreErrors(true, program);
  }
}
