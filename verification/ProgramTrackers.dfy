/** The two column trackers over a whole program: every node of the checked IR. */
module ProgramTrackers {
  import opened Ast
  import opened Catalog
  import opened Checking
  import opened Lowering
  import opened Ordering
  import opened ProgramPreservation
  import opened Trackers
  import opened Wrappers
  import Ir
  import Scoping

  /** The node's catalog against its output schema: equal, or within it. */
  ghost predicate Listed(p: Ir.PipelineNode, equal: bool) {
    var out := set c | c in Ir.Names(p.outputSchema);
    if equal then Agree(Lineage(p), out) else Within(Lineage(p), out)
  }

  predicate PipelineGuarded(a: Analysis, source: PipelineSource, ops: seq<PipelineOp>, equal: bool) {
    var st := StartOps(ResolveSource(a, source).0);
    if equal then AllStayEqual(a.Tables(), st, ops) else AllStayWithin(a.Tables(), st, ops)
  }

  /** The operators of the statement's pipeline, if it has one, meet their guards. */
  predicate StmtGuarded(a: Analysis, stmt: Stmt, equal: bool) {
    match stmt
    case VarDecl(_, source, ops) => PipelineGuarded(a, source, ops, equal)
    case ExprStmt(source, ops) => PipelineGuarded(a, source, ops, equal)
    case _ => true
  }

  predicate AllGuarded(a: Analysis, stmts: seq<Stmt>, equal: bool)
    decreases |stmts|
  {
    stmts == [] || (StmtGuarded(a, stmts[0], equal) && AllGuarded(AfterStmt(a, stmts[0]), stmts[1..], equal))
  }

  lemma NodeIsListed(a: Analysis, binding: Option<string>, source: PipelineSource, ops: seq<PipelineOp>, equal: bool)
    requires AfterPipeline(a, binding, source, ops).errors == []
    requires PipelineGuarded(a, source, ops, equal)
    ensures Listed(CheckedNode(a, binding, source, ops), equal)
  {
    hide RunOps, Agree, Within, AllStayEqual, AllStayWithin, SchemaFromMap;
    var (cols, irSource, errors) := ResolveSource(a, source);
    assert errors == [] && RunOps(a.Tables(), StartOps(cols), ops).errors == [];
    assert cols.Some?;
    if equal {
      CatalogListsTheOutput(a.Tables(), |a.ir.pipelines|, binding, irSource, cols.value, ops);
    } else {
      CatalogStaysWithinTheOutput(a.Tables(), |a.ir.pipelines|, binding, irSource, cols.value, ops);
    }
  }

  /** A run statement's node passes its source's columns on. */
  lemma RunNodeIsListed(id: nat, v: string, model: string, config: TrainConfig, cols: Cols, equal: bool)
    ensures Listed(RunNode(id, v, model, config, cols), equal)
  {
    hide SchemaFromMap, Distinct;
    var p := RunNode(id, v, model, config, cols);
    SchemaNames(cols);
    var seed := Seeded(Ir.Names(SchemaFromMap(cols)));
    assert AfterSteps(seed, p.steps, 1) == AfterStep(AfterSteps(seed, p.steps, 0), p.steps[0], 1) == seed;
  }

  lemma NewNodesAreListed(a: Analysis, stmt: Stmt, equal: bool)
    requires AfterStmt(a, stmt).errors == [] && StmtGuarded(a, stmt, equal)
    ensures forall p <- NewNodes(a, stmt) :: Listed(p, equal)
  {
    hide Listed, CheckedNode, RunNode, AfterPipeline, PipelineGuarded, PipelineYields, SweepErrors, VocabErrors;
    match stmt
    case VarDecl(v, source, ops) => NodeIsListed(a, Some(v), source, ops, equal);
    case ExprStmt(source, ops) => NodeIsListed(a, None, source, ops, equal);
    case TrainStmt(v, model, config) =>
      if v in a.vars {
        RunNodeIsListed(|a.ir.pipelines|, v, model, config, a.vars[v], equal);
      }
    case _ =>
  }

  lemma {:induction false} AllNodesAreListed(a: Analysis, stmts: seq<Stmt>, equal: bool)
    requires AfterStmts(a, stmts).errors == [] && AllGuarded(a, stmts, equal)
    requires forall p <- a.ir.pipelines :: Listed(p, equal)
    ensures forall p <- AfterStmts(a, stmts).ir.pipelines :: Listed(p, equal)
    decreases |stmts|
  {
    hide AfterStmt, Listed, NewNodes, StmtGuarded;
    if stmts != [] {
      var b := AfterStmt(a, stmts[0]);
      Scoping.StmtsErrorsOnlyGrow(b, stmts[1..]);
      NewNodesAreListed(a, stmts[0], equal);
      StmtAddsNodes(a, stmts[0]);
      AllNodesAreListed(b, stmts[1..], equal);
    }
  }

  /** In an error-free program whose operators meet their guards, the catalog of every node lists its output columns. */
  lemma EveryCatalogListsItsOutput(program: seq<Stmt>)
    requires Checked(program).errors == []
    ensures AllGuarded(EMPTY, program, true) ==>
      forall p <- Checked(program).ir.pipelines :: Agree(Lineage(p), set c | c in Ir.Names(p.outputSchema))
    ensures AllGuarded(EMPTY, program, false) ==>
      forall p <- Checked(program).ir.pipelines :: Within(Lineage(p), set c | c in Ir.Names(p.outputSchema))
  {
    hide AfterStmts, AllGuarded, Agree, Within, Lineage;
    if AllGuarded(EMPTY, program, true) {
      AllNodesAreListed(EMPTY, program, true);
      assert forall p <- Checked(program).ir.pipelines :: Listed(p, true);
    }
    if AllGuarded(EMPTY, program, false) {
      AllNodesAreListed(EMPTY, program, false);
      assert forall p <- Checked(program).ir.pipelines :: Listed(p, false);
    }
  }
}
