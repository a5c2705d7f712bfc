/** What the catalog's lineage says of the data, row by row. */
module LineageTruth {
  import opened Catalog
  import opened Frames
  import opened Ordering
  import opened Wrappers
  import Ir
  import Plans
  import Trackers

  // ── Runs of steps ───────────────────────────────────────────────────────

  /** Steps that make every row from one row: all but aggregates, histograms, joins, training and prediction. */
  predicate Traced(step: Ir.Step) {
    match step
    case Data(op) =>
      || op.Filter? || op.DropNull? || op.Sort? || op.Limit? || op.Sample? || op.OutlierIqr? || op.Select?
      || op.GroupBy? || op.Rename? || op.WithColumn? || op.Cast? || op.Replace? || op.FillNull?
    case Side(_) => true
    case ML(_) => false
  }

  /** The state after the first n steps. */
  function Run(g: Engine, t: Plans.Tables, s: Plans.State, steps: seq<Ir.Step>, n: nat): Outcome<Plans.State>
    requires n <= |steps| && forall step <- steps :: Traced(step)
  {
    if n == 0 then Ran(s)
    else
      var before := Run(g, t, s, steps, n - 1);
      assert steps[n - 1] in steps;
      if before.Ran? then Plans.EvalStep(g, t, before.value, steps[n - 1]) else before
  }

  /** Running all steps prefix by prefix is what the runtime does. */
  lemma {:induction false} RunIsEvaluation(
      g: Engine, reg: Plans.Registry, t: Plans.Tables, s: Plans.State, steps: seq<Ir.Step>, n: nat)
    requires n <= |steps| && forall step <- steps :: Traced(step)
    ensures var o := Run(g, t, s, steps, n);
      Plans.EvalSteps(g, reg, t, s, steps)
      == if o.Ran? then Plans.EvalSteps(g, reg, t, o.value, steps[n..])
         else if o.MissingColumn? then MissingColumn(o.col) else Unbound(o.name)
  {
    hide Plans.EvalStep;
    if n == 0 {
      assert steps[0..] == steps;
    } else {
      RunIsEvaluation(g, reg, t, s, steps, n - 1);
      assert steps[n - 1] in steps;
      assert steps[n - 1..][0] == steps[n - 1] && steps[n - 1..][1..] == steps[n..];
    }
  }

  // ── One row through one step ────────────────────────────────────────────

  /** A row of a frame, by its position. */
  datatype Stage = Stage(frame: Frame, at: nat)

  function RowAt(s: Stage): Row {
    if s.at < |s.frame.rows| then s.frame.rows[s.at] else map[]
  }

  /** The name the column c had before the step. */
  function Back(s: Stage, step: Ir.Step, c: string): string {
    if step.Data? && step.data.Rename? && step.data.oldName in s.frame.cols && c == step.data.newName then step.data.oldName
    else c
  }

  /** What the step makes of the value v of its row's column c. */
  function Touch(g: Engine, s: Stage, step: Ir.Step, c: string, v: Value): Value {
    match step
    case Data(Cast(x, to)) => if c == x then g.cast(v, to) else v
    case Data(Replace(x, from, to)) => if c == x then g.replace(v, from, to) else v
    case Data(FillNull(x, fill)) => if c == x && v == Null then Plans.Fill(g, fill, Column(s.frame, x)) else v
    case Side(WithDp(args)) => g.noise(args, s.frame, s.at, c)
    case _ => v
  }

  /** How a row of the next frame comes from one row of the frame before. */
  predicate RowStep(g: Engine, s: Stage, step: Ir.Step, after: Row) {
    var before := RowAt(s);
    match step
    case Data(Select(cs)) => after == map c | c in before && c in cs :: before[c]
    case Data(Rename(o, n)) => after == if o in s.frame.cols then (before - {o})[n := Cell(before, o)] else before
    case Data(WithColumn(name, e)) => after == before[name := Plans.Eval(g, e, before)]
    case Data(Cast(c, _)) => after == before[c := Touch(g, s, step, c, Cell(before, c))]
    case Data(Replace(c, _, _)) => after == before[c := Touch(g, s, step, c, Cell(before, c))]
    case Data(FillNull(c, _)) => after == before[c := Touch(g, s, step, c, Cell(before, c))]
    case Side(WithDp(_)) => after == map c | c in s.frame.cols :: Touch(g, s, step, c, Cell(before, c))
    case _ => after == before
  }

  /** Every row after a traced step comes from a row before it. */
  lemma RowComesFrom(g: Engine, t: Plans.Tables, s: Plans.State, step: Ir.Step, i: nat) returns (j: nat)
    requires Traced(step)
    requires Plans.EvalStep(g, t, s, step).Ran? && i < |Plans.EvalStep(g, t, s, step).value.frame.rows|
    ensures j < |s.frame.rows|
    ensures RowStep(g, Stage(s.frame, j), step, Plans.EvalStep(g, t, s, step).value.frame.rows[i])
  {
    hide RowStep, Plans.EvalSide, Plans.EvalData, DataResult;
    if step.Side? {
      SideRuns(g, s, step.side, i);
      j := i;
    } else {
      DataRuns(g, t, s, step.data);
      if Chooses(step.data) {
        j := ChosenRow(g, s.frame, step.data, i);
      } else {
        RowOfResult(g, s.frame, step.data, i);
        j := i;
      }
    }
  }

  lemma SideRuns(g: Engine, s: Plans.State, op: Ir.SideOp, i: nat)
    requires Plans.EvalSide(g, s, op).Ran? && i < |Plans.EvalSide(g, s, op).value.frame.rows|
    ensures i < |s.frame.rows|
    ensures RowStep(g, Stage(s.frame, i), Ir.Side(op), Plans.EvalSide(g, s, op).value.frame.rows[i])
  {
    hide Reading;
    if op.Chart? {
      ReadingResult(op.config.Columns(), s.frame, Ran(s));
    }
  }

  lemma {:induction false} ReadingResult<T>(cs: seq<string>, f: Frame, o: Outcome<T>)
    ensures Reading(cs, f, o).Ran? ==> Reading(cs, f, o) == o
  {
    if cs != [] {
      ReadingResult(cs[1..], f, o);
    }
  }

  /** The frame a traced data step makes. */
  function DataResult(g: Engine, f: Frame, op: Ir.DataOp): Frame
    requires Traced(Ir.Data(op))
  {
    match op
    case Filter(e) => Choose(f, TruePositions(Plans.EvalRows(g, e, f)))
    case DropNull(c) => Choose(f, PresentPositions(Column(f, c)))
    case Sort(c, desc) => Choose(f, g.sortOrder(Column(f, c), desc))
    case Limit(n) => Choose(f, FirstPositions(|f.rows|, n))
    case Sample(n, seed) => Choose(f, g.sampled(|f.rows|, n, seed))
    case OutlierIqr(c, factor) => Choose(f, g.inliers(Column(f, c), factor))
    case Select(cs) => KeepColumns(f, set c | c in cs)
    case GroupBy(_) => f
    case Rename(o, n) => RenameOrSkip(f, o, n)
    case WithColumn(name, e) => SetColumn(f, name, Plans.EvalRows(g, e, f))
    case Cast(c, to) => CastColumn(g, f, c, to)
    case Replace(c, from, to) => ReplaceColumn(g, f, c, from, to)
    case FillNull(c, v) => FillColumn(f, c, Plans.Fill(g, v, Column(f, c)))
  }

  lemma DataRuns(g: Engine, t: Plans.Tables, s: Plans.State, op: Ir.DataOp)
    requires Traced(Ir.Data(op)) && Plans.EvalData(g, t, s, op).Ran?
    ensures Plans.EvalData(g, t, s, op).value.frame == DataResult(g, s.frame, op)
  {
    hide Reading, Choose, TruePositions, PresentPositions, Plans.EvalRows, KeepColumns, RenameOrSkip, SetColumn;
    hide FirstPositions, Column, Ir.Refs, CastColumn, ReplaceColumn, FillColumn, Plans.Fill;
    var next := Ran(s.(frame := DataResult(g, s.frame, op)));
    match op
    case Filter(e) => ReadingResult(Ir.Refs(e), s.frame, next);
    case WithColumn(_, e) => ReadingResult(Ir.Refs(e), s.frame, next);
    case Select(cs) => ReadingResult(cs, s.frame, next);
    case Rename(o, _) => ReadingResult(RenameNeeds(g, o), s.frame, next);
    case GroupBy(c) => ReadingResult([c], s.frame, Ran(s.(pendingGroup := Some(c))));
    case DropNull(c) => ReadingResult([c], s.frame, next);
    case Sort(c, _) => ReadingResult([c], s.frame, next);
    case OutlierIqr(c, _) => ReadingResult([c], s.frame, next);
    case Cast(c, _) => ReadingResult([c], s.frame, next);
    case Replace(c, _, _) => ReadingResult([c], s.frame, next);
    case FillNull(c, _) => ReadingResult([c], s.frame, next);
    case _ =>
  }

  predicate Chooses(op: Ir.DataOp) {
    op.Filter? || op.DropNull? || op.Sort? || op.Limit? || op.Sample? || op.OutlierIqr?
  }

  lemma ChosenRow(g: Engine, f: Frame, op: Ir.DataOp, i: nat) returns (j: nat)
    requires Chooses(op) && i < |DataResult(g, f, op).rows|
    ensures j < |f.rows| && RowStep(g, Stage(f, j), Ir.Data(op), DataResult(g, f, op).rows[i])
  {
    hide Pick, TruePositions, PresentPositions, FirstPositions, Column, Plans.EvalRows;
    var r := DataResult(g, f, op).rows[i];
    assert r in DataResult(g, f, op).rows && r in f.rows;
    j :| 0 <= j < |f.rows| && f.rows[j] == r;
  }

  lemma RowOfResult(g: Engine, f: Frame, op: Ir.DataOp, i: nat)
    requires Traced(Ir.Data(op)) && !Chooses(op)
    requires i < |DataResult(g, f, op).rows|
    ensures i < |f.rows| && RowStep(g, Stage(f, i), Ir.Data(op), DataResult(g, f, op).rows[i])
  {
    hide Plans.Eval, Plans.Fill, Column;
  }

  // ── Histories ───────────────────────────────────────────────────────────

  /** The k-th stage of a history is in the k-th frame and was made from the stage before. */
  ghost predicate Link(g: Engine, t: Plans.Tables, f: Frame, steps: seq<Ir.Step>, h: seq<Stage>, k: nat)
    requires forall step <- steps :: Traced(step)
    requires 0 < k < |h| <= |steps| + 1
  {
    var o := Run(g, t, Plans.State(f, None), steps, k);
    && o.Ran? && h[k].frame == o.value.frame && h[k].at < |h[k].frame.rows|
    && RowStep(g, h[k - 1], steps[k - 1], RowAt(h[k]))
  }

  /** One row of every frame on the way, each made from the one before. */
  ghost predicate History(g: Engine, t: Plans.Tables, f: Frame, steps: seq<Ir.Step>, h: seq<Stage>)
    requires forall step <- steps :: Traced(step)
  {
    && 1 <= |h| <= |steps| + 1
    && h[0].frame == f && h[0].at < |f.rows|
    && forall k | 0 < k < |h| :: Link(g, t, f, steps, h, k)
  }

  /** The name that the last column c had after step k. */
  function NameAt(steps: seq<Ir.Step>, h: seq<Stage>, c: string, k: nat): string
    requires 1 <= |h| <= |steps| + 1
    decreases |h|
  {
    var n := |h| - 1;
    if n <= k then c else NameAt(steps, h[..n], Back(h[n - 1], steps[n - 1], c), k)
  }

  /** A value of step k put through what the later steps do to its column, whose last name is c. */
  function Through(g: Engine, steps: seq<Ir.Step>, h: seq<Stage>, c: string, k: nat, origin: Value): Value
    requires 1 <= |h| <= |steps| + 1
    decreases |h|
  {
    var n := |h| - 1;
    if n <= k then origin
    else
      var b := Back(h[n - 1], steps[n - 1], c);
      Touch(g, h[n - 1], steps[n - 1], b, Through(g, steps, h[..n], b, k, origin))
  }

  /** What one lineage entry says of the last row of a history. */
  predicate True(g: Engine, e: ColumnLineage, steps: seq<Ir.Step>, h: seq<Stage>)
    requires 1 <= |h| <= |steps| + 1
  {
    var (row, k) := (RowAt(h[|h| - 1]), e.createdByStep);
    && k < |h| && e.column in row
    && var name := NameAt(steps, h, e.column, k);
       if k == 0 then
         && e.from == [name] && name in RowAt(h[0])
         && row[e.column] == Through(g, steps, h, e.column, k, RowAt(h[0])[name])
       else
         && steps[k - 1].Data? && steps[k - 1].data.WithColumn? && steps[k - 1].data.name == name
         && e.from == Ir.Refs(steps[k - 1].data.expr)
         && row[e.column]
            == Through(g, steps, h, e.column, k, Plans.Eval(g, steps[k - 1].data.expr, RowAt(h[k - 1])))
  }

  /** Without casts, replacements, fills and noise a value is carried unchanged. */
  lemma {:induction false} CarriedUnchanged(
      g: Engine, steps: seq<Ir.Step>, h: seq<Stage>, c: string, k: nat, origin: Value)
    requires 1 <= |h| <= |steps| + 1
    requires forall j | k <= j < |h| - 1 ::
      !steps[j].Side? && !(steps[j].Data? && (steps[j].data.Cast? || steps[j].data.Replace? || steps[j].data.FillNull?))
    ensures Through(g, steps, h, c, k, origin) == origin
    decreases |h|
  {
    var n := |h| - 1;
    if n > k {
      CarriedUnchanged(g, steps, h[..n], Back(h[n - 1], steps[n - 1], c), k, origin);
    }
  }

  // ── Each step keeps the entries true ────────────────────────────────────

  ghost predicate AllTrue(g: Engine, p: Provenance, steps: seq<Ir.Step>, h: seq<Stage>)
    requires 1 <= |h| <= |steps| + 1
  {
    Distinct(Columns(p)) && forall e <- p :: True(g, e, steps, h)
  }

  /** An entry stays true when its column, perhaps under a new name, has what the step makes of its cell. */
  lemma EntryStaysTrue(g: Engine, e: ColumnLineage, f: ColumnLineage, steps: seq<Ir.Step>, h: seq<Stage>, s: Stage)
    requires 1 <= |h| <= |steps| && True(g, e, steps, h)
    requires e.from == f.from && e.createdByStep == f.createdByStep
    requires var (last, step) := (h[|h| - 1], steps[|h| - 1]);
      && f.column in RowAt(s) && Back(last, step, f.column) == e.column
      && RowAt(s)[f.column] == Touch(g, last, step, e.column, RowAt(last)[e.column])
    ensures True(g, f, steps, h + [s])
  {
    hide Plans.Eval, Ir.Refs, Back, Touch, RowAt;
    var longer := h + [s];
    assert longer[..|h|] == h && longer[|h| - 1] == h[|h| - 1] && longer[|h|] == s && longer[0] == h[0];
    if e.createdByStep > 0 {
      assert longer[e.createdByStep - 1] == h[e.createdByStep - 1];
    }
  }

  lemma EntryOf(g: Engine, p: Provenance, steps: seq<Ir.Step>, h: seq<Stage>, e: ColumnLineage)
    requires 1 <= |h| <= |steps| && AllTrue(g, p, steps, h) && e in p
    ensures True(g, e, steps, h) && e.column in RowAt(h[|h| - 1]) && e.column in Columns(p)
  {
    hide NameAt, Through, Distinct;
    var i :| 0 <= i < |p| && p[i] == e;
    assert Columns(p)[i] == e.column;
  }

  /** The entries of q, some of those of p, stay true where the step leaves their names and makes of their cells what it says. */
  lemma SomeKeepTruth(g: Engine, p: Provenance, q: Provenance, steps: seq<Ir.Step>, h: seq<Stage>, s: Stage)
    requires 1 <= |h| <= |steps| && AllTrue(g, p, steps, h) && Distinct(Columns(q)) && forall e <- q :: e in p
    requires forall e <- q :: e.column in RowAt(h[|h| - 1]) ==>
      StaysPut(g, e.column, h[|h| - 1], steps[|h| - 1], RowAt(s))
    ensures AllTrue(g, q, steps, h + [s])
  {
    hide True, Distinct, RowAt, StaysPut;
    forall e | e in q ensures True(g, e, steps, h + [s]) {
      EntryOf(g, p, steps, h, e);
      StaysPutMeans(g, e.column, h[|h| - 1], steps[|h| - 1], RowAt(s));
      EntryStaysTrue(g, e, e, steps, h, s);
    }
  }

  /** The step keeps the column's name, and the row after it has what it makes of the cell. */
  predicate StaysPut(g: Engine, c: string, last: Stage, step: Ir.Step, after: Row)
    requires c in RowAt(last)
  {
    Back(last, step, c) == c && c in after && after[c] == Touch(g, last, step, c, RowAt(last)[c])
  }

  lemma StaysPutMeans(g: Engine, c: string, last: Stage, step: Ir.Step, after: Row)
    requires c in RowAt(last) && StaysPut(g, c, last, step, after)
    ensures Back(last, step, c) == c && c in after && after[c] == Touch(g, last, step, c, RowAt(last)[c])
  {
  }

  lemma {:induction false} KeptEntries(p: Provenance, cs: seq<string>)
    ensures forall e <- Keep(p, cs) :: e in p && e.column in cs
  {
    if p != [] {
      KeptEntries(p[..|p| - 1], cs);
    }
  }

  lemma EntriesWithout(p: Provenance, c: string)
    requires Distinct(Columns(p))
    ensures forall e <- Without(p, c) :: e in p && e.column != c
  {
    hide Distinct;
    Trackers.WithoutColumn(p, c);
    forall e | e in Without(p, c) ensures e in p && e.column != c {
      var i :| 0 <= i < |Without(p, c)| && Without(p, c)[i] == e;
      assert Columns(Without(p, c))[i] == e.column;
    }
  }

  lemma OneMoreTrue(g: Engine, p: Provenance, e: ColumnLineage, steps: seq<Ir.Step>, h: seq<Stage>)
    requires 1 <= |h| <= |steps| + 1 && AllTrue(g, p, steps, h) && True(g, e, steps, h)
    requires Distinct(Columns(p + [e]))
    ensures AllTrue(g, p + [e], steps, h)
  {
    hide True, Distinct;
  }

  lemma SelectKeepsTruth(g: Engine, p: Provenance, steps: seq<Ir.Step>, h: seq<Stage>, cs: seq<string>, s: Stage)
    requires 1 <= |h| <= |steps| && AllTrue(g, p, steps, h)
    requires steps[|h| - 1] == Ir.Data(Ir.Select(cs)) && RowStep(g, h[|h| - 1], steps[|h| - 1], RowAt(s))
    ensures AllTrue(g, Keep(p, cs), steps, h + [s])
  {
    hide AllTrue, Distinct, RowAt;
    KeptEntries(p, cs);
    DistinctColumns(g, p, steps, h);
    Trackers.KeepColumns(p, cs);
    SomeKeepTruth(g, p, Keep(p, cs), steps, h, s);
  }

  lemma DistinctColumns(g: Engine, p: Provenance, steps: seq<Ir.Step>, h: seq<Stage>)
    requires 1 <= |h| <= |steps| && AllTrue(g, p, steps, h)
    ensures Distinct(Columns(p))
  {
  }

  lemma GroupingKeepsTruth(g: Engine, p: Provenance, steps: seq<Ir.Step>, h: seq<Stage>, c: string, s: Stage)
    requires 1 <= |h| <= |steps| && AllTrue(g, p, steps, h)
    requires steps[|h| - 1] == Ir.Data(Ir.GroupBy(c)) && RowStep(g, h[|h| - 1], steps[|h| - 1], RowAt(s))
    ensures AllTrue(g, Keep(p, [c]), steps, h + [s])
  {
    hide AllTrue, Distinct, RowAt;
    KeptEntries(p, [c]);
    DistinctColumns(g, p, steps, h);
    Trackers.KeepColumns(p, [c]);
    SomeKeepTruth(g, p, Keep(p, [c]), steps, h, s);
  }

  /** Entries of other columns stay true at a rename or a derivation. */
  lemma OthersKeepTruth(g: Engine, p: Provenance, steps: seq<Ir.Step>, h: seq<Stage>, c: string, s: Stage)
    requires 1 <= |h| <= |steps| && AllTrue(g, p, steps, h)
    requires forall x <- RowAt(h[|h| - 1]) | x != c && x in Columns(p) ::
      StaysPut(g, x, h[|h| - 1], steps[|h| - 1], RowAt(s))
    ensures AllTrue(g, Without(p, c), steps, h + [s])
    ensures Distinct(Columns(p))
  {
    hide AllTrue, Distinct, RowAt, Without, StaysPut;
    DistinctColumns(g, p, steps, h);
    EntriesWithout(p, c);
    Trackers.WithoutColumn(p, c);
    forall e | e in Without(p, c) ensures e.column in Columns(p) {
      EntryOf(g, p, steps, h, e);
    }
    SomeKeepTruth(g, p, Without(p, c), steps, h, s);
  }

  lemma AbsentIsKept(p: Provenance, c: string)
    ensures Position(p, c) == |p| ==> Without(p, c) == p
  {
  }

  lemma RenameKeepsTruth(g: Engine, p: Provenance, steps: seq<Ir.Step>, h: seq<Stage>, o: string, n: string, s: Stage)
    requires 1 <= |h| <= |steps| && AllTrue(g, p, steps, h)
    requires steps[|h| - 1] == Ir.Data(Ir.Rename(o, n)) && RowStep(g, h[|h| - 1], steps[|h| - 1], RowAt(s))
    requires o in h[|h| - 1].frame.cols && (n == o || n !in Columns(p))
    ensures AllTrue(g, Renamed(p, o, n), steps, h + [s])
  {
    hide True, Distinct, Without, AllTrue, RowAt;
    OthersKeepTruth(g, p, steps, h, o, s);
    Trackers.WithoutColumn(p, o);
    var i, q := Position(p, o), Without(p, o);
    if i < |p| {
      var moved := ColumnLineage(n, p[i].from, p[i].createdByStep);
      EntryOf(g, p, steps, h, p[i]);
      EntryStaysTrue(g, p[i], moved, steps, h, s);
      Trackers.PushColumn(q, moved);
      OneMoreTrue(g, q, moved, steps, h + [s]);
    } else {
      AbsentIsKept(p, o);
    }
  }

  lemma DerivedKeepsTruth(
      g: Engine, p: Provenance, steps: seq<Ir.Step>, h: seq<Stage>, name: string, x: Ir.TypedExpr, s: Stage)
    requires 1 <= |h| <= |steps| && AllTrue(g, p, steps, h)
    requires steps[|h| - 1] == Ir.Data(Ir.WithColumn(name, x)) && RowStep(g, h[|h| - 1], steps[|h| - 1], RowAt(s))
    ensures AllTrue(g, AfterDataOp(p, Ir.WithColumn(name, x), |h|), steps, h + [s])
  {
    hide True, Distinct, Without, Plans.Eval, Ir.Refs, AllTrue, RowAt;
    var q, derived := Without(p, name), ColumnLineage(name, Ir.Refs(x), |h|);
    OthersKeepTruth(g, p, steps, h, name, s);
    Trackers.WithoutColumn(p, name);
    DerivedIsTrue(g, steps, h, name, x, s);
    Trackers.PushColumn(q, derived);
    OneMoreTrue(g, q, derived, steps, h + [s]);
  }

  lemma DerivedIsTrue(g: Engine, steps: seq<Ir.Step>, h: seq<Stage>, name: string, x: Ir.TypedExpr, s: Stage)
    requires 1 <= |h| <= |steps|
    requires steps[|h| - 1] == Ir.Data(Ir.WithColumn(name, x)) && RowStep(g, h[|h| - 1], steps[|h| - 1], RowAt(s))
    ensures True(g, ColumnLineage(name, Ir.Refs(x), |h|), steps, h + [s])
  {
    hide Plans.Eval, Ir.Refs, RowAt;
    assert (h + [s])[|h|] == s && (h + [s])[|h| - 1] == h[|h| - 1];
  }

  /** Every column the catalog lists is in the frame. */
  predicate Listed(p: Provenance, cols: set<string>) {
    forall c <- Columns(p) :: c in cols
  }

  /** Steps that leave the catalog's table alone. */
  predicate KeepsCatalog(step: Ir.Step, cols: set<string>) {
    Traced(step)
    && (step.Data? ==> !step.data.Select? && !step.data.GroupBy? && !step.data.WithColumn?
                       && (step.data.Rename? ==> step.data.oldName !in cols))
  }

  lemma OtherStepsKeepTruth(g: Engine, p: Provenance, steps: seq<Ir.Step>, h: seq<Stage>, s: Stage)
    requires 1 <= |h| <= |steps| && AllTrue(g, p, steps, h) && Listed(p, h[|h| - 1].frame.cols)
    requires KeepsCatalog(steps[|h| - 1], h[|h| - 1].frame.cols) && RowStep(g, h[|h| - 1], steps[|h| - 1], RowAt(s))
    ensures AllTrue(g, p, steps, h + [s])
    ensures AfterStep(p, steps[|h| - 1], |h|) == p
  {
    hide AllTrue, Distinct, RowAt, StaysPut, RowStep;
    DistinctColumns(g, p, steps, h);
    forall e | e in p && e.column in RowAt(h[|h| - 1])
      ensures StaysPut(g, e.column, h[|h| - 1], steps[|h| - 1], RowAt(s))
    {
      EntryOf(g, p, steps, h, e);
      CellStaysPut(g, e.column, h[|h| - 1], steps[|h| - 1], RowAt(s));
    }
    SomeKeepTruth(g, p, p, steps, h, s);
  }

  lemma CellStaysPut(g: Engine, c: string, last: Stage, step: Ir.Step, after: Row)
    requires KeepsCatalog(step, last.frame.cols) && c in last.frame.cols && c in RowAt(last)
    requires RowStep(g, last, step, after)
    ensures StaysPut(g, c, last, step, after)
  {
    hide RowAt, Plans.Fill, Column;
  }

  /** A rename at step k does not hit a listed column. */
  predicate FreshRename(p: Provenance, step: Ir.Step) {
    step.Data? && step.data.Rename? ==> step.data.newName == step.data.oldName || step.data.newName !in Columns(p)
  }

  lemma StepKeepsTruth(g: Engine, p: Provenance, steps: seq<Ir.Step>, h: seq<Stage>, s: Stage)
    requires 1 <= |h| <= |steps| && AllTrue(g, p, steps, h) && Listed(p, h[|h| - 1].frame.cols)
    requires Traced(steps[|h| - 1]) && FreshRename(p, steps[|h| - 1])
    requires RowStep(g, h[|h| - 1], steps[|h| - 1], RowAt(s))
    ensures AllTrue(g, AfterStep(p, steps[|h| - 1], |h|), steps, h + [s])
  {
    hide AllTrue, RowAt, RowStep, Keep, Without, Listed, Renamed;
    var step := steps[|h| - 1];
    if KeepsCatalog(step, h[|h| - 1].frame.cols) {
      OtherStepsKeepTruth(g, p, steps, h, s);
    } else {
      match step
      case Data(Select(cs)) => SelectKeepsTruth(g, p, steps, h, cs, s);
      case Data(GroupBy(c)) => GroupingKeepsTruth(g, p, steps, h, c, s);
      case Data(Rename(o, n)) => RenameKeepsTruth(g, p, steps, h, o, n, s);
      case Data(WithColumn(name, x)) => DerivedKeepsTruth(g, p, steps, h, name, x, s);
    }
  }

  lemma StepKeepsListed(g: Engine, t: Plans.Tables, s: Plans.State, step: Ir.Step, p: Provenance, k: nat)
    requires Traced(step) && Distinct(Columns(p)) && Listed(p, s.frame.cols) && Plans.EvalStep(g, t, s, step).Ran?
    ensures Listed(AfterStep(p, step, k), Plans.EvalStep(g, t, s, step).value.frame.cols)
  {
    hide Distinct, Plans.EvalData, DataResult;
    match step
    case Side(op) =>
      if op.Chart? {
        ReadingResult(op.config.Columns(), s.frame, Ran(s));
      }
    case Data(op) =>
      DataRuns(g, t, s, op);
      DataKeepsListed(g, s.frame, op, p, k);
  }

  lemma DataKeepsListed(g: Engine, f: Frame, op: Ir.DataOp, p: Provenance, k: nat)
    requires Traced(Ir.Data(op)) && Distinct(Columns(p)) && Listed(p, f.cols)
    ensures Listed(AfterDataOp(p, op, k), DataResult(g, f, op).cols)
  {
    hide Distinct, TruePositions, PresentPositions, Plans.EvalRows, FirstPositions, Column, Ir.Refs, Without, Keep;
    match op
    case Select(cs) => Trackers.KeepColumns(p, cs);
    case GroupBy(c) => Trackers.KeepColumns(p, [c]);
    case Rename(o, n) => Trackers.RenamedLists(p, o, n);
    case WithColumn(name, e) =>
      Trackers.WithoutColumn(p, name);
      Trackers.PushColumn(Without(p, name), ColumnLineage(name, Ir.Refs(e), k));
    case _ =>
  }

  // ── The lineage of a pipeline is true ───────────────────────────────────

  lemma SeedIsTrue(g: Engine, cs: seq<string>, steps: seq<Ir.Step>, s: Stage)
    requires Distinct(cs) && forall c <- cs :: c in RowAt(s)
    ensures AllTrue(g, Seeded(cs), steps, [s])
  {
    hide Plans.Eval, Ir.Refs, RowAt;
    var p, h := Seeded(cs), [s];
    assert h[|h| - 1] == s && h[0] == s;
    forall e | e in p ensures True(g, e, steps, h) {
      var i :| 0 <= i < |cs| && p[i] == e;
      assert e == ColumnLineage(cs[i], [cs[i]], 0) && cs[i] in cs;
    }
    assert Columns(p) == cs;
  }

  /** The frame has the columns, in every row. */
  predicate Holds(f: Frame, cs: seq<string>) {
    forall c <- cs :: c in f.cols && forall row <- f.rows :: c in row
  }

  /** Every rename of the pipeline leaves its listed columns alone. */
  predicate FreshRenames(cs: seq<string>, steps: seq<Ir.Step>) {
    forall k | 0 <= k < |steps| :: FreshRename(AfterSteps(Seeded(cs), steps, k), steps[k])
  }

  /** Of any history, however its rows were reached, the catalog after its last step is true. */
  lemma {:induction false} HistoriesAreTrue(
      g: Engine, t: Plans.Tables, f: Frame, cs: seq<string>, steps: seq<Ir.Step>, h: seq<Stage>)
    requires forall step <- steps :: Traced(step)
    requires Distinct(cs) && Holds(f, cs) && FreshRenames(cs, steps)
    requires History(g, t, f, steps, h)
    ensures var (p, o) := (AfterSteps(Seeded(cs), steps, |h| - 1), Run(g, t, Plans.State(f, None), steps, |h| - 1));
      && AllTrue(g, p, steps, h) && Distinct(Columns(p))
      && o.Ran? && o.value.frame == h[|h| - 1].frame && Listed(p, o.value.frame.cols)
    decreases |h|
  {
    hide True, Distinct, AfterStep, Plans.EvalStep, RowStep, FreshRename, Traced, Listed;
    var n := |h| - 1;
    if n == 0 {
      assert h == [h[0]];
      SeedIsTrue(g, cs, steps, h[0]);
      SeedIsListed(f, cs);
    } else {
      var earlier := h[..n];
      assert h == earlier + [h[n]] && steps[n - 1] in steps;
      ShorterHistory(g, t, f, steps, h);
      HistoriesAreTrue(g, t, f, cs, steps, earlier);
      var p := AfterSteps(Seeded(cs), steps, n - 1);
      var s := Run(g, t, Plans.State(f, None), steps, n - 1).value;
      assert Link(g, t, f, steps, h, n) && earlier[|earlier| - 1] == h[n - 1];
      StepKeepsTruth(g, p, steps, earlier, h[n]);
      StepKeepsListed(g, t, s, steps[n - 1], p, n);
    }
  }

  lemma SeedIsListed(f: Frame, cs: seq<string>)
    requires Holds(f, cs)
    ensures Listed(Seeded(cs), f.cols)
  {
  }

  lemma ShorterHistory(g: Engine, t: Plans.Tables, f: Frame, steps: seq<Ir.Step>, h: seq<Stage>)
    requires forall step <- steps :: Traced(step)
    requires History(g, t, f, steps, h) && |h| > 1
    ensures History(g, t, f, steps, h[..|h| - 1])
  {
    hide Run, RowStep;
    var shorter := h[..|h| - 1];
    forall k | 0 < k < |shorter| ensures Link(g, t, f, steps, shorter, k) {
      assert Link(g, t, f, steps, h, k) && shorter[k] == h[k] && shorter[k - 1] == h[k - 1];
    }
  }

  lemma LongerHistory(g: Engine, t: Plans.Tables, f: Frame, steps: seq<Ir.Step>, h: seq<Stage>, s: Stage)
    requires forall step <- steps :: Traced(step)
    requires History(g, t, f, steps, h) && |h| <= |steps|
    requires Link(g, t, f, steps, h + [s], |h|)
    ensures History(g, t, f, steps, h + [s])
  {
    hide Run, RowStep;
    var longer := h + [s];
    assert longer[0] == h[0];
    forall k | 0 < k < |longer| ensures Link(g, t, f, steps, longer, k) {
      if k < |h| {
        assert Link(g, t, f, steps, h, k) && longer[k] == h[k] && longer[k - 1] == h[k - 1];
      }
    }
  }

  /** Every row after the first n steps has a history. */
  lemma {:induction false} RowsHaveHistories(g: Engine, t: Plans.Tables, f: Frame, steps: seq<Ir.Step>, n: nat, i: nat)
    returns (h: seq<Stage>)
    requires n <= |steps| && forall step <- steps :: Traced(step)
    requires var o := Run(g, t, Plans.State(f, None), steps, n); o.Ran? && i < |o.value.frame.rows|
    ensures |h| == n + 1 && History(g, t, f, steps, h)
    ensures h[n] == Stage(Run(g, t, Plans.State(f, None), steps, n).value.frame, i)
  {
    hide Plans.EvalStep, RowStep, Traced;
    if n == 0 {
      h := [Stage(f, i)];
    } else {
      var s := Run(g, t, Plans.State(f, None), steps, n - 1).value;
      assert steps[n - 1] in steps;
      var j := RowComesFrom(g, t, s, steps[n - 1], i);
      var earlier := RowsHaveHistories(g, t, f, steps, n - 1, j);
      var last := Stage(Run(g, t, Plans.State(f, None), steps, n).value.frame, i);
      h := earlier + [last];
      assert h[n] == last && h[n - 1] == Stage(s.frame, j);
      LongerHistory(g, t, f, steps, earlier, last);
    }
  }

  /** A history from the input frame through every step of the node to the i-th row of its output. */
  ghost predicate IsPast(g: Engine, t: Plans.Tables, f: Frame, node: Ir.PipelineNode, out: Frame, i: nat, h: seq<Stage>)
    requires forall step <- node.steps :: Traced(step)
  {
    |h| == |node.steps| + 1 && h[|node.steps|] == Stage(out, i) && History(g, t, f, node.steps, h)
  }

  /**
   * Every row a pipeline leaves has a history, and the pipeline's catalog is true of every history of it: an entry of step 0
   * names the one input column whose cell the row carries, an entry of step k is the value of the expression of that step
   * on the row's own past, and both have gone through the casts, replacements, fills and noise that the later steps apply
   * to their column, followed through its renames.
   */
  lemma LineageIsTrue(g: Engine, reg: Plans.Registry, t: Plans.Tables, f: Frame, node: Ir.PipelineNode, i: nat)
    requires forall step <- node.steps :: Traced(step)
    requires Distinct(InputColumns(node)) && Holds(f, InputColumns(node)) && FreshRenames(InputColumns(node), node.steps)
    requires var o := Plans.EvalSteps(g, reg, t, Plans.State(f, None), node.steps);
             o.Ran? && o.value.Table? && i < |o.value.frame.rows|
    ensures var out := Plans.EvalSteps(g, reg, t, Plans.State(f, None), node.steps).value.frame;
      && (exists h :: IsPast(g, t, f, node, out, i, h))
      && forall h | IsPast(g, t, f, node, out, i, h) :: forall e <- Lineage(node) :: True(g, e, node.steps, h)
  {
    hide Run, AfterSteps, History, True, FreshRenames, Distinct, Traced;
    var n := |node.steps|;
    RunIsEvaluation(g, reg, t, Plans.State(f, None), node.steps, n);
    assert node.steps[n..] == [];
    var out := Plans.EvalSteps(g, reg, t, Plans.State(f, None), node.steps).value.frame;
    var past := RowsHaveHistories(g, t, f, node.steps, n, i);
    assert IsPast(g, t, f, node, out, i, past);
    forall h | IsPast(g, t, f, node, out, i, h) ensures forall e <- Lineage(node) :: True(g, e, node.steps, h) {
      HistoriesAreTrue(g, t, f, InputColumns(node), node.steps, h);
    }
  }

  /** An expression's value depends on nothing but the columns it refers to. */
  lemma {:induction false} ValuesComeFromRefs(g: Engine, e: Ir.TypedExpr, a: Row, b: Row)
    requires forall c <- Ir.Refs(e) :: Cell(a, c) == Cell(b, c)
    ensures Plans.Eval(g, e, a) == Plans.Eval(g, e, b)
  {
    match e.kind
    case Column(c) => assert c in Ir.Refs(e);
    case BinOp(_, l, r) =>
      ValuesComeFromRefs(g, l, a, b);
      ValuesComeFromRefs(g, r, a, b);
    case _ =>
  }
}
