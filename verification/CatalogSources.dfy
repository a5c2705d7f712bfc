/** What a catalog entry says it derives from, against what the step that made it cannot do without. */
module CatalogSources {
  import opened Catalog
  import opened Frames
  import opened Wrappers
  import Ir
  import Plans

  /** The data operations whose new entries derive from the columns they read. */
  predicate Derives(op: Ir.DataOp) {
    op.Corr? || op.Quantile? || op.Histogram? || op.WithColumn? || (op.Aggregate? && !op.kind.KLen?)
  }

  /** An outcome that stops on the first absent one of the columns, and on no column when they are all there. */
  ghost predicate StopsWithout<T>(o: Outcome<T>, from: seq<string>, cols: set<string>) {
    && (o.MissingColumn? <==> exists c <- from :: c !in cols)
    && (o.MissingColumn? ==> exists i | 0 <= i < |from| ::
         from[i] !in cols && o.col == from[i] && forall j | 0 <= j < i :: from[j] in cols)
  }

  lemma {:induction false} ReadingStopsWithout<T>(cs: seq<string>, f: Frame, o: Outcome<T>)
    requires !o.MissingColumn?
    ensures StopsWithout(Reading(cs, f, o), cs, f.cols)
  {
    if cs != [] && cs[0] in f.cols {
      ReadingStopsWithout(cs[1..], f, o);
      assert cs == [cs[0]] + cs[1..];
      if Reading(cs, f, o).MissingColumn? {
        var i :| 0 <= i < |cs[1..]| && cs[1..][i] !in f.cols && Reading(cs, f, o).col == cs[1..][i]
          && forall j | 0 <= j < i :: cs[1..][j] in f.cols;
        assert cs[i + 1] == cs[1..][i];
        forall j | 0 <= j < i + 1 ensures cs[j] in f.cols {
          assert j > 0 ==> cs[j] == cs[1..][j - 1];
        }
      }
    } else if cs != [] {
      assert cs[0] in cs;
    }
  }

  /** The columns the new entries of the operation name, which are also the ones it reads. */
  lemma StepStopsWithout(g: Engine, t: Plans.Tables, s: Plans.State, op: Ir.DataOp, from: seq<string>)
    requires Derives(op)
    requires match op
             case Corr(a, b) => from == [a, b]
             case WithColumn(_, e) => from == Ir.Refs(e)
             case _ => from == [op.col]
    ensures StopsWithout(Plans.EvalData(g, t, s, op), from, s.frame.cols)
  {
    hide Reading, StopsWithout, SetColumn, HistogramFrame, Plans.EvalRows, Ir.Refs;
    var f := s.frame;
    match op
    case Corr(a, b) => ReadingStopsWithout(from, f, Plans.Summarized(g, s, CorrOf(a, b)));
    case Quantile(c, q) => ReadingStopsWithout(from, f, Plans.Summarized(g, s, QuantileOf(c, q)));
    case Histogram(c, bins) => ReadingStopsWithout(from, f, Ran(Plans.State(HistogramFrame(g, f, c, bins), None)));
    case Aggregate(kind, c) => ReadingStopsWithout(from, f, Plans.Summarized(g, s, Plans.StatisticOf(kind, c)));
    case WithColumn(name, e) =>
      ReadingStopsWithout(from, f, Ran(s.(frame := SetColumn(f, name, Plans.EvalRows(g, e, f)))));
  }

  /**
   * Every entry a step adds carries the step's number, and its sources are, in order, the columns without which the step
   * stops; a histogram leaves its two entries alone, and the others keep what was listed.
   */
  lemma NewEntriesNameWhatIsRead(
      g: Engine, t: Plans.Tables, s: Plans.State, p: Provenance, op: Ir.DataOp, k: nat, e: ColumnLineage)
    requires Derives(op) && e in AfterDataOp(p, op, k) && e !in p
    ensures e.createdByStep == k
    ensures StopsWithout(Plans.EvalData(g, t, s, op), e.from, s.frame.cols)
    ensures op.Corr? ==> e.column == CorrName(op.a, op.b)
    ensures op.Quantile? || op.Aggregate? ==> e.column == op.col
    ensures op.WithColumn? ==> e.column == op.name
  {
    hide Plans.EvalData, StopsWithout, Ir.Refs;
    if op.WithColumn? {
      OthersStay(p, op.name);
    }
    StepStopsWithout(g, t, s, op, e.from);
  }

  lemma OthersStay(p: Provenance, c: string)
    ensures forall e <- Without(p, c) :: e in p
  {
  }

  /** What was listed stays listed, in front of what is new, unless the step replaces the table or one of its columns. */
  lemma ListedEntriesStay(p: Provenance, op: Ir.DataOp, k: nat)
    requires op.Corr? || op.Quantile? || op.Aggregate? || op.AggList? || op.Join?
    ensures p <= AfterDataOp(p, op, k)
  {
    match op
    case AggList(specs) => AddingKeeps(p, Ir.SpecColumns(specs), k);
    case Join(_, leftOn, _, _) => AddingKeeps(p, leftOn, k);
    case _ =>
  }

  lemma {:induction false} AddingKeeps(p: Provenance, cs: seq<string>, k: nat)
    ensures p <= AddAll(p, cs, k)
    ensures forall e <- AddAll(p, cs, k) :: e in p || (e.column in cs && e.from == [e.column] && e.createdByStep == k)
    ensures forall c <- cs :: c in Columns(AddAll(p, cs, k))
  {
    if cs != [] {
      var n := |cs| - 1;
      AddingKeeps(p, cs[..n], k);
      assert cs == cs[..n] + [cs[n]];
      var q := AddAll(p, cs[..n], k);
      Growing(q, ColumnLineage(cs[n], [cs[n]], k));
    }
  }

  lemma Growing(p: Provenance, e: ColumnLineage)
    ensures p <= AddOnce(p, e) && e.column in Columns(AddOnce(p, e))
    ensures forall c <- Columns(p) :: c in Columns(AddOnce(p, e))
  {
    var q := AddOnce(p, e);
    if e.column !in Columns(p) {
      assert Columns(q)[|p|] == e.column;
    }
    forall c | c in Columns(p) ensures c in Columns(q) {
      var i :| 0 <= i < |p| && Columns(p)[i] == c;
      assert Columns(q)[i] == c;
    }
  }

  /** A list of aggregates adds one entry per column, each naming the one column its own aggregate cannot do without. */
  lemma ListedAggregatesNameTheirColumns(
      g: Engine, t: Plans.Tables, s: Plans.State, p: Provenance, specs: seq<(Ir.AggKind, string)>, k: nat, e: ColumnLineage)
    returns (i: nat)
    requires e in AfterDataOp(p, Ir.AggList(specs), k) && e !in p
    ensures i < |specs| && e.column == specs[i].1 && e.createdByStep == k
    ensures StopsWithout(Plans.EvalData(g, t, s, Ir.AggList([specs[i]])), e.from, s.frame.cols)
    ensures e.column !in s.frame.cols ==> Plans.EvalData(g, t, s, Ir.AggList(specs)).MissingColumn?
  {
    hide Reading, StopsWithout;
    var cs := Ir.SpecColumns(specs);
    AddingKeeps(p, cs, k);
    i :| 0 <= i < |cs| && cs[i] == e.column;
    var one := [specs[i]];
    assert Ir.SpecColumns(one) == [specs[i].1];
    ReadingStopsWithout([specs[i].1], s.frame,
      Ran(Plans.State(g.aggregateList(s.frame, s.pendingGroup, Plans.StatisticsOf(one)), None)));
    ReadingPresent(cs, s.frame, Ran(Plans.State(g.aggregateList(s.frame, s.pendingGroup, Plans.StatisticsOf(specs)), None)));
    assert e.column in cs;
  }

  /** A join adds its left keys only, each standing for itself; without it the join does not run. */
  lemma JoinedKeysStandForThemselves(
      g: Engine, t: Plans.Tables, s: Plans.State, p: Provenance, op: Ir.DataOp, k: nat, e: ColumnLineage)
    requires op.Join? && e in AfterDataOp(p, op, k) && e !in p
    ensures e.column in op.leftOn && e.from == [e.column] && e.createdByStep == k
    ensures e.column !in s.frame.cols ==> !Plans.EvalData(g, t, s, op).Ran?
  {
    hide Reading;
    AddingKeeps(p, op.leftOn, k);
    if op.other in t.frames {
      var right := t.frames[op.other];
      ReadingPresent(op.leftOn, s.frame, Reading(op.rightOn, right,
        Ran(s.(frame := g.join(s.frame, right, op.leftOn, op.rightOn, op.how)))));
    }
  }

  // ── Places in the table ─────────────────────────────────────────────────

  /** The first entry of a renamed column moves behind the others, with the sources and the step it had. */
  lemma RenamedIsListedLast(p: Provenance, before: string, after: string, k: nat) returns (i: nat)
    requires before in Columns(p)
    ensures i < |p| && p[i].column == before && forall j | 0 <= j < i :: p[j].column != before
    ensures AfterDataOp(p, Ir.Rename(before, after), k)
         == p[..i] + p[i + 1..] + [ColumnLineage(after, p[i].from, p[i].createdByStep)]
  {
    i := Position(p, before);
  }

  /** A made column is listed behind the others, in place of the first entry it had before, if any. */
  lemma MadeIsListedLast(p: Provenance, name: string, e: Ir.TypedExpr, k: nat) returns (i: nat)
    ensures i <= |p| && (i < |p| ==> p[i].column == name) && forall j | 0 <= j < i :: p[j].column != name
    ensures var others := if i < |p| then p[..i] + p[i + 1..] else p;
      && |AfterDataOp(p, Ir.WithColumn(name, e), k)| == |others| + 1
      && others <= AfterDataOp(p, Ir.WithColumn(name, e), k)
  {
    i := Position(p, name);
  }

  /** Select and groupBy keep the entries of their columns where they are: those of a table in two parts are those of its parts. */
  lemma {:induction false} KeptInPlace(a: Provenance, b: Provenance, cs: seq<string>, e: ColumnLineage, k: nat)
    ensures AfterDataOp(a + b, Ir.Select(cs), k) == AfterDataOp(a, Ir.Select(cs), k) + AfterDataOp(b, Ir.Select(cs), k)
    ensures AfterDataOp([e], Ir.Select(cs), k) == if e.column in cs then [e] else []
    ensures forall c :: AfterDataOp(a, Ir.GroupBy(c), k) == AfterDataOp(a, Ir.Select([c]), k)
    decreases |b|
  {
    assert [e][..0] == [] && Keep([], cs) == [];
    if b == [] {
      assert a + b == a;
    } else {
      var (front, last) := (b[..|b| - 1], b[|b| - 1]);
      KeptInPlace(a, front, cs, e, k);
      assert (a + b)[..|a + b| - 1] == a + front && (a + b)[|a + b| - 1] == last;
    }
  }

  /** A bare count lists a source with no name, and reads no column at all. */
  lemma BareCountReadsNothing(g: Engine, t: Plans.Tables, s: Plans.State, p: Provenance, k: nat)
    ensures var op := Ir.Aggregate(Ir.KLen, "");
      && !Plans.EvalData(g, t, s, op).MissingColumn?
      && AfterDataOp(p, op, k) == if "" in Columns(p) then p else p + [ColumnLineage("", [""], k)]
  {
  }

  /** The correlation's column is named after both. */
  lemma CorrelationName()
    ensures CorrName("pm10", "pm25") == "pm10_pm25_corr"
  {
    assert "pm10" + "_" + "pm25" + "_corr" == "pm10_pm25_corr";
  }
}
