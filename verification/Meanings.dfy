/** What the interpreter computes on integers, for aggregates and for joins, against ordinary definitions. */
module Meanings {
  import opened Ast
  import opened Frames
  import opened Wrappers
  import Programs
  import RowChoices

  // ── Integer expressions ─────────────────────────────────────────────────

  predicate ComputesOn(g: Engine, a: int, b: int) {
    && g.apply(Add, IntV(a), IntV(b)) == IntV(a + b)
    && g.apply(Sub, IntV(a), IntV(b)) == IntV(a - b)
    && g.apply(Mul, IntV(a), IntV(b)) == IntV(a * b)
    && g.apply(Lt, IntV(a), IntV(b)) == BoolV(a < b)
    && g.apply(GtEq, IntV(a), IntV(b)) == BoolV(a >= b)
    && g.apply(Eq, IntV(a), IntV(b)) == BoolV(a == b)
  }

  /** The engine computes on integers as usual. */
  ghost predicate Arithmetic(g: Engine) {
    forall a: int, b: int :: ComputesOn(g, a, b)
  }

  /** Sums, differences and products of integers and integer columns. */
  predicate IsIntegral(e: Expr, row: Row) {
    match e
    case IntLit(_) => true
    case Ident(c) => c in row && row[c].IntV?
    case BinOp(l, op, r) => (op.Add? || op.Sub? || op.Mul?) && IsIntegral(l, row) && IsIntegral(r, row)
    case _ => false
  }

  function Number(e: Expr, row: Row): int
    requires IsIntegral(e, row)
  {
    match e
    case IntLit(n) => n
    case Ident(c) => row[c].n
    case BinOp(l, Add, r) => Number(l, row) + Number(r, row)
    case BinOp(l, Sub, r) => Number(l, row) - Number(r, row)
    case BinOp(l, _, r) => Number(l, row) * Number(r, row)
  }

  /** An integer expression evaluates to its number, and a comparison of two to the truth about their numbers. */
  lemma {:induction false} ExpressionsCompute(g: Engine, e: Expr, row: Row)
    requires Arithmetic(g) && IsIntegral(e, row)
    ensures Programs.Eval(g, e, row) == IntV(Number(e, row))
  {
    match e
    case BinOp(l, _, r) =>
      ExpressionsCompute(g, l, row);
      ExpressionsCompute(g, r, row);
      assert ComputesOn(g, Number(l, row), Number(r, row));
    case _ =>
  }

  lemma ComparisonsCompute(g: Engine, a: Expr, b: Expr, row: Row)
    requires Arithmetic(g) && IsIntegral(a, row) && IsIntegral(b, row)
    ensures Programs.Eval(g, BinOp(a, Lt, b), row) == BoolV(Number(a, row) < Number(b, row))
    ensures Programs.Eval(g, BinOp(a, GtEq, b), row) == BoolV(Number(a, row) >= Number(b, row))
    ensures Programs.Eval(g, BinOp(a, Eq, b), row) == BoolV(Number(a, row) == Number(b, row))
  {
    ExpressionsCompute(g, a, row);
    ExpressionsCompute(g, b, row);
    assert ComputesOn(g, Number(a, row), Number(b, row));
  }

  // ── Aggregates ──────────────────────────────────────────────────────────

  /** The operator that is one aggregate function of one column. */
  function Alone(f: AggFn, c: string): PipelineOp {
    match f
    case FnSum => Sum(c)
    case FnMean => Mean(c)
    case FnMin => Min(c)
    case FnMax => Max(c)
    case FnCount => Count(Some(c))
    case FnMedian => Median(c)
    case FnVariance => Variance(c)
    case FnStd => Std(c)
    case FnSkew => Skew(c)
    case FnKurtosis => Kurtosis(c)
  }

  /** A list of aggregates asks for the statistics its functions ask for alone, in order, under the same group. */
  lemma ListsAskForTheSame(g: Engine, env: Programs.Env, s: Programs.State, specs: seq<AggSpec>)
    returns (stats: seq<Statistic>)
    requires Programs.EvalOp(g, env, s, Agg(specs)).Ran?
    ensures |stats| == |specs|
    ensures Programs.EvalOp(g, env, s, Agg(specs)) == Ran(Programs.State(g.aggregateList(s.frame, s.group, stats), None))
    ensures forall i | 0 <= i < |specs| ::
      Programs.EvalOp(g, env, s, Alone(specs[i].func, specs[i].col))
      == Ran(Programs.State(g.summarize(s.frame, s.group, [stats[i]]), None))
  {
    hide Reading;
    stats := Programs.StatisticsOf(specs);
    var cs := AggColumns(specs);
    ReadingPresent(cs, s.frame, Ran(Programs.State(g.aggregateList(s.frame, s.group, stats), None)));
    forall i | 0 <= i < |specs|
      ensures Programs.EvalOp(g, env, s, Alone(specs[i].func, specs[i].col))
           == Ran(Programs.State(g.summarize(s.frame, s.group, [stats[i]]), None))
    {
      assert cs[i] in cs;
      ReadingPresent([specs[i].col], s.frame, Programs.Summarized(g, s, stats[i]));
    }
  }

  // ── Joins ───────────────────────────────────────────────────────────────

  /** A join runs exactly when its partner is bound, has the right keys, and the pipeline's frame has the left ones. */
  lemma JoinRunsExactly(g: Engine, env: Programs.Env, s: Programs.State, op: PipelineOp)
    requires op.Join?
    ensures var o := Programs.EvalOp(g, env, s, op);
      && (o.Ran? <==> op.other in env.frames && (forall c <- op.leftOn :: c in s.frame.cols)
                      && forall c <- op.rightOn :: c in env.frames[op.other].cols)
      && (o.Unbound? <==> op.other !in env.frames)
  {
    hide Reading;
    if op.other in env.frames {
      var right := env.frames[op.other];
      var joined := Programs.With(s, g.join(s.frame, right, op.leftOn, op.rightOn, op.how));
      ReadingPresent(op.rightOn, right, joined);
      ReadingPresent(op.leftOn, s.frame, Reading(op.rightOn, right, joined));
    }
  }

  /** Left joins keep the columns of the left frame, and have a row for each of its rows. */
  ghost predicate KeepsLeft(g: Engine) {
    forall l: Frame, r: Frame, lo: seq<string>, ro: seq<string> ::
      l.cols <= g.join(l, r, lo, ro, Left).cols && |l.rows| <= |g.join(l, r, lo, ro, Left).rows|
  }

  /** A left join loses no column and no row of its pipeline's frame, and leaves its group waiting. */
  lemma LeftJoinsKeepThePipeline(g: Engine, env: Programs.Env, s: Programs.State, op: PipelineOp)
    requires KeepsLeft(g) && op.Join? && op.how == Left && Programs.EvalOp(g, env, s, op).Ran?
    ensures var after := Programs.EvalOp(g, env, s, op).value;
      s.frame.cols <= after.frame.cols && |s.frame.rows| <= |after.frame.rows| && after.group == s.group
  {
    hide Reading;
    JoinRunsExactly(g, env, s, op);
    var right := env.frames[op.other];
    var joined := Programs.With(s, g.join(s.frame, right, op.leftOn, op.rightOn, op.how));
    ReadingPresent(op.rightOn, right, joined);
    ReadingPresent(op.leftOn, s.frame, Reading(op.rightOn, right, joined));
  }

  // ── Integer columns ─────────────────────────────────────────────────────

  /** Every row has an integer in the column. */
  predicate IsIntegers(f: Frame, c: string) {
    forall r: Row <- f.rows :: c in r && r[c].IntV?
  }

  function Integers(f: Frame, c: string): (xs: seq<int>)
    requires IsIntegers(f, c)
    ensures |xs| == |f.rows|
  {
    seq(|f.rows|, i requires 0 <= i < |f.rows| => f.rows[i][c].n)
  }

  function Total(xs: seq<int>): int {
    if xs == [] then 0 else xs[0] + Total(xs[1..])
  }

  /** One row whose cell in the column is the number. */
  predicate Says(f: Frame, c: string, n: int) {
    |f.rows| == 1 && Cell(f.rows[0], c) == IntV(n)
  }

  predicate Answers(o: Outcome<Programs.State>, c: string, n: int) {
    o.Ran? && Says(o.value.frame, c, n)
  }

  predicate IsLeast(n: int, xs: seq<int>) {
    n in xs && forall x <- xs :: n <= x
  }

  predicate IsLargest(n: int, xs: seq<int>) {
    n in xs && forall x <- xs :: x <= n
  }

  /** What the engine says of a column of integers is so. */
  predicate IsUsual(g: Engine, f: Frame, c: string, n: int)
    requires IsIntegers(f, c)
  {
    var xs := Integers(f, c);
    && (Says(g.summarize(f, None, [SumOf(c)]), c, n) <==> n == Total(xs))
    && (Says(g.summarize(f, None, [CountOf(c)]), c, n) <==> n == |xs|)
    && (Says(g.summarize(f, None, [MinOf(c)]), c, n) <==> IsLeast(n, xs))
    && (Says(g.summarize(f, None, [MaxOf(c)]), c, n) <==> IsLargest(n, xs))
    && (Says(g.summarize(f, None, [QuantileOf(c, 0.0)]), c, n) <==> IsLeast(n, xs))
    && (Says(g.summarize(f, None, [QuantileOf(c, 1.0)]), c, n) <==> IsLargest(n, xs))
  }

  /** The engine's statistics of integer columns are the usual ones. */
  ghost predicate Statistical(g: Engine) {
    forall f: Frame, c: string, n: int | IsIntegers(f, c) && f.rows != [] :: IsUsual(g, f, c, n)
  }

  /** Without a group, the four operators say the sum, the number, the least and the largest of an integer column. */
  lemma AggregatesSay(g: Engine, env: Programs.Env, s: Programs.State, c: string, n: int)
    requires Statistical(g) && c in s.frame.cols && IsIntegers(s.frame, c) && s.frame.rows != [] && s.group == None
    ensures var xs := Integers(s.frame, c);
      && (Answers(Programs.EvalOp(g, env, s, Sum(c)), c, n) <==> n == Total(xs))
      && (Answers(Programs.EvalOp(g, env, s, Count(Some(c))), c, n) <==> n == |xs|)
      && (Answers(Programs.EvalOp(g, env, s, Min(c)), c, n) <==> IsLeast(n, xs))
      && (Answers(Programs.EvalOp(g, env, s, Max(c)), c, n) <==> IsLargest(n, xs))
  {
    hide Reading, Total, Integers, IsIntegers, Says, IsLeast, IsLargest;
    assert IsUsual(g, s.frame, c, n);
    OneColumn(c, s.frame, Programs.Summarized(g, s, SumOf(c)));
    OneColumn(c, s.frame, Programs.Summarized(g, s, CountOf(c)));
    OneColumn(c, s.frame, Programs.Summarized(g, s, MinOf(c)));
    OneColumn(c, s.frame, Programs.Summarized(g, s, MaxOf(c)));
  }

  /** The outermost quantiles are the least and the largest value. */
  lemma QuantileEnds(g: Engine, env: Programs.Env, s: Programs.State, c: string, n: int)
    requires Statistical(g) && c in s.frame.cols && IsIntegers(s.frame, c) && s.frame.rows != [] && s.group == None
    ensures Answers(Programs.EvalOp(g, env, s, Quantile(c, 0.0)), c, n) <==> Answers(Programs.EvalOp(g, env, s, Min(c)), c, n)
    ensures Answers(Programs.EvalOp(g, env, s, Quantile(c, 1.0)), c, n) <==> Answers(Programs.EvalOp(g, env, s, Max(c)), c, n)
  {
    hide Reading, Total, Integers, IsIntegers, Says, IsLeast, IsLargest;
    assert IsUsual(g, s.frame, c, n);
    OneColumn(c, s.frame, Programs.Summarized(g, s, QuantileOf(c, 0.0)));
    OneColumn(c, s.frame, Programs.Summarized(g, s, QuantileOf(c, 1.0)));
    OneColumn(c, s.frame, Programs.Summarized(g, s, MinOf(c)));
    OneColumn(c, s.frame, Programs.Summarized(g, s, MaxOf(c)));
  }

  // ── Histograms ──────────────────────────────────────────────────────────

  function CountsOf(bins: seq<(string, int)>): (xs: seq<int>)
    ensures |xs| == |bins|
  {
    seq(|bins|, i requires 0 <= i < |bins| => bins[i].1)
  }

  /** The engine puts every integer into one bin. */
  ghost predicate CountsAll(g: Engine) {
    forall xs: seq<int>, bins: nat :: Total(CountsOf(g.bins(Values(xs), bins))) == |xs|
  }

  /** A histogram of integers has labels and counts, and the counts account for every row; no group is left waiting. */
  lemma HistogramAccountsForRows(g: Engine, env: Programs.Env, s: Programs.State, c: string, bins: nat)
    requires CountsAll(g) && c in s.frame.cols && IsIntegers(s.frame, c)
    ensures var o := Programs.EvalOp(g, env, s, Histogram(c, bins));
      && o.Ran? && o.value.group == None && o.value.frame.cols == {"bin", "n"}
      && (forall r: Row <- o.value.frame.rows :: "bin" in r && r["bin"].StrV?)
      && IsIntegers(o.value.frame, "n") && Total(Integers(o.value.frame, "n")) == |s.frame.rows|
  {
    hide Reading, Column, Total;
    var counts := g.bins(Column(s.frame, c), bins);
    var after := HistogramFrame(g, s.frame, c, bins);
    OneColumn(c, s.frame, Ran(Programs.State(after, None)));
    assert IsIntegers(after, "n") && Integers(after, "n") == CountsOf(counts);
    ColumnHasIntegers(s.frame, c);
    assert Total(CountsOf(g.bins(Values(Integers(s.frame, c)), bins))) == |Integers(s.frame, c)|;
  }

  // ── Training ────────────────────────────────────────────────────────────

  /** A train at the end of a pipeline trains its network, with its options, on the frame the pipeline ends with. */
  lemma {:induction false} TrainingUsesThePipeline(
      g: Engine, env: Programs.Env, s: Programs.State, ops: seq<PipelineOp>, model: string, config: TrainConfig)
    requires (forall op <- ops :: !op.Train?) && model in env.graphs
    ensures var (frame, trained) := (Programs.EvalOps(g, env, s, ops), Programs.EvalOps(g, env, s, ops + [Train(model, config)]));
      && (frame.Ran? ==> frame.value.FrameProduct?)
      && (frame.Ran? && config.target in frame.value.frame.cols ==>
          trained == Ran(Programs.ModelProduct(Model(env.graphs[model], config, frame.value.frame))))
      && (frame.Ran? && config.target !in frame.value.frame.cols ==> trained == MissingColumn(config.target))
      && (!frame.Ran? ==> trained == frame)
    decreases |ops|
  {
    hide Reading, Programs.EvalOp;
    var last := Train(model, config);
    if ops == [] {
      assert ops + [last] == [last] && [last][0] == last;
      OneColumn(config.target, s.frame, Ran(Programs.ModelProduct(Model(env.graphs[model], config, s.frame))));
    } else {
      assert ops[0] in ops && forall op <- ops[1..] :: op in ops;
      assert (ops + [last])[0] == ops[0] && (ops + [last])[1..] == ops[1..] + [last];
      var o := Programs.EvalOp(g, env, s, ops[0]);
      if o.Ran? {
        TrainingUsesThePipeline(g, env, o.value, ops[1..], model, config);
      }
    }
  }

  // ── Groups ──────────────────────────────────────────────────────────────

  /** Grouping hands its key to the next aggregate, whatever key was waiting before. */
  lemma GroupsReachTheAggregate(g: Engine, env: Programs.Env, s: Programs.State, k: string, f: AggFn, c: string)
    requires k in s.frame.cols && c in s.frame.cols
    ensures Programs.EvalOps(g, env, s, [GroupBy(k), Alone(f, c)])
         == Programs.EvalOps(g, env, Programs.State(s.frame, Some(k)), [Alone(f, c)])
    ensures exists stat: Statistic ::
      Programs.EvalOps(g, env, s, [GroupBy(k), Alone(f, c)]) == Ran(Programs.FrameProduct(g.summarize(s.frame, Some(k), [stat])))
  {
    hide Reading, Programs.EvalOp;
    var (first, last) := (GroupBy(k), Alone(f, c));
    var grouped := Programs.State(s.frame, Some(k));
    assert [first, last][1..] == [last] && [last][1..] == [];
    assert !last.Train? && last != first;
    GroupWaits(g, env, s, k);
    var stat := AloneSummarizes(g, env, grouped, f, c);
    var after := Programs.State(g.summarize(s.frame, Some(k), [stat]), None);
    assert Programs.EvalOps(g, env, grouped, [last]) == Programs.EvalOps(g, env, after, []);
  }

  lemma GroupWaits(g: Engine, env: Programs.Env, s: Programs.State, k: string)
    requires k in s.frame.cols
    ensures Programs.EvalOp(g, env, s, GroupBy(k)) == Ran(Programs.State(s.frame, Some(k)))
  {
    OneColumn(k, s.frame, Ran(s.(group := Some(k))));
  }

  lemma AloneSummarizes(g: Engine, env: Programs.Env, s: Programs.State, f: AggFn, c: string) returns (stat: Statistic)
    requires c in s.frame.cols
    ensures Programs.EvalOp(g, env, s, Alone(f, c)) == Ran(Programs.State(g.summarize(s.frame, s.group, [stat]), None))
  {
    hide Reading;
    stat := Programs.StatisticOf(AggSpec(f, c));
    OneColumn(c, s.frame, Programs.Summarized(g, s, stat));
  }

  // ── Sorting ─────────────────────────────────────────────────────────────

  predicate InOrder(xs: seq<int>, desc: bool) {
    forall i, j | 0 <= i < j < |xs| :: if desc then xs[i] >= xs[j] else xs[i] <= xs[j]
  }

  function Values(xs: seq<int>): (vs: seq<Value>)
    ensures |vs| == |xs|
  {
    seq(|xs|, i requires 0 <= i < |xs| => IntV(xs[i]))
  }

  /** The engine sorts integers: every position once, values going up, or down when asked to. */
  ghost predicate Sorts(g: Engine) {
    forall xs: seq<int>, desc: bool ::
      var at := g.sortOrder(Values(xs), desc);
      RowChoices.IsPermutation(at, |xs|) && InOrder(seq(|at|, i requires 0 <= i < |at| => if at[i] < |xs| then xs[at[i]] else 0), desc)
  }

  /** Sorting by an integer column puts its values in the order asked for. */
  lemma OrderBySorts(g: Engine, env: Programs.Env, s: Programs.State, c: string, desc: bool)
    requires Sorts(g) && c in s.frame.cols && IsIntegers(s.frame, c)
    ensures Programs.EvalOp(g, env, s, OrderBy(c, desc)).Ran?
    ensures var after := Programs.EvalOp(g, env, s, OrderBy(c, desc)).value.frame;
      && |after.rows| == |s.frame.rows| && IsIntegers(after, c) && InOrder(Integers(after, c), desc)
  {
    hide Reading, Pick, Column, InOrder, RowChoices.IsPermutation;
    var (f, xs) := (s.frame, Integers(s.frame, c));
    ColumnHasIntegers(f, c);
    var at := g.sortOrder(Column(f, c), desc);
    assert at == g.sortOrder(Values(xs), desc);
    OneColumn(c, f, Programs.With(s, Choose(f, at)));
    RowChoices.OrderByRearranges(g, env, s, c, desc);
    var after := Programs.EvalOp(g, env, s, OrderBy(c, desc)).value.frame;
    AtPermuted(after, f, at, c);
    assert Integers(after, c) == seq(|at|, i requires 0 <= i < |at| => if at[i] < |xs| then xs[at[i]] else 0);
  }

  lemma ColumnHasIntegers(f: Frame, c: string)
    requires IsIntegers(f, c)
    ensures Column(f, c) == Values(Integers(f, c))
  {
  }

  lemma AtPermuted(after: Frame, f: Frame, at: seq<nat>, c: string)
    requires IsIntegers(f, c) && RowChoices.IsPermutation(at, |f.rows|) && |after.rows| == |f.rows|
    requires forall i | 0 <= i < |after.rows| :: after.rows[i] == f.rows[at[i]]
    ensures |at| == |f.rows| && IsIntegers(after, c)
    ensures forall i | 0 <= i < |at| :: at[i] < |f.rows| && Integers(after, c)[i] == Integers(f, c)[at[i]]
  {
  }
}
