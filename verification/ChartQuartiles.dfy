/** The quartiles of a box plot by the order statistics they interpolate. */
module ChartQuartiles {
  import opened ChartStats
  import opened Ordering

  /** The p-quantile for p = j / 4 lies r quarters of the way from the order statistic i to the next. */
  lemma QuarterIndex(n: nat, j: nat)
    requires n >= 1 && j <= 4
    ensures var (h, p) := (Index(n, j as real / 4.0), j * (n - 1));
      h.Floor == p / 4 && h - (p / 4) as real == (p % 4) as real / 4.0
  {
    var (h, p) := (Index(n, j as real / 4.0), j * (n - 1));
    assert 4.0 * h == p as real;
    assert p == 4 * (p / 4) + p % 4;
  }

  /** Four times the value p quarters of the way through the sorted data, counting steps between neighbours. */
  function FourTimesAt(s: seq<real>, p: nat): real
    requires p / 4 < |s|
  {
    var (i, r) := (p / 4, p % 4);
    (4 - r) as real * s[i] + r as real * s[Next(|s|, i)]
  }

  lemma QuarterQuantile(s: seq<real>, j: nat)
    requires s != [] && j <= 4
    ensures j * (|s| - 1) / 4 < |s| && 4.0 * Quantile(s, j as real / 4.0) == FourTimesAt(s, j * (|s| - 1))
  {
    hide Index;
    QuarterIndex(|s|, j);
    var (i, r) := (j * (|s| - 1) / 4, j * (|s| - 1) % 4);
    Quarters(s[i], s[Next(|s|, i)], r);
  }

  lemma Quarters(a: real, b: real, r: nat)
    requires r < 4
    ensures 4.0 * Blend(a, b, r as real / 4.0) == (4 - r) as real * a + r as real * b
  {
  }

  /** Everything up to the lower of the two neighbours is at most the quantile, everything from the upper on at least. */
  lemma QuarterSplits(s: seq<real>, j: nat)
    requires s != [] && Ascending(s) && j <= 4
    ensures forall i | 0 <= i < |s| && 4 * i <= j * (|s| - 1) :: s[i] <= Quantile(s, j as real / 4.0)
    ensures forall i | 0 <= i < |s| && 4 * i >= j * (|s| - 1) :: Quantile(s, j as real / 4.0) <= s[i]
  {
    hide Index, At;
    var h := Index(|s|, j as real / 4.0);
    QuarterIndex(|s|, j);
    AtBetween(s, h);
    AtAbove(s, h);
  }

  // ── The summary ─────────────────────────────────────────────────────────

  lemma SummaryQuartiles(values: seq<real>)
    requires values != []
    ensures var (s, f) := (SortAscending(values), FiveNumber(values));
      && |s| == |values| && Ascending(s)
      && f.q1 == Quantile(s, 1 as real / 4.0) && f.median == Quantile(s, 2 as real / 4.0)
      && f.q3 == Quantile(s, 3 as real / 4.0)
  {
    hide StableSort, Quantile;
    SortedValues(values);
    assert 1 as real / 4.0 == 0.25 && 2 as real / 4.0 == 0.5 && 3 as real / 4.0 == 0.75;
  }

  /** The middle of the sorted data: the middle one, or half-way between the middle two. */
  lemma MedianIsTheMiddle(values: seq<real>)
    requires values != []
    ensures var (s, n) := (SortAscending(values), |values|);
      |s| == n && 2.0 * FiveNumber(values).median == s[(n - 1) / 2] + s[n / 2]
  {
    hide StableSort, Quantile, FiveNumber, SortAscending, Ascending;
    SummaryQuartiles(values);
    var s := SortAscending(values);
    var (i, r) := (2 * (|s| - 1) / 4, 2 * (|s| - 1) % 4);
    QuarterQuantile(s, 2);
    MiddleIndices(|s|);
    HalfWay(s[i], s[Next(|s|, i)], r);
  }

  lemma HalfWay(a: real, b: real, r: nat)
    requires r in {0, 2}
    ensures (4 - r) as real * a + r as real * b == if r == 0 then 4.0 * a else 2.0 * (a + b)
  {
  }

  lemma MiddleIndices(n: nat)
    requires n >= 1
    ensures var (i, r) := (2 * (n - 1) / 4, 2 * (n - 1) % 4);
      i == (n - 1) / 2 < n && if n % 2 == 1 then r == 0 && n / 2 == i else r == 2 && n / 2 == Next(n, i)
  {
  }

  /** The outer quartiles, r quarters of the way between neighbouring order statistics. */
  lemma QuartilesInterpolate(values: seq<real>)
    requires values != []
    ensures var (s, n, f) := (SortAscending(values), |values|, FiveNumber(values));
      && |s| == n
      && 4.0 * f.q1 == FourTimesAt(s, n - 1)
      && 3 * (n - 1) / 4 < n && 4.0 * f.q3 == FourTimesAt(s, 3 * (n - 1))
  {
    hide StableSort, Quantile, FiveNumber, SortAscending, Ascending, FourTimesAt;
    SummaryQuartiles(values);
    OuterIndices(|values|);
    QuarterQuantile(SortAscending(values), 1);
    QuarterQuantile(SortAscending(values), 3);
  }

  lemma OuterIndices(n: nat)
    requires n >= 1
    ensures 1 * (n - 1) == n - 1 && (n - 1) / 4 < n && 3 * (n - 1) / 4 < n
  {
  }

  /** At least a quarter of the data is at or below q1, half on either side of the median, a quarter at or above q3. */
  lemma QuartilesSplitTheData(values: seq<real>)
    requires values != []
    ensures var (s, n, f) := (SortAscending(values), |values|, FiveNumber(values));
      && |s| == n
      && (forall i | 0 <= i < n && 4 * i < n :: s[i] <= f.q1)
      && (forall i | 0 <= i < n && 2 * i < n :: s[i] <= f.median <= s[n - 1 - i])
      && (forall i | 0 <= i < n && 4 * i < n :: f.q3 <= s[n - 1 - i])
  {
    hide StableSort, Quantile, FiveNumber, SortAscending, Ascending;
    SummaryQuartiles(values);
    QuarterSplits(SortAscending(values), 1);
    QuarterSplits(SortAscending(values), 2);
    QuarterSplits(SortAscending(values), 3);
  }
}
