/** Box-plot and histogram statistics of the result charts, over the reals. */
module ChartStats {
  import opened Ordering
  import opened Words

  predicate Smaller(a: real, b: real) {
    a < b
  }

  ghost predicate Ascending(s: seq<real>) {
    forall i, j | 0 <= i <= j < |s| :: s[i] <= s[j]
  }

  function SortAscending(values: seq<real>): seq<real> {
    StableSort(Smaller, values)
  }

  lemma SortedValues(values: seq<real>)
    ensures Ascending(SortAscending(values))
    ensures multiset(SortAscending(values)) == multiset(values) && |SortAscending(values)| == |values|
  {
    assert WeakOrder(Smaller);
    SortSorts(Smaller, values);
    SortKeeps(Smaller, values);
    var s := SortAscending(values);
    forall i, j | 0 <= i <= j < |s| ensures s[i] <= s[j] {
      assert i < j ==> !Smaller(s[j], s[i]);
    }
  }

  // ── Quantiles ───────────────────────────────────────────────────────────

  lemma Product(a: real, b: real, c: real)
    requires 0.0 <= a <= b && 0.0 <= c
    ensures 0.0 <= a * c <= b * c
  {
  }

  function Scaled(x: real, p: real): real {
    x * p
  }

  lemma ScaledMonotone(x: real, a: real, b: real)
    requires 0.0 <= x && 0.0 <= a <= b
    ensures 0.0 <= Scaled(x, a) <= Scaled(x, b) && Scaled(x, 1.0) == x
  {
  }

  /** The point a fraction f of the way from a to b. */
  function Blend(a: real, b: real, f: real): real {
    a + f * (b - a)
  }

  lemma BlendBetween(a: real, b: real, f: real)
    requires a <= b && 0.0 <= f <= 1.0
    ensures a <= Blend(a, b, f) <= b && (f == 0.0 ==> Blend(a, b, f) == a)
    ensures f < 1.0 && a < b ==> Blend(a, b, f) < b
  {
    Product(f, 1.0, b - a);
    if f < 1.0 && a < b {
      FractionIsProper(f, b - a);
    }
  }

  lemma FractionIsProper(a: real, gap: real)
    requires 0.0 <= a < 1.0 && gap > 0.0
    ensures a * gap < gap
  {
  }

  lemma BlendMonotone(a: real, b: real, f: real, g: real)
    requires a <= b && 0.0 <= f <= g
    ensures Blend(a, b, f) <= Blend(a, b, g)
  {
    Product(f, g, b - a);
  }

  function Next(n: nat, low: nat): nat
    requires low < n
  {
    if low + 1 <= n - 1 then low + 1 else n - 1
  }

  /** Linear interpolation at the real index h. */
  function At(s: seq<real>, h: real): real
    requires s != [] && 0.0 <= h <= (|s| - 1) as real
  {
    var low := h.Floor;
    Blend(s[low], s[Next(|s|, low)], h - low as real)
  }

  function Index(n: nat, p: real): (h: real)
    requires n >= 1 && 0.0 <= p <= 1.0
    ensures 0.0 <= h <= (n - 1) as real
  {
    var x := (n - 1) as real;
    ScaledMonotone(x, p, 1.0);
    Scaled(x, p)
  }

  function Quantile(s: seq<real>, p: real): real
    requires s != [] && 0.0 <= p <= 1.0
  {
    At(s, Index(|s|, p))
  }

  /** The interpolated value lies between its two neighbours. */
  lemma AtBetween(s: seq<real>, h: real)
    requires s != [] && Ascending(s) && 0.0 <= h <= (|s| - 1) as real
    ensures var low := h.Floor;
      && s[low] <= At(s, h) <= s[Next(|s|, low)]
      && (h == low as real ==> At(s, h) == s[low])
      && (At(s, h) == s[Next(|s|, low)] ==> s[low] == s[Next(|s|, low)])
  {
    hide Blend;
    var low := h.Floor;
    BlendBetween(s[low], s[Next(|s|, low)], h - low as real);
  }

  lemma AtMonotone(s: seq<real>, g: real, h: real)
    requires s != [] && Ascending(s) && 0.0 <= g <= h <= (|s| - 1) as real
    ensures At(s, g) <= At(s, h)
  {
    hide Blend;
    var low := g.Floor;
    if low == h.Floor {
      BlendMonotone(s[low], s[Next(|s|, low)], g - low as real, h - low as real);
    } else {
      AtBetween(s, g);
      AtBetween(s, h);
    }
  }

  lemma AtInRange(s: seq<real>, h: real)
    requires s != [] && Ascending(s) && 0.0 <= h <= (|s| - 1) as real
    ensures s[0] <= At(s, h) <= s[|s| - 1]
  {
    hide At;
    AtBetween(s, h);
    assert s[0] <= s[h.Floor] && s[Next(|s|, h.Floor)] <= s[|s| - 1];
  }

  lemma IndexMonotone(n: nat, p: real, q: real)
    requires n >= 1 && 0.0 <= p <= q <= 1.0
    ensures Index(n, p) <= Index(n, q)
  {
    hide Scaled;
    ScaledMonotone((n - 1) as real, p, q);
  }

  /** The quantile never decreases in p and never leaves the data's range. */
  lemma QuantileMonotone(s: seq<real>, p: real, q: real)
    requires s != [] && Ascending(s) && 0.0 <= p <= q <= 1.0
    ensures s[0] <= Quantile(s, p) <= Quantile(s, q) <= s[|s| - 1]
  {
    hide At, Index, Ascending;
    IndexMonotone(|s|, p, q);
    AtMonotone(s, Index(|s|, p), Index(|s|, q));
    AtInRange(s, Index(|s|, p));
    AtInRange(s, Index(|s|, q));
  }

  // ── Box plot ────────────────────────────────────────────────────────────

  datatype Summary = Summary(
    n: nat, min: real, q1: real, median: real, q3: real, max: real,
    whiskerLow: real, whiskerHigh: real, outliers: seq<real>)

  datatype Fences = Fences(low: real, high: real) {
    predicate Holds(v: real) {
      low <= v <= high
    }
  }

  function FencesOf(s: seq<real>): Fences
    requires s != []
  {
    var q1, q3 := Quantile(s, 0.25), Quantile(s, 0.75);
    Fences(q1 - 1.5 * (q3 - q1), q3 + 1.5 * (q3 - q1))
  }

  function Inside(s: seq<real>, f: Fences): (r: seq<real>)
    ensures forall v <- r :: f.Holds(v)
  {
    if s == [] then [] else if f.Holds(s[0]) then [s[0]] + Inside(s[1..], f) else Inside(s[1..], f)
  }

  function Outside(s: seq<real>, f: Fences): (r: seq<real>)
    ensures forall v <- r :: !f.Holds(v)
  {
    if s == [] then [] else if f.Holds(s[0]) then Outside(s[1..], f) else [s[0]] + Outside(s[1..], f)
  }

  lemma {:induction false} FencesPartition(s: seq<real>, f: Fences)
    ensures multiset(Inside(s, f)) + multiset(Outside(s, f)) == multiset(s)
    ensures forall v | v in s && f.Holds(v) :: v in Inside(s, f)
  {
    if s != [] {
      assert s == [s[0]] + s[1..];
      FencesPartition(s[1..], f);
    }
  }

  lemma {:induction false} InsideAscending(s: seq<real>, f: Fences)
    requires Ascending(s)
    ensures Ascending(Inside(s, f)) && forall v <- Inside(s, f) :: v in s
  {
    if s != [] {
      InsideAscending(s[1..], f);
      var r := Inside(s[1..], f);
      forall v | v in r ensures v in s && s[0] <= v {
        assert v in s[1..];
      }
      assert forall j | 0 <= j < |r| :: r[j] in r;
    }
  }

  /** Some data point lies within the fences, so the whisker range is never empty. */
  lemma FencesHoldAPoint(s: seq<real>) returns (k: nat)
    requires s != [] && Ascending(s)
    ensures k < |s| && FencesOf(s).Holds(s[k])
  {
    QuantileMonotone(s, 0.25, 0.75);
    var g, h := Index(|s|, 0.25), Index(|s|, 0.75);
    AtBetween(s, g);
    AtBetween(s, h);
    if |s| == 2 {
      k := 0;
    } else {
      k := h.Floor;
      assert g <= h.Floor as real;
      AtMonotone(s, g, h.Floor as real);
      AtBetween(s, h.Floor as real);
    }
  }

  function FiveNumber(values: seq<real>): Summary
    requires values != []
  {
    SortedValues(values);
    var s := SortAscending(values);
    var f := FencesOf(s);
    var inside := Inside(s, f);
    assert inside != [] by {
      var k := FencesHoldAPoint(s);
      FencesPartition(s, f);
      assert s[k] in inside;
    }
    Summary(|s|, s[0], Quantile(s, 0.25), Quantile(s, 0.5), Quantile(s, 0.75), s[|s| - 1],
            inside[0], inside[|inside| - 1], Outside(s, f))
  }

  ghost predicate IsLeast(x: real, m: multiset<real>) {
    x in m && forall v | v in m :: x <= v
  }

  ghost predicate IsGreatest(x: real, m: multiset<real>) {
    x in m && forall v | v in m :: v <= x
  }

  /**
    The five numbers are ordered; the data splits, without loss, into the points within the
    fences, which the whiskers span, and the outliers beyond them.
   */
  lemma FiveNumberMeans(values: seq<real>) returns (inside: seq<real>)
    requires values != []
    ensures var r := FiveNumber(values);
      && r.n == |values| && IsLeast(r.min, multiset(values)) && IsGreatest(r.max, multiset(values))
      && r.min <= r.q1 <= r.median <= r.q3 <= r.max
      && multiset(inside) + multiset(r.outliers) == multiset(values)
      && IsLeast(r.whiskerLow, multiset(inside)) && IsGreatest(r.whiskerHigh, multiset(inside))
      && var f := Fences(r.q1 - 1.5 * (r.q3 - r.q1), r.q3 + 1.5 * (r.q3 - r.q1));
         (forall v <- inside :: f.Holds(v)) && (forall v <- r.outliers :: !f.Holds(v))
  {
    hide StableSort, At;
    SortedValues(values);
    var s := SortAscending(values);
    QuantileMonotone(s, 0.25, 0.5);
    QuantileMonotone(s, 0.5, 0.75);
    inside := Inside(s, FencesOf(s));
    FencesPartition(s, FencesOf(s));
    InsideAscending(s, FencesOf(s));
    EndsAreExtremes(s);
    assert inside != [] by {
      var k := FencesHoldAPoint(s);
      assert s[k] in inside;
    }
    EndsAreExtremes(inside);
  }

  lemma EndsAreExtremes(s: seq<real>)
    requires s != [] && Ascending(s)
    ensures IsLeast(s[0], multiset(s)) && IsGreatest(s[|s| - 1], multiset(s))
  {
    forall v | v in multiset(s) ensures s[0] <= v <= s[|s| - 1] {
      assert v in s;
    }
  }

  /**
    The low whisker reaches the first quartile exactly when the data point just below the
    quartile is not itself an outlier. With 0, 100, 100, 100 it is one, and the whisker is above.
   */
  lemma LowWhiskerReachesTheBox(values: seq<real>)
    requires values != []
    ensures var s, r := SortAscending(values), FiveNumber(values);
      |s| == |values| && Index(|s|, 0.25).Floor < |s| &&
      (r.whiskerLow <= r.q1 <==> s[Index(|s|, 0.25).Floor] >= r.q1 - 1.5 * (r.q3 - r.q1))
  {
    hide StableSort, At, Index;
    SortedValues(values);
    var s, f := SortAscending(values), FencesOf(SortAscending(values));
    var low := Index(|s|, 0.25).Floor;
    QuantileMonotone(s, 0.25, 0.75);
    AtBetween(s, Index(|s|, 0.25));
    FencesPartition(s, f);
    InsideAscending(s, f);
    var inside := Inside(s, f);
    if f.Holds(s[low]) {
      assert s[low] in inside;
      EndsAreExtremes(inside);
      assert s[low] in multiset(inside);
    } else {
      var k := FencesHoldAPoint(s);
      assert s[k] in inside;
      InsideStartsAbove(s, f, low);
    }
  }

  /** When s[low] lies below the fences, everything within them is at or above the next point. */
  lemma InsideStartsAbove(s: seq<real>, f: Fences, low: nat)
    requires Ascending(s) && low < |s| && s[low] < f.low && Inside(s, f) != []
    ensures Inside(s, f)[0] >= s[Next(|s|, low)] && Inside(s, f)[0] > s[low]
  {
    InsideAscending(s, f);
    var x := Inside(s, f)[0];
    assert x in Inside(s, f) && x in s;
    var j :| 0 <= j < |s| && s[j] == x;
  }

  /** The data point at the index h, or the next one above it. */
  function Above(n: nat, h: real): (i: nat)
    requires n >= 1 && 0.0 <= h <= (n - 1) as real
    ensures i < n && h <= i as real
  {
    if h == h.Floor as real then h.Floor else Next(n, h.Floor)
  }

  lemma BlendAbove(a: real, b: real, f: real)
    requires a < b && 0.0 < f
    ensures Blend(a, b, f) > a
  {
  }

  lemma AtAbove(s: seq<real>, h: real)
    requires s != [] && Ascending(s) && 0.0 <= h <= (|s| - 1) as real
    ensures At(s, h) <= s[Above(|s|, h)]
    ensures At(s, h) < s[Above(|s|, h)] ==> s[h.Floor] < At(s, h) && Above(|s|, h) == h.Floor + 1
  {
    hide Blend;
    AtBetween(s, h);
    var low := h.Floor;
    if h != low as real && s[low] < s[Next(|s|, low)] {
      BlendAbove(s[low], s[Next(|s|, low)], h - low as real);
    }
  }

  /** The high whisker reaches the third quartile exactly when the data point just above the quartile is no outlier. */
  lemma HighWhiskerReachesTheBox(values: seq<real>)
    requires values != []
    ensures var s, r := SortAscending(values), FiveNumber(values);
      |s| == |values| &&
      (r.q3 <= r.whiskerHigh <==> s[Above(|s|, Index(|s|, 0.75))] <= r.q3 + 1.5 * (r.q3 - r.q1))
  {
    hide StableSort, At, Index;
    SortedValues(values);
    var s, f := SortAscending(values), FencesOf(SortAscending(values));
    var h := Index(|s|, 0.75);
    var up := Above(|s|, h);
    QuantileMonotone(s, 0.25, 0.75);
    AtAbove(s, h);
    FencesPartition(s, f);
    InsideAscending(s, f);
    var inside := Inside(s, f);
    if f.Holds(s[up]) {
      assert s[up] in inside;
      EndsAreExtremes(inside);
      assert s[up] in multiset(inside);
    } else {
      var k := FencesHoldAPoint(s);
      assert s[k] in inside;
      InsideEndsBelow(s, f, up);
    }
  }

  /** When s[up] lies above the fences, everything within them comes before it. */
  lemma InsideEndsBelow(s: seq<real>, f: Fences, up: nat)
    requires Ascending(s) && up < |s| && s[up] > f.high && Inside(s, f) != []
    ensures var r := Inside(s, f); up > 0 && r[|r| - 1] <= s[up - 1]
  {
    InsideAscending(s, f);
    var x := Inside(s, f)[|Inside(s, f)| - 1];
    assert x in Inside(s, f) && x in s;
    var j :| 0 <= j < |s| && s[j] == x;
  }

  lemma AscendingIsSorted(s: seq<real>)
    ensures Ascending(s) ==> SortAscending(s) == s
  {
    if Ascending(s) {
      SortedValues(s);
      SortedIsUnique(Smaller, SortAscending(s), s);
    }
  }

  const LOW_OUTLIER: seq<real> := [0.0, 100.0, 100.0, 100.0]
  const HIGH_OUTLIER: seq<real> := [0.0, 0.0, 0.0, 100.0]

  lemma LowOutlierFences()
    ensures FencesOf(LOW_OUTLIER) == Fences(37.5, 137.5) && Quantile(LOW_OUTLIER, 0.25) == 75.0
  {
    assert Index(4, 0.25) == 0.75 && Index(4, 0.75) == 2.25;
    assert 0.75.Floor == 0 && 2.25.Floor == 2;
  }

  lemma HighOutlierFences()
    ensures FencesOf(HIGH_OUTLIER) == Fences(-37.5, 62.5) && Quantile(HIGH_OUTLIER, 0.75) == 25.0
  {
    assert Index(4, 0.25) == 0.75 && Index(4, 0.75) == 2.25;
    assert 0.75.Floor == 0 && 2.25.Floor == 2;
  }

  lemma FourInside(s: seq<real>, f: Fences)
    requires |s| == 4 && f.Holds(s[1]) && f.Holds(s[2])
    ensures Inside(s, f) == (if f.Holds(s[0]) then [s[0]] else []) + [s[1], s[2]] + if f.Holds(s[3]) then [s[3]] else []
  {
    assert s[1..][1..] == s[2..] && s[2..][1..] == s[3..] && s[3..][1..] == [];
    assert Inside(s[3..], f) == if f.Holds(s[3]) then [s[3]] else [];
    assert Inside(s[2..], f) == [s[2]] + Inside(s[3..], f);
    assert Inside(s[1..], f) == [s[1]] + Inside(s[2..], f);
  }

  /** Data whose low whisker stops above the box, and its mirror image. */
  lemma WhiskersOutsideTheBox()
    ensures FiveNumber(LOW_OUTLIER).whiskerLow == 100.0 > FiveNumber(LOW_OUTLIER).q1 == 75.0
    ensures FiveNumber(HIGH_OUTLIER).whiskerHigh == 0.0 < FiveNumber(HIGH_OUTLIER).q3 == 25.0
  {
    hide SortAscending, Quantile, FencesOf, Inside, Outside;
    LowOutlierFences();
    HighOutlierFences();
    AscendingIsSorted(LOW_OUTLIER);
    AscendingIsSorted(HIGH_OUTLIER);
    FourInside(LOW_OUTLIER, Fences(37.5, 137.5));
    FourInside(HIGH_OUTLIER, Fences(-37.5, 62.5));
  }

  // ── Histogram ───────────────────────────────────────────────────────────

  datatype Bin = Bin(start: real, end: real, count: nat)

  /** `Math.ceil(Math.log2(n)) + 1`: Sturges' bin count. */
  function BinCount(n: nat): (b: nat)
    requires n >= 1
    ensures b >= 1 && Pow2(b - 1) >= n && (b >= 2 ==> Pow2(b - 2) < n)
  {
    CeilLog2(n, 0) + 1
  }

  function CeilLog2(n: nat, k: nat): (c: nat)
    requires k == 0 || Pow2(k - 1) < n
    ensures Pow2(c) >= n && c >= k && (c >= 1 ==> Pow2(c - 1) < n)
    decreases if Pow2(k) < n then n - Pow2(k) else 0
  {
    if Pow2(k) >= n then k else CeilLog2(n, k + 1)
  }

  /** The i-th bin edge. */
  function Edge(min: real, i: nat, width: real): real {
    min + i as real * width
  }

  /** The values a bin counts: closed below, open above, the last bin closed on both sides. */
  predicate InBin(v: real, i: nat, bins: nat, min: real, width: real) {
    Edge(min, i, width) <= v && (v < Edge(min, i + 1, width) || i == bins - 1)
  }

  function CountIn(values: seq<real>, i: nat, bins: nat, min: real, width: real): nat {
    if values == [] then 0 else
      var last := if InBin(values[|values| - 1], i, bins, min, width) then 1 else 0;
      CountIn(values[..|values| - 1], i, bins, min, width) + last
  }

  function BinOf(v: real, bins: nat, min: real, width: real): int
    requires bins >= 1 && width > 0.0
  {
    var k := ((v - min) / width).Floor;
    if bins - 1 <= k then bins - 1 else k
  }

  lemma QuotientBounds(x: real, w: real, k: int)
    requires w > 0.0
    ensures k as real <= x / w <==> k as real * w <= x
  {
    var q := x / w;
    assert q * w == x;
    if k as real <= q {
      ScaleUp(k as real, q, w);
    } else {
      ScaleUpStrictly(q, k as real, w);
    }
  }

  lemma ScaleUp(a: real, b: real, w: real)
    requires a <= b && w > 0.0
    ensures a * w <= b * w
  {
  }

  lemma ScaleUpStrictly(a: real, b: real, w: real)
    requires a < b && w > 0.0
    ensures a * w < b * w
  {
  }

  /** The index computed for a value is the one bin that holds it. */
  lemma BinIsUnique(v: real, i: nat, bins: nat, min: real, width: real)
    requires bins >= 1 && width > 0.0 && min <= v && i < bins
    ensures 0 <= BinOf(v, bins, min, width) < bins
    ensures InBin(v, i, bins, min, width) <==> BinOf(v, bins, min, width) == i
  {
    QuotientBounds(v - min, width, 0);
    QuotientBounds(v - min, width, i);
    QuotientBounds(v - min, width, i + 1);
  }

  function Total(counts: seq<nat>): nat {
    if counts == [] then 0 else Total(counts[..|counts| - 1]) + counts[|counts| - 1]
  }

  lemma {:induction false} TotalAfterIncrement(counts: seq<nat>, i: nat)
    requires i < |counts|
    ensures Total(counts[i := counts[i] + 1]) == Total(counts) + 1
  {
    var more := counts[i := counts[i] + 1];
    var n := |counts| - 1;
    if i == n {
      assert more[..n] == counts[..n];
    } else {
      assert more[..n] == counts[..n][i := counts[i] + 1];
      TotalAfterIncrement(counts[..n], i);
    }
  }

  lemma {:induction false} TotalOfZeros(counts: seq<nat>)
    requires forall i | 0 <= i < |counts| :: counts[i] == 0
    ensures Total(counts) == 0
  {
    if counts != [] {
      TotalOfZeros(counts[..|counts| - 1]);
    }
  }

  lemma CountInNext(values: seq<real>, k: nat, i: nat, bins: nat, min: real, width: real)
    requires k < |values|
    ensures CountIn(values[..k + 1], i, bins, min, width)
         == CountIn(values[..k], i, bins, min, width) + if InBin(values[k], i, bins, min, width) then 1 else 0
  {
    assert values[..k + 1][..k] == values[..k];
  }

  method MinMax(values: seq<real>) returns (min: real, max: real)
    requires values != []
    ensures IsLeast(min, multiset(values)) && IsGreatest(max, multiset(values))
  {
    min, max := values[0], values[0];
    for i := 1 to |values|
      invariant min in values && max in values
      invariant forall j | 0 <= j < i :: min <= values[j] <= max
    {
      min := if values[i] < min then values[i] else min;
      max := if values[i] > max then values[i] else max;
    }
    forall v | v in multiset(values) ensures min <= v <= max {
      assert v in values;
    }
  }

  ghost predicate Tiles(bins: seq<Bin>, min: real, max: real) {
    && bins != [] && bins[0].start == min && bins[|bins| - 1].end == max
    && (forall i | 0 <= i < |bins| :: bins[i].start < bins[i].end)
    && (forall i | 0 <= i < |bins| - 1 :: bins[i].end == bins[i + 1].start)
  }

  function BinCounts(bins: seq<Bin>): seq<nat> {
    seq(|bins|, i requires 0 <= i < |bins| => bins[i].count)
  }

  /** The counting loop, on an array of counters. */
  method CountBins(values: seq<real>, bins: nat, min: real, width: real) returns (counts: array<nat>)
    requires bins >= 1 && width > 0.0 && forall v <- values :: min <= v
    ensures fresh(counts) && counts.Length == bins
    ensures forall i | 0 <= i < bins :: counts[i] == CountIn(values, i, bins, min, width)
    ensures Total(counts[..]) == |values|
  {
    counts := new nat[bins](_ => 0);
    TotalOfZeros(counts[..]);
    assert values[..0] == [] && values[..|values|] == values;
    for k := 0 to |values|
      invariant forall i | 0 <= i < bins :: counts[i] == CountIn(values[..k], i, bins, min, width)
      invariant Total(counts[..]) == k
    {
      var v := values[k];
      assert v in values;
      BinIsUnique(v, 0, bins, min, width);
      var b := BinOf(v, bins, min, width);
      forall i | 0 <= i < bins
        ensures CountIn(values[..k + 1], i, bins, min, width)
             == CountIn(values[..k], i, bins, min, width) + if i == b then 1 else 0
      {
        CountInNext(values, k, i, bins, min, width);
        BinIsUnique(v, i, bins, min, width);
      }
      TotalAfterIncrement(counts[..], b);
      ghost var before := counts[..];
      counts[b] := counts[b] + 1;
      assert counts[..] == before[b := before[b] + 1];
    }
  }

  lemma WidthTimesBins(min: real, max: real, bins: nat)
    requires min < max && bins >= 1
    ensures var width := (max - min) / bins as real; width > 0.0 && Edge(min, bins, width) == max
  {
    var width := (max - min) / bins as real;
    assert bins as real * width == max - min;
    if width <= 0.0 {
      Product(0.0, bins as real, -width);
    }
  }

  function BinAt(i: nat, binCount: nat, min: real, max: real, width: real, count: nat): Bin {
    Bin(Edge(min, i, width), if i == binCount - 1 then max else Edge(min, i + 1, width), count)
  }

  /** The bins of data that is not constant. */
  ghost predicate AreBins(bins: seq<Bin>, values: seq<real>, binCount: nat, min: real, max: real)
    requires binCount >= 1
  {
    var width := (max - min) / binCount as real;
    && |bins| == binCount && Tiles(bins, min, max)
    && forall i | 0 <= i < binCount ::
         bins[i].start == Edge(min, i, width) && bins[i].count == CountIn(values, i, binCount, min, width)
  }

  /**
    Equal-width bins tile [min, max]; each count is the number of values in its bin (the last
    one closed), and the counts add up to the number of values.
   */
  method Histogram(values: seq<real>, binCount: nat) returns (bins: seq<Bin>)
    requires binCount >= 1
    ensures values == [] ==> bins == []
    ensures Total(BinCounts(bins)) == |values|
    ensures values != [] ==>
      exists min, max :: IsLeast(min, multiset(values)) && IsGreatest(max, multiset(values)) &&
        if min == max then bins == [Bin(min, max, |values|)] else AreBins(bins, values, binCount, min, max)
  {
    if values == [] {
      return [];
    }
    var min, max := MinMax(values);
    if min == max {
      bins := [Bin(min, max, |values|)];
      assert BinCounts(bins) == [|values|];
      return;
    }
    bins := SpreadBins(values, binCount, min, max);
  }

  method SpreadBins(values: seq<real>, binCount: nat, min: real, max: real) returns (bins: seq<Bin>)
    requires binCount >= 1 && min < max && IsLeast(min, multiset(values))
    ensures Total(BinCounts(bins)) == |values| && AreBins(bins, values, binCount, min, max)
  {
    hide CountIn, Edge, Total;
    assert forall v <- values :: v in multiset(values);
    WidthTimesBins(min, max, binCount);
    var width := (max - min) / binCount as real;
    var counts := CountBins(values, binCount, min, width);
    bins := [];
    for i := 0 to binCount
      invariant |bins| == i
      invariant forall j | 0 <= j < i :: bins[j] == BinAt(j, binCount, min, max, width, counts[j])
    {
      bins := bins + [BinAt(i, binCount, min, max, width, counts[i])];
    }
    TilesFromWidth(bins, min, max, width);
    assert BinCounts(bins) == counts[..];
  }

  lemma TilesFromWidth(bins: seq<Bin>, min: real, max: real, width: real)
    requires bins != [] && width > 0.0 && Edge(min, |bins|, width) == max
    requires forall j | 0 <= j < |bins| :: bins[j] == BinAt(j, |bins|, min, max, width, bins[j].count)
    ensures Tiles(bins, min, max)
  {
    hide Edge;
    FirstEdge(min, width);
    forall j | 0 <= j < |bins| ensures bins[j].start < bins[j].end {
      EdgesIncrease(min, j, width);
    }
  }

  lemma FirstEdge(min: real, width: real)
    ensures Edge(min, 0, width) == min
  {
  }

  lemma EdgesIncrease(min: real, j: nat, width: real)
    requires width > 0.0
    ensures Edge(min, j, width) < Edge(min, j + 1, width)
  {
    ScaleUpStrictly(j as real, (j + 1) as real, width);
  }
}
