/** Noise injection into data frames, on the pandas path and on the polars path. */
module DpFrames {
  import opened Words
  import opened SplitMix
  import opened Noise

  datatype DType =
    | Float64 | Float32
    | Int64 | Int32 | Int16 | Int8
    | UInt64 | UInt32 | UInt16 | UInt8
    | Boolean | Text

  /** Null is polars' missing value; NaN is a float, and pandas' only missing value. */
  datatype Cell = Null | NaN | Num(value: real) | Flag(b: bool) | Str(s: string)

  datatype Column = Column(name: string, dtype: DType, cells: seq<Cell>)

  type Frame = seq<Column>

  datatype Kind = Pandas | Polars

  /** Columns of a number type hold numbers, NaN or null. */
  ghost predicate WellTyped(df: Frame) {
    forall c, r {:trigger df[c].cells[r]} ::
      0 <= c < |df| && Numeric(df[c].dtype) && 0 <= r < |df[c].cells| ==>
        df[c].cells[r].Null? || df[c].cells[r].NaN? || df[c].cells[r].Num?
  }

  /** `is_numeric_dtype(col) and not is_bool_dtype(col)`: booleans count as numbers for pandas. */
  predicate PandasNumeric(d: DType) {
    d != Text && d != Boolean
  }

  /** Membership in the fixed set of polars number types. */
  predicate PolarsNumeric(d: DType) {
    d in {Float64, Float32, Int64, Int32, Int16, Int8, UInt64, UInt32, UInt16, UInt8}
  }

  predicate Numeric(d: DType) {
    PandasNumeric(d)
  }

  /** The cells that draw a sample: pandas skips NaN too, polars only skips null. */
  predicate Observed(kind: Kind, x: Cell) {
    match kind
    case Pandas => !x.Null? && !x.NaN?
    case Polars => !x.Null?
  }

  function Plus(x: Cell, z: real): Cell {
    if x.Num? then Num(x.value + z) else x
  }

  /** A missing cell after the cast to 64-bit floats, which pandas can only spell NaN. */
  function Missing(kind: Kind, x: Cell): Cell {
    if kind.Pandas? && x.Null? then NaN else x
  }

  // ── Which sample goes where ─────────────────────────────────────────────

  function Count(kind: Kind, cells: seq<Cell>, n: nat): (k: nat)
    requires n <= |cells|
    ensures k <= n
  {
    if n == 0 then 0 else Count(kind, cells, n - 1) + if Observed(kind, cells[n - 1]) then 1 else 0
  }

  function CountColumn(kind: Kind, col: Column): nat {
    if Numeric(col.dtype) then Count(kind, col.cells, |col.cells|) else 0
  }

  function CountBefore(kind: Kind, df: Frame, c: nat): nat
    requires c <= |df|
  {
    if c == 0 then 0 else CountBefore(kind, df, c - 1) + CountColumn(kind, df[c - 1])
  }

  /** How many observed cells of numeric columns precede (c, r) in column-major order. */
  function Rank(kind: Kind, df: Frame, c: nat, r: nat): nat
    requires c < |df| && r <= |df[c].cells|
  {
    CountBefore(kind, df, c) + Count(kind, df[c].cells, r)
  }

  ghost predicate Draws(kind: Kind, df: Frame, c: nat, r: nat) {
    c < |df| && Numeric(df[c].dtype) && r < |df[c].cells| && Observed(kind, df[c].cells[r])
  }

  ghost function NoisedCell(kind: Kind, df: Frame, c: nat, r: nat, noise: nat -> real): Cell
    requires c < |df| && r < |df[c].cells|
  {
    var x := df[c].cells[r];
    if Observed(kind, x) then Plus(x, noise(Rank(kind, df, c, r))) else Missing(kind, x)
  }

  ghost function NoisedColumn(kind: Kind, df: Frame, c: nat, noise: nat -> real): Column
    requires c < |df|
  {
    if Numeric(df[c].dtype) then
      Column(df[c].name, Float64,
             seq(|df[c].cells|, r requires 0 <= r < |df[c].cells| => NoisedCell(kind, df, c, r, noise)))
    else
      df[c]
  }

  /** The whole result: shape and names stay, non-numeric columns are untouched. */
  ghost function NoisedFrame(kind: Kind, df: Frame, noise: nat -> real): Frame {
    seq(|df|, c requires 0 <= c < |df| => NoisedColumn(kind, df, c, noise))
  }

  function NumericNames(df: Frame, n: nat): seq<string>
    requires n <= |df|
  {
    if n == 0 then []
    else NumericNames(df, n - 1) + if Numeric(df[n - 1].dtype) then [df[n - 1].name] else []
  }

  /** A numeric column is reported by its name, any other is not. */
  lemma OneName(c: Column)
    ensures NumericNames([c], 1) == if c.dtype in {Boolean, Text} then [] else [c.name]
  {
    assert NumericNames([c], 0) == [];
  }

  lemma NamesNext(front: Frame, last: Column)
    ensures NumericNames(front + [last], |front| + 1) == NumericNames(front, |front|) + NumericNames([last], 1)
  {
    NamesOfFront(front, [last], |front|);
    assert NumericNames([last], 0) == [];
  }

  /** The noised columns are reported in frame order: those of a frame in two parts are those of its parts. */
  lemma {:induction false} NamesInOrder(a: Frame, b: Frame)
    ensures NumericNames(a + b, |a + b|) == NumericNames(a, |a|) + NumericNames(b, |b|)
    decreases |b|
  {
    if b == [] {
      assert a + b == a && NumericNames(b, 0) == [];
    } else {
      hide NumericNames;
      var (front, last) := (b[..|b| - 1], b[|b| - 1]);
      NamesInOrder(a, front);
      NamesNext(a + front, last);
      NamesNext(front, last);
      assert a + b == (a + front) + [last] && b == front + [last];
    }
  }

  lemma {:induction false} NamesOfFront(a: Frame, b: Frame, n: nat)
    requires n <= |a|
    ensures NumericNames(a + b, n) == NumericNames(a, n)
  {
    if n > 0 {
      NamesOfFront(a, b, n - 1);
    }
  }

  lemma {:induction false} CountMonotone(kind: Kind, cells: seq<Cell>, m: nat, n: nat)
    requires m <= n <= |cells|
    ensures Count(kind, cells, m) <= Count(kind, cells, n)
    ensures m < n && Observed(kind, cells[m]) ==> Count(kind, cells, m) < Count(kind, cells, n)
    decreases n
  {
    if m < n {
      CountMonotone(kind, cells, m, n - 1);
    }
  }

  lemma {:induction false} CountBeforeMonotone(kind: Kind, df: Frame, c: nat, d: nat)
    requires c < d <= |df|
    ensures CountBefore(kind, df, c) + CountColumn(kind, df[c]) <= CountBefore(kind, df, d)
    decreases d
  {
    if c < d - 1 {
      CountBeforeMonotone(kind, df, c, d - 1);
    }
  }

  ghost predicate Precedes(c: nat, r: nat, d: nat, q: nat) {
    c < d || (c == d && r < q)
  }

  /** Ranks follow column-major order strictly, so no sample is used twice. */
  lemma RankIncreases(kind: Kind, df: Frame, c: nat, r: nat, d: nat, q: nat)
    requires Draws(kind, df, c, r) && Draws(kind, df, d, q) && Precedes(c, r, d, q)
    ensures Rank(kind, df, c, r) < Rank(kind, df, d, q)
  {
    if c == d {
      CountMonotone(kind, df[c].cells, r, q);
    } else {
      CountMonotone(kind, df[c].cells, r, |df[c].cells|);
      CountBeforeMonotone(kind, df, c, d);
    }
  }

  lemma {:induction false} FindInColumn(kind: Kind, cells: seq<Cell>, n: nat, k: nat) returns (r: nat)
    requires n <= |cells| && k < Count(kind, cells, n)
    ensures r < n && Observed(kind, cells[r]) && Count(kind, cells, r) == k
    decreases n
  {
    if k < Count(kind, cells, n - 1) {
      r := FindInColumn(kind, cells, n - 1, k);
    } else {
      r := n - 1;
    }
  }

  lemma {:induction false} FindInFrame(kind: Kind, df: Frame, n: nat, j: nat) returns (c: nat, r: nat)
    requires n <= |df| && j < CountBefore(kind, df, n)
    ensures c < n && Draws(kind, df, c, r) && Rank(kind, df, c, r) == j
    decreases n
  {
    if j < CountBefore(kind, df, n - 1) {
      c, r := FindInFrame(kind, df, n - 1, j);
    } else {
      c := n - 1;
      r := FindInColumn(kind, df[c].cells, |df[c].cells|, j - CountBefore(kind, df, n - 1));
    }
  }

  /**
    Conservation: each of the first CountBefore(df, |df|) samples goes to one cell and one only,
    and ranks never leave that range.
   */
  lemma EverySampleIsUsedOnce(kind: Kind, df: Frame, j: nat)
    ensures j < CountBefore(kind, df, |df|) <==> exists c: nat, r: nat :: Draws(kind, df, c, r) && Rank(kind, df, c, r) == j
    ensures forall c: nat, r: nat, d: nat, q: nat ::
              Draws(kind, df, c, r) && Rank(kind, df, c, r) == j && Draws(kind, df, d, q) && Rank(kind, df, d, q) == j
              ==> c == d && r == q
  {
    if j < CountBefore(kind, df, |df|) {
      var c, r := FindInFrame(kind, df, |df|, j);
    }
    forall c: nat, r: nat | Draws(kind, df, c, r) && Rank(kind, df, c, r) == j
      ensures j < CountBefore(kind, df, |df|)
    {
      CountMonotone(kind, df[c].cells, r, |df[c].cells|);
      CountBeforeMonotone(kind, df, c, |df|);
    }
    forall c: nat, r: nat, d: nat, q: nat
      | Draws(kind, df, c, r) && Rank(kind, df, c, r) == j && Draws(kind, df, d, q) && Rank(kind, df, d, q) == j
      ensures c == d && r == q
    {
      if Precedes(c, r, d, q) {
        RankIncreases(kind, df, c, r, d, q);
      } else if Precedes(d, q, c, r) {
        RankIncreases(kind, df, d, q, c, r);
      }
    }
  }

  /** What the result holds: a number plus its sample, and everything else as it was, save how pandas spells a null. */
  lemma NoiseIsAdded(kind: Kind, df: Frame, c: nat, r: nat, noise: nat -> real)
    requires c < |df| && r < |df[c].cells|
    ensures var (col, out) := (df[c], NoisedFrame(kind, df, noise)[c]);
      && out.name == col.name && |out.cells| == |col.cells|
      && (!Numeric(col.dtype) ==> out == col)
      && (Numeric(col.dtype) ==> out.dtype == Float64)
      && var (x, y) := (col.cells[r], out.cells[r]);
         Numeric(col.dtype) ==>
           && (x.Num? ==> y.Num? && y.value - x.value == noise(Rank(kind, df, c, r)))
           && (x.Null? ==> y == if kind == Pandas then NaN else Null)
           && (!x.Num? && !x.Null? ==> y == x)
  {
    hide Rank;
  }

  // ── The two implementations ─────────────────────────────────────────────

  /** The samples of a generator in state s, as one infinite stream. */
  ghost function Stream(m: Libm, mech: Mechanism, param: real, s: Word): nat -> real
    requires m.Valid()
  {
    (j: nat) => SampleAt(m, mech, param, s, j)
  }

  /** Cell r of a column whose first observed cell takes sample number `drawn`. */
  ghost function Filled(kind: Kind, cells: seq<Cell>, r: nat, noise: nat -> real, drawn: nat): Cell
    requires r < |cells|
  {
    if Observed(kind, cells[r]) then Plus(cells[r], noise(drawn + Count(kind, cells, r)))
    else Missing(kind, cells[r])
  }

  /** The list comprehension both paths run over the values of one numeric column. */
  method NoiseCells(kind: Kind, cells: seq<Cell>, sampler: Sampler, ghost s: Word, ghost drawn: nat)
    returns (out: seq<Cell>)
    requires sampler.Valid()
    modifies sampler.rng
    ensures sampler.Valid() && |out| == |cells|
    ensures old(sampler.rng.state) == StateAt(sampler.m, sampler.mech, sampler.param, s, drawn) ==>
      && sampler.rng.state == StateAt(sampler.m, sampler.mech, sampler.param, s, drawn + Count(kind, cells, |cells|))
      && forall r | 0 <= r < |cells| ::
           out[r] == Filled(kind, cells, r, Stream(sampler.m, sampler.mech, sampler.param, s), drawn)
  {
    hide SampleFrom;
    ghost var noise := Stream(sampler.m, sampler.mech, sampler.param, s);
    ghost var inStep := sampler.rng.state == StateAt(sampler.m, sampler.mech, sampler.param, s, drawn);
    out := [];
    for i := 0 to |cells|
      invariant sampler.Valid() && |out| == i
      invariant inStep ==>
        sampler.rng.state == StateAt(sampler.m, sampler.mech, sampler.param, s, drawn + Count(kind, cells, i))
      invariant inStep ==> forall r | 0 <= r < i :: out[r] == Filled(kind, cells, r, noise, drawn)
    {
      if Observed(kind, cells[i]) {
        var z := sampler.Sample();
        assert inStep ==> z == noise(drawn + Count(kind, cells, i));
        out := out + [Plus(cells[i], z)];
      } else {
        out := out + [Missing(kind, cells[i])];
      }
    }
  }

  method ApplyPandas(df: Frame, sampler: Sampler) returns (out: Frame, noised: seq<string>)
    requires sampler.Valid()
    modifies sampler.rng
    ensures sampler.Valid()
    ensures out == NoisedFrame(Pandas, df, Stream(sampler.m, sampler.mech, sampler.param, old(sampler.rng.state)))
    ensures noised == NumericNames(df, |df|)
  {
    hide SampleFrom, SampleAt, Observed, Stream, Count;
    ghost var s := sampler.rng.state as Word;
    ghost var noise := Stream(sampler.m, sampler.mech, sampler.param, s);
    out, noised := df, [];
    for c := 0 to |df|
      invariant sampler.Valid() && |out| == |df|
      invariant sampler.rng.state
             == StateAt(sampler.m, sampler.mech, sampler.param, s, CountBefore(Pandas, df, c))
      invariant noised == NumericNames(df, c)
      invariant forall d | 0 <= d < c :: out[d] == NoisedColumn(Pandas, df, d, noise)
      invariant forall d | c <= d < |df| :: out[d] == df[d]
    {
      if PandasNumeric(df[c].dtype) {
        var cells := NoiseCells(Pandas, df[c].cells, sampler, s, CountBefore(Pandas, df, c));
        out := out[c := Column(df[c].name, Float64, cells)];
        noised := noised + [df[c].name];
        assert cells == NoisedColumn(Pandas, df, c, noise).cells;
      }
    }
  }

  method ApplyPolars(df: Frame, sampler: Sampler) returns (out: Frame, noised: seq<string>)
    requires sampler.Valid()
    modifies sampler.rng
    ensures sampler.Valid()
    ensures out == NoisedFrame(Polars, df, Stream(sampler.m, sampler.mech, sampler.param, old(sampler.rng.state)))
    ensures noised == NumericNames(df, |df|)
  {
    hide SampleFrom, SampleAt, Observed, Stream, Count;
    ghost var s := sampler.rng.state as Word;
    ghost var noise := Stream(sampler.m, sampler.mech, sampler.param, s);
    out, noised := df, [];
    for c := 0 to |df|
      invariant sampler.Valid() && |out| == |df|
      invariant sampler.rng.state
             == StateAt(sampler.m, sampler.mech, sampler.param, s, CountBefore(Polars, df, c))
      invariant noised == NumericNames(df, c)
      invariant forall d | 0 <= d < c :: out[d] == NoisedColumn(Polars, df, d, noise)
      invariant forall d | c <= d < |df| :: out[d] == df[d]
    {
      if PolarsNumeric(df[c].dtype) {
        var cells := NoiseCells(Polars, df[c].cells, sampler, s, CountBefore(Polars, df, c));
        out := out[c := Column(df[c].name, Float64, cells)];
        noised := noised + [df[c].name];
        assert cells == NoisedColumn(Polars, df, c, noise).cells;
      }
    }
  }

  // ── When the two paths agree ────────────────────────────────────────────

  /** The pandas frame of a polars frame: nulls of numeric columns become NaN. */
  function ToPandasColumn(col: Column): Column {
    if Numeric(col.dtype) then
      col.(cells := seq(|col.cells|, r requires 0 <= r < |col.cells| => Missing(Pandas, col.cells[r])))
    else
      col
  }

  function ToPandas(df: Frame): (p: Frame)
    ensures |p| == |df|
  {
    seq(|df|, c requires 0 <= c < |df| => ToPandasColumn(df[c]))
  }

  ghost predicate NumericCell(df: Frame, c: nat, r: nat) {
    c < |df| && Numeric(df[c].dtype) && r < |df[c].cells|
  }

  /** No NaN stands before a number in column-major order. */
  ghost predicate NaNsComeLast(df: Frame) {
    forall c: nat, r: nat, d: nat, q: nat ::
      NumericCell(df, c, r) && df[c].cells[r].NaN? && NumericCell(df, d, q) && df[d].cells[q].Num?
      ==> !Precedes(c, r, d, q)
  }

  lemma {:induction false} CountsCompare(cells: seq<Cell>, pandas: seq<Cell>, n: nat)
    requires |pandas| == |cells| && n <= |cells|
    requires forall r | 0 <= r < |cells| :: pandas[r] == Missing(Pandas, cells[r])
    ensures Count(Pandas, pandas, n) <= Count(Polars, cells, n)
    ensures Count(Pandas, pandas, n) == Count(Polars, cells, n) <==> forall r | 0 <= r < n :: !cells[r].NaN?
    decreases n
  {
    if n != 0 {
      CountsCompare(cells, pandas, n - 1);
    }
  }

  lemma ColumnsCompare(col: Column)
    ensures CountColumn(Pandas, ToPandasColumn(col)) <= CountColumn(Polars, col)
    ensures Numeric(col.dtype) ==>
              (CountColumn(Pandas, ToPandasColumn(col)) == CountColumn(Polars, col)
               <==> forall r | 0 <= r < |col.cells| :: !col.cells[r].NaN?)
  {
    if Numeric(col.dtype) {
      CountsCompare(col.cells, ToPandasColumn(col).cells, |col.cells|);
    }
  }

  lemma {:induction false} PrefixesCompare(df: Frame, c: nat)
    requires c <= |df|
    ensures CountBefore(Pandas, ToPandas(df), c) <= CountBefore(Polars, df, c)
    ensures CountBefore(Pandas, ToPandas(df), c) == CountBefore(Polars, df, c)
       <==> forall d: nat, q: nat | NumericCell(df, d, q) && d < c :: !df[d].cells[q].NaN?
    decreases c
  {
    if c != 0 {
      PrefixesCompare(df, c - 1);
      ColumnsCompare(df[c - 1]);
      if CountColumn(Pandas, ToPandasColumn(df[c - 1])) != CountColumn(Polars, df[c - 1]) {
        var r :| 0 <= r < |df[c - 1].cells| && df[c - 1].cells[r].NaN?;
        assert NumericCell(df, c - 1, r);
      }
    }
  }

  /** The pandas rank never exceeds the polars rank, and equals it when no NaN comes before. */
  lemma RanksCompare(df: Frame, c: nat, r: nat)
    requires NumericCell(df, c, r)
    ensures Rank(Pandas, ToPandas(df), c, r) <= Rank(Polars, df, c, r)
    ensures Rank(Pandas, ToPandas(df), c, r) == Rank(Polars, df, c, r)
       <==> forall d: nat, q: nat | NumericCell(df, d, q) && Precedes(d, q, c, r) :: !df[d].cells[q].NaN?
  {
    PrefixesCompare(df, c);
    CountsCompare(df[c].cells, ToPandas(df)[c].cells, r);
    if exists q :: 0 <= q < r && df[c].cells[q].NaN? {
      var q :| 0 <= q < r && df[c].cells[q].NaN?;
      assert NumericCell(df, c, q) && Precedes(c, q, c, r);
    }
  }

  ghost predicate PathsAgree(df: Frame, noise: nat -> real) {
    ToPandas(NoisedFrame(Polars, df, noise)) == NoisedFrame(Pandas, ToPandas(df), noise)
  }

  lemma CellsAgree(df: Frame, noise: nat -> real, c: nat, r: nat)
    requires WellTyped(df) && NumericCell(df, c, r)
    ensures var x := df[c].cells[r];
            var p := ToPandas(NoisedFrame(Polars, df, noise))[c].cells[r];
            var q := NoisedFrame(Pandas, ToPandas(df), noise)[c].cells[r];
            if x.Num? then
              && p == Num(x.value + noise(Rank(Polars, df, c, r)))
              && q == Num(x.value + noise(Rank(Pandas, ToPandas(df), c, r)))
            else p == q
  {
    var x := df[c].cells[r];
    assert ToPandas(df)[c].cells[r] == Missing(Pandas, x);
    assert NoisedFrame(Polars, df, noise)[c].cells[r] == NoisedCell(Polars, df, c, r, noise);
    assert NoisedFrame(Pandas, ToPandas(df), noise)[c].cells[r] == NoisedCell(Pandas, ToPandas(df), c, r, noise);
  }

  /** Every number takes the same sample on both paths. */
  ghost predicate SameSamples(df: Frame, noise: nat -> real) {
    forall c: nat, r: nat | NumericCell(df, c, r) && df[c].cells[r].Num? ::
      noise(Rank(Polars, df, c, r)) == noise(Rank(Pandas, ToPandas(df), c, r))
  }

  /** On one stream of samples the two paths return the same frame exactly when every number takes the same sample. */
  lemma PathsAgreeOn(df: Frame, noise: nat -> real)
    requires WellTyped(df)
    ensures PathsAgree(df, noise) <==> SameSamples(df, noise)
  {
    hide Rank, NoisedCell;
    var a, b := ToPandas(NoisedFrame(Polars, df, noise)), NoisedFrame(Pandas, ToPandas(df), noise);
    forall c: nat, r: nat | NumericCell(df, c, r)
      ensures var x := df[c].cells[r];
        if x.Num? then
          (a[c].cells[r] == b[c].cells[r]
           <==> noise(Rank(Polars, df, c, r)) == noise(Rank(Pandas, ToPandas(df), c, r)))
        else a[c].cells[r] == b[c].cells[r]
    {
      CellsAgree(df, noise, c, r);
    }
    if SameSamples(df, noise) {
      forall c | 0 <= c < |df| ensures a[c] == b[c] {
        if Numeric(df[c].dtype) {
          forall r | 0 <= r < |df[c].cells| ensures a[c].cells[r] == b[c].cells[r] {
            assert NumericCell(df, c, r);
          }
          assert a[c].cells == b[c].cells;
        }
      }
      assert a == b;
    }
  }

  /** The samples a polars frame takes are pairwise different. */
  ghost predicate DistinctSamples(df: Frame, noise: nat -> real) {
    forall i: nat, j: nat | i < j < CountBefore(Polars, df, |df|) :: noise(i) != noise(j)
  }

  lemma RankInRange(df: Frame, c: nat, r: nat)
    requires Draws(Polars, df, c, r)
    ensures Rank(Polars, df, c, r) < CountBefore(Polars, df, |df|)
  {
    CountMonotone(Polars, df[c].cells, r, |df[c].cells|);
    CountBeforeMonotone(Polars, df, c, |df|);
  }

  /** On a stream without repetitions the paths agree exactly when no NaN precedes a number. */
  lemma PathsAgreeOnDistinct(df: Frame, noise: nat -> real)
    requires WellTyped(df) && DistinctSamples(df, noise)
    ensures PathsAgree(df, noise) <==> NaNsComeLast(df)
  {
    hide Rank, PathsAgree;
    PathsAgreeOn(df, noise);
    forall d: nat, q: nat | NumericCell(df, d, q) && df[d].cells[q].Num?
      ensures noise(Rank(Polars, df, d, q)) == noise(Rank(Pandas, ToPandas(df), d, q))
         <==> forall c: nat, r: nat | NumericCell(df, c, r) && Precedes(c, r, d, q) :: !df[c].cells[r].NaN?
    {
      RanksCompare(df, d, q);
      RankInRange(df, d, q);
    }
  }

  lemma AgreeWhenNaNsComeLast(df: Frame, noise: nat -> real)
    requires WellTyped(df) && NaNsComeLast(df)
    ensures PathsAgree(df, noise)
  {
    var a, b := ToPandas(NoisedFrame(Polars, df, noise)), NoisedFrame(Pandas, ToPandas(df), noise);
    forall c | 0 <= c < |df| ensures a[c] == b[c] {
      if Numeric(df[c].dtype) {
        forall r | 0 <= r < |df[c].cells| ensures a[c].cells[r] == b[c].cells[r] {
          CellsAgree(df, noise, c, r);
          if df[c].cells[r].Num? {
            RanksCompare(df, c, r);
          }
        }
        assert a[c].cells == b[c].cells;
      }
    }
  }

  /**
    The two paths return the same frame for every noise sequence exactly when no NaN precedes a
    number: polars spends a sample on a NaN, and every later cell then gets its neighbour's noise.
   */
  lemma PathsAgreeExactly(df: Frame)
    requires WellTyped(df)
    ensures (forall noise: nat -> real :: PathsAgree(df, noise)) <==> NaNsComeLast(df)
  {
    if NaNsComeLast(df) {
      forall noise: nat -> real ensures PathsAgree(df, noise) {
        AgreeWhenNaNsComeLast(df, noise);
      }
    }
    if !NaNsComeLast(df) {
      var c: nat, r: nat, d: nat, q: nat :|
        NumericCell(df, c, r) && df[c].cells[r].NaN? && NumericCell(df, d, q) && df[d].cells[q].Num?
        && Precedes(c, r, d, q);
      var noise := (j: nat) => j as real;
      RanksCompare(df, d, q);
      CellsAgree(df, noise, d, q);
      assert !PathsAgree(df, noise);
    }
  }

  /** A NaN in front of one number: the paths agree on the streams whose first two samples are equal, and on no other. */
  lemma NaNThenNumber(noise: nat -> real)
    ensures var df := [Column("x", Float64, [NaN, Num(1.0)])];
            PathsAgree(df, noise) <==> noise(0) == noise(1)
  {
    var cells := [NaN, Num(1.0)];
    var df := [Column("x", Float64, cells)];
    var p := ToPandas(df);
    assert p[0].cells[0] == NaN && p[0].cells[1] == Num(1.0);
    assert Count(Polars, cells, 1) == 1 && Count(Pandas, p[0].cells, 1) == 0;
    assert Rank(Polars, df, 0, 1) == 1 && Rank(Pandas, p, 0, 1) == 0;
    assert NumericCell(df, 0, 1) && df[0].cells[1].Num?;
    PathsAgreeOn(df, noise);
    assert forall c: nat, r: nat | NumericCell(df, c, r) && df[c].cells[r].Num? :: c == 0 && r == 1;
  }
}
