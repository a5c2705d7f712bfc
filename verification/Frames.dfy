/** Tables of values, and the parts of an execution engine a program's meaning depends on. */
module Frames {
  import opened Ast
  import opened Wrappers
  import Ir

  datatype Value = Null | IntV(n: int) | FloatV(f: real) | StrV(s: string) | BoolV(b: bool)

  type Row = map<string, Value>

  datatype Frame = Frame(cols: set<string>, rows: seq<Row>)

  /** A trained model is what it was trained from. */
  datatype Model = Model(layers: seq<LayerKind>, config: TrainConfig, data: Frame)

  datatype Statistic =
    | RowCount
    | CountOf(col: string) | SumOf(col: string) | MeanOf(col: string) | MinOf(col: string) | MaxOf(col: string)
    | MedianOf(col: string) | VarianceOf(col: string) | StdOf(col: string) | SkewOf(col: string)
    | KurtosisOf(col: string)
    | QuantileOf(col: string, q: real)
    | CorrOf(a: string, b: string)

  /**
   * What a program leaves to the engine: whether a rename of an absent column is an error or does nothing, arithmetic,
   * choices of rows, and whole-table computations.
   */
  datatype Engine = Engine(
    strictRename: bool,
    load: (string, Option<Ir.Schema>, LoadOptions) -> Frame,
    apply: (BinOpKind, Value, Value) -> Value,
    sortOrder: (seq<Value>, bool) -> seq<nat>,
    sampled: (nat, int, Option<int>) -> seq<nat>,
    inliers: (seq<Value>, real) -> seq<nat>,
    cast: (Value, string) -> Value,
    replace: (Value, string, string) -> Value,
    mean: seq<Value> -> Value,
    median: seq<Value> -> Value,
    bins: (seq<Value>, nat) -> seq<(string, int)>,
    noise: (DpArgs, Frame, nat, string) -> Value,
    summarize: (Frame, Option<string>, seq<Statistic>) -> Frame,
    aggregateList: (Frame, Option<string>, seq<Statistic>) -> Frame,
    join: (Frame, Frame, seq<string>, seq<string>, JoinHow) -> Frame,
    predict: (Model, Frame, Option<string>) -> Frame)

  /** Every loaded frame has the columns of its schema. */
  ghost predicate Conforming(g: Engine) {
    forall path, schema: Ir.Schema, options ::
      g.load(path, Some(schema), options).cols == set f | f in schema :: f.name
  }

  /** How an execution can end. */
  datatype Outcome<T> = Ran(value: T) | MissingColumn(col: string) | Unbound(name: string)

  // ── Rows and columns ────────────────────────────────────────────────────

  function Cell(row: Row, c: string): Value {
    if c in row then row[c] else Null
  }

  function Column(f: Frame, c: string): (vs: seq<Value>)
    ensures |vs| == |f.rows|
  {
    seq(|f.rows|, i requires 0 <= i < |f.rows| => Cell(f.rows[i], c))
  }

  /** The rows at the given positions, in the given order. */
  function Pick(rows: seq<Row>, at: seq<nat>): (picked: seq<Row>)
    ensures forall r <- picked :: r in rows
  {
    if at == [] then []
    else (if at[0] < |rows| then [rows[at[0]]] else []) + Pick(rows, at[1..])
  }

  function Choose(f: Frame, at: seq<nat>): Frame {
    Frame(f.cols, Pick(f.rows, at))
  }

  /** The positions of true verdicts. */
  function TruePositions(verdicts: seq<Value>): seq<nat> {
    if verdicts == [] then []
    else
      var n := |verdicts| - 1;
      TruePositions(verdicts[..n]) + if verdicts[n] == BoolV(true) then [n] else []
  }

  function PresentPositions(vs: seq<Value>): seq<nat> {
    if vs == [] then []
    else
      var n := |vs| - 1;
      PresentPositions(vs[..n]) + if vs[n] != Null then [n] else []
  }

  function FirstPositions(rows: nat, n: int): seq<nat> {
    seq(if n < 0 then 0 else if n < rows then n else rows, i => i)
  }

  function SetColumn(f: Frame, c: string, vs: seq<Value>): Frame
    requires |vs| == |f.rows|
  {
    Frame(f.cols + {c}, seq(|f.rows|, i requires 0 <= i < |f.rows| => f.rows[i][c := vs[i]]))
  }

  function KeepColumns(f: Frame, cs: set<string>): Frame {
    Frame(f.cols * cs, seq(|f.rows|, i requires 0 <= i < |f.rows| => map c | c in f.rows[i] && c in cs :: f.rows[i][c]))
  }

  function RenameColumn(f: Frame, from: string, to: string): Frame {
    Frame(f.cols - {from} + {to},
          seq(|f.rows|, i requires 0 <= i < |f.rows| => (f.rows[i] - {from})[to := Cell(f.rows[i], from)]))
  }

  /** The columns a rename cannot do without. */
  function RenameNeeds(g: Engine, from: string): seq<string> {
    if g.strictRename then [from] else []
  }

  function RenameOrSkip(f: Frame, from: string, to: string): Frame {
    if from in f.cols then RenameColumn(f, from, to) else f
  }

  // ── Columns computed cell by cell ───────────────────────────────────────

  function CastColumn(g: Engine, f: Frame, c: string, to: string): Frame {
    SetColumn(f, c, seq(|f.rows|, i requires 0 <= i < |f.rows| => g.cast(Cell(f.rows[i], c), to)))
  }

  function ReplaceColumn(g: Engine, f: Frame, c: string, from: string, to: string): Frame {
    SetColumn(f, c, seq(|f.rows|, i requires 0 <= i < |f.rows| => g.replace(Cell(f.rows[i], c), from, to)))
  }

  function FillColumn(f: Frame, c: string, fill: Value): Frame {
    SetColumn(f, c, seq(|f.rows|, i requires 0 <= i < |f.rows| =>
      var v := Cell(f.rows[i], c); if v == Null then fill else v))
  }

  function NoisedFrame(g: Engine, args: DpArgs, f: Frame): Frame {
    Frame(f.cols, seq(|f.rows|, i requires 0 <= i < |f.rows| => map c | c in f.cols :: g.noise(args, f, i, c)))
  }

  function HistogramFrame(g: Engine, f: Frame, c: string, bins: nat): Frame {
    var counts := g.bins(Column(f, c), bins);
    Frame({"bin", "n"}, seq(|counts|, i requires 0 <= i < |counts| =>
      map["bin" := StrV(counts[i].0), "n" := IntV(counts[i].1)]))
  }

  // ── Columns that must exist ─────────────────────────────────────────────

  /** The result, unless one of the columns it reads is absent. */
  function Reading<T>(cs: seq<string>, f: Frame, result: Outcome<T>): Outcome<T> {
    if cs == [] then result
    else if cs[0] !in f.cols then MissingColumn(cs[0])
    else Reading(cs[1..], f, result)
  }

  lemma {:induction false} ReadingPresent<T>(cs: seq<string>, f: Frame, result: Outcome<T>)
    ensures (forall c <- cs :: c in f.cols) ==> Reading(cs, f, result) == result
    ensures (exists c <- cs :: c !in f.cols) ==> Reading(cs, f, result).MissingColumn?
  {
    if cs != [] {
      ReadingPresent(cs[1..], f, result);
      assert cs == [cs[0]] + cs[1..];
    }
  }

  lemma OneColumn<T>(c: string, f: Frame, o: Outcome<T>)
    ensures Reading([c], f, o) == if c in f.cols then o else MissingColumn(c)
  {
    assert [c][1..] == [];
  }
}
