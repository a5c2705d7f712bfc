/** The typed intermediate representation the checker builds. */
module Ir {
  import Ast
  import opened Ordering
  import opened Wrappers

  datatype ColType = TString | TInt | TFloat | TBool | TUnknown | Nullable(inner: ColType)

  datatype SchemaField = SchemaField(name: string, ty: ColType)

  type Schema = seq<SchemaField>

  datatype TypedExpr = TypedExpr(kind: TypedExprKind, ty: ColType)

  datatype TypedExprKind =
    | Column(name: string)
    | Int(n: int)
    | Float(f: real)
    | Str(s: string)
    | Bool(b: bool)
    | BinOp(op: Ast.BinOpKind, lhs: TypedExpr, rhs: TypedExpr)

  datatype FillValue = FillInt(n: int) | FillFloat(f: real) | FillStr(s: string) | FillMean | FillMedian | FillZero

  datatype AggKind =
    | KCount | KLen | KSum | KMean | KMin | KMax | KMedian | KVariance | KStd | KSkew | KKurtosis

  datatype DataOp =
    | Filter(cond: TypedExpr)
    | Select(cols: seq<string>)
    | GroupBy(key: string)
    | Aggregate(kind: AggKind, col: string)
    | AggList(specs: seq<(AggKind, string)>)
    | Quantile(col: string, q: real)
    | Corr(a: string, b: string)
    | Histogram(col: string, bins: nat)
    | OutlierIqr(col: string, factor: real)
    | Sort(col: string, desc: bool)
    | Limit(n: int)
    | Sample(n: int, seed: Option<int>)
    | DropNull(col: string)
    | FillNull(col: string, fill: FillValue)
    | Join(other: string, leftOn: seq<string>, rightOn: seq<string>, how: Ast.JoinHow)
    | WithColumn(name: string, expr: TypedExpr)
    | Cast(col: string, to: string)
    | Rename(oldName: string, newName: string)
    | Replace(col: string, from: string, to: string)

  datatype MLOp =
    | Train(model: string, config: Ast.TrainConfig)
    | Predict(model: string, asCol: Option<string>)

  datatype SideOp =
    | Chart(config: Ast.ChartConfig)
    | WithDp(args: Ast.DpArgs)
    | Save(path: string, format: Ast.SaveFormat)

  datatype Step = Data(data: DataOp) | ML(ml: MLOp) | Side(side: SideOp)

  datatype Source =
    | Load(filePath: string, schema: Option<Schema>, options: Ast.LoadOptions)
    | Ref(name: string)

  datatype PipelineNode = PipelineNode(
    id: nat, name: Option<string>, source: Source, inputSchema: Option<Schema>, outputSchema: Schema,
    steps: seq<Step>, yieldsModel: bool)

  datatype NamedSchema = NamedSchema(name: string, schema: Schema)

  datatype ModelGraph = ModelGraph(name: string, layers: seq<Ast.LayerKind>)

  datatype TypedProgram = TypedProgram(
    types: seq<NamedSchema>, models: seq<ModelGraph>, pipelines: seq<PipelineNode>)

  /** The columns an expression refers to, left to right. */
  function Refs(e: TypedExpr): seq<string> {
    match e.kind
    case Column(c) => [c]
    case BinOp(_, l, r) => Refs(l) + Refs(r)
    case _ => []
  }

  /** The columns of a list of aggregates, in order. */
  function SpecColumns(specs: seq<(AggKind, string)>): seq<string> {
    seq(|specs|, i requires 0 <= i < |specs| => specs[i].1)
  }

  function Names(s: Schema): (ns: seq<string>)
    ensures |ns| == |s| && forall i | 0 <= i < |s| :: ns[i] == s[i].name
  {
    seq(|s|, i requires 0 <= i < |s| => s[i].name)
  }

  // ── Schemas of column maps, in name order ───────────────────────────────

  lemma {:induction false} LeastName(ks: set<string>) returns (k: string)
    requires ks != {}
    ensures k in ks && forall x <- ks :: x == k || StrLess(k, x)
  {
    var y :| y in ks;
    if ks == {y} {
      k := y;
    } else {
      var m := LeastName(ks - {y});
      StrTotal(m, y);
      if StrLess(y, m) {
        k := y;
        forall x | x in ks ensures x == k || StrLess(k, x) {
          if x != y && x != m {
            StrTransitive(y, m, x);
          }
        }
      } else {
        k := m;
      }
    }
  }

  ghost predicate IsFirst(ks: set<string>, k: string) {
    k in ks && forall x <- ks :: x == k || StrLess(k, x)
  }

  lemma FirstIsUnique(ks: set<string>, j: string, k: string)
    requires IsFirst(ks, j) && IsFirst(ks, k)
    ensures j == k
  {
    StrTotal(j, k);
  }

  function FirstName(ks: set<string>): (k: string)
    requires ks != {}
    ensures IsFirst(ks, k)
  {
    assert exists k :: k in ks && forall x <- ks :: x == k || StrLess(k, x) by {
      var k := LeastName(ks);
    }
    assert forall j, k | IsFirst(ks, j) && IsFirst(ks, k) :: j == k by {
      forall j, k | IsFirst(ks, j) && IsFirst(ks, k) ensures j == k {
        FirstIsUnique(ks, j, k);
      }
    }
    assert forall k :: k in ks && (forall x <- ks :: x == k || StrLess(k, x)) ==> IsFirst(ks, k);
    var k :| k in ks && forall x <- ks :: x == k || StrLess(k, x);
    k
  }

  /** The fields of a name-to-type map, sorted by name. */
  function SortedFields(m: map<string, ColType>): (s: Schema)
    ensures forall k :: k in m.Keys <==> k in Names(s)
    ensures forall f <- s :: f.name in m && m[f.name] == f.ty
    ensures Distinct(Names(s))
    decreases |m|
  {
    if m.Keys == {} then
      assert Names([]) == [];
      []
    else
      var k := FirstName(m.Keys);
      var rest := SortedFields(m - {k});
      FieldsGrow(m, k, rest);
      [SchemaField(k, m[k])] + rest
  }

  lemma FieldsGrow(m: map<string, ColType>, k: string, rest: Schema)
    requires k in m
    requires forall x :: x in (m - {k}).Keys <==> x in Names(rest)
    requires forall f <- rest :: f.name in (m - {k}) && (m - {k})[f.name] == f.ty
    requires Distinct(Names(rest))
    ensures var s := [SchemaField(k, m[k])] + rest;
      && (forall x :: x in m.Keys <==> x in Names(s))
      && (forall f <- s :: f.name in m && m[f.name] == f.ty)
      && Distinct(Names(s))
  {
    var s := [SchemaField(k, m[k])] + rest;
    assert Names(s) == [k] + Names(rest);
    assert k !in Names(rest);
  }
}
