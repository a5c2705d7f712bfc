/** Types of columns and expressions, and the translation of operators into IR steps. */
module Lowering {
  import opened Ast
  import opened Wrappers
  import Ir

  /** A column type as the checker carries it: canonical name and nullability. */
  datatype CheckerColType = CheckerColType(name: string, option: bool) {
    predicate IsNumeric() {
      name in {"int", "float"}
    }
  }

  type Cols = map<string, CheckerColType>

  function NormalizeType(t: string): string {
    if t == "string" || t == "str" then "string"
    else if t in {"int", "float", "bool"} then t
    else "unknown"
  }

  function TrimClosing(t: string): string {
    if t != "" && t[|t| - 1] == '>' then TrimClosing(t[..|t| - 1]) else t
  }

  /** The declared type of a schema field, `Option<T>` included. */
  function ColTypeOfField(fieldType: string): CheckerColType {
    if "Option<" <= fieldType then CheckerColType(NormalizeType(TrimClosing(fieldType[7..])), true)
    else CheckerColType(NormalizeType(fieldType), false)
  }

  function BaseType(name: string): Ir.ColType {
    match name
    case "string" => Ir.TString
    case "int" => Ir.TInt
    case "float" => Ir.TFloat
    case "bool" => Ir.TBool
    case _ => Ir.TUnknown
  }

  function ToIrColType(ct: CheckerColType): Ir.ColType {
    if ct.option then Ir.Nullable(BaseType(ct.name)) else BaseType(ct.name)
  }

  function TypeName(ty: Ir.ColType): string {
    match ty
    case TString => "string"
    case TInt => "int"
    case TFloat => "float"
    case TBool => "bool"
    case TUnknown => "unknown"
    case Nullable(inner) => TypeName(inner)
  }

  function ToCheckerColType(ty: Ir.ColType): CheckerColType {
    CheckerColType(TypeName(ty), ty.Nullable?)
  }

  function SchemaFromFields(fields: seq<StructField>): (s: Ir.Schema)
    ensures |s| == |fields| && forall i | 0 <= i < |s| :: s[i].name == fields[i].name
  {
    seq(|fields|, i requires 0 <= i < |fields| =>
      Ir.SchemaField(fields[i].name, ToIrColType(ColTypeOfField(fields[i].fieldType))))
  }

  /** The columns a schema declares; a repeated name keeps its last type. */
  function ColsOfFields(fields: seq<StructField>): (cols: Cols)
    ensures forall c :: c in cols <==> exists i :: 0 <= i < |fields| && fields[i].name == c
  {
    if fields == [] then map[]
    else
      var last := fields[|fields| - 1];
      ColsOfFields(fields[..|fields| - 1])[last.name := ColTypeOfField(last.fieldType)]
  }

  function SchemaFromMap(cols: Cols): Ir.Schema {
    Ir.SortedFields(map c | c in cols :: ToIrColType(cols[c]))
  }

  // ── Expressions ─────────────────────────────────────────────────────────

  predicate IsComparison(op: BinOpKind) {
    op in {Eq, NotEq, Lt, Gt, LtEq, GtEq}
  }

  function TypeExpr(e: Expr, cols: Cols): Ir.TypedExpr {
    match e
    case Ident(c) =>
      Ir.TypedExpr(Ir.Column(c), if c in cols then ToIrColType(cols[c]) else Ir.Nullable(Ir.TUnknown))
    case IntLit(n) => Ir.TypedExpr(Ir.Int(n), Ir.TInt)
    case FloatLit(f) => Ir.TypedExpr(Ir.Float(f), Ir.TFloat)
    case BoolLit(b) => Ir.TypedExpr(Ir.Bool(b), Ir.TBool)
    case StringLit(s) => Ir.TypedExpr(Ir.Str(s), Ir.TString)
    case BinOp(l, op, r) =>
      Ir.TypedExpr(Ir.BinOp(op, TypeExpr(l, cols), TypeExpr(r, cols)), if IsComparison(op) then Ir.TBool else Ir.TFloat)
  }

  /** The source expression of a typed one. */
  function Erase(e: Ir.TypedExpr): Expr {
    match e.kind
    case Column(c) => Ident(c)
    case Int(n) => IntLit(n)
    case Float(f) => FloatLit(f)
    case Bool(b) => BoolLit(b)
    case Str(s) => StringLit(s)
    case BinOp(op, l, r) => BinOp(Erase(l), op, Erase(r))
  }

  /** Erasing the inferred types gives the expression back. */
  lemma {:induction false} TypingErases(e: Expr, cols: Cols)
    ensures Erase(TypeExpr(e, cols)) == e
  {
    match e
    case BinOp(l, _, r) =>
      TypingErases(l, cols);
      TypingErases(r, cols);
    case _ =>
  }

  // ── Operators ───────────────────────────────────────────────────────────

  function LowerFill(v: FillNullValue): Ir.FillValue {
    match v
    case FillInt(n) => Ir.FillInt(n)
    case FillFloat(f) => Ir.FillFloat(f)
    case FillStr(s) => Ir.FillStr(s)
    case FillMean => Ir.FillMean
    case FillMedian => Ir.FillMedian
    case FillZero => Ir.FillZero
  }

  function LowerFn(f: AggFn): Ir.AggKind {
    match f
    case FnSum => Ir.KSum
    case FnMean => Ir.KMean
    case FnMin => Ir.KMin
    case FnMax => Ir.KMax
    case FnCount => Ir.KCount
    case FnMedian => Ir.KMedian
    case FnVariance => Ir.KVariance
    case FnStd => Ir.KStd
    case FnSkew => Ir.KSkew
    case FnKurtosis => Ir.KKurtosis
  }

  function LowerSpecs(specs: seq<AggSpec>): seq<(Ir.AggKind, string)> {
    seq(|specs|, i requires 0 <= i < |specs| => (LowerFn(specs[i].func), specs[i].col))
  }

  /** The IR step of an operator, given the columns it meets. */
  function Lower(op: PipelineOp, cols: Cols): Ir.Step {
    match op
    case Filter(e) => Ir.Data(Ir.Filter(TypeExpr(e, cols)))
    case Select(cs) => Ir.Data(Ir.Select(cs))
    case Count(None) => Ir.Data(Ir.Aggregate(Ir.KLen, ""))
    case Count(Some(c)) => Ir.Data(Ir.Aggregate(Ir.KCount, c))
    case GroupBy(k) => Ir.Data(Ir.GroupBy(k))
    case Sum(c) => Ir.Data(Ir.Aggregate(Ir.KSum, c))
    case Mean(c) => Ir.Data(Ir.Aggregate(Ir.KMean, c))
    case Min(c) => Ir.Data(Ir.Aggregate(Ir.KMin, c))
    case Max(c) => Ir.Data(Ir.Aggregate(Ir.KMax, c))
    case Median(c) => Ir.Data(Ir.Aggregate(Ir.KMedian, c))
    case Variance(c) => Ir.Data(Ir.Aggregate(Ir.KVariance, c))
    case Std(c) => Ir.Data(Ir.Aggregate(Ir.KStd, c))
    case Skew(c) => Ir.Data(Ir.Aggregate(Ir.KSkew, c))
    case Kurtosis(c) => Ir.Data(Ir.Aggregate(Ir.KKurtosis, c))
    case OrderBy(c, d) => Ir.Data(Ir.Sort(c, d))
    case Take(n) => Ir.Data(Ir.Limit(n))
    case DropNull(c) => Ir.Data(Ir.DropNull(c))
    case FillNull(c, v) => Ir.Data(Ir.FillNull(c, LowerFill(v)))
    case Join(o, l, r, h) => Ir.Data(Ir.Join(o, l, r, h))
    case WithColumn(n, e) => Ir.Data(Ir.WithColumn(n, TypeExpr(e, cols)))
    case Chart(c) => Ir.Side(Ir.Chart(c))
    case Cast(c, t) => Ir.Data(Ir.Cast(c, t))
    case Rename(o, n) => Ir.Data(Ir.Rename(o, n))
    case Replace(c, f, t) => Ir.Data(Ir.Replace(c, f, t))
    case Sample(n, s) => Ir.Data(Ir.Sample(n, s))
    case Quantile(c, q) => Ir.Data(Ir.Quantile(c, q))
    case Corr(a, b) => Ir.Data(Ir.Corr(a, b))
    case Histogram(c, b) => Ir.Data(Ir.Histogram(c, b))
    case OutlierIqr(c, f) => Ir.Data(Ir.OutlierIqr(c, f))
    case Agg(specs) => Ir.Data(Ir.AggList(LowerSpecs(specs)))
    case Train(m, c) => Ir.ML(Ir.Train(m, c))
    case Predict(m, a) => Ir.ML(Ir.Predict(m, a))
    case WithDp(args) => Ir.Side(Ir.WithDp(args))
    case Save(p, f) => Ir.Side(Ir.Save(p, f))
  }

  /** The columns after an operator, when every column it names exists (and otherwise, too). */
  function ColsAfter(op: PipelineOp, cols: Cols): Cols {
    match op
    case Select(cs) => map c | c in cs && c in cols :: cols[c]
    case Predict(_, Some(name)) => cols[name := CheckerColType("float", true)]
    case Histogram(_, _) => map["bin" := CheckerColType("str", false), "n" := CheckerColType("int", false)]
    case WithColumn(name, e) => cols[name := ToCheckerColType(TypeExpr(e, cols).ty)]
    case Cast(c, t) => if c in cols then cols[c := CheckerColType(NormalizeType(t), cols[c].option)] else cols
    case Rename(o, n) => if o in cols then (cols - {o})[n := cols[o]] else cols
    case WithDp(_) => map c | c in cols ::
        if cols[c].IsNumeric() then CheckerColType("float", cols[c].option) else cols[c]
    case _ => cols
  }

  // ── The translation loses nothing ───────────────────────────────────────

  function RaiseFill(v: Ir.FillValue): FillNullValue {
    match v
    case FillInt(n) => FillInt(n)
    case FillFloat(f) => FillFloat(f)
    case FillStr(s) => FillStr(s)
    case FillMean => FillMean
    case FillMedian => FillMedian
    case FillZero => FillZero
  }

  function RaiseKind(k: Ir.AggKind): AggFn {
    match k
    case KSum => FnSum
    case KMean => FnMean
    case KMin => FnMin
    case KMax => FnMax
    case KCount => FnCount
    case KLen => FnCount
    case KMedian => FnMedian
    case KVariance => FnVariance
    case KStd => FnStd
    case KSkew => FnSkew
    case KKurtosis => FnKurtosis
  }

  function RaiseSpecs(specs: seq<(Ir.AggKind, string)>): seq<AggSpec> {
    seq(|specs|, i requires 0 <= i < |specs| => AggSpec(RaiseKind(specs[i].0), specs[i].1))
  }

  /** The operator a step came from. */
  function Raise(step: Ir.Step): PipelineOp {
    match step
    case Data(Filter(e)) => Filter(Erase(e))
    case Data(Select(cs)) => Select(cs)
    case Data(GroupBy(k)) => GroupBy(k)
    case Data(Aggregate(k, c)) =>
      (match k
       case KLen => Count(None)
       case KCount => Count(Some(c))
       case KSum => Sum(c)
       case KMean => Mean(c)
       case KMin => Min(c)
       case KMax => Max(c)
       case KMedian => Median(c)
       case KVariance => Variance(c)
       case KStd => Std(c)
       case KSkew => Skew(c)
       case KKurtosis => Kurtosis(c))
    case Data(AggList(specs)) => Agg(RaiseSpecs(specs))
    case Data(Quantile(c, q)) => Quantile(c, q)
    case Data(Corr(a, b)) => Corr(a, b)
    case Data(Histogram(c, b)) => Histogram(c, b)
    case Data(OutlierIqr(c, f)) => OutlierIqr(c, f)
    case Data(Sort(c, d)) => OrderBy(c, d)
    case Data(Limit(n)) => Take(n)
    case Data(Sample(n, s)) => Sample(n, s)
    case Data(DropNull(c)) => DropNull(c)
    case Data(FillNull(c, v)) => FillNull(c, RaiseFill(v))
    case Data(Join(o, l, r, h)) => Join(o, l, r, h)
    case Data(WithColumn(n, e)) => WithColumn(n, Erase(e))
    case Data(Cast(c, t)) => Cast(c, t)
    case Data(Rename(o, n)) => Rename(o, n)
    case Data(Replace(c, f, t)) => Replace(c, f, t)
    case ML(Train(m, c)) => Train(m, c)
    case ML(Predict(m, a)) => Predict(m, a)
    case Side(Chart(c)) => Chart(c)
    case Side(WithDp(a)) => WithDp(a)
    case Side(Save(p, f)) => Save(p, f)
  }

  lemma SpecsRaise(specs: seq<AggSpec>)
    ensures RaiseSpecs(LowerSpecs(specs)) == specs
  {
    forall i | 0 <= i < |specs| ensures RaiseKind(LowerFn(specs[i].func)) == specs[i].func {
    }
  }

  lemma FillRaises(v: FillNullValue)
    ensures RaiseFill(LowerFill(v)) == v
  {
  }

  /** The operators that all lower to one kind of step. */
  predicate IsPlainAggregate(op: PipelineOp) {
    || op.Count? || op.Sum? || op.Mean? || op.Min? || op.Max? || op.Median? || op.Variance? || op.Std?
    || op.Skew? || op.Kurtosis?
  }

  /** The operators with parts that are translated themselves. */
  predicate HasParts(op: PipelineOp) {
    op.Filter? || op.WithColumn? || op.FillNull? || op.Agg?
  }

  lemma AggregatesRaise(op: PipelineOp, cols: Cols)
    requires IsPlainAggregate(op)
    ensures Raise(Lower(op, cols)) == op
  {
  }

  lemma PartsRaise(op: PipelineOp, cols: Cols)
    requires HasParts(op)
    ensures Raise(Lower(op, cols)) == op
  {
    hide TypeExpr, Erase, LowerFill, RaiseFill, LowerSpecs, RaiseSpecs;
    match op
    case Filter(e) => TypingErases(e, cols);
    case WithColumn(_, e) => TypingErases(e, cols);
    case FillNull(_, v) => FillRaises(v);
    case Agg(specs) => SpecsRaise(specs);
  }

  lemma PlainOpsRaise(op: PipelineOp, cols: Cols)
    requires !IsPlainAggregate(op) && !HasParts(op)
    ensures Raise(Lower(op, cols)) == op
  {
  }

  /** Every step determines the operator it was lowered from, whatever the columns were. */
  lemma LoweringIsFaithful(op: PipelineOp, cols: Cols)
    ensures Raise(Lower(op, cols)) == op
  {
    hide Raise, Lower;
    if IsPlainAggregate(op) {
      AggregatesRaise(op, cols);
    } else if HasParts(op) {
      PartsRaise(op, cols);
    } else {
      PlainOpsRaise(op, cols);
    }
  }
}
