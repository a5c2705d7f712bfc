/** What a declared type means: nullability and base type in the checker's table and in the IR, and what is reported for it. */
module DeclaredTypes {
  import opened Ast
  import opened Checking
  import opened Lowering
  import opened Ordering
  import opened Wrappers
  import Ir

  // ── Declarations ────────────────────────────────────────────────────────

  /** The plain type names a field can be declared with. */
  const PLAIN: set<string> := {"int", "float", "bool", "string", "str"}

  function Optional(t: string): string {
    "Option<" + t + ">"
  }

  /** A type name without brackets at either end. */
  predicate Bare(t: string) {
    !("Option<" <= t) && (t == "" || t[|t| - 1] != '>')
  }

  /** A field declared with a plain name has that type and no nulls; the two names of strings are one type. */
  lemma PlainFields(t: string)
    requires t in PLAIN
    ensures Bare(t)
    ensures ColTypeOfField(t) == CheckerColType(if t == "str" then "string" else t, false)
    ensures ToIrColType(ColTypeOfField(t))
         == if t == "int" then Ir.TInt else if t == "float" then Ir.TFloat else if t == "bool" then Ir.TBool else Ir.TString
  {
    assert "Option<"[0] == 'O' && "int"[0] == 'i' && "float"[0] == 'f' && "bool"[0] == 'b' && "string"[0] == 's';
    assert "str"[0] == 's' && |"str"| == 3 && |"string"| == 6;
  }

  lemma TrimOne(t: string)
    ensures TrimClosing(t + ">") == TrimClosing(t)
  {
    assert (t + ">")[..|t|] == t;
  }

  /** A field declared Option<T> has nulls, in the table and in the IR, and the base type of one declared T. */
  lemma OptionalFields(t: string)
    ensures ColTypeOfField(Optional(t)).option && ToIrColType(ColTypeOfField(Optional(t))).Nullable?
    ensures Bare(t) ==>
      && ColTypeOfField(Optional(t)) == ColTypeOfField(t).(option := true)
      && ToIrColType(ColTypeOfField(Optional(t))) == Ir.Nullable(ToIrColType(ColTypeOfField(t)))
  {
    var s := Optional(t);
    assert "Option<" <= s && s[7..] == t + ">";
    TrimOne(t);
  }

  /** Options do not nest: an option of an option has no known type, whatever is inside. */
  lemma NestedOptionsAreUnknown(t: string)
    ensures ColTypeOfField(Optional(Optional(t))) == CheckerColType("unknown", true)
  {
    var s := Optional(Optional(t));
    assert "Option<" <= s && s[7..] == Optional(t) + ">";
    TrimOne(Optional(t));
    TrimOne("Option<" + t);
    assert Optional(t) == "Option<" + t + ">";
    TrimKeepsFirst("Option<" + t, 6);
    var r := TrimClosing("Option<" + t);
    assert r[0] == 'O';
    assert "int"[0] == 'i' && "float"[0] == 'f' && "bool"[0] == 'b' && "string"[0] == 's' && "str"[0] == 's';
  }

  lemma {:induction false} TrimKeepsFirst(s: string, i: nat)
    requires i < |s| && s[i] != '>'
    ensures |TrimClosing(s)| > i && TrimClosing(s) <= s
  {
    if s[|s| - 1] == '>' {
      TrimKeepsFirst(s[..|s| - 1], i);
    }
  }

  /** A field declared with anything else has no known type, and no nulls. */
  lemma OtherFields(t: string)
    requires !("Option<" <= t) && t !in PLAIN
    ensures ColTypeOfField(t) == CheckerColType("unknown", false) && ToIrColType(ColTypeOfField(t)) == Ir.TUnknown
  {
  }

  /** The numbers are the ints and the floats, with or without nulls. */
  lemma NumericFields(t: string)
    ensures Bare(t) ==> (ColTypeOfField(t).IsNumeric() <==> t in {"int", "float"})
    ensures Bare(t) ==> (ColTypeOfField(Optional(t)).IsNumeric() <==> t in {"int", "float"})
  {
    if Bare(t) {
      OptionalFields(t);
      if t in PLAIN {
        PlainFields(t);
      } else {
        OtherFields(t);
      }
    }
  }

  // ── Tables of columns ───────────────────────────────────────────────────

  /** Field i is the last one declared with its name. */
  predicate IsLast(fields: seq<StructField>, i: nat)
    requires i < |fields|
  {
    forall j | i < j < |fields| :: fields[j].name != fields[i].name
  }

  /** The table has the type of the last declaration; the IR schema the type of each, in order. */
  lemma {:induction false} FieldTypes(fields: seq<StructField>, i: nat)
    requires i < |fields| && IsLast(fields, i)
    ensures fields[i].name in ColsOfFields(fields)
    ensures ColsOfFields(fields)[fields[i].name] == ColTypeOfField(fields[i].fieldType)
    ensures SchemaFromFields(fields)[i].ty == ToIrColType(ColsOfFields(fields)[fields[i].name])
  {
    hide ColTypeOfField;
    var n := |fields| - 1;
    if i < n {
      FieldTypes(fields[..n], i);
    }
  }

  predicate InNameOrder(s: Ir.Schema) {
    forall i, j | 0 <= i < j < |s| :: StrLess(s[i].name, s[j].name)
  }

  /** A schema made of a table lists its columns in name order, each with its type. */
  lemma TableTypes(cols: Cols)
    ensures forall f <- SchemaFromMap(cols) :: f.name in cols && f.ty == ToIrColType(cols[f.name])
    ensures forall c <- cols :: Ir.SchemaField(c, ToIrColType(cols[c])) in SchemaFromMap(cols)
    ensures InNameOrder(SchemaFromMap(cols))
  {
    hide Ir.SortedFields, ToIrColType, InNameOrder;
    var m := map c | c in cols :: ToIrColType(cols[c]);
    FieldsAreSorted(m);
    var s := Ir.SortedFields(m);
    assert SchemaFromMap(cols) == s;
    forall f | f in s ensures f.name in cols && f.ty == ToIrColType(cols[f.name]) {
      assert f.name in m && m[f.name] == f.ty;
    }
    forall c | c in cols ensures Ir.SchemaField(c, ToIrColType(cols[c])) in s {
      assert c in m.Keys && c in Ir.Names(s);
      var i :| 0 <= i < |s| && Ir.Names(s)[i] == c;
      assert s[i] in s;
    }
  }

  lemma FirstField(m: map<string, Ir.ColType>)
    requires m.Keys != {}
    ensures var k := Ir.FirstName(m.Keys);
      k in m && Ir.SortedFields(m) == [Ir.SchemaField(k, m[k])] + Ir.SortedFields(m - {k})
  {
  }

  lemma {:induction false} FieldsAreSorted(m: map<string, Ir.ColType>)
    ensures InNameOrder(Ir.SortedFields(m))
    decreases |m|
  {
    hide StrLess;
    if m.Keys != {} {
      FirstField(m);
      hide Ir.SortedFields;
      var k := Ir.FirstName(m.Keys);
      var rest := Ir.SortedFields(m - {k});
      FieldsAreSorted(m - {k});
      forall j | 0 <= j < |rest| ensures StrLess(k, rest[j].name) {
        assert rest[j] in rest && rest[j].name in m - {k};
      }
    } else {
      NoFields(m);
    }
  }

  lemma NoFields(m: map<string, Ir.ColType>)
    ensures m.Keys == {} ==> Ir.SortedFields(m) == []
  {
  }

  /** The two notations of a type say the same. */
  lemma NotationsAgree(t: string)
    ensures var ct := ColTypeOfField(t); ToCheckerColType(ToIrColType(ct)) == ct
  {
    hide TrimClosing;
    NormalNames(t);
    if "Option<" <= t {
      NormalNames(TrimClosing(t[7..]));
    }
  }

  lemma NormalNames(t: string)
    ensures NormalizeType(t) in {"string", "int", "float", "bool", "unknown"}
    ensures TypeName(BaseType(NormalizeType(t))) == NormalizeType(t)
  {
  }

  // ── fillNull on declared columns ────────────────────────────────────────

  /** A fill of a declared column is reported exactly when its last declaration names a plain type. */
  lemma FillIsReportedExactly(fields: seq<StructField>, i: nat)
    requires i < |fields| && IsLast(fields, i)
    ensures FillErrors(fields[i].name, ColsOfFields(fields))
         == if fields[i].fieldType in PLAIN then [Other(FillOnNonNullable)] else []
  {
    hide ColTypeOfField, ColsOfFields, SchemaFromFields;
    var t := fields[i].fieldType;
    FieldTypes(fields, i);
    if t in PLAIN {
      PlainFields(t);
    } else if "Option<" <= t {
      OptionHasNulls(t);
    } else {
      OtherFields(t);
    }
  }

  lemma OptionHasNulls(t: string)
    requires "Option<" <= t
    ensures ColTypeOfField(t).option
  {
  }

  /** A schema, and a fill of one of its columns. */
  function FillProgram(fields: seq<StructField>, c: string, v: FillNullValue): seq<Stmt> {
    [TypeDecl("T", fields), ExprStmt(Load("data.csv", "T", LoadOptions(None, None)), [FillNull(c, v)])]
  }

  lemma FillProgramReports(fields: seq<StructField>, c: string, v: FillNullValue)
    ensures Checked(FillProgram(fields, c, v)).errors == FillErrors(c, ColsOfFields(fields))
  {
    hide FillErrors, ColsOfFields, SchemaFromFields;
    var p := FillProgram(fields, c, v);
    var a := AfterStmt(EMPTY, p[0]);
    assert p[1..] == [p[1]] && [p[1]][1..] == [];
    assert Checked(p) == AfterStmts(a, [p[1]]) && AfterStmts(a, [p[1]]) == AfterStmt(a, p[1]);
    var (cols, op) := (ColsOfFields(fields), FillNull(c, v));
    FillStep(a.Tables(), cols, op);
    assert a.schemas["T"] == fields && a.errors == [];
  }

  lemma FillStep(env: Env, cols: Cols, op: PipelineOp)
    requires op.FillNull?
    ensures var s := RunOps(env, StartOps(Some(cols)), [op]);
      s.errors == FillErrors(op.col, cols) && s.group == None
  {
    hide FillErrors;
    assert [op][1..] == [];
    assert RunOps(env, StartOps(Some(cols)), [op]) == OpStep(env, StartOps(Some(cols)), op);
  }

  /** Whole programs: a nullable declared column can be filled whatever its type, one of a known plain type never. */
  lemma FillProgramsExactly(fields: seq<StructField>, i: nat, v: FillNullValue)
    requires i < |fields| && IsLast(fields, i)
    ensures Checked(FillProgram(fields, fields[i].name, v)).errors
         == if fields[i].fieldType in PLAIN then [Other(FillOnNonNullable)] else []
  {
    hide Checked, FillErrors;
    FillProgramReports(fields, fields[i].name, v);
    FillIsReportedExactly(fields, i);
  }

  // ── Types of expressions ────────────────────────────────────────────────

  predicate IsNamed(e: Expr, cols: Cols, name: string) {
    e.Ident? && e.name in cols && cols[e.name] == CheckerColType(name, false)
  }

  /** Comparisons and truth values are bool, other operations float, and only a bare column can have nulls. */
  lemma ExpressionTypes(e: Expr, cols: Cols)
    ensures var ty := TypeExpr(e, cols).ty;
      && (ty == Ir.TBool <==>
          e.BoolLit? || (e.BinOp? && !(e.op.Add? || e.op.Sub? || e.op.Mul? || e.op.Div?)) || IsNamed(e, cols, "bool"))
      && (e.BinOp? && (e.op.Add? || e.op.Sub? || e.op.Mul? || e.op.Div?) ==> ty == Ir.TFloat)
      && (e.IntLit? ==> ty == Ir.TInt) && (e.FloatLit? ==> ty == Ir.TFloat) && (e.StringLit? ==> ty == Ir.TString)
      && (ty.Nullable? <==> e.Ident? && (e.name !in cols || cols[e.name].option))
      && (e.Ident? && e.name in cols ==> ty == ToIrColType(cols[e.name]))
  {
  }

  // ── Types along a pipeline ──────────────────────────────────────────────

  /** The operator makes or replaces the column. */
  predicate Makes(op: PipelineOp, c: string) {
    || (op.WithColumn? && op.name == c)
    || (op.Predict? && op.asCol == Some(c))
    || (op.Histogram? && c in {"bin", "n"})
    || (op.Rename? && op.newName == c)
  }

  /** A column keeps its type through an operator, save for a cast of it and noise on numbers, which keep its nulls. */
  lemma TypesAreKept(op: PipelineOp, cols: Cols, c: string)
    requires c in cols && c in ColsAfter(op, cols) && !Makes(op, c)
    ensures var (before, after) := (cols[c], ColsAfter(op, cols)[c]);
      && after.option == before.option
      && (if op.Cast? && op.col == c then op.toType in PLAIN ==> after.name == ColTypeOfField(op.toType).name
          else if op.WithDp? && before.IsNumeric() then after.name == ColTypeOfField("float").name
          else after == before)
  {
    hide TypeExpr;
    if op.Cast? && op.toType in PLAIN {
      PlainFields(op.toType);
    }
    PlainFields("float");
  }

  /** What a column an operator makes can hold. */
  lemma MadeColumns(op: PipelineOp, cols: Cols, c: string)
    requires Makes(op, c) && c in ColsAfter(op, cols)
    ensures var made := ColsAfter(op, cols)[c];
      && (op.Rename? && op.oldName in cols ==> made == cols[op.oldName])
      && (op.Predict? ==> made == ColTypeOfField("Option<float>"))
      && (op.Histogram? && c == "n" ==> made == ColTypeOfField("int"))
      && (op.WithColumn? && op.expr.Ident? && op.expr.name in cols && cols[op.expr.name].name in {"string", "int", "float", "bool", "unknown"}
          ==> made == cols[op.expr.name])
      && (op.WithColumn? ==> (made.option <==> TypeExpr(op.expr, cols).ty.Nullable?))
  {
    PlainFields("int");
    PlainFields("float");
    OptionalFields("float");
    assert Optional("float") == "Option<float>";
  }

  /** The bin column of a histogram has a type name of its own: no declaration gives it, and the IR does not know it. */
  lemma HistogramBinIsUntyped(c: string, bins: nat, cols: Cols, t: string)
    ensures var bin := ColsAfter(Histogram(c, bins), cols)["bin"];
      bin != ColTypeOfField(t) && ToIrColType(bin) == Ir.TUnknown && FillErrors("bin", map["bin" := bin]) != []
  {
    hide TrimClosing;
    NormalNames(t);
    if "Option<" <= t {
      NormalNames(TrimClosing(t[7..]));
    }
    assert |"str"| == 3 && |"string"| == 6 && "int"[0] == 'i' && "str"[0] == 's';
  }
}
