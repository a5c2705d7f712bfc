/** Inferring the column types of a CSV sample. */
module SchemaInference {
  import opened Text
  import opened Wrappers

  datatype Ty = Bool | Int | Float | Str

  // ── Reading one cell ────────────────────────────────────────────────────

  function TrimLeft(s: string): (r: string)
    ensures r != "" ==> !White(r[0] as int)
  {
    if s != "" && White(s[0] as int) then TrimLeft(s[1..]) else s
  }

  function TrimRight(s: string): (r: string)
    ensures r <= s && (r != "" ==> !White(r[|r| - 1] as int))
  {
    if s != "" && White(s[|s| - 1] as int) then TrimRight(s[..|s| - 1]) else s
  }

  function Trim(s: string): string {
    TrimRight(TrimLeft(s))
  }

  lemma TrimTwice(s: string)
    ensures Trim(Trim(s)) == Trim(s)
  {
    var t := Trim(s);
    if t != "" {
      assert t[0] == TrimLeft(s)[0];
    }
  }

  function Lower(s: string): string {
    seq(|s|, i requires 0 <= i < |s| => if 'A' <= s[i] <= 'Z' then s[i] - 'A' + 'a' else s[i])
  }

  predicate Digits(s: string) {
    forall c <- s :: '0' <= c <= '9'
  }

  function Unsigned(s: string): string {
    if s != "" && (s[0] == '+' || s[0] == '-') then s[1..] else s
  }

  function Magnitude(s: string): nat {
    if s == "" then 0
    else
      var c := s[|s| - 1];
      10 * Magnitude(s[..|s| - 1]) + if '0' <= c <= '9' then (c - '0') as nat else 0
  }

  const I64_LIMIT: nat := 0x8000_0000_0000_0000

  /** `parse::<i64>()` succeeds: a sign, digits, and a value in range. */
  predicate IsI64(s: string) {
    var d := Unsigned(s);
    d != "" && Digits(d) && (Magnitude(d) < I64_LIMIT || (s[0] == '-' && Magnitude(d) == I64_LIMIT))
  }

  function TakeDigits(s: string): (n: nat)
    ensures n <= |s| && Digits(s[..n])
  {
    if s == "" || !('0' <= s[0] <= '9') then 0
    else
      var n := TakeDigits(s[1..]);
      assert s[..1 + n] == [s[0]] + s[1..][..n];
      1 + n
  }

  /** Nothing, or an exponent with at least one digit. */
  predicate IsExponent(s: string) {
    s == "" || ((s[0] == 'e' || s[0] == 'E') && Unsigned(s[1..]) != "" && Digits(Unsigned(s[1..])))
  }

  /** Digits with an optional fraction, at least one digit in all, and an optional exponent. */
  predicate IsDecimal(s: string) {
    var n := TakeDigits(s);
    var rest := s[n..];
    if rest != "" && rest[0] == '.' then
      var m := TakeDigits(rest[1..]);
      n + m > 0 && IsExponent(rest[1 + m..])
    else n > 0 && IsExponent(rest)
  }

  /** `parse::<f64>()` succeeds. */
  predicate IsF64(s: string) {
    var d := Unsigned(s);
    Lower(d) in {"inf", "infinity", "nan"} || IsDecimal(d)
  }

  predicate IsBool(s: string) {
    Lower(s) in {"true", "false"}
  }

  function InferType(value: string): Ty {
    var t := Trim(value);
    if IsBool(t) then Bool else if IsI64(t) then Int else if IsF64(t) then Float else Str
  }

  /** The trimmed cell can be read at the type. */
  predicate Reads(ty: Ty, value: string) {
    var t := Trim(value);
    match ty
    case Bool => IsBool(t)
    case Int => IsI64(t)
    case Float => IsF64(t)
    case Str => true
  }

  // ── The type lattice ────────────────────────────────────────────────────

  /** Int may widen to Float; everything may widen to Str. */
  predicate Below(a: Ty, b: Ty) {
    a == b || b == Str || (a == Int && b == Float)
  }

  function MergeType(a: Ty, b: Ty): Ty {
    match (a, b)
    case (Bool, Bool) => Bool
    case (Int, Int) => Int
    case (Float, Float) => Float
    case (Int, Float) => Float
    case (Float, Int) => Float
    case _ => Str
  }

  /** The merge is the least upper bound: a type is above it exactly when it is above both. */
  lemma MergeIsJoin(a: Ty, b: Ty, t: Ty)
    ensures Below(MergeType(a, b), t) <==> Below(a, t) && Below(b, t)
  {
  }

  lemma BelowIsOrder(a: Ty, b: Ty, c: Ty)
    ensures Below(a, a)
    ensures Below(a, b) && Below(b, a) ==> a == b
    ensures Below(a, b) && Below(b, c) ==> Below(a, c)
  {
  }

  lemma {:induction false} TakeAllDigits(s: string)
    requires Digits(s)
    ensures TakeDigits(s) == |s|
  {
    if s != "" {
      assert s[0] in s && forall c <- s[1..] :: c in s;
      TakeAllDigits(s[1..]);
    }
  }

  /** Every integer cell is a float cell. */
  lemma IntIsFloat(s: string)
    requires IsI64(s)
    ensures IsF64(s)
  {
    var d := Unsigned(s);
    TakeAllDigits(d);
    assert d[|d|..] == "";
  }

  /** No truth value is a number. */
  lemma BoolIsNoNumber(s: string)
    requires IsBool(s)
    ensures !IsF64(s)
  {
    var c := s[0];
    assert Lower(s)[0] in {'t', 'f'} && |s| >= 4 by {
      assert Lower(s) == "true" || Lower(s) == "false";
    }
    assert c !in {'+', '-', '.'} && !('0' <= c <= '9');
    assert Unsigned(s) == s && TakeDigits(s) == 0 && s[0..] == s;
    assert "inf"[0] == 'i' && "infinity"[0] == 'i' && "nan"[0] == 'n';
  }

  /** The type inferred for a cell is the least at which it can be read. */
  lemma CellIsExact(value: string, t: Ty)
    ensures Reads(t, value) <==> Below(InferType(Trim(value)), t)
  {
    hide IsBool, IsI64, IsF64, Trim;
    var s := Trim(value);
    TrimTwice(value);
    if IsBool(s) {
      BoolIsNoNumber(s);
    }
    if IsI64(s) {
      IntIsFloat(s);
    }
  }

  // ── One column ──────────────────────────────────────────────────────────

  predicate IsBlank(value: string) {
    Trim(value) == ""
  }

  function MergeOption(a: Option<Ty>, b: Option<Ty>): Option<Ty> {
    if a.None? then b else if b.None? then a else Some(MergeType(a.value, b.value))
  }

  function CellType(value: string): Option<Ty> {
    if IsBlank(value) then None else Some(InferType(Trim(value)))
  }

  /** The running type after the cells, top to bottom. */
  function ColumnType(cells: seq<string>): Option<Ty> {
    if cells == [] then None else MergeOption(ColumnType(cells[..|cells| - 1]), CellType(cells[|cells| - 1]))
  }

  predicate SawBlank(cells: seq<string>) {
    exists c :: c in cells && IsBlank(c)
  }

  /** A column without any non-blank cell is a string column. */
  function FinalType(cells: seq<string>): Ty {
    if ColumnType(cells).None? then Str else ColumnType(cells).value
  }

  /** A type is above the column's exactly when every non-blank cell reads at it. */
  lemma {:induction false} ColumnBelow(cells: seq<string>, t: Ty)
    ensures ColumnType(cells).None? <==> forall c <- cells :: IsBlank(c)
    ensures (ColumnType(cells).Some? ==> Below(ColumnType(cells).value, t))
       <==> forall c <- cells :: IsBlank(c) || Reads(t, c)
  {
    hide InferType, Reads, IsBlank, Below, MergeType;
    if cells != [] {
      var front, last := cells[..|cells| - 1], cells[|cells| - 1];
      assert cells == front + [last];
      ColumnBelow(front, t);
      CellIsExact(last, t);
      if ColumnType(front).Some? && !IsBlank(last) {
        MergeIsJoin(ColumnType(front).value, InferType(Trim(last)), t);
      }
    }
  }

  /**
    The inferred type is the least one at which every non-blank sampled cell reads, provided
    there is such a cell; an all-blank column reads at every type and is still called string.
   */
  lemma ColumnIsExact(cells: seq<string>, t: Ty)
    ensures (forall c <- cells :: IsBlank(c) || Reads(FinalType(cells), c))
    ensures Below(FinalType(cells), t)
       <==> t == Str || ((exists c :: c in cells && !IsBlank(c)) && forall c <- cells :: IsBlank(c) || Reads(t, c))
  {
    ColumnBelow(cells, t);
    ColumnBelow(cells, FinalType(cells));
    BelowIsOrder(FinalType(cells), t, t);
    hide Reads, IsBlank;
  }

  /** Inference is a homomorphism: a column cut in two merges the types of the parts. */
  lemma {:induction false} ColumnSplits(a: seq<string>, b: seq<string>)
    ensures ColumnType(a + b) == MergeOption(ColumnType(a), ColumnType(b))
    ensures SawBlank(a + b) <==> SawBlank(a) || SawBlank(b)
  {
    hide IsBlank, InferType;
    if b == [] {
      assert a + b == a;
    } else {
      var front, last := b[..|b| - 1], b[|b| - 1];
      ColumnSplits(a, front);
      assert (a + b)[..|a + b| - 1] == a + front && (a + b)[|a + b| - 1] == last;
      MergeAssociates(ColumnType(a), ColumnType(front), CellType(last));
    }
  }

  lemma MergeAssociates(a: Option<Ty>, b: Option<Ty>, c: Option<Ty>)
    ensures MergeOption(MergeOption(a, b), c) == MergeOption(a, MergeOption(b, c))
  {
  }

  /** Row order does not matter. */
  lemma OrderDoesNotMatter(a: seq<string>, b: seq<string>)
    requires multiset(a) == multiset(b)
    ensures FinalType(a) == FinalType(b) && (SawBlank(a) <==> SawBlank(b))
  {
    hide IsBlank, Reads, Below;
    forall c ensures c in a <==> c in b {
      assert c in multiset(a) <==> c in multiset(b);
    }
    ColumnIsExact(a, FinalType(b));
    ColumnIsExact(b, FinalType(a));
    ColumnIsExact(a, FinalType(a));
    ColumnIsExact(b, FinalType(b));
    BelowIsOrder(FinalType(a), FinalType(b), FinalType(a));
    BelowIsOrder(FinalType(b), FinalType(a), FinalType(b));
  }

  // ── All columns in one pass over the records ────────────────────────────

  type Record = seq<string>

  /** The cells of column i, skipping records too short to have one. */
  function Cells(records: seq<Record>, i: nat): seq<string> {
    if records == [] then []
    else
      var last := records[|records| - 1];
      Cells(records[..|records| - 1], i) + if i < |last| then [last[i]] else []
  }

  function OneCell(r: Record, i: nat): seq<string> {
    if i < |r| then [r[i]] else []
  }

  lemma CellsNext(records: seq<Record>, k: nat, i: nat)
    requires k < |records|
    ensures Cells(records[..k + 1], i) == Cells(records[..k], i) + OneCell(records[k], i)
  {
    assert records[..k + 1][..k] == records[..k];
  }

  lemma ColumnNext(cells: seq<string>, c: string)
    ensures ColumnType(cells + [c]) == MergeOption(ColumnType(cells), CellType(c))
    ensures SawBlank(cells + [c]) <==> SawBlank(cells) || IsBlank(c)
  {
    hide IsBlank, InferType;
    assert (cells + [c])[..|cells|] == cells;
    if IsBlank(c) {
      assert c in cells + [c];
    }
  }

  /** The table of running types and blank flags describes the cells seen so far. */
  ghost predicate Describes(ty: Option<Ty>, nullable: bool, cells: seq<string>) {
    ty == ColumnType(cells) && (nullable <==> SawBlank(cells))
  }

  lemma DescribesNext(ty: Option<Ty>, nullable: bool, cells: seq<string>, c: string)
    requires Describes(ty, nullable, cells)
    ensures Describes(MergeOption(ty, CellType(c)), nullable || IsBlank(c), cells + [c])
  {
    hide IsBlank, InferType, ColumnType, SawBlank;
    ColumnNext(cells, c);
  }

  lemma NothingSeen(records: seq<Record>, i: nat)
    ensures Describes(None, false, Cells(records[..0], i))
  {
  }

  /** The sample the program looks at: the first hundred records. */
  function Sample(records: seq<Record>): seq<Record> {
    if |records| <= 100 then records else records[..100]
  }

  /** The column loop: one table entry per header, surplus fields of a record are ignored. */
  method InferColumns(headers: nat, all: seq<Record>) returns (types: array<Ty>, nullable: array<bool>)
    ensures types.Length == nullable.Length == headers
    ensures var sample := all[..if |all| < 100 then |all| else 100];
      forall i | 0 <= i < headers ::
        types[i] == FinalType(Cells(sample, i)) && (nullable[i] <==> SawBlank(Cells(sample, i)))
  {
    hide IsBlank, InferType, Describes, Cells, ColumnType, SawBlank;
    var records := Sample(all);
    assert records == all[..if |all| < 100 then |all| else 100];
    var running := new Option<Ty>[headers](_ => None);
    nullable := new bool[headers](_ => false);
    forall i | 0 <= i < headers ensures Describes(running[i], nullable[i], Cells(records[..0], i)) {
      NothingSeen(records, i);
    }
    for k := 0 to |records|
      invariant fresh(running) && fresh(nullable)
      invariant running.Length == nullable.Length == headers
      invariant forall i | 0 <= i < headers :: Describes(running[i], nullable[i], Cells(records[..k], i))
    {
      ScanRecord(records, k, running, nullable);
    }
    assert records[..|records|] == records;
    types := new Ty[headers](_ => Str);
    for i := 0 to headers
      invariant fresh(types) && types.Length == headers
      invariant forall j | 0 <= j < headers :: Describes(running[j], nullable[j], Cells(records, j))
      invariant forall j | 0 <= j < i :: types[j] == if running[j].None? then Str else running[j].value
    {
      types[i] := if running[i].None? then Str else running[i].value;
    }
    forall i | 0 <= i < headers
      ensures types[i] == FinalType(Cells(records, i)) && (nullable[i] <==> SawBlank(Cells(records, i)))
    {
      Described(running[i], nullable[i], Cells(records, i));
    }
  }

  lemma Described(ty: Option<Ty>, nullable: bool, cells: seq<string>)
    ensures Describes(ty, nullable, cells)
        ==> ((if ty.None? then Str else ty.value) == FinalType(cells) && (nullable <==> SawBlank(cells)))
  {
  }

  /** One record: a blank cell sets the flag, any other merges its type. */
  method ScanRecord(records: seq<Record>, k: nat, running: array<Option<Ty>>, nullable: array<bool>)
    requires k < |records| && running.Length == nullable.Length
    requires forall i | 0 <= i < running.Length :: Describes(running[i], nullable[i], Cells(records[..k], i))
    modifies running, nullable
    ensures forall i | 0 <= i < running.Length :: Describes(running[i], nullable[i], Cells(records[..k + 1], i))
  {
    hide IsBlank, InferType, Describes, Cells;
    var record := records[k];
    var i := 0;
    while i < |record|
      invariant i <= |record| && i <= running.Length
      invariant forall j | 0 <= j < i :: Describes(running[j], nullable[j], Cells(records[..k + 1], j))
      invariant forall j | i <= j < running.Length :: Describes(running[j], nullable[j], Cells(records[..k], j))
    {
      if i >= running.Length {
        break;
      }
      CellsNext(records, k, i);
      DescribesNext(running[i], nullable[i], Cells(records[..k], i), record[i]);
      if IsBlank(record[i]) {
        nullable[i] := true;
      } else {
        running[i] := Some(match running[i]
                           case None => InferType(Trim(record[i]))
                           case Some(existing) => MergeType(existing, InferType(Trim(record[i]))));
      }
      i := i + 1;
    }
    forall j | i <= j < running.Length ensures Describes(running[j], nullable[j], Cells(records[..k + 1], j)) {
      CellsNext(records, k, j);
      assert Cells(records[..k], j) + [] == Cells(records[..k], j);
    }
  }
}
