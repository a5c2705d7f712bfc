/** The pipeline catalog: where each output column comes from, one step at a time. */
module Catalog {
  import opened Ast
  import opened Wrappers
  import Ir

  /** One column of the lineage: the columns it derives from and the step that created it (0 is the source). */
  datatype ColumnLineage = ColumnLineage(column: string, from: seq<string>, createdByStep: nat)

  type Provenance = seq<ColumnLineage>

  datatype CatalogEntry = CatalogEntry(
    id: nat, name: Option<string>, inputColumns: seq<string>, outputColumns: seq<string>, lineage: Provenance)

  function Columns(p: Provenance): (cs: seq<string>)
    ensures |cs| == |p| && forall i | 0 <= i < |p| :: cs[i] == p[i].column
  {
    seq(|p|, i requires 0 <= i < |p| => p[i].column)
  }

  // ── Tables of provenance as values ──────────────────────────────────────

  function Keep(p: Provenance, cs: seq<string>): Provenance {
    if p == [] then []
    else
      var n := |p| - 1;
      Keep(p[..n], cs) + if p[n].column in cs then [p[n]] else []
  }

  /** The first entry of a column. */
  function Position(p: Provenance, c: string): (i: nat)
    ensures i <= |p| && (i < |p| ==> p[i].column == c) && (i < |p| <==> c in Columns(p))
    ensures forall j | 0 <= j < i :: p[j].column != c
  {
    if p == [] then 0
    else if p[0].column == c then assert c == Columns(p)[0]; 0
    else
      assert Columns(p) == [p[0].column] + Columns(p[1..]);
      1 + Position(p[1..], c)
  }

  function Without(p: Provenance, c: string): Provenance {
    var i := Position(p, c);
    if i < |p| then p[..i] + p[i + 1..] else p
  }

  /** The first entry of a column, moved to the end under its new name. */
  function Renamed(p: Provenance, from: string, to: string): Provenance {
    var i := Position(p, from);
    if i < |p| then Without(p, from) + [ColumnLineage(to, p[i].from, p[i].createdByStep)] else p
  }

  function AddOnce(p: Provenance, e: ColumnLineage): Provenance {
    if e.column in Columns(p) then p else p + [e]
  }

  /** Columns that stand for themselves, each added unless it is there. */
  function AddAll(p: Provenance, cs: seq<string>, step: nat): Provenance {
    if cs == [] then p
    else
      var n := |cs| - 1;
      AddOnce(AddAll(p, cs[..n], step), ColumnLineage(cs[n], [cs[n]], step))
  }

  function CorrName(a: string, b: string): string {
    a + "_" + b + "_corr"
  }

  function AfterDataOp(p: Provenance, op: Ir.DataOp, step: nat): Provenance {
    match op
    case Select(cs) => Keep(p, cs)
    case Rename(o, n) => Renamed(p, o, n)
    case WithColumn(name, e) => Without(p, name) + [ColumnLineage(name, Ir.Refs(e), step)]
    case GroupBy(c) => Keep(p, [c])
    case Aggregate(_, c) => AddOnce(p, ColumnLineage(c, [c], step))
    case AggList(specs) => AddAll(p, Ir.SpecColumns(specs), step)
    case Quantile(c, _) => AddOnce(p, ColumnLineage(c, [c], step))
    case Corr(a, b) => AddOnce(p, ColumnLineage(CorrName(a, b), [a, b], step))
    case Histogram(c, _) => [ColumnLineage("bin", [c], step), ColumnLineage("n", [c], step)]
    case Join(_, leftOn, _, _) => AddAll(p, leftOn, step)
    case _ => p
  }

  function AfterStep(p: Provenance, step: Ir.Step, k: nat): Provenance {
    match step
    case Data(op) => AfterDataOp(p, op, k)
    case _ => p
  }

  /** The provenance after the first n steps; steps are numbered from 1. */
  function AfterSteps(p: Provenance, steps: seq<Ir.Step>, n: nat): Provenance
    requires n <= |steps|
  {
    if n == 0 then p else AfterStep(AfterSteps(p, steps, n - 1), steps[n - 1], n)
  }

  /** Every source column stands for itself. */
  function Seeded(cs: seq<string>): (p: Provenance)
    ensures Columns(p) == cs
  {
    seq(|cs|, i requires 0 <= i < |cs| => ColumnLineage(cs[i], [cs[i]], 0))
  }

  function InputColumns(node: Ir.PipelineNode): seq<string> {
    if node.inputSchema.Some? then Ir.Names(node.inputSchema.value) else []
  }

  function Lineage(node: Ir.PipelineNode): Provenance {
    AfterSteps(Seeded(InputColumns(node)), node.steps, |node.steps|)
  }

  // ── The same, in place ──────────────────────────────────────────────────

  /** Collects the column references of an expression by walking it. */
  class RefCollector {
    var out: seq<string>

    constructor ()
      ensures out == []
    {
      out := [];
    }

    method Walk(e: Ir.TypedExpr)
      modifies this
      ensures out == old(out) + Ir.Refs(e)
    {
      match e.kind {
        case Column(c) => out := out + [c];
        case BinOp(_, l, r) =>
          Walk(l);
          Walk(r);
          assert old(out) + Ir.Refs(l) + Ir.Refs(r) == old(out) + (Ir.Refs(l) + Ir.Refs(r));
        case _ =>
      }
    }
  }

  method ExprColumnRefs(e: Ir.TypedExpr) returns (refs: seq<string>)
    ensures refs == Ir.Refs(e)
  {
    var collector := new RefCollector();
    collector.Walk(e);
    refs := collector.out;
  }

  class ProvenanceTable {
    var entries: Provenance

    constructor ()
      ensures entries == []
    {
      entries := [];
    }

    method Push(e: ColumnLineage)
      modifies this
      ensures entries == old(entries) + [e]
    {
      entries := entries + [e];
    }

    method Retain(cs: seq<string>)
      modifies this
      ensures entries == Keep(old(entries), cs)
    {
      var kept: Provenance := [];
      for i := 0 to |entries|
        invariant entries == old(entries)
        invariant kept == Keep(entries[..i], cs)
      {
        assert entries[..i + 1][..i] == entries[..i];
        if entries[i].column in cs {
          kept := kept + [entries[i]];
        }
      }
      assert entries[..|entries|] == entries;
      entries := kept;
    }

    method FindPosition(c: string) returns (i: nat)
      ensures i == Position(entries, c)
    {
      i := 0;
      while i < |entries| && entries[i].column != c
        invariant i <= |entries|
        invariant forall j | 0 <= j < i :: entries[j].column != c
      {
        i := i + 1;
      }
    }

    method Remove(i: nat)
      requires i < |entries|
      modifies this
      ensures entries == old(entries)[..i] + old(entries)[i + 1..]
    {
      entries := entries[..i] + entries[i + 1..];
    }

    method RemoveFirst(c: string)
      modifies this
      ensures entries == Without(old(entries), c)
    {
      var i := FindPosition(c);
      if i < |entries| {
        Remove(i);
      }
    }

    method PushOnce(e: ColumnLineage)
      modifies this
      ensures entries == AddOnce(old(entries), e)
    {
      var i := FindPosition(e.column);
      if i == |entries| {
        Push(e);
      }
    }

    method PushAll(cs: seq<string>, step: nat)
      modifies this
      ensures entries == AddAll(old(entries), cs, step)
    {
      for i := 0 to |cs|
        invariant entries == AddAll(old(entries), cs[..i], step)
      {
        assert cs[..i + 1][..i] == cs[..i];
        PushOnce(ColumnLineage(cs[i], [cs[i]], step));
      }
      assert cs[..|cs|] == cs;
    }

    method ApplyRename(from: string, to: string)
      modifies this
      ensures entries == Renamed(old(entries), from, to)
    {
      var i := FindPosition(from);
      if i < |entries| {
        var e := entries[i];
        Remove(i);
        Push(ColumnLineage(to, e.from, e.createdByStep));
      }
    }

    method ApplyWithColumn(name: string, e: Ir.TypedExpr, step: nat)
      modifies this
      ensures entries == AfterDataOp(old(entries), Ir.WithColumn(name, e), step)
    {
      hide Without, Ir.Refs;
      var refs := ExprColumnRefs(e);
      RemoveFirst(name);
      Push(ColumnLineage(name, refs, step));
    }

    method ApplyDataOp(op: Ir.DataOp, step: nat)
      modifies this
      ensures entries == AfterDataOp(old(entries), op, step)
    {
      match op {
        case Select(cs) => Retain(cs);
        case Rename(o, n) => ApplyRename(o, n);
        case WithColumn(name, e) => ApplyWithColumn(name, e, step);
        case GroupBy(c) => Retain([c]);
        case Aggregate(_, c) => PushOnce(ColumnLineage(c, [c], step));
        case AggList(specs) => PushAll(Ir.SpecColumns(specs), step);
        case Quantile(c, _) => PushOnce(ColumnLineage(c, [c], step));
        case Corr(a, b) => PushOnce(ColumnLineage(CorrName(a, b), [a, b], step));
        case Histogram(c, _) =>
          entries := [];
          Push(ColumnLineage("bin", [c], step));
          Push(ColumnLineage("n", [c], step));
        case Join(_, leftOn, _, _) => PushAll(leftOn, step);
        case _ =>
      }
    }
  }

  /** The catalog entry of a node: its provenance table walked through every step. */
  method BuildPipelineEntry(node: Ir.PipelineNode) returns (entry: CatalogEntry)
    ensures entry == CatalogEntry(node.id, node.name, InputColumns(node), Columns(Lineage(node)), Lineage(node))
  {
    hide AfterDataOp;
    var table := new ProvenanceTable();
    var input := InputColumns(node);
    for i := 0 to |input|
      invariant table.entries == Seeded(input)[..i]
    {
      table.Push(ColumnLineage(input[i], [input[i]], 0));
    }
    var stepIdx := 0;
    for i := 0 to |node.steps|
      invariant stepIdx == i
      invariant table.entries == AfterSteps(Seeded(input), node.steps, i)
    {
      stepIdx := stepIdx + 1;
      if node.steps[i].Data? {
        table.ApplyDataOp(node.steps[i].data, stepIdx);
      }
    }
    entry := CatalogEntry(node.id, node.name, input, Columns(table.entries), table.entries);
  }
}
