/** Rows of the benchmark data, and the batch definition of the four stages. */
module BenchOracle {
  import opened Ordering
  import opened Wrappers

  datatype Row = Row(date: string, station: string, pm10: Option<real>, pm25: Option<real>)

  datatype Entry = Entry(station: string, value: real)

  /** A Python dict: keys keep the order of their first insertion. */
  datatype Dict<V> = Dict(keys: seq<string>, vals: map<string, V>) {
    ghost predicate Valid() {
      forall k :: k in keys <==> k in vals
    }

    function Put(k: string, v: V): (d: Dict<V>)
      ensures Valid() ==> d.Valid()
    {
      Dict(if k in vals then keys else keys + [k], vals[k := v])
    }
  }

  // ── The stages as functions of the rows ─────────────────────────────────

  predicate PassesFilter(r: Row) {
    r.pm10.Some? && r.pm10.value < 120.0 && r.pm25.Some? && r.pm25.value > 10.0
  }

  predicate IsHigh(r: Row) {
    r.pm10.Some? && r.pm10.value > 50.0
  }

  function Keep(p: Row -> bool, rows: seq<Row>): (kept: seq<Row>)
    ensures forall r <- kept :: p(r)
  {
    if rows == [] then []
    else
      var last := rows[|rows| - 1];
      Keep(p, rows[..|rows| - 1]) + if p(last) then [last] else []
  }

  function Filtered(rows: seq<Row>): seq<Row> {
    Keep(PassesFilter, rows)
  }

  /** Stations in the order they are first seen. */
  function Stations(rows: seq<Row>): (ss: seq<string>)
    ensures Distinct(ss)
    ensures forall s :: s in ss <==> exists r :: r in rows && r.station == s
  {
    if rows == [] then []
    else
      var front, last := rows[..|rows| - 1], rows[|rows| - 1];
      var before := Stations(front);
      assert rows == front + [last];
      if last.station in before then before else before + [last.station]
  }

  /** The pm10 values of one station, in row order. */
  function Values(rows: seq<Row>, station: string): seq<real> {
    if rows == [] then []
    else
      var last := rows[|rows| - 1];
      Values(rows[..|rows| - 1], station)
      + if last.station == station && last.pm10.Some? then [last.pm10.value] else []
  }

  function Tally(rows: seq<Row>, station: string): nat {
    if rows == [] then 0
    else Tally(rows[..|rows| - 1], station) + if rows[|rows| - 1].station == station then 1 else 0
  }

  /** `math.fsum`, which is exact over the reals. */
  function Sum(xs: seq<real>): real {
    if xs == [] then 0.0 else Sum(xs[..|xs| - 1]) + xs[|xs| - 1]
  }

  function Mean(xs: seq<real>): real {
    if xs == [] then 0.0 else Sum(xs) / |xs| as real
  }

  function SumEntries(rows: seq<Row>): seq<Entry> {
    Map(s => Entry(s, Sum(Values(Filtered(rows), s))), Stations(Filtered(rows)))
  }

  function MeanEntries(rows: seq<Row>): seq<Entry> {
    Map(s => Entry(s, Mean(Values(Filtered(rows), s))), Stations(Filtered(rows)))
  }

  function HighRows(rows: seq<Row>): seq<Row> {
    Keep(IsHigh, rows)
  }

  function CountEntries(rows: seq<Row>): seq<Entry> {
    Map(s => Entry(s, Tally(HighRows(rows), s) as real), Stations(HighRows(rows)))
  }

  predicate LargerFirst(a: Entry, b: Entry) {
    a.value > b.value
  }

  lemma LargerFirstIsWeak()
    ensures WeakOrder(LargerFirst)
  {
  }

  function Min(a: nat, b: nat): nat {
    if a <= b then a else b
  }

  function Take<T>(n: nat, s: seq<T>): seq<T> {
    if |s| <= n then s else s[..n]
  }

  datatype Stages = Stages(p2: seq<Row>, p3: seq<Entry>, p4: seq<Entry>, p7: seq<Entry>)

  /** How the per-station folds grow by one row. */
  lemma OneMoreRow(now: seq<Row>, r: Row)
    ensures var next := now + [r];
      && Stations(next) == (if r.station in Stations(now) then Stations(now) else Stations(now) + [r.station])
      && (forall s :: Tally(next, s) == Tally(now, s) + if r.station == s then 1 else 0)
      && (forall s :: Values(next, s)
                   == Values(now, s) + if r.station == s && r.pm10.Some? then [r.pm10.value] else [])
  {
    var next := now + [r];
    assert next[..|next| - 1] == now && next[|next| - 1] == r;
  }

  function Lookup<V>(d: Dict<V>, k: string, default: V): V {
    if k in d.vals then d.vals[k] else default
  }

  /** The dict has one key per station, in order of first sight. */
  ghost predicate KeyedBy<V>(d: Dict<V>, rows: seq<Row>) {
    d.Valid() && d.keys == Stations(rows)
  }

  lemma KeyedByNext<V>(d: Dict<V>, now: seq<Row>, r: Row, v: V)
    requires KeyedBy(d, now)
    ensures KeyedBy(d.Put(r.station, v), now + [r])
  {
    OneMoreRow(now, r);
  }

  ghost predicate ValuesOf(groups: Dict<seq<real>>, p2: seq<Row>) {
    KeyedBy(groups, p2) && forall s :: Lookup(groups, s, []) == Values(p2, s)
  }

  ghost predicate CountsOf(counts: Dict<nat>, high: seq<Row>) {
    KeyedBy(counts, high) && forall s :: Lookup(counts, s, 0) == Tally(high, s)
  }

  lemma ValuesNext(groups: Dict<seq<real>>, now: seq<Row>, r: Row)
    requires ValuesOf(groups, now) && r.pm10.Some?
    ensures ValuesOf(groups.Put(r.station, Lookup(groups, r.station, []) + [r.pm10.value]), now + [r])
  {
    var grown := groups.Put(r.station, Lookup(groups, r.station, []) + [r.pm10.value]);
    KeyedByNext(groups, now, r, Lookup(groups, r.station, []) + [r.pm10.value]);
    OneMoreRow(now, r);
    hide Stations, Values, Tally, KeyedBy;
    forall s ensures Lookup(grown, s, []) == Values(now + [r], s) {
      if s != r.station {
        assert Lookup(grown, s, []) == Lookup(groups, s, []);
      }
    }
  }

  lemma CountsNext(counts: Dict<nat>, now: seq<Row>, r: Row)
    requires CountsOf(counts, now)
    ensures CountsOf(counts.Put(r.station, Lookup(counts, r.station, 0) + 1), now + [r])
  {
    var grown := counts.Put(r.station, Lookup(counts, r.station, 0) + 1);
    KeyedByNext(counts, now, r, Lookup(counts, r.station, 0) + 1);
    OneMoreRow(now, r);
    hide Stations, Values, Tally, KeyedBy;
    forall s ensures Lookup(grown, s, 0) == Tally(now + [r], s) {
      if s != r.station {
        assert Lookup(grown, s, 0) == Lookup(counts, s, 0);
      }
    }
  }

  method GroupValues(p2: seq<Row>) returns (groups: Dict<seq<real>>)
    requires forall r <- p2 :: r.pm10.Some?
    ensures ValuesOf(groups, p2)
  {
    groups := Dict([], map[]);
    assert p2[..0] == [] && p2[..|p2|] == p2;
    assert ValuesOf(groups, []);
    hide ValuesOf;
    for i := 0 to |p2|
      invariant ValuesOf(groups, p2[..i])
    {
      var r := p2[i];
      assert r in p2 && p2[..i + 1] == p2[..i] + [r];
      ValuesNext(groups, p2[..i], r);
      groups := groups.Put(r.station, Lookup(groups, r.station, []) + [r.pm10.value]);
    }
  }

  /** `Counter`. */
  method CountStations(rows: seq<Row>) returns (counts: Dict<nat>)
    ensures CountsOf(counts, rows)
  {
    counts := Dict([], map[]);
    assert rows[..0] == [] && rows[..|rows|] == rows;
    assert CountsOf(counts, []);
    hide CountsOf;
    for i := 0 to |rows|
      invariant CountsOf(counts, rows[..i])
    {
      var r := rows[i];
      assert rows[..i + 1] == rows[..i] + [r];
      CountsNext(counts, rows[..i], r);
      counts := counts.Put(r.station, Lookup(counts, r.station, 0) + 1);
    }
  }

  /** The batch oracle: comprehensions, one grouping loop, two stable sorts. */
  method Oracle(rows: seq<Row>) returns (o: Stages)
    ensures o.p2 == Filtered(rows)
    ensures o.p3 == SumEntries(rows)
    ensures o.p4 == Take(10, StableSort(LargerFirst, MeanEntries(rows)))
    ensures o.p7 == Take(5, StableSort(LargerFirst, CountEntries(rows)))
  {
    var p2 := Keep(PassesFilter, rows);
    var groups := GroupValues(p2);
    var p3 := Map(s => Entry(s, Sum(Lookup(groups, s, []))), groups.keys);
    var means := Map(s => Entry(s, Mean(Lookup(groups, s, []))), groups.keys);
    var counts := CountStations(Keep(IsHigh, rows));
    var tallies := Map(s => Entry(s, Lookup(counts, s, 0) as real), counts.keys);
    o := Stages(p2, p3, Take(10, StableSort(LargerFirst, means)), Take(5, StableSort(LargerFirst, tallies)));
    hide Stations, Values, Tally, Keep, StableSort, Sum, Mean, Lookup;
    assert p3 == SumEntries(rows);
    assert means == MeanEntries(rows);
    assert tallies == CountEntries(rows);
  }
}
