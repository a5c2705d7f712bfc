/** The one-pass scan of the benchmark data, against the batch oracle. */
module BenchScan {
  import opened Ordering
  import opened Text
  import opened BenchOracle
  import opened Wrappers

  /** Kahan state of one station: sum, compensation and count. */
  datatype Group = Group(sum: real, comp: real, n: nat)

  datatype RowError = BadDate | BadStation | EmptyInput

  datatype ScanResult =
    | Scanned(rows: nat, resultRows: (nat, nat, nat, nat), sums: map<string, real>, top10: seq<Entry>,
              counts: Dict<nat>)
    | Rejected(error: RowError)

  /** Blank after trimming, or one of the reserved null tokens. */
  predicate IsReserved(s: string) {
    Blank(s) || s in {"-", "\U{C810}\U{AC80}\U{C911}", "N/A"}
  }

  function RowProblem(r: Row): Option<RowError> {
    if IsReserved(r.date) then Some(BadDate)
    else if IsReserved(r.station) then Some(BadStation)
    else None
  }

  /** The state Kahan's loop reaches over the reals: the exact sum, and no compensation ever. */
  function Folded(xs: seq<real>): Group {
    Group(Sum(xs), 0.0, |xs|)
  }

  const NO_GROUP := Group(0.0, 0.0, 0)

  /** One Kahan step. */
  function Accumulate(g: Group, x: real): Group {
    var delta := x - g.comp;
    var updated := g.sum + delta;
    Group(updated, (updated - g.sum) - delta, g.n + 1)
  }

  lemma AccumulateFolds(xs: seq<real>, x: real)
    ensures Accumulate(Folded(xs), x) == Folded(xs + [x])
  {
    assert (xs + [x])[..|xs|] == xs;
  }

  lemma KeepOneMore(p: Row -> bool, now: seq<Row>, r: Row)
    ensures Keep(p, now + [r]) == Keep(p, now) + if p(r) then [r] else []
  {
    assert (now + [r])[..|now|] == now;
  }

  predicate MeanThenName(a: Entry, b: Entry) {
    a.value > b.value || (a.value == b.value && StrLess(a.station, b.station))
  }

  /** The error the first bad row raises, if any. */
  function FirstProblem(rows: seq<Row>): Option<RowError> {
    if rows == [] then None
    else if RowProblem(rows[0]).Some? then RowProblem(rows[0])
    else FirstProblem(rows[1..])
  }

  lemma {:induction false} FirstProblemAt(rows: seq<Row>, i: nat)
    requires i <= |rows| && forall j | 0 <= j < i :: RowProblem(rows[j]).None?
    ensures FirstProblem(rows) == FirstProblem(rows[i..])
    decreases i
  {
    if i == 0 {
      assert rows[0..] == rows;
    } else {
      FirstProblemAt(rows[1..], i - 1);
      assert rows[1..][i - 1..] == rows[i..];
    }
  }

  /** What is kept of each station while the rows stream past. */
  ghost predicate GroupsOf(groups: Dict<Group>, p2: seq<Row>) {
    KeyedBy(groups, p2) && forall s :: Lookup(groups, s, NO_GROUP) == Folded(Values(p2, s))
  }

  lemma GroupsNext(groups: Dict<Group>, p2: seq<Row>, r: Row)
    requires GroupsOf(groups, p2) && r.pm10.Some?
    ensures GroupsOf(groups.Put(r.station, Accumulate(Lookup(groups, r.station, NO_GROUP), r.pm10.value)), p2 + [r])
  {
    var g := Accumulate(Lookup(groups, r.station, NO_GROUP), r.pm10.value);
    var grown := groups.Put(r.station, g);
    KeyedByNext(groups, p2, r, g);
    OneMoreRow(p2, r);
    AccumulateFolds(Values(p2, r.station), r.pm10.value);
    hide Stations, Values, Tally, Sum, KeyedBy, Accumulate, Folded;
    forall s ensures Lookup(grown, s, NO_GROUP) == Folded(Values(p2 + [r], s)) {
      if s != r.station {
        assert Lookup(grown, s, NO_GROUP) == Lookup(groups, s, NO_GROUP);
        assert Values(p2 + [r], s) == Values(p2, s);
      }
    }
  }

  ghost function ScanOf(rows: seq<Row>, r: ScanResult): bool {
    if FirstProblem(rows).Some? then r == Rejected(FirstProblem(rows).value)
    else if rows == [] then r == Rejected(EmptyInput)
    else
      && r.Scanned?
      && r.rows == |rows|
      && r.resultRows == (|Filtered(rows)|, |Stations(Filtered(rows))|,
                          Min(10, |Stations(Filtered(rows))|), Min(5, |Stations(HighRows(rows))|))
      && r.sums == (map s | s in Stations(Filtered(rows)) :: Sum(Values(Filtered(rows), s)))
      && r.top10 == Take(10, StableSort(MeanThenName, MeanEntries(rows)))
      && CountsOf(r.counts, HighRows(rows))
  }

  /** The scan's whole state after the rows seen so far. */
  datatype State = State(filtered: nat, groups: Dict<Group>, counts: Dict<nat>)

  ghost predicate StateOf(st: State, seen: seq<Row>) {
    && st.filtered == |Filtered(seen)|
    && GroupsOf(st.groups, Filtered(seen))
    && CountsOf(st.counts, HighRows(seen))
  }

  /** One row of the pass. */
  function Advance(st: State, r: Row): State {
    var st1 :=
      if r.pm10.Some? && r.pm10.value < 120.0 && r.pm25.Some? && r.pm25.value > 10.0 then
        st.(filtered := st.filtered + 1,
            groups := st.groups.Put(r.station, Accumulate(Lookup(st.groups, r.station, NO_GROUP), r.pm10.value)))
      else st;
    if r.pm10.Some? && r.pm10.value > 50.0 then
      st1.(counts := st.counts.Put(r.station, Lookup(st.counts, r.station, 0) + 1))
    else st1
  }

  lemma StagesNext(seen: seq<Row>, r: Row)
    ensures Filtered(seen + [r]) == if PassesFilter(r) then Filtered(seen) + [r] else Filtered(seen)
    ensures HighRows(seen + [r]) == if IsHigh(r) then HighRows(seen) + [r] else HighRows(seen)
  {
    KeepOneMore(PassesFilter, seen, r);
    KeepOneMore(IsHigh, seen, r);
  }

  lemma AdvanceFolds(st: State, seen: seq<Row>, r: Row)
    requires StateOf(st, seen)
    ensures StateOf(Advance(st, r), seen + [r])
  {
    hide Filtered, HighRows, GroupsOf, CountsOf, Accumulate, Lookup;
    StagesNext(seen, r);
    if PassesFilter(r) {
      GroupsNext(st.groups, Filtered(seen), r);
    }
    if IsHigh(r) {
      CountsNext(st.counts, HighRows(seen), r);
    }
  }

  lemma InitialState()
    ensures StateOf(State(0, Dict([], map[]), Dict([], map[])), [])
  {
  }

  /** One pass over the rows; only one Kahan state and one count per station are kept. */
  method ScanCsv(rows: seq<Row>) returns (r: ScanResult)
    ensures ScanOf(rows, r)
  {
    hide StateOf, Advance, RowProblem, FirstProblem, ScanOf, Summary;
    var st := State(0, Dict([], map[]), Dict([], map[]));
    var total := 0;
    assert rows[..0] == [] && rows[..|rows|] == rows;
    InitialState();
    for i := 0 to |rows|
      invariant total == i && StateOf(st, rows[..i])
      invariant forall j | 0 <= j < i :: RowProblem(rows[j]).None?
    {
      var problem := RowProblem(rows[i]);
      if problem.Some? {
        RejectsAt(rows, i);
        return Rejected(problem.value);
      }
      total := total + 1;
      assert rows[..i + 1] == rows[..i] + [rows[i]];
      AdvanceFolds(st, rows[..i], rows[i]);
      st := Advance(st, rows[i]);
    }
    NoProblem(rows);
    if total == 0 {
      EmptyIsRejected();
      return Rejected(EmptyInput);
    }
    SummaryIsScan(rows, st);
    r := Summary(total, st);
  }

  lemma RejectsAt(rows: seq<Row>, i: nat)
    requires i < |rows| && RowProblem(rows[i]).Some? && forall j | 0 <= j < i :: RowProblem(rows[j]).None?
    ensures ScanOf(rows, Rejected(RowProblem(rows[i]).value))
  {
    FirstProblemAt(rows, i);
  }

  lemma EmptyIsRejected()
    ensures ScanOf([], Rejected(EmptyInput))
  {
  }

  lemma NoProblem(rows: seq<Row>)
    requires forall j | 0 <= j < |rows| :: RowProblem(rows[j]).None?
    ensures FirstProblem(rows).None?
  {
    FirstProblemAt(rows, |rows|);
  }

  /** The summary's parts, computed from the dict of Kahan states. */
  lemma SummaryMatches(groups: Dict<Group>, rows: seq<Row>, means: seq<Entry>, sums: map<string, real>)
    requires GroupsOf(groups, Filtered(rows)) && |means| == |groups.keys|
    requires forall i | 0 <= i < |means| ::
               means[i] == Entry(groups.keys[i], MeanOf(Lookup(groups, groups.keys[i], NO_GROUP)))
    requires sums == (map s | s in groups.keys :: Lookup(groups, s, NO_GROUP).sum)
    ensures means == MeanEntries(rows)
    ensures sums == (map s | s in Stations(Filtered(rows)) :: Sum(Values(Filtered(rows), s)))
    ensures groups.keys == Stations(Filtered(rows))
  {
    hide Stations, Values, Keep, Sum, Lookup;
  }

  lemma CountKeys(counts: Dict<nat>, high: seq<Row>)
    ensures CountsOf(counts, high) ==> counts.keys == Stations(high)
  {
  }

  /** The summary built once the last row was seen. */
  function Summary(total: nat, st: State): ScanResult {
    var keys := st.groups.keys;
    Scanned(total, (st.filtered, |keys|, Min(10, |keys|), Min(5, |st.counts.keys|)),
            map s | s in keys :: Lookup(st.groups, s, NO_GROUP).sum,
            Take(10, StableSort(MeanThenName, Map(s => Entry(s, MeanOf(Lookup(st.groups, s, NO_GROUP))), keys))),
            st.counts)
  }

  lemma SummaryIsScan(rows: seq<Row>, st: State)
    ensures rows != [] && FirstProblem(rows).None? && StateOf(st, rows) ==> ScanOf(rows, Summary(|rows|, st))
  {
    hide Stations, Values, Filtered, HighRows, MeanEntries, StableSort, Sum, Lookup, FirstProblem, CountsOf, GroupsOf;
    if rows != [] && FirstProblem(rows).None? && StateOf(st, rows) {
      var keys := st.groups.keys;
      var sums := map s | s in keys :: Lookup(st.groups, s, NO_GROUP).sum;
      var means := Map(s => Entry(s, MeanOf(Lookup(st.groups, s, NO_GROUP))), keys);
      SummaryMatches(st.groups, rows, means, sums);
      CountKeys(st.counts, HighRows(rows));
    }
  }

  function MeanOf(g: Group): real {
    if g.n == 0 then 0.0 else g.sum / g.n as real
  }

  // ── The scan refines the oracle ─────────────────────────────────────────

  lemma MeanThenNameIsWeak()
    ensures WeakOrder(MeanThenName)
  {
    forall x, y, z | !MeanThenName(x, y) && !MeanThenName(y, z) ensures !MeanThenName(x, z) {
      StrTotal(x.station, y.station);
      StrTotal(y.station, z.station);
      StrTotal(x.station, z.station);
      if StrLess(z.station, y.station) && StrLess(y.station, x.station) {
        StrTransitive(z.station, y.station, x.station);
      }
    }
    forall x, y | MeanThenName(x, y) ensures !MeanThenName(y, x) {
      StrTotal(x.station, y.station);
    }
  }

  function ValueOf(e: Entry): real {
    e.value
  }

  /** Any two orders that put larger values first rank the same values, tie by tie. */
  lemma SameRanking(es: seq<Entry>, n: nat)
    ensures Map(ValueOf, Take(n, StableSort(LargerFirst, es))) == Map(ValueOf, Take(n, StableSort(MeanThenName, es)))
  {
    hide StableSort, WeakOrder;
    var a, b := StableSort(LargerFirst, es), StableSort(MeanThenName, es);
    LargerFirstIsWeak();
    MeanThenNameIsWeak();
    SortSorts(LargerFirst, es);
    SortSorts(MeanThenName, es);
    SortKeeps(LargerFirst, es);
    SortKeeps(MeanThenName, es);
    MapPermuted(ValueOf, a, b);
    assert Sorted(Larger, Map(ValueOf, a));
    assert Sorted(Larger, Map(ValueOf, b)) by {
      forall i, j | 0 <= i < j < |b| ensures b[i].value >= b[j].value {
        assert !MeanThenName(b[j], b[i]);
      }
    }
    SortedIsUnique(Larger, Map(ValueOf, a), Map(ValueOf, b));
    MapTake(ValueOf, n, a);
    MapTake(ValueOf, n, b);
  }

  /** An entry the first n must hold however ties are broken: all of them fit, or it beats the last one listed. */
  predicate MustBeListed(e: Entry, es: seq<Entry>, listed: seq<Entry>, n: nat) {
    e in es && (|es| <= n || (listed != [] && e.value > listed[|listed| - 1].value))
  }

  ghost predicate RanksLarger(less: (Entry, Entry) -> bool) {
    WeakOrder(less) && forall x: Entry, y: Entry {:trigger less(x, y)} :: x.value > y.value ==> less(x, y)
  }

  lemma TopHolds(less: (Entry, Entry) -> bool, es: seq<Entry>, n: nat, e: Entry)
    requires RanksLarger(less) && MustBeListed(e, es, Take(n, StableSort(less, es)), n)
    ensures e in Take(n, StableSort(less, es))
  {
    hide StableSort, WeakOrder;
    SortSorts(less, es);
    SortKeeps(less, es);
    var s := StableSort(less, es);
    assert e in multiset(s);
    var i :| 0 <= i < |s| && s[i] == e;
    assert forall k | 0 < n <= k < |s| :: !less(s[k], s[n - 1]);
    assert |s| <= n || i < n;
    assert Take(n, s)[i] == e;
  }

  /** Ties apart, the two orders list the same entries. */
  lemma SameEntriesAboveTheCutoff(es: seq<Entry>, n: nat)
    ensures forall e: Entry | MustBeListed(e, es, Take(n, StableSort(LargerFirst, es)), n) ::
      e in Take(n, StableSort(LargerFirst, es)) && e in Take(n, StableSort(MeanThenName, es))
  {
    hide StableSort, WeakOrder, LargerFirst, MeanThenName;
    var (a, b) := (Take(n, StableSort(LargerFirst, es)), Take(n, StableSort(MeanThenName, es)));
    BothRankLarger();
    SameRanking(es, n);
    SameLast(a, b);
    forall e: Entry | MustBeListed(e, es, a, n) ensures e in a && e in b {
      TopHolds(LargerFirst, es, n, e);
      TopHolds(MeanThenName, es, n, e);
    }
  }

  lemma BothRankLarger()
    ensures RanksLarger(LargerFirst) && RanksLarger(MeanThenName)
  {
    LargerFirstIsWeak();
    MeanThenNameIsWeak();
  }

  lemma SameLast(a: seq<Entry>, b: seq<Entry>)
    requires Map(ValueOf, a) == Map(ValueOf, b)
    ensures |a| == |b| && (a != [] ==> a[|a| - 1].value == b[|b| - 1].value)
  {
    if a != [] {
      assert Map(ValueOf, a)[|a| - 1] == a[|a| - 1].value && Map(ValueOf, b)[|b| - 1] == b[|b| - 1].value;
    }
  }

  lemma MapTake<T, U>(f: T -> U, n: nat, s: seq<T>)
    ensures Map(f, Take(n, s)) == Take(n, Map(f, s))
  {
  }

  /**
    The one-pass scan refines the batch oracle on every accepted input: the same filtered count,
    the same sum per station, stage row counts equal to the lengths of the oracle's lists, the
    same ten means in order and the same stations up to ties, and counts whose top five the oracle's last stage lists.
   */
  method CompareWithOracle(rows: seq<Row>) returns (scan: ScanResult, o: Stages)
    requires rows != [] && FirstProblem(rows).None?
    ensures scan.Scanned? && scan.rows == |rows|
    ensures scan.resultRows == (|o.p2|, |o.p3|, |o.p4|, |o.p7|)
    ensures |o.p3| == |scan.sums| && forall e <- o.p3 :: e.station in scan.sums && scan.sums[e.station] == e.value
    ensures Map(ValueOf, scan.top10) == Map(ValueOf, o.p4)
    ensures forall e: Entry | MustBeListed(e, MeanEntries(rows), o.p4, 10) :: e in scan.top10 && e in o.p4
    ensures o.p7 == Take(5, StableSort(LargerFirst, CountEntries(rows)))
    ensures CountsOf(scan.counts, HighRows(rows))
  {
    hide Stations, Values, Keep, StableSort, Sum, CountsOf, FirstProblem, CountEntries, MeanEntries, MustBeListed;
    scan := ScanCsv(rows);
    o := Oracle(rows);
    SameRanking(MeanEntries(rows), 10);
    SameEntriesAboveTheCutoff(MeanEntries(rows), 10);
    assert o.p4 == Take(10, StableSort(LargerFirst, MeanEntries(rows)));
    assert scan.top10 == Take(10, StableSort(MeanThenName, MeanEntries(rows)));
    SumKeys(rows, scan.sums);
    EntriesAreCounted(rows);
    MatchSums(rows, scan.sums);
  }

  lemma EntriesAreCounted(rows: seq<Row>)
    ensures |CountEntries(rows)| == |Stations(HighRows(rows))|
    ensures |MeanEntries(rows)| == |Stations(Filtered(rows))|
  {
  }

  lemma MatchSums(rows: seq<Row>, sums: map<string, real>)
    requires sums == (map s | s in Stations(Filtered(rows)) :: Sum(Values(Filtered(rows), s)))
    ensures forall e <- SumEntries(rows) :: e.station in sums && sums[e.station] == e.value
  {
    hide Stations, Values, Sum, Filtered;
    forall e | e in SumEntries(rows) ensures e.station in sums && sums[e.station] == e.value {
      var i :| 0 <= i < |SumEntries(rows)| && SumEntries(rows)[i] == e;
      assert SumEntries(rows)[i].station == Stations(Filtered(rows))[i];
    }
  }

  lemma SumKeys(rows: seq<Row>, sums: map<string, real>)
    requires sums == (map s | s in Stations(Filtered(rows)) :: Sum(Values(Filtered(rows), s)))
    ensures |sums| == |Stations(Filtered(rows))|
  {
    var ks := Stations(Filtered(rows));
    KeyCount(ks);
    assert sums.Keys == set s | s in ks;
  }

  lemma {:induction false} KeyCount(ks: seq<string>)
    requires Distinct(ks)
    ensures |set s | s in ks| == |ks|
  {
    if ks != [] {
      var front, last := ks[..|ks| - 1], ks[|ks| - 1];
      KeyCount(front);
      assert (set s | s in ks) == (set s | s in front) + {last};
      assert last !in front;
    }
  }
}
