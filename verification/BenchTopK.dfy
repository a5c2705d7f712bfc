/** The acceptance test for a reported top five with ties. */
module BenchTopK {
  import opened Ordering
  import opened BenchOracle

  datatype Json = JStr(s: string) | JInt(n: int) | JOther

  type JsonRow = map<string, Json>

  datatype Tallied = Tallied(station: string, count: nat)

  function StationOf(t: Tallied): string {
    t.station
  }

  function CountOf(t: Tallied): nat {
    t.count
  }

  predicate Bigger(a: nat, b: nat) {
    a > b
  }

  /** A counts dict as a dict is: each key once. */
  ghost predicate IsDict(counts: Dict<nat>) {
    counts.Valid() && Distinct(counts.keys)
  }

  /** Every station once, with its count, larger counts first; ties in any order. */
  ghost predicate IsRanking(o: seq<Tallied>, counts: Dict<nat>) {
    && Distinct(Map(StationOf, o))
    && (forall s :: s in counts.vals <==> s in Map(StationOf, o))
    && (forall t <- o :: t.station in counts.vals && counts.vals[t.station] == t.count)
    && Sorted(Bigger, Map(CountOf, o))
  }

  function Render(t: Tallied): JsonRow {
    map["station" := JStr(t.station), "pm25" := JInt(t.count)]
  }

  /** The rows are the first five, or all, of some ranking. */
  ghost predicate IsTopFive(rows: seq<JsonRow>, counts: Dict<nat>) {
    exists o :: IsRanking(o, counts) && rows == Map(Render, Take(5, o))
  }

  // ── The test as the program runs it ─────────────────────────────────────

  /** A row with exactly the two fields, of the right types. */
  predicate WellFormed(row: JsonRow) {
    row.Keys == {"station", "pm25"} && row["station"].JStr? && row["pm25"].JInt?
  }

  function CountList(counts: Dict<nat>): seq<nat>
    requires counts.Valid()
  {
    seq(|counts.keys|, i requires 0 <= i < |counts.keys| => Lookup(counts, counts.keys[i], 0))
  }

  /** The fifth largest count, the smallest when there are fewer, and 0 when there are none. */
  function Cutoff(counts: Dict<nat>): nat
    requires counts.Valid()
  {
    if counts.keys == [] then 0 else StableSort(Bigger, CountList(counts))[Min(5, |counts.keys|) - 1]
  }

  /** The reported rows, read as counts, that passed every per-row test. */
  ghost predicate Reads(rows: seq<JsonRow>, ts: seq<Tallied>, counts: Dict<nat>, cutoff: nat) {
    && rows == Map(Render, ts)
    && Distinct(Map(StationOf, ts))
    && (forall t <- ts :: t.station in counts.vals && counts.vals[t.station] == t.count && t.count >= cutoff)
  }

  /** The program's test, as one condition. */
  ghost predicate Passes(rows: seq<JsonRow>, ts: seq<Tallied>, counts: Dict<nat>)
    requires counts.Valid()
  {
    && |rows| == Min(5, |counts.keys|)
    && Reads(rows, ts, counts, Cutoff(counts))
    && Sorted(Bigger, Map(CountOf, ts))
    && forall s <- counts.keys :: counts.vals[s] > Cutoff(counts) ==> s in Map(StationOf, ts)
  }

  lemma BiggerIsLinear()
    ensures WeakOrder(Bigger) && NoTies(Bigger)
  {
  }

  lemma ValuesSorted(vs: seq<nat>)
    ensures vs == StableSort(Bigger, vs) <==> Sorted(Bigger, vs)
  {
    BiggerIsLinear();
    SortSorts(Bigger, vs);
    SortKeeps(Bigger, vs);
    if Sorted(Bigger, vs) {
      SortedIsUnique(Bigger, vs, StableSort(Bigger, vs));
    }
  }

  lemma RenderedIsWellFormed(t: Tallied)
    ensures WellFormed(Render(t)) && Render(t)["station"] == JStr(t.station) && Render(t)["pm25"] == JInt(t.count)
  {
  }

  lemma WellFormedIsRendered(row: JsonRow, t: Tallied)
    requires WellFormed(row) && row["station"] == JStr(t.station) && row["pm25"] == JInt(t.count)
    ensures row == Render(t)
  {
  }

  /** What a reading of all rows says about row i, after the rows before it were read as ts. */
  lemma RowRead(rows: seq<JsonRow>, i: nat, counts: Dict<nat>, cutoff: nat, ts: seq<Tallied>, us: seq<Tallied>)
    requires i < |rows| && rows[..i] == Map(Render, ts) && Reads(rows, us, counts, cutoff)
    ensures WellFormed(rows[i])
    ensures rows[i]["station"].s in counts.vals && rows[i]["station"].s !in Map(StationOf, ts)
    ensures rows[i]["pm25"].n == counts.vals[rows[i]["station"].s] >= cutoff
  {
    RenderedIsWellFormed(us[i]);
    assert us[i] in us;
    assert rows[..i] == Map(Render, us[..i]);
    ReadingIsUnique(rows[..i], ts, us[..i]);
    forall k | 0 <= k < i ensures Map(StationOf, ts)[k] != us[i].station {
      assert Map(StationOf, us)[k] != Map(StationOf, us)[i];
    }
  }

  lemma RowRefused(rows: seq<JsonRow>, i: nat, counts: Dict<nat>, ts: seq<Tallied>)
    requires counts.Valid() && i < |rows|
    requires rows[..i] == Map(Render, ts)
    requires !WellFormed(rows[i])
          || rows[i]["station"].s !in counts.vals
          || rows[i]["station"].s in Map(StationOf, ts)
          || rows[i]["pm25"].n != counts.vals[rows[i]["station"].s]
          || rows[i]["pm25"].n < Cutoff(counts)
    ensures forall us :: !Reads(rows, us, counts, Cutoff(counts))
  {
    hide Reads, Cutoff;
    forall us ensures !Reads(rows, us, counts, Cutoff(counts)) {
      if Reads(rows, us, counts, Cutoff(counts)) {
        RowRead(rows, i, counts, Cutoff(counts), ts, us);
      }
    }
  }

  lemma ReadingIsUnique(rows: seq<JsonRow>, ts: seq<Tallied>, us: seq<Tallied>)
    requires rows == Map(Render, ts) == Map(Render, us)
    ensures ts == us
  {
    forall i | 0 <= i < |ts| ensures ts[i] == us[i] {
      RenderedIsWellFormed(ts[i]);
      RenderedIsWellFormed(us[i]);
    }
  }

  /** `check_p7`: accepts exactly the top fives. */
  method CheckP7(rows: seq<JsonRow>, counts: Dict<nat>) returns (ok: bool)
    requires IsDict(counts)
    ensures ok <==> IsTopFive(rows, counts)
  {
    hide Reads, IsTopFive, Cutoff, WellFormed, IsRanking, StableSort, CountList;
    if |rows| != Min(5, |counts.keys|) {
      TopFiveExactly(rows, counts);
      return false;
    }
    var cutoff := Cutoff(counts);
    var ts: seq<Tallied> := [];
    NothingRead(rows, counts, cutoff);
    for i := 0 to |rows|
      invariant |ts| == i && Reads(rows[..i], ts, counts, cutoff)
    {
      var row := rows[i];
      ReadsAreRendered(rows[..i], ts, counts, cutoff);
      if !WellFormed(row) {
        RowRefused(rows, i, counts, ts);
        TopFiveExactly(rows, counts);
        return false;
      }
      FieldsPresent(row);
      var station, count := row["station"].s, row["pm25"].n;
      if station !in counts.vals || station in Map(StationOf, ts) || count != counts.vals[station] || count < cutoff {
        RowRefused(rows, i, counts, ts);
        TopFiveExactly(rows, counts);
        return false;
      }
      WellFormedIsRendered(row, Tallied(station, count));
      ReadsNext(rows, i, ts, Tallied(station, count), counts, cutoff);
      ts := ts + [Tallied(station, count)];
    }
    assert rows[..|rows|] == rows;
    var values := Map(CountOf, ts);
    ValuesSorted(values);
    ok := values == StableSort(Bigger, values)
       && forall s | s in counts.keys :: counts.vals[s] > cutoff ==> s in Map(StationOf, ts);
    Decided(rows, ts, counts);
    TopFiveExactly(rows, counts);
  }

  lemma FieldsPresent(row: JsonRow)
    ensures WellFormed(row) ==> "station" in row && "pm25" in row && row["station"].JStr? && row["pm25"].JInt?
  {
  }

  lemma NothingRead(rows: seq<JsonRow>, counts: Dict<nat>, cutoff: nat)
    ensures Reads(rows[..0], [], counts, cutoff)
  {
    assert Map(StationOf, []) == [];
  }

  lemma ReadsAreRendered(rows: seq<JsonRow>, ts: seq<Tallied>, counts: Dict<nat>, cutoff: nat)
    ensures Reads(rows, ts, counts, cutoff) ==> rows == Map(Render, ts)
  {
  }

  lemma ReadsNext(rows: seq<JsonRow>, i: nat, ts: seq<Tallied>, t: Tallied, counts: Dict<nat>, cutoff: nat)
    requires i < |rows| && Reads(rows[..i], ts, counts, cutoff) && rows[i] == Render(t)
    requires t.station in counts.vals && t.station !in Map(StationOf, ts)
    requires t.count == counts.vals[t.station] && t.count >= cutoff
    ensures Reads(rows[..i + 1], ts + [t], counts, cutoff)
  {
    assert rows[..i + 1] == rows[..i] + [rows[i]];
    MapConcat(StationOf, ts, [t]);
    MapConcat(Render, ts, [t]);
    assert Map(Render, [t]) == [Render(t)];
    assert Map(StationOf, [t]) == [t.station];
  }

  /** Once the rows are read, the two remaining tests decide. */
  lemma Decided(rows: seq<JsonRow>, ts: seq<Tallied>, counts: Dict<nat>)
    requires counts.Valid() && |rows| == Min(5, |counts.keys|) && Reads(rows, ts, counts, Cutoff(counts))
    ensures (exists us :: Passes(rows, us, counts)) <==> Passes(rows, ts, counts)
  {
    forall us | Passes(rows, us, counts) ensures us == ts {
      ReadingIsUnique(rows, ts, us);
    }
  }

  // ── Soundness and completeness ──────────────────────────────────────────

  function TalliedAt(counts: Dict<nat>): string -> Tallied {
    s => Tallied(s, Lookup(counts, s, 0))
  }

  lemma {:induction false} KeepOthers(keys: seq<string>, seen: seq<string>) returns (rest: seq<string>)
    requires Distinct(keys)
    ensures Distinct(rest) && forall s :: s in rest <==> s in keys && s !in seen
  {
    if keys == [] {
      rest := [];
    } else {
      rest := KeepOthers(keys[..|keys| - 1], seen);
      var last := keys[|keys| - 1];
      assert keys == keys[..|keys| - 1] + [last];
      if last !in seen {
        rest := rest + [last];
      }
    }
  }

  lemma MapFrom(s: seq<Tallied>, x: string)
    ensures x in Map(StationOf, s) <==> exists t :: t in s && t.station == x
  {
    if x in Map(StationOf, s) {
      var i :| 0 <= i < |s| && Map(StationOf, s)[i] == x;
      assert s[i] in s;
    }
  }

  /** The fifth entry of any ranking carries the cutoff. */
  lemma RankingHasCutoff(o: seq<Tallied>, counts: Dict<nat>)
    requires IsDict(counts) && IsRanking(o, counts)
    ensures |o| == |counts.keys|
    ensures o != [] ==> o[Min(5, |o|) - 1].count == Cutoff(counts)
  {
    var stations := Map(StationOf, o);
    DistinctPermuted(stations, counts.keys);
    var f := (s: string) => Lookup(counts, s, 0);
    MapPermuted(f, stations, counts.keys);
    assert Map(f, stations) == Map(CountOf, o) by {
      forall i | 0 <= i < |o| ensures f(stations[i]) == o[i].count {
        assert o[i] in o;
      }
    }
    assert Map(f, counts.keys) == CountList(counts);
    BiggerIsLinear();
    SortSorts(Bigger, CountList(counts));
    SortKeeps(Bigger, CountList(counts));
    SortedIsUnique(Bigger, Map(CountOf, o), StableSort(Bigger, CountList(counts)));
  }

  /** Counts before the cut reach the cutoff, counts after it do not exceed it. */
  lemma CutoffSeparates(o: seq<Tallied>, counts: Dict<nat>, i: nat)
    requires IsDict(counts) && IsRanking(o, counts) && i < |o|
    ensures i < 5 ==> o[i].count >= Cutoff(counts)
    ensures i >= 5 ==> o[i].count <= Cutoff(counts)
  {
    hide StableSort, Cutoff;
    RankingHasCutoff(o, counts);
    var k := Min(5, |o|) - 1;
    var cs := Map(CountOf, o);
    assert i < k ==> !Bigger(cs[k], cs[i]);
    assert k < i ==> !Bigger(cs[i], cs[k]);
  }

  lemma TopFiveReads(rows: seq<JsonRow>, counts: Dict<nat>, o: seq<Tallied>)
    requires IsDict(counts) && IsRanking(o, counts) && rows == Map(Render, Take(5, o))
    ensures Reads(rows, Take(5, o), counts, Cutoff(counts))
    ensures Sorted(Bigger, Map(CountOf, Take(5, o)))
  {
    hide StableSort, Cutoff;
    var ts := Take(5, o);
    forall i, j | 0 <= i < j < |ts| ensures ts[i].station != ts[j].station && ts[i].count >= ts[j].count {
      assert Map(StationOf, o)[i] != Map(StationOf, o)[j];
      assert !Bigger(Map(CountOf, o)[j], Map(CountOf, o)[i]);
    }
    forall i | 0 <= i < |ts|
      ensures ts[i].station in counts.vals && counts.vals[ts[i].station] == ts[i].count >= Cutoff(counts)
    {
      assert o[i] in o;
      CutoffSeparates(o, counts, i);
    }
  }

  lemma TopFiveComplete(counts: Dict<nat>, o: seq<Tallied>, s: string)
    requires IsDict(counts) && IsRanking(o, counts) && s in counts.keys && counts.vals[s] > Cutoff(counts)
    ensures s in Map(StationOf, Take(5, o))
  {
    hide StableSort, Cutoff;
    assert s in Map(StationOf, o);
    var i :| 0 <= i < |o| && Map(StationOf, o)[i] == s;
    assert o[i] in o;
    CutoffSeparates(o, counts, i);
    assert Map(StationOf, Take(5, o))[i] == s;
  }

  lemma TopFivePasses(rows: seq<JsonRow>, counts: Dict<nat>, o: seq<Tallied>)
    requires IsDict(counts) && IsRanking(o, counts) && rows == Map(Render, Take(5, o))
    ensures Passes(rows, Take(5, o), counts)
  {
    hide StableSort, Cutoff, Reads, IsRanking;
    TopFiveReads(rows, counts, o);
    RankingHasCutoff(o, counts);
    forall s | s in counts.keys && counts.vals[s] > Cutoff(counts) ensures s in Map(StationOf, Take(5, o)) {
      TopFiveComplete(counts, o, s);
    }
  }

  lemma {:induction false} SortedJoin(a: seq<nat>, b: seq<nat>, c: nat)
    requires Sorted(Bigger, a) && Sorted(Bigger, b)
    requires (forall x <- a :: x >= c) && (forall y <- b :: y <= c)
    ensures Sorted(Bigger, a + b)
  {
    forall i, j | 0 <= i < j < |a + b| ensures !Bigger((a + b)[j], (a + b)[i]) {
      if i < |a| <= j {
        assert (a + b)[i] in a && (a + b)[j] in b;
      }
    }
  }

  predicate TalliedFirst(a: Tallied, b: Tallied) {
    a.count > b.count
  }

  /** The stations not reported, in descending order. */
  lemma OthersRanked(ts: seq<Tallied>, counts: Dict<nat>) returns (others: seq<Tallied>)
    requires IsDict(counts)
    ensures Distinct(Map(StationOf, others)) && Sorted(Bigger, Map(CountOf, others))
    ensures forall s :: s in Map(StationOf, others) <==> s in counts.keys && s !in Map(StationOf, ts)
    ensures forall t <- others :: t.station in counts.vals && counts.vals[t.station] == t.count
  {
    hide StableSort, WeakOrder;
    var rest := KeepOthers(counts.keys, Map(StationOf, ts));
    var unsorted := Map(TalliedAt(counts), rest);
    others := StableSort(TalliedFirst, unsorted);
    TalliedFirstIsWeak();
    SortSorts(TalliedFirst, unsorted);
    SortKeeps(TalliedFirst, unsorted);
    MapPermuted(StationOf, others, unsorted);
    assert Map(StationOf, unsorted) == rest;
    SameElements(Map(StationOf, others), rest);
    forall t | t in others ensures t.station in counts.vals && counts.vals[t.station] == t.count {
      assert t in multiset(others);
      assert t in unsorted;
      var i :| 0 <= i < |rest| && unsorted[i] == t;
      assert rest[i] in rest;
    }
  }

  lemma TalliedFirstIsWeak()
    ensures WeakOrder(TalliedFirst)
  {
  }

  lemma Twice(a: seq<string>, i: nat, j: nat)
    requires i < j < |a| && a[i] == a[j]
    ensures multiset(a)[a[i]] >= 2
  {
    assert a == a[..i] + [a[i]] + a[i + 1..j] + [a[j]] + a[j + 1..];
  }

  lemma SameElements(a: seq<string>, b: seq<string>)
    requires multiset(a) == multiset(b) && Distinct(b)
    ensures Distinct(a) && forall s :: s in a <==> s in b
  {
    forall s ensures s in a <==> s in b {
      assert s in multiset(a) <==> s in multiset(b);
    }
    forall i, j | 0 <= i < j < |a| ensures a[i] != a[j] {
      if a[i] == a[j] {
        Twice(a, i, j);
        DistinctMultiplicity(b, a[i]);
      }
    }
  }

  /** Whoever was not reported has at most the cutoff. */
  lemma OthersAreLow(ts: seq<Tallied>, others: seq<Tallied>, counts: Dict<nat>, cutoff: nat)
    requires IsDict(counts)
    requires forall s :: s in Map(StationOf, others) <==> s in counts.keys && s !in Map(StationOf, ts)
    requires forall t <- others :: t.station in counts.vals && counts.vals[t.station] == t.count
    requires forall t <- ts :: t.count >= cutoff
    requires forall s <- counts.keys :: counts.vals[s] > cutoff ==> s in Map(StationOf, ts)
    ensures (forall x <- Map(CountOf, ts) :: x >= cutoff) && forall y <- Map(CountOf, others) :: y <= cutoff
  {
    forall i | 0 <= i < |ts| ensures Map(CountOf, ts)[i] >= cutoff {
      assert ts[i] in ts;
    }
    forall i | 0 <= i < |others| ensures Map(CountOf, others)[i] <= cutoff {
      assert others[i] in others;
      assert Map(StationOf, others)[i] in Map(StationOf, others);
    }
  }

  lemma PassingIsTopFive(rows: seq<JsonRow>, ts: seq<Tallied>, counts: Dict<nat>)
    requires IsDict(counts) && Passes(rows, ts, counts)
    ensures IsTopFive(rows, counts)
  {
    hide StableSort, Cutoff, IsRanking, Sorted;
    var others := OthersRanked(ts, counts);
    OthersAreLow(ts, others, counts, Cutoff(counts));
    SortedJoin(Map(CountOf, ts), Map(CountOf, others), Cutoff(counts));
    RankingFromParts(ts, others, counts);
    RankingHasCutoff(ts + others, counts);
    assert Take(5, ts + others) == ts;
  }

  lemma RankingFromParts(ts: seq<Tallied>, others: seq<Tallied>, counts: Dict<nat>)
    requires IsDict(counts)
    requires Distinct(Map(StationOf, ts)) && Distinct(Map(StationOf, others))
    requires forall t <- ts :: t.station in counts.vals && counts.vals[t.station] == t.count
    requires forall t <- others :: t.station in counts.vals && counts.vals[t.station] == t.count
    requires forall s :: s in Map(StationOf, others) <==> s in counts.keys && s !in Map(StationOf, ts)
    requires Sorted(Bigger, Map(CountOf, ts) + Map(CountOf, others))
    ensures IsRanking(ts + others, counts)
  {
    MapConcat(StationOf, ts, others);
    MapConcat(CountOf, ts, others);
    var a, b := Map(StationOf, ts), Map(StationOf, others);
    forall i, j | 0 <= i < j < |a + b| ensures (a + b)[i] != (a + b)[j] {
      if i < |a| <= j {
        assert (a + b)[j] in b && (a + b)[i] in a;
      }
    }
    forall s ensures s in counts.vals <==> s in a + b {
      if s in a {
        MapFrom(ts, s);
      }
    }
  }

  /** The test is sound and complete, whatever ties there are at the cutoff. */
  lemma TopFiveExactly(rows: seq<JsonRow>, counts: Dict<nat>)
    requires IsDict(counts)
    ensures IsTopFive(rows, counts) <==> exists ts :: Passes(rows, ts, counts)
  {
    hide Passes, IsRanking;
    if exists ts :: Passes(rows, ts, counts) {
      var ts :| Passes(rows, ts, counts);
      PassingIsTopFive(rows, ts, counts);
    }
    if IsTopFive(rows, counts) {
      var o :| IsRanking(o, counts) && rows == Map(Render, Take(5, o));
      TopFivePasses(rows, counts, o);
    }
  }

  // ── The oracle's last stage passes the test ─────────────────────────────

  function Whole(e: Entry): Tallied {
    Tallied(e.station, if e.value >= 0.0 then e.value.Floor else 0)
  }

  function EntryStation(e: Entry): string {
    e.station
  }

  lemma OracleOrder(rows: seq<Row>, sorted: seq<Entry>)
    requires sorted == StableSort(LargerFirst, CountEntries(rows))
    ensures Sorted(LargerFirst, sorted)
    ensures Distinct(Map(EntryStation, sorted))
    ensures forall s :: s in Map(EntryStation, sorted) <==> s in Stations(HighRows(rows))
    ensures forall e <- sorted :: e in CountEntries(rows)
  {
    hide StableSort, Stations, Tally, Keep, WeakOrder, Sorted;
    var es := CountEntries(rows);
    LargerFirstIsWeak();
    SortSorts(LargerFirst, es);
    SortKeeps(LargerFirst, es);
    MapPermuted(EntryStation, sorted, es);
    assert Map(EntryStation, es) == Stations(HighRows(rows));
    SameElements(Map(EntryStation, sorted), Stations(HighRows(rows)));
    forall e | e in sorted ensures e in es {
      assert e in multiset(sorted);
    }
  }

  lemma OracleRanks(rows: seq<Row>, counts: Dict<nat>)
    requires CountsOf(counts, HighRows(rows))
    ensures IsDict(counts)
    ensures IsRanking(Map(Whole, StableSort(LargerFirst, CountEntries(rows))), counts)
  {
    hide StableSort, Stations, Tally, HighRows, CountEntries;
    var sorted := StableSort(LargerFirst, CountEntries(rows));
    OracleOrder(rows, sorted);
    var o := Map(Whole, sorted);
    assert Map(StationOf, o) == Map(EntryStation, sorted);
    forall i | 0 <= i < |o| ensures o[i].station in counts.vals && counts.vals[o[i].station] == o[i].count {
      EntryCounted(rows, counts, sorted[i]);
    }
    forall i, j | 0 <= i < j < |o| ensures o[i].count >= o[j].count {
      assert !LargerFirst(sorted[j], sorted[i]);
    }
  }

  lemma EntryCounted(rows: seq<Row>, counts: Dict<nat>, e: Entry)
    requires CountsOf(counts, HighRows(rows)) && e in CountEntries(rows)
    ensures e.station in counts.vals && e.value == counts.vals[e.station] as real
  {
    hide Stations, Tally, Keep;
    var i :| 0 <= i < |CountEntries(rows)| && CountEntries(rows)[i] == e;
    assert e.station == Stations(HighRows(rows))[i];
    assert Lookup(counts, e.station, 0) == Tally(HighRows(rows), e.station);
  }

  /** On the same data the acceptance test, fed by the scan's counts, accepts the oracle's top five. */
  lemma OracleIsAccepted(rows: seq<Row>, counts: Dict<nat>)
    requires CountsOf(counts, HighRows(rows))
    ensures IsTopFive(Map(Render, Map(Whole, Take(5, StableSort(LargerFirst, CountEntries(rows))))), counts)
  {
    hide StableSort, CountEntries, IsRanking;
    OracleRanks(rows, counts);
    var sorted := StableSort(LargerFirst, CountEntries(rows));
    assert Map(Whole, Take(5, sorted)) == Take(5, Map(Whole, sorted));
  }
}
