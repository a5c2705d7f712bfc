/** What the stages of the benchmark add up to. */
module BenchTotals {
  import opened BenchOracle
  import opened BenchScan
  import opened Ordering
  import opened Text
  import opened Wrappers

  /** All pm10 values, in row order. */
  function AllValues(rows: seq<Row>): seq<real> {
    if rows == [] then []
    else (if rows[0].pm10.Some? then [rows[0].pm10.value] else []) + AllValues(rows[1..])
  }

  /** One number per station, added up. */
  function TotalOf(stations: seq<string>, f: string -> real): real {
    if stations == [] then 0.0 else f(stations[0]) + TotalOf(stations[1..], f)
  }

  lemma {:induction false} SumTwice(a: seq<real>, b: seq<real>)
    ensures Sum(a + b) == Sum(a) + Sum(b)
  {
    if b == [] {
      assert a + b == a;
    } else {
      var n := |b| - 1;
      assert (a + b)[..|a + b| - 1] == a + b[..n] && (a + b)[|a + b| - 1] == b[n];
      SumTwice(a, b[..n]);
    }
  }

  lemma {:induction false} AllValuesNext(rows: seq<Row>, r: Row)
    ensures AllValues(rows + [r]) == AllValues(rows) + if r.pm10.Some? then [r.pm10.value] else []
  {
    if rows == [] {
      assert rows + [r] == [r] && [r][1..] == [];
    } else {
      assert (rows + [r])[1..] == rows[1..] + [r];
      AllValuesNext(rows[1..], r);
    }
  }

  /** Raising the number of one listed station raises the total by as much; other stations do not matter. */
  lemma {:induction false} TotalGrows(stations: seq<string>, f: string -> real, g: string -> real, s: string, x: real)
    requires Distinct(stations)
    requires forall t <- stations :: g(t) == f(t) + if t == s then x else 0.0
    ensures TotalOf(stations, g) == TotalOf(stations, f) + if s in stations then x else 0.0
  {
    if stations != [] {
      assert stations[0] in stations && forall t <- stations[1..] :: t in stations;
      assert stations == [stations[0]] + stations[1..];
      DistinctTail(stations);
      TotalGrows(stations[1..], f, g, s, x);
    }
  }

  lemma DistinctTail(stations: seq<string>)
    requires stations != [] && Distinct(stations)
    ensures Distinct(stations[1..]) && stations[0] !in stations[1..]
  {
  }

  lemma {:induction false} TotalNext(stations: seq<string>, s: string, f: string -> real)
    ensures TotalOf(stations + [s], f) == TotalOf(stations, f) + f(s)
  {
    if stations == [] {
      assert stations + [s] == [s] && [s][1..] == [];
    } else {
      assert (stations + [s])[1..] == stations[1..] + [s];
      TotalNext(stations[1..], s, f);
    }
  }

  lemma NotSeen(rows: seq<Row>, s: string)
    requires s !in Stations(rows)
    ensures forall i | 0 <= i < |rows| :: rows[i].station != s
  {
    forall i | 0 <= i < |rows| ensures rows[i].station != s {
      assert rows[i] in rows;
    }
  }

  lemma {:induction false} NoValues(rows: seq<Row>, s: string)
    requires forall i | 0 <= i < |rows| :: rows[i].station != s
    ensures Values(rows, s) == [] && Tally(rows, s) == 0
  {
    if rows != [] {
      NoValues(rows[..|rows| - 1], s);
    }
  }

  /** The stations' sums add up to the sum of all values: none is lost, and none counted twice. */
  lemma {:induction false} SumsAddUp(rows: seq<Row>)
    ensures TotalOf(Stations(rows), s => Sum(Values(rows, s))) == Sum(AllValues(rows))
  {
    hide Stations, Values, Tally, Sum, Distinct;
    if rows == [] {
      Nothing();
    } else {
      var (front, r) := (rows[..|rows| - 1], rows[|rows| - 1]);
      assert rows == front + [r];
      var (before, after) := ((s: string) => Sum(Values(front, s)), (s: string) => Sum(Values(rows, s)));
      var x := if r.pm10.Some? then r.pm10.value else 0.0;
      SumsAddUp(front);
      OneMoreRow(front, r);
      AllValuesNext(front, r);
      SumTwice(AllValues(front), [x]);
      OneValue(x);
      assert AllValues(front) + [] == AllValues(front);
      forall s ensures after(s) == before(s) + if s == r.station then x else 0.0 {
        SumTwice(Values(front, s), [x]);
        assert Values(front, s) + [] == Values(front, s);
      }
      SameTotal(Stations(front), before, s => Sum(Values(front, s)));
      TotalGrows(Stations(front), before, after, r.station, x);
      if r.station !in Stations(front) {
        NotSeen(front, r.station);
        NoValues(front, r.station);
        Nothing();
        TotalNext(Stations(front), r.station, after);
      }
      SameTotal(Stations(rows), after, s => Sum(Values(rows, s)));
    }
  }

  lemma {:induction false} SameTotal(stations: seq<string>, f: string -> real, g: string -> real)
    requires forall s :: f(s) == g(s)
    ensures TotalOf(stations, f) == TotalOf(stations, g)
  {
    if stations != [] {
      SameTotal(stations[1..], f, g);
    }
  }

  lemma OneValue(x: real)
    ensures Sum([x]) == x
  {
    assert [x][..0] == [];
  }

  lemma Nothing()
    ensures Stations([]) == [] && Sum([]) == 0.0 && AllValues([]) == []
  {
  }

  /** The stations' counts add up to the number of rows. */
  lemma {:induction false} CountsAddUp(rows: seq<Row>)
    ensures TotalOf(Stations(rows), s => Tally(rows, s) as real) == |rows| as real
  {
    hide Stations, Values, Tally, Distinct;
    if rows == [] {
      Nothing();
    } else {
      var (front, r) := (rows[..|rows| - 1], rows[|rows| - 1]);
      assert rows == front + [r];
      var (before, after) := ((s: string) => Tally(front, s) as real, (s: string) => Tally(rows, s) as real);
      CountsAddUp(front);
      OneMoreRow(front, r);
      SameTotal(Stations(front), before, s => Tally(front, s) as real);
      TotalGrows(Stations(front), before, after, r.station, 1.0);
      if r.station !in Stations(front) {
        NotSeen(front, r.station);
        NoValues(front, r.station);
        TotalNext(Stations(front), r.station, after);
      }
      SameTotal(Stations(rows), after, s => Tally(rows, s) as real);
    }
  }

  /** A mean times its number of values is their sum. */
  lemma MeanExactly(xs: seq<real>)
    ensures xs != [] ==> Mean(xs) * |xs| as real == Sum(xs)
    ensures xs == [] ==> Mean(xs) == 0.0
  {
  }

  /** The rows kept are the ones within the bounds, and a row on a bound is not. */
  lemma BoundsAreOpen(date: string, station: string, pm10: real, pm25: real, other: Option<real>)
    ensures PassesFilter(Row(date, station, Some(pm10), Some(pm25))) <==> pm10 < 120.0 && pm25 > 10.0
    ensures IsHigh(Row(date, station, Some(pm10), other)) <==> pm10 > 50.0
    ensures !PassesFilter(Row(date, station, None, other)) && !PassesFilter(Row(date, station, other, None))
    ensures !IsHigh(Row(date, station, None, other))
  {
  }

  // ── Refused rows ────────────────────────────────────────────────────────

  /** A text that is trimmed to nothing has nothing but white space. */
  lemma {:induction false} BlankExactly(s: string)
    ensures Blank(s) <==> forall c <- s :: IsSpace(c)
  {
    AllStrippedLeft(s);
    var t := StripLeft(s);
    if t == "" {
      assert Blank(s);
    } else {
      assert t[0] in s;
      VisibleStays(t);
    }
  }

  lemma {:induction false} AllStrippedLeft(s: string)
    ensures StripLeft(s) == "" <==> forall c <- s :: IsSpace(c)
  {
    if s != "" {
      AllStrippedLeft(s[1..]);
      assert s == [s[0]] + s[1..];
    }
  }

  lemma {:induction false} VisibleStays(s: string)
    requires s != "" && !IsSpace(s[0])
    ensures StripRight(s) != ""
  {
    if |s| > 1 && IsSpace(s[|s| - 1]) {
      VisibleStays(s[..|s| - 1]);
    }
  }

  predicate IsEmptyField(s: string) {
    (forall c <- s :: IsSpace(c)) || s == "-" || s == "\U{C810}\U{AC80}\U{C911}" || s == "N/A"
  }

  /** The scan refuses a file exactly for its first row without a date or a station, and looks at the date first. */
  lemma {:induction false} RefusedExactly(rows: seq<Row>, e: RowError)
    ensures FirstProblem(rows) == Some(e) <==>
      exists i | 0 <= i < |rows| ::
        && (IsEmptyField(rows[i].date) || IsEmptyField(rows[i].station))
        && e == (if IsEmptyField(rows[i].date) then BadDate else BadStation)
        && forall j | 0 <= j < i :: !IsEmptyField(rows[j].date) && !IsEmptyField(rows[j].station)
  {
    hide IsEmptyField, IsReserved;
    if rows != [] {
      ReservedExactly(rows[0].date);
      ReservedExactly(rows[0].station);
      var rest := rows[1..];
      RefusedExactly(rest, e);
      assert forall i | 0 < i < |rows| :: rows[i] == rest[i - 1];
      assert forall i | 0 <= i < |rest| :: rest[i] == rows[i + 1];
    }
  }

  lemma ReservedExactly(s: string)
    ensures IsReserved(s) <==> IsEmptyField(s)
  {
    BlankExactly(s);
  }
}
