/** The epsilon ledger, and whole runs of noise requests against it. */
module PrivacyLedger {
  import opened Words
  import opened SplitMix
  import opened Noise
  import opened DpFrames
  import opened Wrappers

  datatype SpendResult = Charged | NotPositive | Exceeded

  class PrivacyBudget {
    var total: real
    var spent: real

    constructor (total: real, spent: real := 0.0)
      ensures this.total == total && this.spent == spent
    {
      this.total, this.spent := total, spent;
    }

    method Spend(epsilon: real) returns (r: SpendResult)
      modifies this
      ensures total == old(total)
      ensures spent == if r == Charged then old(spent) + epsilon else old(spent)
      ensures r == Charged <==> 0.0 < epsilon <= old(total) - old(spent)
      ensures r == NotPositive <==> epsilon <= 0.0
    {
      if epsilon <= 0.0 {
        return NotPositive;
      }
      if spent + epsilon > total {
        return Exceeded;
      }
      spent := spent + epsilon;
      return Charged;
    }

    function Remaining(): (r: real)
      reads this
      ensures r >= 0.0
      ensures spent <= total <==> spent + r == total
    {
      if total - spent > 0.0 then total - spent else 0.0
    }
  }

  /** The library of the frame passed in; anything else is refused, but only after the charge. */
  datatype Library = Known(kind: Kind) | Unknown

  datatype Request = Request(
    library: Library, df: Frame, epsilon: real, mechanism: string, sensitivity: real, delta: Delta)

  datatype Failure = Argument(error: ArgError) | OverBudget | UnsupportedFrame | NoNumericColumn

  datatype Report = Report(noiseParam: real, noisedColumns: seq<string>)

  datatype Outcome = Noised(df: Frame, report: Report) | Failed(why: Failure)

  /** Would the request be charged to a ledger in this state? */
  predicate IsCharged(q: Request, total: real, spent: real) {
    && Validate(q.epsilon, q.sensitivity, q.mechanism, q.delta).Accepted?
    && spent + q.epsilon <= total
  }

  /** Can the frame be noised at all? The program only looks after charging. */
  predicate IsServable(q: Request) {
    q.library.Known? && NumericNames(q.df, |q.df|) != []
  }

  /** The guards in the order the program tests them. */
  function FirstFailure(q: Request, budget: bool, total: real, spent: real): (f: Option<Failure>)
    ensures f.None? <==> (if budget then IsCharged(q, total, spent)
                          else Validate(q.epsilon, q.sensitivity, q.mechanism, q.delta).Accepted?) && IsServable(q)
  {
    var v := Validate(q.epsilon, q.sensitivity, q.mechanism, q.delta);
    if v.Refused? then Some(Argument(v.error))
    else if budget && spent + q.epsilon > total then Some(OverBudget)
    else if q.library.Unknown? then Some(UnsupportedFrame)
    else if NumericNames(q.df, |q.df|) == [] then Some(NoNumericColumn)
    else None
  }

  /** Which guard fails first: arguments, then the budget, then the library, then the columns. */
  lemma FailuresExactly(q: Request, budget: bool, total: real, spent: real)
    ensures var (f, v) := (FirstFailure(q, budget, total, spent), Validate(q.epsilon, q.sensitivity, q.mechanism, q.delta));
      var fits := !budget || q.epsilon <= total - spent;
      && (forall e :: f == Some(Argument(e)) <==> v == Refused(e))
      && (f == Some(OverBudget) <==> v.Accepted? && !fits)
      && (f == Some(UnsupportedFrame) <==> v.Accepted? && fits && q.library == Unknown)
      && (f == Some(NoNumericColumn) <==>
          v.Accepted? && fits && q.library != Unknown && forall c <- q.df :: !Numeric(c.dtype))
  {
    NamesExactly(q.df, |q.df|);
    assert q.df[..|q.df|] == q.df;
  }

  lemma {:induction false} NamesExactly(df: Frame, n: nat)
    requires n <= |df|
    ensures NumericNames(df, n) == [] <==> forall c <- df[..n] :: !Numeric(c.dtype)
  {
    if n > 0 {
      NamesExactly(df, n - 1);
      assert df[..n] == df[..n - 1] + [df[n - 1]];
    }
  }

  function SpentAfter(q: Request, total: real, spent: real): real {
    if IsCharged(q, total, spent) then spent + q.epsilon else spent
  }

  method ApplyDp(m: Libm, q: Request, seed: int, budget: PrivacyBudget?) returns (r: Outcome)
    requires m.Valid()
    modifies budget
    ensures budget != null ==>
      && budget.total == old(budget.total)
      && budget.spent == SpentAfter(q, old(budget.total), old(budget.spent))
    ensures var f := FirstFailure(q, budget != null, if budget == null then 0.0 else old(budget.total),
                                  if budget == null then 0.0 else old(budget.spent));
      if f.Some? then r == Failed(f.value)
      else
        var mech := Validate(q.epsilon, q.sensitivity, q.mechanism, q.delta).mech;
        var param := NoiseParam(m, mech, q.epsilon, q.sensitivity, q.delta.Or(DEFAULT_DELTA));
        r == Noised(NoisedFrame(q.library.kind, q.df, Stream(m, mech, param, seed % W)),
                    Report(param, NumericNames(q.df, |q.df|)))
  {
    hide SampleFrom, StateAt, SampleAt, GaussianSigma;
    var checked := Validate(q.epsilon, q.sensitivity, q.mechanism, q.delta);
    if checked.Refused? {
      return Failed(Argument(checked.error));
    }
    if budget != null {
      var charge := budget.Spend(q.epsilon);
      if charge != Charged {
        return Failed(OverBudget);
      }
    }
    var param := NoiseParam(m, checked.mech, q.epsilon, q.sensitivity, q.delta.Or(DEFAULT_DELTA));
    var sampler := new Sampler(m, checked.mech, param, seed);
    var out, noised;
    match q.library {
      case Known(Pandas) => out, noised := ApplyPandas(q.df, sampler);
      case Known(Polars) => out, noised := ApplyPolars(q.df, sampler);
      case Unknown => return Failed(UnsupportedFrame);
    }
    if noised == [] {
      return Failed(NoNumericColumn);
    }
    r := Noised(out, Report(param, noised));
  }

  // ── Runs of requests against one ledger ─────────────────────────────────

  /** What the ledger reads before each request and at the end. */
  function SpentDuring(qs: seq<Request>, n: nat, total: real, spent: real): real
    requires n <= |qs|
  {
    if n == 0 then spent
    else SpentAfter(qs[n - 1], total, SpentDuring(qs, n - 1, total, spent))
  }

  predicate ChargedInRun(qs: seq<Request>, i: nat, total: real, spent: real)
    requires i < |qs|
  {
    IsCharged(qs[i], total, SpentDuring(qs, i, total, spent))
  }

  /** The sum of the epsilons of the charged requests among the first n. */
  function ChargedSum(qs: seq<Request>, n: nat, total: real, spent: real): real
    requires n <= |qs|
  {
    if n == 0 then 0.0 else
      var last := if ChargedInRun(qs, n - 1, total, spent) then qs[n - 1].epsilon else 0.0;
      ChargedSum(qs, n - 1, total, spent) + last
  }

  /** The sum of the epsilons of the requests that got a noised frame back. */
  function ServedSum(qs: seq<Request>, n: nat, total: real, spent: real): real
    requires n <= |qs|
  {
    if n == 0 then 0.0 else
      var served := ChargedInRun(qs, n - 1, total, spent) && IsServable(qs[n - 1]);
      ServedSum(qs, n - 1, total, spent) + if served then qs[n - 1].epsilon else 0.0
  }

  /** Over any run the ledger is the sum of the charges, and once within the total it stays there. */
  lemma {:induction false} LedgerIsTheSumOfCharges(qs: seq<Request>, n: nat, total: real, spent: real)
    requires n <= |qs|
    ensures SpentDuring(qs, n, total, spent) == spent + ChargedSum(qs, n, total, spent)
    ensures spent <= SpentDuring(qs, n, total, spent)
    ensures spent <= total ==> SpentDuring(qs, n, total, spent) <= total
  {
    if n != 0 {
      LedgerIsTheSumOfCharges(qs, n - 1, total, spent);
    }
  }

  /**
    The charges are exactly the served requests' epsilons if and only if every charged request
    was servable: a frame of an unknown library or without a numeric column is charged and then
    refused, where the Rust runtime charges only after the noise is in.
   */
  lemma {:induction false} ChargesMatchServiceExactly(qs: seq<Request>, n: nat, total: real, spent: real)
    requires n <= |qs|
    ensures ServedSum(qs, n, total, spent) <= ChargedSum(qs, n, total, spent)
    ensures ServedSum(qs, n, total, spent) == ChargedSum(qs, n, total, spent)
       <==> forall i | 0 <= i < n :: ChargedInRun(qs, i, total, spent) ==> IsServable(qs[i])
  {
    if n != 0 {
      ChargesMatchServiceExactly(qs, n - 1, total, spent);
    }
  }

  /** A request fails and still costs something exactly when it is charged and its frame cannot be served. */
  lemma FailsAtACostExactly(q: Request, total: real, spent: real)
    ensures FirstFailure(q, true, total, spent).Some? && SpentAfter(q, total, spent) != spent
       <==> IsCharged(q, total, spent) && !IsServable(q)
    ensures FirstFailure(q, true, total, spent).None? <==> IsCharged(q, total, spent) && IsServable(q)
  {
  }

  /** A concrete request that is refused and still costs its epsilon. */
  lemma RefusedButCharged()
    ensures var q := Request(Known(Pandas), [Column("name", Text, [Str("a")])], 1.0, "laplace", 1.0, Absent);
            FirstFailure(q, true, 10.0, 0.0) == Some(NoNumericColumn) && SpentAfter(q, 10.0, 0.0) == 1.0
  {
    var df := [Column("name", Text, [Str("a")])];
    assert NumericNames(df, 0) == [];
    assert NumericNames(df, 1) == [];
  }

  /** One request against a ledger, seen from outside. */
  method ServeOne(m: Libm, q: Request, seed: int, budget: PrivacyBudget) returns (r: Outcome)
    requires m.Valid()
    modifies budget
    ensures budget.total == old(budget.total)
    ensures budget.spent == SpentAfter(q, old(budget.total), old(budget.spent))
    ensures r.Noised? <==> IsCharged(q, old(budget.total), old(budget.spent)) && IsServable(q)
  {
    hide SampleFrom, StateAt, SampleAt, GaussianSigma, Validate, NoisedFrame, NumericNames;
    r := ApplyDp(m, q, seed, budget);
  }

  /** A run through the object, request by request. */
  method Serve(m: Libm, qs: seq<Request>, seeds: seq<int>, budget: PrivacyBudget) returns (rs: seq<Outcome>)
    requires m.Valid() && |seeds| == |qs|
    modifies budget
    ensures |rs| == |qs| && budget.total == old(budget.total)
    ensures budget.spent == SpentDuring(qs, |qs|, old(budget.total), old(budget.spent))
    ensures forall i | 0 <= i < |qs| ::
      rs[i].Noised? <==> ChargedInRun(qs, i, old(budget.total), old(budget.spent)) && IsServable(qs[i])
  {
    hide SampleFrom, StateAt, SampleAt, GaussianSigma, Validate, IsCharged, IsServable, SpentAfter;
    rs := [];
    ghost var total, spent := budget.total, budget.spent;
    for i := 0 to |qs|
      invariant |rs| == i && budget.total == total
      invariant budget.spent == SpentDuring(qs, i, total, spent)
      invariant forall j | 0 <= j < i ::
        rs[j].Noised? <==> ChargedInRun(qs, j, total, spent) && IsServable(qs[j])
    {
      var r := ServeOne(m, qs[i], seeds[i], budget);
      rs := rs + [r];
    }
  }
}
