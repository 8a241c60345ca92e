/** The run-length recursion of Bayesian online changepoint detection as a pure
    specification: one column of the run-length posterior per time step, and the
    parameter track that goes with it. */
module RunLength {
  import opened Sums
  import opened NormalGamma
  import opened Outcomes

  /** The filter after column t: col[r] is the posterior probability of run length r
      (r < t) and track[r] the Normal-Gamma posterior of the hypothesis "run length r". */
  datatype State = State(col: seq<real>, track: seq<Hypothesis>)

  /** The predictive density of observation x under every tracked hypothesis, each on its own. */
  function Predictive(pdf: (real, Hypothesis) -> real, x: real, track: seq<Hypothesis>): (pred: seq<real>)
    ensures |pred| == |track|
  {
    seq(|track|, r requires 0 <= r < |track| => pdf(x, track[r]))
  }

  /** col[r] * pred[r]: the joint mass of run length r and the new observation. */
  function Evidence(col: seq<real>, pred: seq<real>): (e: seq<real>)
    requires |col| == |pred|
    ensures |e| == |col|
  {
    seq(|col|, r requires 0 <= r < |col| => col[r] * pred[r])
  }

  /** The growth move: run length r becomes r + 1 with probability 1 - h. */
  function Growth(col: seq<real>, pred: seq<real>, h: real): seq<real>
    requires |col| == |pred|
  {
    Scale(Evidence(col, pred), 1.0 - h)
  }

  /** The reset move: every run length falls back to 0 with probability h. */
  function ResetMass(col: seq<real>, pred: seq<real>, h: real): real
    requires |col| == |pred|
  {
    Sum(Scale(Evidence(col, pred), h))
  }

  /** The new column before renormalisation: row 0 holds the reset mass and row r + 1
      the growth of row r. */
  function Unnormalised(col: seq<real>, pred: seq<real>, h: real): (u: seq<real>)
    requires |col| == |pred|
    ensures |u| == |col| + 1
  {
    [ResetMass(col, pred, h)] + Growth(col, pred, h)
  }

  /** Growth and reset split the evidence without creating or losing mass. */
  lemma UnnormalisedConservesMass(col: seq<real>, pred: seq<real>, h: real)
    requires |col| == |pred|
    ensures Sum(Unnormalised(col, pred, h)) == Sum(Evidence(col, pred))
  {
    var e := Evidence(col, pred);
    SumCons(ResetMass(col, pred, h), Growth(col, pred, h));
    SumScale(e, h);
    SumScale(e, 1.0 - h);
  }

  /** Every entry of u divided by z. */
  function Normalised(u: seq<real>, z: real): (n: seq<real>)
    requires z != 0.0
    ensures |n| == |u|
  {
    seq(|u|, i requires 0 <= i < |u| => u[i] / z)
  }

  /** Dividing by the total makes a column sum to one. */
  lemma NormalisedSumsToOne(u: seq<real>)
    requires Sum(u) != 0.0
    ensures Sum(Normalised(u, Sum(u))) == 1.0
  {
    var z := Sum(u);
    assert forall i :: 0 <= i < |u| ==> Normalised(u, z)[i] == Scale(u, 1.0 / z)[i];
    assert Normalised(u, z) == Scale(u, 1.0 / z);
    SumScale(u, 1.0 / z);
  }

  /** Some hypothesis of the track has kappa = -1, so its update would divide by zero. */
  predicate HasZeroDivisor(track: seq<Hypothesis>)
    ensures !HasZeroDivisor(track) <==> forall i :: 0 <= i < |track| ==> track[i].kappa + 1.0 != 0.0
    decreases |track|
  {
    track != [] && (track[|track| - 1].kappa + 1.0 == 0.0 || HasZeroDivisor(track[..|track| - 1]))
  }

  /** One filtering step with observation x and hazard h: growth, reset, renormalisation,
      and the parameter track extended by a fresh prior with every old hypothesis aged by x.
      The step fails when the evidence for x is zero under every run length (the column
      cannot be renormalised), or when a hypothesis update would divide by zero. */
  function Step(s: State, x: real, h: real, pdf: (real, Hypothesis) -> real, prior: Hypothesis): (r: Result<State>)
    requires |s.col| == |s.track|
    ensures r == Err(Degenerate(|s.col|)) <==> Sum(Evidence(s.col, Predictive(pdf, x, s.track))) == 0.0
    ensures r == Err(ZeroDivisor(|s.col|)) <==>
              Sum(Evidence(s.col, Predictive(pdf, x, s.track))) != 0.0 && HasZeroDivisor(s.track)
    ensures r.Ok? ==> |r.value.col| == |s.col| + 1 && Sum(r.value.col) == 1.0
    ensures r.Ok? ==> |r.value.track| == |s.track| + 1 && r.value.track[0] == prior
  {
    var pred := Predictive(pdf, x, s.track);
    var u := Unnormalised(s.col, pred, h);
    UnnormalisedConservesMass(s.col, pred, h);
    if Sum(u) == 0.0 then Err(Degenerate(|s.col|))
    else if HasZeroDivisor(s.track) then Err(ZeroDivisor(|s.col|))
    else
      NormalisedSumsToOne(u);
      Ok(State(Normalised(u, Sum(u)), [prior] + AgeTrack(s.track, x)))
  }

  /** The filter after column t (1 <= t < |data|). Column 1 is certain of run length 0 and
      starts the track at the prior; every later column extends the one before it. */
  function Filter(data: seq<real>, h: real, pdf: (real, Hypothesis) -> real, prior: Hypothesis, t: nat): (r: Result<State>)
    requires 1 <= t < |data|
    ensures r.Ok? ==> |r.value.col| == t && |r.value.track| == t
    ensures r.Ok? ==> Sum(r.value.col) == 1.0 && r.value.track[0] == prior
    decreases t, 2
  {
    if t == 1 then
      assert Sum([1.0]) == Sum([]) + 1.0;
      Ok(State([1.0], [prior]))
    else
      Extend(data, h, pdf, prior, t)
  }

  /** Column t (1 < t < |data|). Filter, Extend and Resume are one recursion in three parts:
      the step itself sits in Resume, two calls below Filter, so that unfolding Filter once
      does not unfold a whole step. */
  function Extend(data: seq<real>, h: real, pdf: (real, Hypothesis) -> real, prior: Hypothesis, t: nat): (r: Result<State>)
    requires 1 < t < |data|
    ensures r.Ok? ==> |r.value.col| == t && |r.value.track| == t
    ensures r.Ok? ==> Sum(r.value.col) == 1.0 && r.value.track[0] == prior
    decreases t, 1
  {
    Resume(data, h, pdf, prior, t)
  }

  /** Column t (1 < t < |data|): the step from column t - 1 with observation data[t - 1], or
      the error that stopped an earlier column. */
  function Resume(data: seq<real>, h: real, pdf: (real, Hypothesis) -> real, prior: Hypothesis, t: nat): (r: Result<State>)
    requires 1 < t < |data|
    ensures r.Ok? ==> |r.value.col| == t && |r.value.track| == t
    ensures r.Ok? ==> Sum(r.value.col) == 1.0 && r.value.track[0] == prior
    decreases t, 0
  {
    match Filter(data, h, pdf, prior, t - 1)
    case Err(e) => Err(e)
    case Ok(s) => Step(s, data[t - 1], h, pdf, prior)
  }

  /** A product and a quotient of non-negative reals are non-negative. */
  lemma NonNegativeProduct(a: real, b: real)
    requires a >= 0.0 && b >= 0.0
    ensures a * b >= 0.0
  {
  }

  lemma NonNegativeQuotient(a: real, b: real)
    requires a >= 0.0 && b > 0.0
    ensures a / b >= 0.0
  {
  }

  /** What a successful step produces, entry by entry. */
  lemma StepEntries(s: State, x: real, h: real, pdf: (real, Hypothesis) -> real, prior: Hypothesis)
    requires |s.col| == |s.track|
    requires Step(s, x, h, pdf, prior).Ok?
    ensures var n := Step(s, x, h, pdf, prior).value;
            var u := Unnormalised(s.col, Predictive(pdf, x, s.track), h);
            Sum(u) != 0.0 && n.col == Normalised(u, Sum(u)) &&
            n.track == [prior] + AgeTrack(s.track, x)
  {
  }

  /** Rows 1.. of the unnormalised column are the growth of the old rows. */
  lemma UnnormalisedEntries(col: seq<real>, pred: seq<real>, h: real, r: nat)
    requires |col| == |pred| && r < |col|
    ensures Unnormalised(col, pred, h)[r + 1] == col[r] * pred[r] * (1.0 - h)
    ensures Unnormalised(col, pred, h)[0] == Sum(Evidence(col, pred)) * h
  {
    SumScale(Evidence(col, pred), h);
  }

  /** A step keeps the column non-negative when densities are >= 0 and 0 <= h <= 1. */
  lemma StepNonNegative(s: State, x: real, h: real, pdf: (real, Hypothesis) -> real, prior: Hypothesis)
    requires |s.col| == |s.track| && 0.0 <= h <= 1.0
    requires forall i :: 0 <= i < |s.col| ==> s.col[i] >= 0.0
    requires forall y, p :: pdf(y, p) >= 0.0
    requires Step(s, x, h, pdf, prior).Ok?
    ensures forall r :: 0 <= r < |s.col| + 1 ==> Step(s, x, h, pdf, prior).value.col[r] >= 0.0
  {
    var pred := Predictive(pdf, x, s.track);
    var e := Evidence(s.col, pred);
    var u := Unnormalised(s.col, pred, h);
    StepEntries(s, x, h, pdf, prior);
    forall r | 0 <= r < |e| ensures e[r] >= 0.0 {
      NonNegativeProduct(s.col[r], pred[r]);
    }
    SumNonNegative(e);
    forall r | 0 <= r < |u| ensures u[r] >= 0.0 {
      if r == 0 {
        UnnormalisedEntries(s.col, pred, h, 0);
        NonNegativeProduct(Sum(e), h);
      } else {
        UnnormalisedEntries(s.col, pred, h, r - 1);
        NonNegativeProduct(e[r - 1], 1.0 - h);
      }
    }
    SumNonNegative(u);
    forall r | 0 <= r < |u| ensures u[r] / Sum(u) >= 0.0 {
      NonNegativeQuotient(u[r], Sum(u));
    }
  }

  /** A step from a distribution, with densities > 0 and no zero divisor, succeeds. */
  lemma StepSucceeds(s: State, x: real, h: real, pdf: (real, Hypothesis) -> real, prior: Hypothesis)
    requires |s.col| == |s.track| && Sum(s.col) == 1.0
    requires forall i :: 0 <= i < |s.col| ==> s.col[i] >= 0.0
    requires forall y, p :: pdf(y, p) > 0.0
    requires forall i :: 0 <= i < |s.track| ==> s.track[i].kappa + 1.0 != 0.0
    ensures Step(s, x, h, pdf, prior).Ok?
  {
    var pred := Predictive(pdf, x, s.track);
    var e := Evidence(s.col, pred);
    var k := PositiveTermOfUnitSum(s.col);
    forall r | 0 <= r < |e| ensures e[r] >= 0.0 {
      NonNegativeProduct(s.col[r], pred[r]);
    }
    assert e[k] > 0.0;
    SumPositive(e, k);
  }

  /** The track after a successful step: the prior first, then every old hypothesis aged by x. */
  lemma StepTrack(s: State, x: real, h: real, pdf: (real, Hypothesis) -> real, prior: Hypothesis, r: nat)
    requires |s.col| == |s.track| && 0 < r <= |s.track|
    requires Step(s, x, h, pdf, prior).Ok?
    ensures s.track[r - 1].kappa + 1.0 != 0.0
    ensures Step(s, x, h, pdf, prior).value.track[r] == Aged(s.track[r - 1], x)
  {
    StepEntries(s, x, h, pdf, prior);
  }

  /** Column c of the posterior matrix with |data| + 1 rows: the filter's column padded
      with zeros for the run lengths not reached yet. */
  function PaddedColumn(data: seq<real>, h: real, pdf: (real, Hypothesis) -> real, prior: Hypothesis, c: nat): (col: seq<real>)
    requires 1 <= c < |data|
    ensures |col| == |data| + 1
  {
    match Filter(data, h, pdf, prior, c)
    case Ok(s) => s.col + Zeros(|data| + 1 - c)
    case Err(_) => Zeros(|data| + 1)
  }

  /** The padded column of a successful filter: its column, then k zeros. */
  lemma PaddedColumnOk(data: seq<real>, h: real, pdf: (real, Hypothesis) -> real, prior: Hypothesis, c: nat, k: nat)
    requires 1 <= c < |data| && c + k == |data| + 1
    requires Filter(data, h, pdf, prior, c).Ok?
    ensures PaddedColumn(data, h, pdf, prior, c) == Filter(data, h, pdf, prior, c).value.col + Zeros(k)
  {
  }

  /** The posterior matrix, column by column, once columns 1..t are filled: column c is the
      padded filter column for 1 <= c <= t, and column 0 and the columns after t are zero. */
  function FilledColumns(data: seq<real>, h: real, pdf: (real, Hypothesis) -> real, prior: Hypothesis, t: nat): (cols: seq<seq<real>>)
    requires t < |data|
    ensures |cols| == |data|
  {
    seq(|data|, c requires 0 <= c < |data| =>
      if 1 <= c <= t then PaddedColumn(data, h, pdf, prior, c) else Zeros(|data| + 1))
  }

  /** Filling column t + 1 turns the matrix for t into the matrix for t + 1. */
  lemma FilledColumnsStep(data: seq<real>, h: real, pdf: (real, Hypothesis) -> real, prior: Hypothesis, t: nat)
    requires 1 <= t && t + 1 < |data|
    ensures FilledColumns(data, h, pdf, prior, t)[t + 1 := PaddedColumn(data, h, pdf, prior, t + 1)] ==
            FilledColumns(data, h, pdf, prior, t + 1)
  {
  }

  /** A failed step fails the whole run, with the same error. */
  lemma {:induction false} FilterErrPersists(data: seq<real>, h: real, pdf: (real, Hypothesis) -> real, prior: Hypothesis, t: nat, u: nat)
    requires 1 <= t <= u < |data|
    requires Filter(data, h, pdf, prior, t).Err?
    ensures Filter(data, h, pdf, prior, u) == Filter(data, h, pdf, prior, t)
    decreases u
  {
    if t < u {
      FilterErrPersists(data, h, pdf, prior, t, u - 1);
      FilterUnfold(data, h, pdf, prior, u);
    }
  }

  /** Column t is the step from column t - 1 with observation data[t - 1], unless column
      t - 1 already failed, whose error it keeps. */
  lemma FilterUnfold(data: seq<real>, h: real, pdf: (real, Hypothesis) -> real, prior: Hypothesis, t: nat)
    requires 1 < t < |data|
    ensures Filter(data, h, pdf, prior, t - 1).Err? ==> Filter(data, h, pdf, prior, t) == Filter(data, h, pdf, prior, t - 1)
    ensures Filter(data, h, pdf, prior, t - 1).Ok? ==>
              Filter(data, h, pdf, prior, t) == Step(Filter(data, h, pdf, prior, t - 1).value, data[t - 1], h, pdf, prior)
  {
    assert Filter(data, h, pdf, prior, t) == Extend(data, h, pdf, prior, t) == Resume(data, h, pdf, prior, t);
  }

  /** Column t + 1 in terms of column t: it fails with Degenerate(t) exactly when the
      unnormalised column has no mass, with ZeroDivisor(t) exactly when it has mass but a
      hypothesis update would divide by zero, and otherwise it is the renormalised column
      with the aged track. */
  lemma FilterNext(data: seq<real>, h: real, pdf: (real, Hypothesis) -> real, prior: Hypothesis, t: nat)
    requires 1 <= t && t + 1 < |data|
    requires Filter(data, h, pdf, prior, t).Ok?
    ensures var s := Filter(data, h, pdf, prior, t).value;
            var u := Unnormalised(s.col, Predictive(pdf, data[t], s.track), h);
            var f := Filter(data, h, pdf, prior, t + 1);
            (f == Err(Degenerate(t)) <==> Sum(u) == 0.0) &&
            (f == Err(ZeroDivisor(t)) <==> Sum(u) != 0.0 && HasZeroDivisor(s.track)) &&
            (f.Ok? <==> Sum(u) != 0.0 && !HasZeroDivisor(s.track)) &&
            (f.Ok? ==> f.value.col == Normalised(u, Sum(u)) && f.value.track == [prior] + AgeTrack(s.track, data[t]))
  {
    var s := Filter(data, h, pdf, prior, t).value;
    FilterUnfold(data, h, pdf, prior, t + 1);
    UnnormalisedConservesMass(s.col, Predictive(pdf, data[t], s.track), h);
    if Filter(data, h, pdf, prior, t + 1).Ok? {
      StepEntries(s, data[t], h, pdf, prior);
    }
  }

  /** Hypothesis r of column t is hypothesis r - 1 of column t - 1 aged by data[t - 1]. */
  lemma TrackStep(data: seq<real>, h: real, pdf: (real, Hypothesis) -> real, prior: Hypothesis, t: nat, r: nat)
    requires 1 <= t < |data| && 0 < r < t
    requires Filter(data, h, pdf, prior, t).Ok?
    ensures Filter(data, h, pdf, prior, t - 1).Ok?
    ensures Filter(data, h, pdf, prior, t - 1).value.track[r - 1].kappa + 1.0 != 0.0
    ensures Filter(data, h, pdf, prior, t).value.track[r] ==
            Aged(Filter(data, h, pdf, prior, t - 1).value.track[r - 1], data[t - 1])
  {
    FilterUnfold(data, h, pdf, prior, t);
    StepTrack(Filter(data, h, pdf, prior, t - 1).value, data[t - 1], h, pdf, prior, r);
  }

  /** Hypothesis r of column t has absorbed exactly the last r observations,
      data[t - r], ..., data[t - 1], starting from the prior. */
  lemma {:induction false} FilterTrackIsPosterior(data: seq<real>, h: real, pdf: (real, Hypothesis) -> real, prior: Hypothesis, t: nat, r: nat)
    requires 1 <= t < |data| && r < t
    requires Filter(data, h, pdf, prior, t).Ok?
    ensures KappaSafe(prior.kappa, r)
    ensures Filter(data, h, pdf, prior, t).value.track[r] == AgeMany(prior, data[t - r..t])
    decreases t
  {
    if r == 0 {
      assert data[t..t] == [];
    } else {
      TrackStep(data, h, pdf, prior, t, r);
      FilterTrackIsPosterior(data, h, pdf, prior, t - 1, r - 1);
      AgeManyWindow(prior, data, t, r);
    }
  }

  /** The same hypothesis as the batch posterior of its r observations. */
  lemma FilterTrackSummarises(data: seq<real>, h: real, pdf: (real, Hypothesis) -> real, prior: Hypothesis, t: nat, r: nat)
    requires 1 <= t < |data| && r < t
    requires Filter(data, h, pdf, prior, t).Ok?
    ensures Summarises(Filter(data, h, pdf, prior, t).value.track[r], prior, data[t - r..t])
  {
    FilterTrackIsPosterior(data, h, pdf, prior, t, r);
    AgeManySummarises(prior, data[t - r..t]);
  }

  /** With densities >= 0 and 0 <= h <= 1 every column is a probability distribution. */
  lemma {:induction false} FilterNonNegative(data: seq<real>, h: real, pdf: (real, Hypothesis) -> real, prior: Hypothesis, t: nat)
    requires 1 <= t < |data| && 0.0 <= h <= 1.0
    requires forall x, p :: pdf(x, p) >= 0.0
    requires Filter(data, h, pdf, prior, t).Ok?
    ensures forall r :: 0 <= r < t ==> Filter(data, h, pdf, prior, t).value.col[r] >= 0.0
    decreases t
  {
    if t > 1 {
      FilterUnfold(data, h, pdf, prior, t);
      FilterNonNegative(data, h, pdf, prior, t - 1);
      StepNonNegative(Filter(data, h, pdf, prior, t - 1).value, data[t - 1], h, pdf, prior);
    }
  }

  /** With strictly positive densities, 0 <= h <= 1 and no zero divisor on the way,
      every step succeeds. */
  lemma {:induction false} FilterSucceeds(data: seq<real>, h: real, pdf: (real, Hypothesis) -> real, prior: Hypothesis, t: nat)
    requires 1 <= t < |data| && 0.0 <= h <= 1.0
    requires forall x, p :: pdf(x, p) > 0.0
    requires KappaSafe(prior.kappa, t - 1)
    ensures Filter(data, h, pdf, prior, t).Ok?
    decreases t
  {
    if t > 1 {
      KappaSafePrefix(prior.kappa, t - 1, t - 2);
      FilterSucceeds(data, h, pdf, prior, t - 1);
      FilterNonNegative(data, h, pdf, prior, t - 1);
      var s := Filter(data, h, pdf, prior, t - 1).value;
      forall i | 0 <= i < |s.track|
        ensures s.track[i].kappa + 1.0 != 0.0
      {
        FilterTrackIsPosterior(data, h, pdf, prior, t - 1, i);
        KappaSafePrefix(prior.kappa, t - 1, i + 1);
      }
      StepSucceeds(s, data[t - 1], h, pdf, prior);
      FilterUnfold(data, h, pdf, prior, t);
    }
  }

  /** With hazard 0 a step moves certainty of run length k to certainty of run length k + 1. */
  lemma StepNoHazard(s: State, x: real, pdf: (real, Hypothesis) -> real, prior: Hypothesis)
    requires |s.col| == |s.track| && |s.col| > 0
    requires forall r :: 0 <= r < |s.col| ==> s.col[r] == if r == |s.col| - 1 then 1.0 else 0.0
    requires Step(s, x, 0.0, pdf, prior).Ok?
    ensures forall r :: 0 <= r <= |s.col| ==>
              Step(s, x, 0.0, pdf, prior).value.col[r] == if r == |s.col| then 1.0 else 0.0
  {
    var pred := Predictive(pdf, x, s.track);
    StepEntries(s, x, 0.0, pdf, prior);
    var col := Step(s, x, 0.0, pdf, prior).value.col;
    forall r | 0 <= r < |s.col| ensures col[r] == 0.0 {
      UnnormalisedEntries(s.col, pred, 0.0, if r == 0 then 0 else r - 1);
    }
    SumOfSingleTerm(col, |s.col|);
  }

  /** With hazard 0 the run never resets: column t is certain of run length t - 1. */
  lemma {:induction false} NoHazardRunLengthGrows(data: seq<real>, pdf: (real, Hypothesis) -> real, prior: Hypothesis, t: nat)
    requires 1 <= t < |data|
    requires Filter(data, 0.0, pdf, prior, t).Ok?
    ensures forall r :: 0 <= r < t ==>
              Filter(data, 0.0, pdf, prior, t).value.col[r] == if r == t - 1 then 1.0 else 0.0
    decreases t
  {
    if t > 1 {
      FilterUnfold(data, 0.0, pdf, prior, t);
      NoHazardRunLengthGrows(data, pdf, prior, t - 1);
      StepNoHazard(Filter(data, 0.0, pdf, prior, t - 1).value, data[t - 1], pdf, prior);
    }
  }

  /** With hazard 1 a step is certain of run length 0, whatever the column before it. */
  lemma StepCertainHazard(s: State, x: real, pdf: (real, Hypothesis) -> real, prior: Hypothesis)
    requires |s.col| == |s.track|
    requires Step(s, x, 1.0, pdf, prior).Ok?
    ensures forall r :: 0 <= r <= |s.col| ==>
              Step(s, x, 1.0, pdf, prior).value.col[r] == if r == 0 then 1.0 else 0.0
  {
    var pred := Predictive(pdf, x, s.track);
    StepEntries(s, x, 1.0, pdf, prior);
    var col := Step(s, x, 1.0, pdf, prior).value.col;
    forall r | 0 < r <= |s.col| ensures col[r] == 0.0 {
      UnnormalisedEntries(s.col, pred, 1.0, r - 1);
    }
    SumOfSingleTerm(col, 0);
  }

  /** With hazard 1 the run resets at every step: every column is certain of run length 0. */
  lemma CertainHazardResets(data: seq<real>, pdf: (real, Hypothesis) -> real, prior: Hypothesis, t: nat)
    requires 1 <= t < |data|
    requires Filter(data, 1.0, pdf, prior, t).Ok?
    ensures forall r :: 0 <= r < t ==>
              Filter(data, 1.0, pdf, prior, t).value.col[r] == if r == 0 then 1.0 else 0.0
  {
    if t > 1 {
      FilterUnfold(data, 1.0, pdf, prior, t);
      StepCertainHazard(Filter(data, 1.0, pdf, prior, t - 1).value, data[t - 1], pdf, prior);
    }
  }
}
