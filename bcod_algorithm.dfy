/** The detector object: its fixed configuration, the inference loop that fills a
    preallocated run-length posterior matrix column by column, the tie-preserving argmax
    and the constant hazard. */
module Bcod {
  import opened Sums
  import opened NormalGamma
  import opened RunLength
  import opened Outcomes

  /** The largest entry of a non-empty column. */
  function MaxOf(arr: seq<real>): (m: real)
    requires |arr| > 0
    ensures forall i :: 0 <= i < |arr| ==> arr[i] <= m
    ensures exists i :: 0 <= i < |arr| && arr[i] == m
    decreases |arr|
  {
    if |arr| == 1 then arr[0]
    else
      var m := MaxOf(arr[..|arr| - 1]);
      if arr[|arr| - 1] > m then arr[|arr| - 1] else m
  }

  /** idx lists, in increasing order, exactly the positions where arr attains its maximum. */
  ghost predicate IsMaxIndices(arr: seq<real>, idx: seq<nat>)
    requires |arr| > 0
  {
    && (forall j, k :: 0 <= j < k < |idx| ==> idx[j] < idx[k])
    && (forall i: nat :: i in idx <==> i < |arr| && arr[i] == MaxOf(arr))
  }

  /** The first element of a non-empty sequence is one of its elements. */
  lemma HeadIn(s: seq<nat>)
    requires s != []
    ensures s[0] in s
  {
  }

  /** Two increasing sequences with the same elements are equal. */
  lemma {:induction false} IncreasingSameElements(a: seq<nat>, b: seq<nat>)
    requires forall j, k :: 0 <= j < k < |a| ==> a[j] < a[k]
    requires forall j, k :: 0 <= j < k < |b| ==> b[j] < b[k]
    requires forall i :: i in a <==> i in b
    ensures a == b
    decreases |a|
  {
    if a == [] {
      if b != [] {
        HeadIn(b);
        assert false;
      }
    } else if b == [] {
      HeadIn(a);
      assert false;
    } else {
      assert a[0] in b;
      assert b[0] in a;
      assert a[0] == b[0];
      forall i
        ensures i in a[1..] <==> i in b[1..]
      {
        if i in a[1..] {
          assert i in a && i != a[0];
        }
        if i in b[1..] {
          assert i in b && i != b[0];
        }
      }
      IncreasingSameElements(a[1..], b[1..]);
    }
  }

  /** The maximal positions of a column are determined by the column. */
  lemma MaxIndicesUnique(arr: seq<real>, a: seq<nat>, b: seq<nat>)
    requires |arr| > 0 && IsMaxIndices(arr, a) && IsMaxIndices(arr, b)
    ensures a == b
  {
    IncreasingSameElements(a, b);
  }

  /** The positions i < n at which arr holds v, in increasing order. */
  function Positions(arr: seq<real>, v: real, n: nat): (idx: seq<nat>)
    requires n <= |arr|
    decreases n
  {
    if n == 0 then []
    else Positions(arr, v, n - 1) + (if arr[n - 1] == v then [n - 1] else [])
  }

  /** The positions of a non-empty column that hold its maximum, in increasing order. */
  function MaxPositions(arr: seq<real>): (idx: seq<nat>)
    requires |arr| > 0
  {
    Positions(arr, MaxOf(arr), |arr|)
  }

  /** Positions(arr, v, n) is increasing and lists exactly the i < n with arr[i] == v. */
  lemma {:induction false} PositionsExactly(arr: seq<real>, v: real, n: nat)
    requires n <= |arr|
    ensures forall j, k :: 0 <= j < k < |Positions(arr, v, n)| ==> Positions(arr, v, n)[j] < Positions(arr, v, n)[k]
    ensures forall j :: 0 <= j < |Positions(arr, v, n)| ==> Positions(arr, v, n)[j] < n
    ensures forall i: nat :: i in Positions(arr, v, n) <==> i < n && arr[i] == v
    decreases n
  {
    if n > 0 {
      PositionsExactly(arr, v, n - 1);
    }
  }

  /** The maximal positions are non-empty and are the ones IsMaxIndices describes. */
  lemma MaxPositionsAreMaxIndices(arr: seq<real>)
    requires |arr| > 0
    ensures |MaxPositions(arr)| > 0 && IsMaxIndices(arr, MaxPositions(arr))
  {
    PositionsExactly(arr, MaxOf(arr), |arr|);
    var w :| 0 <= w < |arr| && arr[w] == MaxOf(arr);
    assert w in MaxPositions(arr);
  }

  /** Column c of a matrix, as a sequence. */
  function Column(R: array2<real>, c: nat): (col: seq<real>)
    reads R
    requires c < R.Length1
    ensures |col| == R.Length0
    ensures forall i :: 0 <= i < R.Length0 ==> col[i] == R[i, c]
  {
    seq(R.Length0, i requires 0 <= i < R.Length0 reads R => R[i, c])
  }

  /** The whole matrix, column by column. */
  ghost function Columns(R: array2<real>): (cols: seq<seq<real>>)
    reads R
    ensures |cols| == R.Length1
  {
    seq(R.Length1, c requires 0 <= c < R.Length1 reads R => Column(R, c))
  }

  /** A matrix that holds FilledColumns(t) holds the padded filter column c at every 1 <= c <= t,
      and zeros at column t + 1. */
  lemma FilledColumn(R: array2<real>, data: seq<real>, h: real, pdf: (real, Hypothesis) -> real, prior: Hypothesis, t: nat, c: nat)
    requires R.Length1 == |data| && 1 <= c < |data| && c <= t + 1 && t < |data|
    requires Columns(R) == FilledColumns(data, h, pdf, prior, t)
    ensures Column(R, c) == if c <= t then PaddedColumn(data, h, pdf, prior, c) else Zeros(|data| + 1)
  {
    assert Column(R, c) == Columns(R)[c];
  }

  /** Fills column t + 1 from column t, whose first t entries are col: entry r + 1 takes the
      growth col[r] * pred[r] * (1 - H), entry 0 the summed reset mass, and the last k
      entries stay zero; no other column changes. */
  method GrowColumn(R: array2<real>, t: nat, ghost col: seq<real>, pred: seq<real>, H: real, ghost k: nat)
    modifies R
    requires 1 <= t && t + 1 < R.Length1 && t + 1 + k == R.Length0
    requires |col| == t && |pred| == t
    requires Column(R, t)[..t] == col
    requires Column(R, t + 1) == Zeros(R.Length0)
    ensures Column(R, t + 1) == Unnormalised(col, pred, H) + Zeros(k)
    ensures Columns(R) == old(Columns(R))[t + 1 := Unnormalised(col, pred, H) + Zeros(k)]
  {
    var next := t + 1;
    var prev := Column(R, t)[..t];
    ghost var target := Unnormalised(col, pred, H) + Zeros(k);
    for r := 1 to next
      invariant forall i, c :: 0 <= i < R.Length0 && 0 <= c < R.Length1 && c != next ==> R[i, c] == old(R[i, c])
      invariant forall i :: 1 <= i < r ==> R[i, next] == target[i]
      invariant forall i :: 0 <= i < R.Length0 && (i == 0 || r <= i) ==> R[i, next] == 0.0
    {
      UnnormalisedEntries(col, pred, H, r - 1);
      assert R[r - 1, t] == prev[r - 1];
      R[r, next] := R[r - 1, t] * pred[r - 1] * (1.0 - H);
    }
    R[0, next] := Sum(Scale(Evidence(prev, pred), H));
    assert forall i :: 0 <= i < R.Length0 ==> Column(R, next)[i] == target[i];
    assert Column(R, next) == target;
    forall c | 0 <= c < R.Length1 && c != next
      ensures Column(R, c) == old(Column(R, c))
    {
      assert forall i :: 0 <= i < R.Length0 ==> Column(R, c)[i] == old(Column(R, c))[i];
    }
    assert forall c :: 0 <= c < R.Length1 ==> Columns(R)[c] == old(Columns(R))[next := target][c];
  }

  /** Column t of R holds the filter's column t and column t + 1 is still zero: what
      GrowColumn needs to fill column t + 1. */
  lemma GrowReady(R: array2<real>, data: seq<real>, h: real, pdf: (real, Hypothesis) -> real, prior: Hypothesis, t: nat)
    requires R.Length0 == |data| + 1 && R.Length1 == |data| && 1 <= t < |data| - 1
    requires Filter(data, h, pdf, prior, t).Ok?
    requires Columns(R) == FilledColumns(data, h, pdf, prior, t)
    ensures Column(R, t)[..t] == Filter(data, h, pdf, prior, t).value.col
    ensures Column(R, t + 1) == Zeros(R.Length0)
  {
    FilledColumn(R, data, h, pdf, prior, t, t);
    FilledColumn(R, data, h, pdf, prior, t, t + 1);
    PaddedColumnOk(data, h, pdf, prior, t, |data| + 1 - t);
  }

  /** Divides column c, which holds u followed by k zeros, by z; no other column changes. */
  method NormaliseColumn(R: array2<real>, c: nat, ghost u: seq<real>, ghost k: nat, z: real)
    modifies R
    requires c < R.Length1 && z != 0.0
    requires Column(R, c) == u + Zeros(k)
    ensures Column(R, c) == Normalised(u, z) + Zeros(k)
    ensures Columns(R) == old(Columns(R))[c := Normalised(u, z) + Zeros(k)]
  {
    ghost var before := Column(R, c);
    for i := 0 to R.Length0
      invariant forall j, d :: 0 <= j < R.Length0 && 0 <= d < R.Length1 && d != c ==> R[j, d] == old(R[j, d])
      invariant forall j :: 0 <= j < i ==> R[j, c] == before[j] / z
      invariant forall j :: i <= j < R.Length0 ==> R[j, c] == before[j]
    {
      R[i, c] := R[i, c] / z;
    }
    ghost var after := Normalised(u, z) + Zeros(k);
    assert forall j :: 0 <= j < R.Length0 ==> Column(R, c)[j] == after[j];
    assert Column(R, c) == after;
    forall d | 0 <= d < R.Length1 && d != c
      ensures Column(R, d) == old(Column(R, d))
    {
      assert forall j :: 0 <= j < R.Length0 ==> Column(R, d)[j] == old(Column(R, d))[j];
    }
    assert forall d :: 0 <= d < R.Length1 ==> Columns(R)[d] == old(Columns(R))[c := after][d];
  }

  /** The maximal run lengths recorded once columns 1..t are filled: entry k holds the maximal
      positions of column k for 1 <= k < t, and every other entry is empty. */
  function FilledMaxes(data: seq<real>, h: real, pdf: (real, Hypothesis) -> real, prior: Hypothesis, t: nat): (maxes: seq<seq<nat>>)
    requires t < |data|
    ensures |maxes| == |data| + 1
  {
    seq(|data| + 1, k requires 0 <= k <= |data| =>
      if 1 <= k < t then MaxPositions(PaddedColumn(data, h, pdf, prior, k)) else [])
  }

  /** Recording the maximal positions of column t at entry t turns the record for t into the
      record for t + 1. */
  lemma FilledMaxesStep(data: seq<real>, h: real, pdf: (real, Hypothesis) -> real, prior: Hypothesis, t: nat)
    requires 1 <= t && t + 1 < |data|
    ensures FilledMaxes(data, h, pdf, prior, t)[t := MaxPositions(PaddedColumn(data, h, pdf, prior, t))] ==
            FilledMaxes(data, h, pdf, prior, t + 1)
  {
  }

  /** A fresh matrix that is zero except for a 1 at row 0 of column 1 holds FilledColumns(1). */
  lemma StartColumns(R: array2<real>, data: seq<real>, h: real, pdf: (real, Hypothesis) -> real, prior: Hypothesis)
    requires R.Length0 == |data| + 1 && R.Length1 == |data| >= 2
    requires forall i, c :: 0 <= i < R.Length0 && 0 <= c < R.Length1 ==> R[i, c] == if i == 0 && c == 1 then 1.0 else 0.0
    ensures Columns(R) == FilledColumns(data, h, pdf, prior, 1)
  {
    var n := |data|;
    PaddedColumnOk(data, h, pdf, prior, 1, n);
    forall c | 0 <= c < n
      ensures Column(R, c) == FilledColumns(data, h, pdf, prior, 1)[c]
    {
      var col := if c == 1 then PaddedColumn(data, h, pdf, prior, 1) else Zeros(n + 1);
      assert FilledColumns(data, h, pdf, prior, 1)[c] == col;
      assert forall i :: 0 <= i <= n ==> Column(R, c)[i] == col[i];
    }
  }

  /** What one inference call returns: the run-length posterior matrix R, with R[r, c] the
      probability of run length r at column c, and the maximal run lengths per step. */
  datatype Posterior = Posterior(R: array2<real>, maxes: array<seq<nat>>)

  class BcodAlgorithm {
    const hazard: real
    const mu0: real
    const kappa0: real
    const alpha0: real
    const beta0: real

    constructor (hazardConstant: real := 0.0005, muInitial: real := 0.0, kappaInitial: real := 1.0,
                 alphaInitial: real := 1.0, betaInitial: real := 1.0)
      ensures hazard == hazardConstant && mu0 == muInitial && kappa0 == kappaInitial
      ensures alpha0 == alphaInitial && beta0 == betaInitial
    {
      hazard := hazardConstant;
      mu0 := muInitial;
      kappa0 := kappaInitial;
      alpha0 := alphaInitial;
      beta0 := betaInitial;
    }

    /** The hypothesis every new run starts from. */
    function Prior(): Hypothesis
    {
      Hypothesis(mu0, kappa0, alpha0, beta0)
    }

    /** The probability of a changepoint at run length r: the configured constant, whatever r is. */
    function HazardFunc(r: int): (h: real)
      ensures h == hazard
    {
      hazard
    }

    /** The positions of arr that hold its maximum, in increasing order, ties kept. */
    method FindMaxIndices(arr: seq<real>) returns (r: Result<seq<nat>>)
      ensures r.Ok? <==> |arr| > 0
      ensures r.Err? ==> r.error == EmptyArray
      ensures r.Ok? ==> r.value == MaxPositions(arr) && |r.value| > 0 && IsMaxIndices(arr, r.value)
    {
      if |arr| == 0 {
        return Err(EmptyArray);
      }
      var maximum := MaxOf(arr);
      var indices: seq<nat> := [];
      for i := 0 to |arr|
        invariant indices == Positions(arr, maximum, i)
      {
        if arr[i] == maximum {
          indices := indices + [i];
        }
      }
      MaxPositionsAreMaxIndices(arr);
      return Ok(indices);
    }

    /** One iteration of the inference loop: fills column t + 1 of R from column t and data[t],
        records the maximal run lengths of column t at maxes[t] and returns the aged parameter
        track, or the error that stops the recursion. */
    method Advance(R: array2<real>, maxes: array<seq<nat>>, data: seq<real>, pdf: (real, Hypothesis) -> real,
                   t: nat, track: seq<Hypothesis>)
      returns (r: Result<seq<Hypothesis>>)
      modifies R, maxes
      requires R.Length0 == |data| + 1 && R.Length1 == |data| && 1 <= t < |data| - 1
      requires maxes.Length == |data| + 1
      requires Filter(data, hazard, pdf, Prior(), t).Ok?
      requires track == Filter(data, hazard, pdf, Prior(), t).value.track
      requires Columns(R) == FilledColumns(data, hazard, pdf, Prior(), t)
      requires maxes[..] == FilledMaxes(data, hazard, pdf, Prior(), t)
      ensures r.Ok? <==> Filter(data, hazard, pdf, Prior(), t + 1).Ok?
      ensures r.Err? ==> r.error == Filter(data, hazard, pdf, Prior(), t + 1).error
      ensures r.Ok? ==> r.value == Filter(data, hazard, pdf, Prior(), t + 1).value.track
      ensures r.Ok? ==> Columns(R) == FilledColumns(data, hazard, pdf, Prior(), t + 1)
      ensures r.Ok? ==> maxes[..] == FilledMaxes(data, hazard, pdf, Prior(), t + 1)
    {
      var n := |data|;
      ghost var s := Filter(data, hazard, pdf, Prior(), t).value;
      var next := t + 1;
      var pred := Predictive(pdf, data[t], track);
      var H := HazardFunc(t);
      ghost var u := Unnormalised(s.col, pred, H);
      FilterNext(data, hazard, pdf, Prior(), t);
      GrowReady(R, data, hazard, pdf, Prior(), t);
      GrowColumn(R, t, s.col, pred, H, n - t);
      var z := Sum(Column(R, next));
      SumConcat(u, Zeros(n - t));
      SumZeros(n - t);
      assert z == Sum(u);
      if z == 0.0 {
        return Err(Degenerate(t));
      }
      NormaliseColumn(R, next, u, n - t, z);
      if HasZeroDivisor(track) {
        return Err(ZeroDivisor(t));
      }
      PaddedColumnOk(data, hazard, pdf, Prior(), next, n - t);
      FilledColumnsStep(data, hazard, pdf, Prior(), t);
      var aged := [Prior()] + AgeTrack(track, data[t]);
      FilledColumn(R, data, hazard, pdf, Prior(), next, t);
      var m := FindMaxIndices(Column(R, t));
      maxes[t] := m.value;
      FilledMaxesStep(data, hazard, pdf, Prior(), t);
      return Ok(aged);
    }

    /** Runs the recursion over data with predictive density pdf. Column 1 of the matrix is
        certain of run length 0; iteration t (1 <= t <= |data| - 2) fills column t + 1 from
        column t and data[t] and records the maximal run lengths of column t at maxes[t]. */
    method Inference(data: seq<real>, pdf: (real, Hypothesis) -> real) returns (r: Result<Posterior>)
      ensures |data| < 2 ==> r == Err(InsufficientData(|data|))
      ensures |data| >= 2 ==> (r.Ok? <==> Filter(data, hazard, pdf, Prior(), |data| - 1).Ok?)
      ensures |data| >= 2 && r.Err? ==> r.error == Filter(data, hazard, pdf, Prior(), |data| - 1).error
      ensures r.Ok? ==> fresh(r.value.R) && fresh(r.value.maxes)
      ensures r.Ok? ==> r.value.R.Length0 == |data| + 1 && r.value.R.Length1 == |data|
      ensures r.Ok? ==> r.value.maxes.Length == |data| + 1
      ensures r.Ok? ==> Columns(r.value.R) == FilledColumns(data, hazard, pdf, Prior(), |data| - 1)
      ensures r.Ok? ==> r.value.maxes[..] == FilledMaxes(data, hazard, pdf, Prior(), |data| - 1)
    {
      var n := |data|;
      if n < 2 {
        return Err(InsufficientData(n));
      }
      var R := new real[n + 1, n]((_, _) => 0.0);
      R[0, 1] := 1.0;
      StartColumns(R, data, hazard, pdf, Prior());
      var track := [Prior()];
      var maxes := new seq<nat>[n + 1](_ => []);
      assert maxes[..] == FilledMaxes(data, hazard, pdf, Prior(), 1);
      for t := 1 to n - 1
        invariant Filter(data, hazard, pdf, Prior(), t).Ok?
        invariant track == Filter(data, hazard, pdf, Prior(), t).value.track
        invariant Columns(R) == FilledColumns(data, hazard, pdf, Prior(), t)
        invariant maxes[..] == FilledMaxes(data, hazard, pdf, Prior(), t)
      {
        var step := Advance(R, maxes, data, pdf, t, track);
        if step.Err? {
          FilterErrPersists(data, hazard, pdf, Prior(), t + 1, n - 1);
          return Err(step.error);
        }
        track := step.value;
      }
      return Ok(Posterior(R, maxes));
    }
  }
}
