/** Finite sums of reals, the one aggregate the recursion uses. */
module Sums {

  /** s[0] + s[1] + ... + s[|s|-1], folded from the last element. */
  function Sum(s: seq<real>): real
    decreases |s|
  {
    if s == [] then 0.0 else Sum(s[..|s| - 1]) + s[|s| - 1]
  }

  /** Every entry of s multiplied by c. */
  function Scale(s: seq<real>, c: real): (r: seq<real>)
    ensures |r| == |s|
  {
    seq(|s|, i requires 0 <= i < |s| => s[i] * c)
  }

  /** n zeros: the rows of a column that no run length has reached yet. */
  function Zeros(n: nat): (z: seq<real>)
    ensures |z| == n
  {
    seq(n, _ => 0.0)
  }

  lemma {:induction false} SumConcat(a: seq<real>, b: seq<real>)
    ensures Sum(a + b) == Sum(a) + Sum(b)
    decreases |b|
  {
    if b == [] {
      assert a + b == a;
    } else {
      var b' := b[..|b| - 1];
      assert (a + b)[..|a + b| - 1] == a + b';
      SumConcat(a, b');
    }
  }

  lemma SumCons(x: real, s: seq<real>)
    ensures Sum([x] + s) == x + Sum(s)
  {
    SumConcat([x], s);
    assert Sum([x]) == Sum([]) + x;
  }

  lemma {:induction false} SumScale(s: seq<real>, c: real)
    ensures Sum(Scale(s, c)) == Sum(s) * c
    decreases |s|
  {
    if s != [] {
      var s' := s[..|s| - 1];
      assert forall i :: 0 <= i < |s'| ==> Scale(s, c)[i] == Scale(s', c)[i];
      assert Scale(s, c)[..|s| - 1] == Scale(s', c);
      SumScale(s', c);
    }
  }

  lemma {:induction false} SumZeros(n: nat)
    ensures Sum(Zeros(n)) == 0.0
  {
    if n > 0 {
      assert Zeros(n)[..n - 1] == Zeros(n - 1);
      SumZeros(n - 1);
    }
  }

  lemma {:induction false} SumNonNegative(s: seq<real>)
    requires forall i :: 0 <= i < |s| ==> s[i] >= 0.0
    ensures Sum(s) >= 0.0
    decreases |s|
  {
    if s != [] {
      SumNonNegative(s[..|s| - 1]);
    }
  }

  /** A sum of non-negative terms with one positive term is positive. */
  lemma {:induction false} SumPositive(s: seq<real>, k: nat)
    requires forall i :: 0 <= i < |s| ==> s[i] >= 0.0
    requires k < |s| && s[k] > 0.0
    ensures Sum(s) > 0.0
    decreases |s|
  {
    var s' := s[..|s| - 1];
    if k == |s| - 1 {
      SumNonNegative(s');
    } else {
      SumPositive(s', k);
    }
  }

  /** A sum of non-negative terms that comes to 1 has a positive term. */
  lemma {:induction false} PositiveTermOfUnitSum(s: seq<real>) returns (k: nat)
    requires forall i :: 0 <= i < |s| ==> s[i] >= 0.0
    requires Sum(s) == 1.0
    ensures k < |s| && s[k] > 0.0
    decreases |s|
  {
    var s' := s[..|s| - 1];
    if s[|s| - 1] > 0.0 {
      k := |s| - 1;
    } else {
      k := PositiveTermOfUnitSum(s');
    }
  }

  /** A sum whose terms are all zero except the k-th is that term. */
  lemma {:induction false} SumOfSingleTerm(s: seq<real>, k: nat)
    requires k < |s|
    requires forall i :: 0 <= i < |s| && i != k ==> s[i] == 0.0
    ensures Sum(s) == s[k]
    decreases |s|
  {
    var s' := s[..|s| - 1];
    if k == |s| - 1 {
      assert forall i :: 0 <= i < |s'| ==> s'[i] == 0.0;
      assert s' == Zeros(|s'|);
      SumZeros(|s'|);
    } else {
      SumOfSingleTerm(s', k);
    }
  }
}
