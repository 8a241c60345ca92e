/** The per-run-length sufficient statistics: a Normal-Gamma posterior over the
    unknown mean and precision of the current segment, and its one-observation update. */
module NormalGamma {
  import opened Sums

  /** One run-length hypothesis: location mu, pseudo-count kappa, shape alpha, rate beta. */
  datatype Hypothesis = Hypothesis(mu: real, kappa: real, alpha: real, beta: real)

  /** None of kappa0 + 1, ..., kappa0 + n is zero: the divisors met while a hypothesis
      that starts at pseudo-count kappa0 absorbs n observations. */
  predicate KappaSafe(kappa0: real, n: nat)
  {
    n == 0 || (kappa0 + n as real != 0.0 && KappaSafe(kappa0, n - 1))
  }

  lemma {:induction false} KappaSafePrefix(kappa0: real, n: nat, m: nat)
    requires KappaSafe(kappa0, n) && m <= n
    ensures KappaSafe(kappa0, m)
    decreases n
  {
    if m < n {
      KappaSafePrefix(kappa0, n - 1, m);
    }
  }

  /** With a positive prior pseudo-count no divisor of the recursion is ever zero. */
  lemma {:induction false} PositiveKappaSafe(kappa0: real, n: nat)
    requires kappa0 > 0.0
    ensures KappaSafe(kappa0, n)
  {
    if n > 0 {
      PositiveKappaSafe(kappa0, n - 1);
    }
  }

  /** The rate increment r = k * (x - mu)^2 / (2 * (k + 1)) of the conjugate update satisfies
      2 * r == x^2 + k * mu^2 - (k + 1) * m^2, where m = (k * mu + x) / (k + 1),
      and is non-negative for a non-negative pseudo-count k. */
  lemma RateIncrement(k: real, mu: real, x: real)
    requires k + 1.0 != 0.0
    ensures var m := (k * mu + x) / (k + 1.0);
            var r := k * (x - mu) * (x - mu) / (2.0 * (k + 1.0));
            2.0 * r == x * x + k * mu * mu - (k + 1.0) * m * m && (k >= 0.0 ==> r >= 0.0)
  {
    var d := k + 1.0;
    var m := (k * mu + x) / d;
    var q := k * (x - mu) * (x - mu);
    var r := q / (2.0 * d);
    assert 2.0 * r == q / d;
    assert d * m == k * mu + x;
    assert d * m * m * d == (k * mu + x) * (k * mu + x);
    assert (x * x + k * mu * mu) * d - (k * mu + x) * (k * mu + x) == q;
    assert (x * x + k * mu * mu - d * m * m) * d == q;
    if k >= 0.0 {
      assert (x - mu) * (x - mu) >= 0.0;
      assert q >= 0.0;
    }
  }

  /** The closed-form conjugate update of one hypothesis by one observation x.
      kappa * mu accumulates the observations, alpha gains a half per observation,
      and 2 * beta accumulates the observations' squares, so that
      2 * (beta' - beta) = x^2 + kappa * mu^2 - kappa' * mu'^2. */
  function Aged(h: Hypothesis, x: real): (g: Hypothesis)
    requires h.kappa + 1.0 != 0.0
    ensures g.kappa == h.kappa + 1.0 && g.alpha == h.alpha + 0.5
    ensures g.kappa * g.mu == h.kappa * h.mu + x
    ensures 2.0 * (g.beta - h.beta) == x * x + h.kappa * h.mu * h.mu - g.kappa * g.mu * g.mu
    ensures h.kappa >= 0.0 ==> g.beta >= h.beta
  {
    RateIncrement(h.kappa, h.mu, x);
    Hypothesis((h.kappa * h.mu + x) / (h.kappa + 1.0),
               h.kappa + 1.0,
               h.alpha + 0.5,
               h.beta + h.kappa * (x - h.mu) * (x - h.mu) / (2.0 * (h.kappa + 1.0)))
  }

  /** Every hypothesis of a track updated by the same observation, position by position. */
  function AgeTrack(track: seq<Hypothesis>, x: real): (aged: seq<Hypothesis>)
    requires forall i :: 0 <= i < |track| ==> track[i].kappa + 1.0 != 0.0
    ensures |aged| == |track|
  {
    seq(|track|, i requires 0 <= i < |track| => Aged(track[i], x))
  }

  /** The hypothesis p after absorbing xs[0], xs[1], ... in order. */
  function AgeMany(p: Hypothesis, xs: seq<real>): (g: Hypothesis)
    requires KappaSafe(p.kappa, |xs|)
    ensures g.kappa == p.kappa + |xs| as real
    ensures g.alpha == p.alpha + |xs| as real / 2.0
    decreases |xs|
  {
    if xs == [] then p
    else Aged(AgeMany(p, xs[..|xs| - 1]), xs[|xs| - 1])
  }

  /** Aging by the window data[t - r..t] of the last r observations up to t absorbs
      data[t - 1] last, after the window of r - 1 observations up to t - 1. */
  lemma AgeManyWindow(p: Hypothesis, data: seq<real>, t: nat, r: nat)
    requires 0 < r <= t <= |data| && KappaSafe(p.kappa, r)
    ensures KappaSafe(p.kappa, r - 1)
    ensures AgeMany(p, data[t - r..t]) == Aged(AgeMany(p, data[(t - 1) - (r - 1)..t - 1]), data[t - 1])
  {
    var xs := data[t - r..t];
    assert xs[..|xs| - 1] == data[(t - 1) - (r - 1)..t - 1];
  }

  function Squares(xs: seq<real>): (sq: seq<real>)
    ensures |sq| == |xs|
  {
    seq(|xs|, i requires 0 <= i < |xs| => xs[i] * xs[i])
  }

  /** h is the Normal-Gamma posterior of prior p given the batch xs, stated through the batch's
      count, sum and sum of squares: kappa counts the observations, kappa * mu adds them up,
      alpha gains a half per observation and 2 * beta accumulates their squares. For a
      non-zero kappa these equations fix h (see SummaryDeterminesHypothesis). */
  ghost predicate Summarises(h: Hypothesis, p: Hypothesis, xs: seq<real>)
  {
    && h.kappa == p.kappa + |xs| as real
    && h.kappa * h.mu == p.kappa * p.mu + Sum(xs)
    && h.alpha == p.alpha + |xs| as real / 2.0
    && 2.0 * (h.beta - p.beta) == Sum(Squares(xs)) + p.kappa * p.mu * p.mu - h.kappa * h.mu * h.mu
  }

  lemma SummaryDeterminesHypothesis(h: Hypothesis, g: Hypothesis, p: Hypothesis, xs: seq<real>)
    requires Summarises(h, p, xs) && Summarises(g, p, xs) && h.kappa != 0.0
    ensures h == g
  {
    CancelFactor(h.kappa, h.mu, g.mu);
  }

  /** A non-zero factor cancels. */
  lemma CancelFactor(k: real, a: real, b: real)
    requires k != 0.0 && k * a == k * b
    ensures a == b
  {
    assert k * (a - b) == 0.0;
  }

  /** The induction step of AgeManySummarises, with every product of the statement passed
      in as a value of its own, so that what remains is linear: if h summarises n observations
      with sums sx, sxx and g is h aged by x, then g summarises the n + 1 observations. */
  lemma SummaryStep(c1: real, c: real, b0: real, n: real, sx: real, sxx: real, x: real, x2: real,
                    hk: real, hkm: real, hkm2: real, hb: real,
                    gk: real, gkm: real, gkm2: real, gb: real)
    requires 2.0 * (hb - b0) == sxx + c - hkm2
    requires gkm == hkm + x && hkm == c1 + sx
    requires 2.0 * (gb - hb) == x2 + hkm2 - gkm2
    ensures gkm == c1 + (sx + x)
    ensures 2.0 * (gb - b0) == (sxx + x2) + c - gkm2
  {
  }

  lemma SquaresAppend(ys: seq<real>, x: real)
    ensures Squares(ys + [x]) == Squares(ys) + [x * x]
  {
    var l, r := Squares(ys + [x]), Squares(ys) + [x * x];
    assert forall i :: 0 <= i < |ys| ==> l[i] == (ys + [x])[i] * (ys + [x])[i] == r[i];
    assert l[|ys|] == x * x == r[|ys|];
  }

  /** Aging a posterior of the batch ys by x gives the posterior of the batch ys + [x]. */
  lemma AgedSummarises(h: Hypothesis, p: Hypothesis, ys: seq<real>, x: real)
    requires h.kappa + 1.0 != 0.0 && Summarises(h, p, ys)
    ensures Summarises(Aged(h, x), p, ys + [x])
  {
    var xs := ys + [x];
    assert xs[..|xs| - 1] == ys;
    SquaresAppend(ys, x);
    assert Squares(xs)[..|xs| - 1] == Squares(ys);
    var sx, sxx := Sum(ys), Sum(Squares(ys));
    assert Sum(Squares(xs)) == sxx + x * x;
    assert Sum(xs) == sx + x;
    var g := Aged(h, x);
    SummaryStep(p.kappa * p.mu, p.kappa * p.mu * p.mu, p.beta, |ys| as real, sx, sxx, x, x * x,
                h.kappa, h.kappa * h.mu, h.kappa * h.mu * h.mu, h.beta,
                g.kappa, g.kappa * g.mu, g.kappa * g.mu * g.mu, g.beta);
  }

  /** Aging a hypothesis observation by observation ends at the batch posterior. */
  lemma {:induction false} AgeManySummarises(p: Hypothesis, xs: seq<real>)
    requires KappaSafe(p.kappa, |xs|)
    ensures Summarises(AgeMany(p, xs), p, xs)
    decreases |xs|
  {
    if xs == [] {
      assert Squares(xs) == [];
    } else {
      var ys, x := xs[..|xs| - 1], xs[|xs| - 1];
      assert xs == ys + [x];
      AgeManySummarises(p, ys);
      AgedSummarises(AgeMany(p, ys), p, ys, x);
    }
  }

  /** The example of a prior (0, 1, 1, 1) and the observation 2. */
  lemma AgedExample()
    ensures Aged(Hypothesis(0.0, 1.0, 1.0, 1.0), 2.0) == Hypothesis(1.0, 2.0, 1.5, 2.0)
  {
  }
}
