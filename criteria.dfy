/** The four criteria that score each alternative from its own row:
    optimistic (maximax), pessimistic (maximin), Hurwicz and Laplace. */
module Criteria {
  import opened Matrices

  /** Optimistic criterion: each alternative scores its best payoff. */
  function Optimistic(m: Matrix): (r: seq<real>)
    requires RowsNonEmpty(m)
    ensures |r| == |m|
    ensures forall i :: 0 <= i < |m| ==> IsMaxOf(r[i], m[i])
  {
    seq(|m|, i requires 0 <= i < |m| => Max(m[i]))
  }

  /** Pessimistic criterion: each alternative scores its worst payoff. */
  function Pessimistic(m: Matrix): (r: seq<real>)
    requires RowsNonEmpty(m)
    ensures |r| == |m|
    ensures forall i :: 0 <= i < |m| ==> IsMinOf(r[i], m[i])
  {
    seq(|m|, i requires 0 <= i < |m| => Min(m[i]))
  }

  /** One alternative's Hurwicz score from its best and worst payoff
      (rounding left out). */
  function HurwiczScore(best: real, worst: real, optCoef: real, pessCoef: real): real
  {
    best * optCoef + worst * pessCoef
  }

  /** Hurwicz criterion: the best payoff weighted by the optimism coefficient
      plus the worst payoff weighted by its complement. */
  function Hurwicz(m: Matrix, optCoef: real): (r: seq<real>)
    requires RowsNonEmpty(m)
    ensures |r| == |m|
  {
    var pessCoef := 1.0 - optCoef;
    seq(|m|, i requires 0 <= i < |m| => HurwiczScore(Max(m[i]), Min(m[i]), optCoef, pessCoef))
  }

  /** With complementary weights in [0, 1] the score lies between the worst
      and the best payoff. */
  lemma HurwiczScoreBetween(best: real, worst: real, optCoef: real)
    requires worst <= best && 0.0 <= optCoef <= 1.0
    ensures worst <= HurwiczScore(best, worst, optCoef, 1.0 - optCoef) <= best
  {
    ProductNonNegative(best - worst, optCoef);
    ProductNonNegative(best - worst, 1.0 - optCoef);
  }

  /** The product of two non-negative numbers is non-negative. */
  lemma ProductNonNegative(a: real, b: real)
    requires 0.0 <= a && 0.0 <= b
    ensures 0.0 <= a * b
  {
  }

  /** With a coefficient in [0, 1] every Hurwicz score lies between the
      row's worst and best payoff. */
  lemma HurwiczBetween(m: Matrix, optCoef: real)
    requires RowsNonEmpty(m) && 0.0 <= optCoef <= 1.0
    ensures forall i :: 0 <= i < |m| ==>
      Min(m[i]) <= Hurwicz(m, optCoef)[i] <= Max(m[i])
  {
    forall i | 0 <= i < |m|
      ensures Min(m[i]) <= Hurwicz(m, optCoef)[i] <= Max(m[i])
    {
      MinAtMostMax(m[i]);
      HurwiczScoreBetween(Max(m[i]), Min(m[i]), optCoef);
    }
  }

  /** Full optimism makes Hurwicz the optimistic criterion. */
  lemma HurwiczFullOptimism(m: Matrix)
    requires RowsNonEmpty(m)
    ensures Hurwicz(m, 1.0) == Optimistic(m)
  {
  }

  /** No optimism makes Hurwicz the pessimistic criterion. */
  lemma HurwiczNoOptimism(m: Matrix)
    requires RowsNonEmpty(m)
    ensures Hurwicz(m, 0.0) == Pessimistic(m)
  {
  }

  /** Laplace criterion: every state is equally likely, with probability
      1/cols taken from the first row; each row accumulates
      `number * prob` (rounding left out). */
  method Laplace(m: Matrix) returns (expcValues: seq<real>)
    requires |m| > 0 && |m[0]| > 0
    ensures |expcValues| == |m|
    ensures forall i :: 0 <= i < |m| ==> expcValues[i] == Sum(m[i]) / (Cols(m) as real)
  {
    var prob := 1.0 / (|m[0]| as real);
    expcValues := [];
    for i := 0 to |m|
      invariant |expcValues| == i
      invariant forall k :: 0 <= k < i ==> expcValues[k] == Sum(m[k]) / (Cols(m) as real)
    {
      var row := m[i];
      var expcValue := 0.0;
      for j := 0 to |row|
        invariant expcValue == Sum(row[..j]) * prob
      {
        SumStep(row, j, prob);
        expcValue := expcValue + row[j] * prob;
      }
      assert row[..|row|] == row;
      TimesReciprocal(Sum(row), |m[0]| as real);
      expcValues := expcValues + [expcValue];
    }
  }

  /** One more element of the running sum, scaled by a probability. */
  lemma SumStep(s: seq<real>, j: nat, p: real)
    requires j < |s|
    ensures Sum(s[..j + 1]) * p == Sum(s[..j]) * p + s[j] * p
  {
    assert s[..j + 1][..j] == s[..j];
    Distribute(Sum(s[..j]), s[j], p);
  }

  /** Multiplication distributes over addition. */
  lemma Distribute(a: real, b: real, p: real)
    ensures (a + b) * p == a * p + b * p
  {
  }

  /** Multiplying by `1/n` is dividing by `n`. */
  lemma TimesReciprocal(x: real, n: real)
    requires n > 0.0
    ensures x * (1.0 / n) == x / n
  {
  }

  /** Dividing bounds `n * lo <= total <= n * hi` by a positive `n`. */
  lemma DivideBounds(total: real, n: real, lo: real, hi: real)
    requires n > 0.0 && n * lo <= total <= n * hi
    ensures lo <= total / n <= hi
  {
  }

  /** Element bounds carry over to the mean of a non-empty sequence. */
  lemma MeanBetween(s: seq<real>, lo: real, hi: real)
    requires |s| > 0
    requires forall k :: 0 <= k < |s| ==> lo <= s[k] <= hi
    ensures lo <= Sum(s) / (|s| as real) <= hi
  {
    SumAtLeast(s, lo);
    SumAtMost(s, hi);
    DivideBounds(Sum(s), |s| as real, lo, hi);
  }

  /** The Laplace score of a rectangular row lies between its worst and best payoff. */
  lemma LaplaceBetween(m: Matrix, i: nat)
    requires Rectangular(m) && i < |m|
    ensures Min(m[i]) <= Sum(m[i]) / (Cols(m) as real) <= Max(m[i])
  {
    MeanBetween(m[i], Min(m[i]), Max(m[i]));
  }

  /** A row whose payoffs are all `v` has Laplace score exactly `v`. */
  lemma LaplaceUniformRow(m: Matrix, i: nat, v: real)
    requires Rectangular(m) && i < |m|
    requires forall j :: 0 <= j < |m[i]| ==> m[i][j] == v
    ensures Sum(m[i]) / (Cols(m) as real) == v
  {
    MeanBetween(m[i], v, v);
  }
}
