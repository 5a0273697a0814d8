/** The payoff matrix: rows are alternatives, columns are states of nature.
    Cells are finite numbers; the program reads them either as floats (manual
    entry) or as integers (random generation). `real` holds every finite
    cell value; the arithmetic on them is exact here, without float rounding. */
module Matrices {

  type Matrix = seq<seq<real>>

  /** Every row has at least one cell, so `max(row)` and `min(row)` are defined. */
  ghost predicate RowsNonEmpty(m: Matrix)
  {
    forall i :: 0 <= i < |m| ==> |m[i]| > 0
  }

  /** The shape the program builds: `rows` by `cols` with both positive. */
  ghost predicate Rectangular(m: Matrix)
  {
    |m| > 0 && |m[0]| > 0 && forall i :: 0 <= i < |m| ==> |m[i]| == |m[0]|
  }

  function Cols(m: Matrix): nat
    requires |m| > 0
  {
    |m[0]|
  }

  /** `v` is the largest value of `s`: it occurs in `s` and nothing in `s` exceeds it. */
  ghost predicate IsMaxOf(v: real, s: seq<real>)
  {
    v in s && forall k :: 0 <= k < |s| ==> s[k] <= v
  }

  /** `v` is the smallest value of `s`. */
  ghost predicate IsMinOf(v: real, s: seq<real>)
  {
    v in s && forall k :: 0 <= k < |s| ==> v <= s[k]
  }

  /** Python's `max` over a non-empty sequence. */
  function Max(s: seq<real>): (r: real)
    requires |s| > 0
    ensures IsMaxOf(r, s)
  {
    if |s| == 1 then s[0]
    else
      var rest := Max(s[1..]);
      assert s == [s[0]] + s[1..];
      if s[0] >= rest then s[0] else rest
  }

  /** Python's `min` over a non-empty sequence. */
  function Min(s: seq<real>): (r: real)
    requires |s| > 0
    ensures IsMinOf(r, s)
  {
    if |s| == 1 then s[0]
    else
      var rest := Min(s[1..]);
      assert s == [s[0]] + s[1..];
      if s[0] <= rest then s[0] else rest
  }

  /** A non-empty sequence's minimum does not exceed its maximum. */
  lemma MinAtMostMax(s: seq<real>)
    requires |s| > 0
    ensures Min(s) <= Max(s)
  {
  }

  /** Exact sum of a sequence, accumulated from the left as a `for` loop does. */
  function Sum(s: seq<real>): real
  {
    if s == [] then 0.0 else Sum(s[..|s| - 1]) + s[|s| - 1]
  }

  /** Column `j` of a rectangular matrix, top to bottom. */
  function Column(m: Matrix, j: nat): (c: seq<real>)
    requires Rectangular(m) && j < Cols(m)
    ensures |c| == |m| && forall i :: 0 <= i < |m| ==> c[i] == m[i][j]
  {
    seq(|m|, i requires 0 <= i < |m| => m[i][j])
  }

  /** A lower bound on every element bounds the sum from below. */
  lemma {:induction false} SumAtLeast(s: seq<real>, lo: real)
    requires forall k :: 0 <= k < |s| ==> lo <= s[k]
    ensures (|s| as real) * lo <= Sum(s)
  {
    if s != [] {
      var init := s[..|s| - 1];
      assert forall k :: 0 <= k < |init| ==> init[k] == s[k];
      SumAtLeast(init, lo);
      assert (|s| as real) * lo == (|init| as real) * lo + lo;
    }
  }

  /** An upper bound on every element bounds the sum from above. */
  lemma {:induction false} SumAtMost(s: seq<real>, hi: real)
    requires forall k :: 0 <= k < |s| ==> s[k] <= hi
    ensures Sum(s) <= (|s| as real) * hi
  {
    if s != [] {
      var init := s[..|s| - 1];
      assert forall k :: 0 <= k < |init| ==> init[k] == s[k];
      SumAtMost(init, hi);
      assert (|s| as real) * hi == (|init| as real) * hi + hi;
    }
  }
}
