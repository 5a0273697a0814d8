/** The Savage (minimax regret) criterion. The payoff matrix is transposed
    into an array, each of its rows (an original column) is rewritten in
    place as regrets, the array is transposed back, and every alternative
    scores its largest regret. */
module Savage {
  import opened Matrices
  import opened Criteria

  /** The regret matrix: cell [i][j] is how much alternative i loses against
      the best alternative for state j. */
  function Regret(m: Matrix): (r: Matrix)
    requires Rectangular(m)
    ensures |r| == |m| && Rectangular(r) && Cols(r) == Cols(m)
  {
    seq(|m|, i requires 0 <= i < |m| =>
      seq(Cols(m), j requires 0 <= j < Cols(m) => Max(Column(m, j)) - m[i][j]))
  }

  /** The rows of a two-dimensional array as a sequence of sequences. */
  ghost function Grid(t: array2<real>): (g: seq<seq<real>>)
    reads t
    ensures |g| == t.Length0
    ensures forall r :: 0 <= r < t.Length0 ==> |g[r]| == t.Length1
  {
    seq(t.Length0, r requires 0 <= r < t.Length0 reads t =>
      seq(t.Length1, c requires 0 <= c < t.Length1 reads t => t[r, c]))
  }

  /** Row `idx` of a two-dimensional array. */
  function RowOf(t: array2<real>, idx: nat): (s: seq<real>)
    requires idx < t.Length0
    reads t
    ensures |s| == t.Length1 && forall c :: 0 <= c < t.Length1 ==> s[c] == t[idx, c]
  {
    seq(t.Length1, c requires 0 <= c < t.Length1 reads t => t[idx, c])
  }

  /** The in-place loop over the transposed matrix: for each of its rows
      (an original column), take the row's maximum and overwrite every cell
      with that maximum minus the cell. The maximum is taken before the row
      is touched, each cell is read before it is written, and rows are
      done one after another, so rows before `idx` hold regrets and rows
      from `idx` on still hold payoffs. */
  method RegretInPlace(t: array2<real>)
    requires t.Length1 > 0
    modifies t
    ensures forall r, c :: 0 <= r < t.Length0 && 0 <= c < t.Length1 ==>
      t[r, c] == Max(old(Grid(t))[r]) - old(t[r, c])
  {
    ghost var orig := Grid(t);
    for idx := 0 to t.Length0
      invariant forall r, c :: 0 <= r < idx && 0 <= c < t.Length1 ==>
        t[r, c] == Max(orig[r]) - orig[r][c]
      invariant forall r, c :: idx <= r < t.Length0 && 0 <= c < t.Length1 ==>
        t[r, c] == orig[r][c]
    {
      var col := RowOf(t, idx);
      assert col == orig[idx];
      var maxim := Max(col);
      for jdx := 0 to t.Length1
        invariant forall r, c :: 0 <= r < idx && 0 <= c < t.Length1 ==>
          t[r, c] == Max(orig[r]) - orig[r][c]
        invariant forall c :: 0 <= c < jdx ==> t[idx, c] == maxim - orig[idx][c]
        invariant forall r, c :: idx <= r < t.Length0 && 0 <= c < t.Length1 && (r != idx || jdx <= c) ==>
          t[r, c] == orig[r][c]
      {
        t[idx, jdx] := maxim - t[idx, jdx];
      }
    }
  }

  /** The regret matrix as the program builds it: transpose into an array,
      rewrite in place, transpose back. */
  method RegretMatrix(m: Matrix) returns (regret: Matrix)
    requires Rectangular(m)
    ensures regret == Regret(m)
  {
    var rows, cols := |m|, Cols(m);
    var t := new real[cols, rows]((j, i) requires 0 <= j < cols && 0 <= i < rows => m[i][j]);
    ghost var transposed := Grid(t);
    assert forall j :: 0 <= j < cols ==> transposed[j] == Column(m, j);
    RegretInPlace(t);
    regret := seq(rows, i requires 0 <= i < rows reads t =>
      seq(cols, j requires 0 <= j < cols reads t => t[j, i]));
    forall i | 0 <= i < rows
      ensures regret[i] == Regret(m)[i]
    {
      forall j | 0 <= j < cols
        ensures regret[i][j] == Regret(m)[i][j]
      {
        assert transposed[j][i] == m[i][j];
      }
    }
  }

  /** Savage criterion: each alternative scores its largest regret; the
      winner is the one with the smallest score. */
  method SavageScores(m: Matrix) returns (scores: seq<real>)
    requires Rectangular(m)
    ensures scores == Optimistic(Regret(m))
    ensures |scores| == |m| && forall i :: 0 <= i < |m| ==> 0.0 <= scores[i]
  {
    var regret := RegretMatrix(m);
    scores := Optimistic(regret);
    SavageScoresNonNegative(m);
  }

  /** No regret is negative: nothing in a column exceeds its maximum. */
  lemma RegretNonNegative(m: Matrix)
    requires Rectangular(m)
    ensures forall i, j :: 0 <= i < |m| && 0 <= j < Cols(m) ==> 0.0 <= Regret(m)[i][j]
  {
  }

  /** Every column of the regret matrix holds a zero: the row that attains
      the column's maximum. */
  lemma RegretColumnHasZero(m: Matrix, j: nat)
    requires Rectangular(m) && j < Cols(m)
    ensures exists i :: 0 <= i < |m| && Regret(m)[i][j] == 0.0
  {
    var c := Column(m, j);
    var i :| 0 <= i < |c| && c[i] == Max(c);
    assert Regret(m)[i][j] == 0.0;
  }

  /** Every Savage score, the largest regret of its row, is non-negative. */
  lemma SavageScoresNonNegative(m: Matrix)
    requires Rectangular(m)
    ensures forall i :: 0 <= i < |m| ==> 0.0 <= Optimistic(Regret(m))[i]
  {
  }
}
