/** The five criteria on the 2 x 2 payoff matrix [[2, 4], [5, 1]] with
    optimism coefficient 0.5, in the order the program reports them. */
module WorkedExample {
  import opened Matrices
  import opened Criteria
  import opened Savage
  import opened Selection

  /** Laplace scores both alternatives 3, and the tie goes to the first. */
  method LaplaceExample() returns (scores: seq<real>, winner: Option<nat>)
    ensures scores == [3.0, 3.0] && winner == Some(0)
  {
    scores := Laplace([[2.0, 4.0], [5.0, 1.0]]);
    assert Sum([2.0, 4.0]) == 6.0 && Sum([5.0, 1.0]) == 6.0;
    winner := Select(scores, false);
  }

  /** Pessimistic, optimistic and Hurwicz scores and their winners. */
  lemma RowCriteriaExample()
    ensures Pessimistic([[2.0, 4.0], [5.0, 1.0]]) == [2.0, 1.0]
    ensures Select([2.0, 1.0], false) == Some(0)
    ensures Optimistic([[2.0, 4.0], [5.0, 1.0]]) == [4.0, 5.0]
    ensures Select([4.0, 5.0], false) == Some(1)
    ensures Hurwicz([[2.0, 4.0], [5.0, 1.0]], 0.5) == [3.0, 3.0]
    ensures Select(Hurwicz([[2.0, 4.0], [5.0, 1.0]], 0.5), false) == Some(0)
  {
  }

  /** The regret matrix is [[3, 0], [0, 3]]; both largest regrets are 3 and
      the minimising tie goes to the first alternative. */
  lemma SavageExample()
    ensures Regret([[2.0, 4.0], [5.0, 1.0]]) == [[3.0, 0.0], [0.0, 3.0]]
    ensures Optimistic([[3.0, 0.0], [0.0, 3.0]]) == [3.0, 3.0]
    ensures Select([3.0, 3.0], true) == Some(0)
  {
    var m := [[2.0, 4.0], [5.0, 1.0]];
    assert Column(m, 0) == [2.0, 5.0];
    assert Column(m, 1) == [4.0, 1.0];
    var r := Regret(m);
    assert r[0] == [3.0, 0.0] && r[1] == [0.0, 3.0];
    SelectIsTheFirstBest([3.0, 3.0], true, 0);
  }

  /** The Savage method itself on the same matrix: largest regrets [3, 3],
      and the minimising tie goes to the first alternative. */
  method SavageScoresExample() returns (scores: seq<real>, winner: Option<nat>)
    ensures scores == [3.0, 3.0] && winner == Some(0)
  {
    SavageExample();
    scores := SavageScores([[2.0, 4.0], [5.0, 1.0]]);
    winner := Select(scores, true);
  }
}
