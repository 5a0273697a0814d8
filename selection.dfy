/** Choosing the winning alternative from a score vector: the extreme score
    (`max`, or `min` for Savage) and the first index holding it. */
module Selection {
  import opened Matrices

  datatype Option<T> = None | Some(value: T)

  /** `a` is strictly better than `b`: larger when maximising, smaller when
      minimising. */
  predicate Better(a: real, b: real, minResult: bool)
  {
    if minResult then a < b else a > b
  }

  /** `k` is the first index holding the extreme score: no score beats it and
      it beats every score before it. */
  ghost predicate IsFirstBest(results: seq<real>, k: nat, minResult: bool)
  {
    && k < |results|
    && (forall j :: 0 <= j < |results| ==> !Better(results[j], results[k], minResult))
    && (forall j :: 0 <= j < k ==> Better(results[k], results[j], minResult))
  }

  /** Python's `list.index`: the first position holding `v`. */
  function IndexOf(s: seq<real>, v: real): (k: nat)
    requires v in s
    ensures k < |s| && s[k] == v
    ensures forall j :: 0 <= j < k ==> s[j] != v
  {
    if s[0] == v then 0 else 1 + IndexOf(s[1..], v)
  }

  /** `results.index(results_function(results))` with `results_function`
      being `min` when `minResult` is set and `max` otherwise; `None` stands
      for the error `max` and `min` raise on an empty list. */
  function Select(results: seq<real>, minResult: bool): (r: Option<nat>)
    ensures r.None? <==> results == []
    ensures r.Some? ==> IsFirstBest(results, r.value, minResult)
  {
    if results == [] then None
    else
      var best := if minResult then Min(results) else Max(results);
      Some(IndexOf(results, best))
  }

  /** The first best index is unique, so `Select` returns exactly it. */
  lemma SelectIsTheFirstBest(results: seq<real>, minResult: bool, k: nat)
    requires IsFirstBest(results, k, minResult)
    ensures Select(results, minResult) == Some(k)
  {
  }

  /** Ties go to the lowest index: the first 7 wins when maximising. */
  lemma SelectExamples()
    ensures Select([3.0, 7.0, 7.0, 2.0], false) == Some(1)
    ensures Select([3.0, 7.0, 7.0, 2.0], true) == Some(3)
  {
  }
}
