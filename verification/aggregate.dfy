/** `calculate_overall_similarity`, shared by all three variants that have it:
    the mean, over the units of A, of each unit's best score against B. */
module Aggregate {
  import opened Base

  /** The inner loop: the best score of `a` against `us2[..n]`, starting from 0
      and replaced only by a strictly larger score. */
  function BestScore<U>(a: U, us2: seq<U>, score: (U, U) -> Ratio, n: nat): real
    requires n <= |us2|
  {
    if n == 0 then 0.0
    else
      var best := BestScore(a, us2, score, n - 1);
      var s := score(a, us2[n - 1]);
      if s > best then s else best
  }

  /** `similarities` after the first `n` units of A. */
  function BestScores<U>(us1: seq<U>, us2: seq<U>, score: (U, U) -> Ratio, n: nat): seq<real>
    requires n <= |us1|
  {
    if n == 0 then [] else BestScores(us1, us2, score, n - 1) + [BestScore(us1[n - 1], us2, score, |us2|)]
  }

  /** Python's `sum` over a list of numbers. */
  function Sum(xs: seq<real>): real
  {
    if xs == [] then 0.0 else Sum(xs[..|xs| - 1]) + xs[|xs| - 1]
  }

  /** The overall similarity of a non-empty A against B. */
  function Overall<U>(us1: seq<U>, us2: seq<U>, score: (U, U) -> Ratio): real
    requires |us1| > 0
  {
    Sum(BestScores(us1, us2, score, |us1|)) / (|us1| as real)
  }

  /** The best score is `max(0, max_k score(a, us2[k]))`: an upper bound of
      every score, and either 0 or one of them. */
  lemma {:induction false} BestScoreIsMaximum<U>(a: U, us2: seq<U>, score: (U, U) -> Ratio, n: nat)
    requires n <= |us2|
    ensures var best := BestScore(a, us2, score, n);
      && 0.0 <= best <= 1.0
      && (forall k :: 0 <= k < n ==> score(a, us2[k]) <= best)
      && (best == 0.0 || exists k :: 0 <= k < n && best == score(a, us2[k]))
  {
    if n > 0 {
      BestScoreIsMaximum(a, us2, score, n - 1);
      var s := score(a, us2[n - 1]);
      assert 0.0 <= s <= 1.0;
    }
  }

  lemma {:induction false} BestScoresAt<U>(us1: seq<U>, us2: seq<U>, score: (U, U) -> Ratio, n: nat)
    requires n <= |us1|
    ensures |BestScores(us1, us2, score, n)| == n
    ensures forall k :: 0 <= k < n ==> BestScores(us1, us2, score, n)[k] == BestScore(us1[k], us2, score, |us2|)
  {
    if n > 0 {
      BestScoresAt(us1, us2, score, n - 1);
    }
  }

  lemma {:induction false} SumBounds(xs: seq<real>)
    requires forall k :: 0 <= k < |xs| ==> 0.0 <= xs[k] <= 1.0
    ensures 0.0 <= Sum(xs) <= |xs| as real
  {
    if xs != [] {
      SumBounds(xs[..|xs| - 1]);
    }
  }

  lemma {:induction false} SumOfConstant(xs: seq<real>, c: real)
    requires c == 0.0 || c == 1.0
    requires forall k :: 0 <= k < |xs| ==> xs[k] == c
    ensures Sum(xs) == if c == 0.0 then 0.0 else |xs| as real
  {
    if xs != [] {
      SumOfConstant(xs[..|xs| - 1], c);
    }
  }

  /** The overall similarity lies in [0, 1]. */
  lemma OverallInUnitInterval<U>(us1: seq<U>, us2: seq<U>, score: (U, U) -> Ratio)
    requires |us1| > 0
    ensures 0.0 <= Overall(us1, us2, score) <= 1.0
  {
    var xs := BestScores(us1, us2, score, |us1|);
    BestScoresAt(us1, us2, score, |us1|);
    forall k | 0 <= k < |xs|
      ensures 0.0 <= xs[k] <= 1.0
    {
      BestScoreIsMaximum(us1[k], us2, score, |us2|);
    }
    SumBounds(xs);
    MeanInUnitInterval(Sum(xs), |us1| as real);
  }

  lemma MeanInUnitInterval(total: real, count: real)
    requires 0.0 < count && 0.0 <= total <= count
    ensures 0.0 <= total / count <= 1.0
  {
    assert total / count * count == total;
  }

  /** Against an empty B every best score stays 0, so the overall similarity is 0. */
  lemma OverallAgainstNothingIsZero<U>(us1: seq<U>, score: (U, U) -> Ratio)
    requires |us1| > 0
    ensures Overall(us1, [], score) == 0.0
  {
    var xs := BestScores(us1, [], score, |us1|);
    BestScoresAt(us1, [], score, |us1|);
    SumOfConstant(xs, 0.0);
  }

  /** When the score gives 1 for identical units, a non-empty A compared with
      itself has overall similarity exactly 1. */
  lemma OverallOfSelfIsOne<U>(us: seq<U>, score: (U, U) -> Ratio)
    requires |us| > 0
    requires forall a :: score(a, a) == 1.0
    ensures Overall(us, us, score) == 1.0
  {
    var xs := BestScores(us, us, score, |us|);
    BestScoresAt(us, us, score, |us|);
    forall k | 0 <= k < |xs|
      ensures xs[k] == 1.0
    {
      BestScoreIsMaximum(us[k], us, score, |us|);
      assert score(us[k], us[k]) == 1.0;
    }
    SumOfConstant(xs, 1.0);
  }

  /** `calculate_overall_similarity`: fails with ZeroDivisionError on an empty A. */
  method CalculateOverallSimilarity<U>(us1: seq<U>, us2: seq<U>, score: (U, U) -> Ratio) returns (r: Result<real>)
    ensures r.Err? <==> |us1| == 0
    ensures r.Err? ==> r.error == ZeroDivisionError
    ensures r.Ok? ==> r.value == Overall(us1, us2, score) && 0.0 <= r.value <= 1.0
  {
    var similarities: seq<real> := [];
    var i := 0;
    while i < |us1|
      invariant 0 <= i <= |us1|
      invariant similarities == BestScores(us1, us2, score, i)
    {
      var bestSimilarity: real := 0.0;
      var j := 0;
      while j < |us2|
        invariant 0 <= j <= |us2|
        invariant bestSimilarity == BestScore(us1[i], us2, score, j)
      {
        var similarity := score(us1[i], us2[j]);
        if similarity > bestSimilarity {
          bestSimilarity := similarity;
        }
        j := j + 1;
      }
      similarities := similarities + [bestSimilarity];
      i := i + 1;
    }
    if |similarities| == 0 {
      return Err(ZeroDivisionError);
    }
    BestScoresAt(us1, us2, score, |us1|);
    OverallInUnitInterval(us1, us2, score);
    r := Ok(Sum(similarities) / (|similarities| as real));
  }
}
