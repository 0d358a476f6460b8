/** The greedy matcher `find_similar_blocks`, shared by line mode (MainWindow.py)
    and both syntax-tree modes (AST.py, ASTnew.py). The variants differ only in
    their units and in the score, which is a parameter here. */
module Greedy {
  import opened Base

  /** The state of the inner loop: `best_match` and `best_similarity`. */
  datatype Best = Best(index: Option<nat>, score: real)

  /** The inner loop after looking at `us2[..n]`: the first unused unit whose
      score reaches the threshold and strictly beats the best so far. */
  function Scan<U>(a: U, us2: seq<U>, used: set<nat>, score: (U, U) -> Ratio, threshold: real, n: nat): Best
    requires n <= |us2|
  {
    if n == 0 then Best(None, 0.0)
    else
      var b := Scan(a, us2, used, score, threshold, n - 1);
      var s := score(a, us2[n - 1]);
      if n - 1 !in used && s >= threshold && s > b.score then Best(Some(n - 1), s) else b
  }

  /** The units of B already taken by `pairs` (`used_blocks2`). */
  function UsedOf(pairs: seq<Match>): set<nat>
  {
    set k | 0 <= k < |pairs| :: pairs[k].j
  }

  /** The pairs produced by the outer loop after units `us1[..n]` of A. */
  function GreedyPrefix<U>(us1: seq<U>, us2: seq<U>, score: (U, U) -> Ratio, threshold: real, n: nat): seq<Match>
    requires n <= |us1|
  {
    if n == 0 then []
    else
      var prev := GreedyPrefix(us1, us2, score, threshold, n - 1);
      var b := Scan(us1[n - 1], us2, UsedOf(prev), score, threshold, |us2|);
      if b.index.Some? then prev + [Match(n - 1, b.index.value, b.score)] else prev
  }

  /** Unit `k` of B is a candidate for `a`: unused, at or above the threshold,
      and strictly above the initial best of 0. */
  predicate Eligible<U>(a: U, us2: seq<U>, used: set<nat>, score: (U, U) -> Ratio, threshold: real, k: nat)
  {
    k < |us2| && k !in used && score(a, us2[k]) >= threshold && score(a, us2[k]) > 0.0
  }

  /** Every pair is in range, carries the real score of its two units, and
      that score reaches the threshold and is positive. */
  predicate Sound<U>(us1: seq<U>, us2: seq<U>, score: (U, U) -> Ratio, threshold: real, pairs: seq<Match>)
  {
    forall k :: 0 <= k < |pairs| ==>
      && pairs[k].i < |us1| && pairs[k].j < |us2|
      && pairs[k].score == score(us1[pairs[k].i], us2[pairs[k].j])
      && pairs[k].score >= threshold && pairs[k].score > 0.0
  }

  /** Pairs come out in strictly increasing A index: each unit of A at most once. */
  predicate AscendingA(pairs: seq<Match>)
  {
    forall p, q :: 0 <= p < q < |pairs| ==> pairs[p].i < pairs[q].i
  }

  /** No unit of B appears in two pairs. */
  predicate InjectiveB(pairs: seq<Match>)
  {
    forall p, q :: 0 <= p < q < |pairs| ==> pairs[p].j != pairs[q].j
  }

  lemma UsedOfAppend(pairs: seq<Match>, m: Match)
    ensures UsedOf(pairs + [m]) == UsedOf(pairs) + {m.j}
  {
    var ps := pairs + [m];
    assert ps[|pairs|] == m;
    forall x | x in UsedOf(pairs)
      ensures x in UsedOf(ps)
    {
      var k :| 0 <= k < |pairs| && pairs[k].j == x;
      assert ps[k] == pairs[k];
    }
  }

  /** The inner loop finds the first unused unit of maximal score among those
      reaching the threshold; it finds nothing exactly when no unit is eligible. */
  lemma {:induction false} ScanFindsFirstBest<U>(a: U, us2: seq<U>, used: set<nat>, score: (U, U) -> Ratio, threshold: real, n: nat)
    requires n <= |us2|
    ensures var b := Scan(a, us2, used, score, threshold, n);
      && (b.index.None? ==>
            b.score == 0.0 && forall k :: 0 <= k < n ==> !Eligible(a, us2, used, score, threshold, k))
      && (b.index.Some? ==>
            && b.index.value < n
            && Eligible(a, us2, used, score, threshold, b.index.value)
            && b.score == score(a, us2[b.index.value])
            && (forall k :: 0 <= k < n && k !in used && score(a, us2[k]) >= threshold ==> score(a, us2[k]) <= b.score)
            && (forall k :: 0 <= k < b.index.value && k !in used && score(a, us2[k]) >= threshold ==> score(a, us2[k]) < b.score))
  {
    if n > 0 {
      ScanFindsFirstBest(a, us2, used, score, threshold, n - 1);
      var prev := Scan(a, us2, used, score, threshold, n - 1);
      var s := score(a, us2[n - 1]);
      assert 0.0 <= s;
      forall k | 0 <= k < n - 1 && k !in used && score(a, us2[k]) >= threshold
        ensures score(a, us2[k]) <= prev.score
      {
        var sk := score(a, us2[k]);
        assert 0.0 <= sk;
        if prev.index.None? {
          assert !Eligible(a, us2, used, score, threshold, k);
        }
      }
    }
  }

  /** The matcher's result grows by at most one pair per unit of A. */
  lemma {:induction false} GreedyPrefixGrows<U>(us1: seq<U>, us2: seq<U>, score: (U, U) -> Ratio, threshold: real, m: nat, n: nat)
    requires m <= n <= |us1|
    ensures GreedyPrefix(us1, us2, score, threshold, m) <= GreedyPrefix(us1, us2, score, threshold, n)
  {
    if m < n {
      GreedyPrefixGrows(us1, us2, score, threshold, m, n - 1);
    }
  }

  /** The matcher's guarantees: sound scores, ascending A indices, no B index twice. */
  lemma {:induction false} GreedyPrefixIsMatching<U>(us1: seq<U>, us2: seq<U>, score: (U, U) -> Ratio, threshold: real, n: nat)
    requires n <= |us1|
    ensures var pairs := GreedyPrefix(us1, us2, score, threshold, n);
      && Sound(us1, us2, score, threshold, pairs)
      && AscendingA(pairs) && InjectiveB(pairs)
      && |pairs| <= n
      && forall k :: 0 <= k < |pairs| ==> pairs[k].i < n
  {
    if n > 0 {
      GreedyPrefixIsMatching(us1, us2, score, threshold, n - 1);
      var prev := GreedyPrefix(us1, us2, score, threshold, n - 1);
      ScanFindsFirstBest(us1[n - 1], us2, UsedOf(prev), score, threshold, |us2|);
      var b := Scan(us1[n - 1], us2, UsedOf(prev), score, threshold, |us2|);
      if b.index.Some? {
        var pairs := prev + [Match(n - 1, b.index.value, b.score)];
        forall p | 0 <= p < |prev|
          ensures pairs[p].j != b.index.value
        {
          assert prev[p].j in UsedOf(prev);
        }
      }
    }
  }

  /** Pair `k` of the result was chosen when unit `pairs[k].i` of A was
      visited, with the B units of the earlier pairs marked used. */
  lemma {:induction false} GreedyPairWasChosen<U>(us1: seq<U>, us2: seq<U>, score: (U, U) -> Ratio, threshold: real, n: nat, k: nat)
    requires n <= |us1|
    requires k < |GreedyPrefix(us1, us2, score, threshold, n)|
    ensures var pairs := GreedyPrefix(us1, us2, score, threshold, n);
      && pairs[k].i < n
      && pairs[..k] == GreedyPrefix(us1, us2, score, threshold, pairs[k].i)
      && Scan(us1[pairs[k].i], us2, UsedOf(pairs[..k]), score, threshold, |us2|) == Best(Some(pairs[k].j), pairs[k].score)
  {
    var prev := GreedyPrefix(us1, us2, score, threshold, n - 1);
    var pairs := GreedyPrefix(us1, us2, score, threshold, n);
    if k < |prev| {
      GreedyPairWasChosen(us1, us2, score, threshold, n - 1, k);
      assert pairs[..k] == prev[..k];
    } else {
      assert pairs[..k] == prev;
    }
  }

  /** Tie-break and optimality of each step: the chosen unit of B has the
      largest score among the units still unused at that point that reach the
      threshold, and every earlier such unit scores strictly less. */
  lemma GreedyPicksFirstBest<U>(us1: seq<U>, us2: seq<U>, score: (U, U) -> Ratio, threshold: real, n: nat, k: nat)
    requires n <= |us1|
    requires k < |GreedyPrefix(us1, us2, score, threshold, n)|
    ensures GreedyPrefix(us1, us2, score, threshold, n)[k].i < n
    ensures var pairs := GreedyPrefix(us1, us2, score, threshold, n);
      forall j :: 0 <= j < |us2| && j !in UsedOf(pairs[..k]) && score(us1[pairs[k].i], us2[j]) >= threshold ==>
        && score(us1[pairs[k].i], us2[j]) <= pairs[k].score
        && (j < pairs[k].j ==> score(us1[pairs[k].i], us2[j]) < pairs[k].score)
  {
    var pairs := GreedyPrefix(us1, us2, score, threshold, n);
    GreedyPairWasChosen(us1, us2, score, threshold, n, k);
    ScanFindsFirstBest(us1[pairs[k].i], us2, UsedOf(pairs[..k]), score, threshold, |us2|);
  }

  /** A unit of A whose inner loop found a candidate appears in the final result. */
  lemma GreedyVisitedUnitIsMatched<U>(us1: seq<U>, us2: seq<U>, score: (U, U) -> Ratio, threshold: real, n: nat, i: nat)
    requires i < n <= |us1|
    ensures Scan(us1[i], us2, UsedOf(GreedyPrefix(us1, us2, score, threshold, i)), score, threshold, |us2|).index.Some? ==>
      exists k :: 0 <= k < |GreedyPrefix(us1, us2, score, threshold, n)| && GreedyPrefix(us1, us2, score, threshold, n)[k].i == i
  {
    var before := GreedyPrefix(us1, us2, score, threshold, i);
    var after := GreedyPrefix(us1, us2, score, threshold, i + 1);
    var pairs := GreedyPrefix(us1, us2, score, threshold, n);
    GreedyPrefixGrows(us1, us2, score, threshold, i + 1, n);
    if Scan(us1[i], us2, UsedOf(before), score, threshold, |us2|).index.Some? {
      assert pairs[|before|] == after[|before|];
    }
  }

  /** A unit of A that got no pair had no eligible unit of B when it was
      visited, left `used_blocks2` unchanged, and every unit of B it could
      have taken is used by the final result (the matching is maximal). */
  lemma GreedyUnmatchedHadNoCandidate<U>(us1: seq<U>, us2: seq<U>, score: (U, U) -> Ratio, threshold: real, n: nat, i: nat)
    requires i < n <= |us1|
    requires forall k :: 0 <= k < |GreedyPrefix(us1, us2, score, threshold, n)| ==> GreedyPrefix(us1, us2, score, threshold, n)[k].i != i
    ensures GreedyPrefix(us1, us2, score, threshold, i + 1) == GreedyPrefix(us1, us2, score, threshold, i)
    ensures forall j :: 0 <= j < |us2| ==>
      !Eligible(us1[i], us2, UsedOf(GreedyPrefix(us1, us2, score, threshold, i)), score, threshold, j)
    ensures forall j :: 0 <= j < |us2| && score(us1[i], us2[j]) >= threshold && score(us1[i], us2[j]) > 0.0 ==>
      j in UsedOf(GreedyPrefix(us1, us2, score, threshold, n))
  {
    var before := GreedyPrefix(us1, us2, score, threshold, i);
    var after := GreedyPrefix(us1, us2, score, threshold, i + 1);
    var pairs := GreedyPrefix(us1, us2, score, threshold, n);
    GreedyPrefixGrows(us1, us2, score, threshold, i + 1, n);
    GreedyPrefixGrows(us1, us2, score, threshold, i, n);
    ScanFindsFirstBest(us1[i], us2, UsedOf(before), score, threshold, |us2|);
    GreedyVisitedUnitIsMatched(us1, us2, score, threshold, n, i);
    forall j | 0 <= j < |us2| && score(us1[i], us2[j]) >= threshold && score(us1[i], us2[j]) > 0.0
      ensures j in UsedOf(pairs)
    {
      assert !Eligible(us1[i], us2, UsedOf(before), score, threshold, j);
      var k :| 0 <= k < |before| && before[k].j == j;
      assert pairs[k] == before[k];
    }
  }

  /** Raising the threshold never makes a unit of A take a unit of B that
      the lower threshold left free: the units of B used at the higher
      threshold are among those used at the lower one, after every unit of A. */
  lemma {:induction false} HigherThresholdUsesSubset<U>(us1: seq<U>, us2: seq<U>, score: (U, U) -> Ratio, low: real, high: real, n: nat)
    requires low <= high && n <= |us1|
    ensures UsedOf(GreedyPrefix(us1, us2, score, high, n)) <= UsedOf(GreedyPrefix(us1, us2, score, low, n))
  {
    if n > 0 {
      HigherThresholdUsesSubset(us1, us2, score, low, high, n - 1);
      var p1 := GreedyPrefix(us1, us2, score, low, n - 1);
      var p2 := GreedyPrefix(us1, us2, score, high, n - 1);
      var a := us1[n - 1];
      var b1 := Scan(a, us2, UsedOf(p1), score, low, |us2|);
      var b2 := Scan(a, us2, UsedOf(p2), score, high, |us2|);
      ScanFindsFirstBest(a, us2, UsedOf(p1), score, low, |us2|);
      ScanFindsFirstBest(a, us2, UsedOf(p2), score, high, |us2|);
      if b1.index.Some? {
        UsedOfAppend(p1, Match(n - 1, b1.index.value, b1.score));
      }
      if b2.index.Some? {
        UsedOfAppend(p2, Match(n - 1, b2.index.value, b2.score));
        var j2 := b2.index.value;
        if j2 !in UsedOf(p1) {
          assert Eligible(a, us2, UsedOf(p1), score, low, j2);
          var j1 := b1.index.value;
          assert j1 !in UsedOf(p2);
          assert score(a, us2[j2]) <= b1.score;
          assert score(a, us2[j1]) <= b2.score;
        }
      }
    }
  }

  /** Matched pairs use distinct units of B, so there are as many pairs as
      used units. */
  lemma {:induction false} UsedOfSize(pairs: seq<Match>)
    requires InjectiveB(pairs)
    ensures |UsedOf(pairs)| == |pairs|
  {
    if pairs != [] {
      var init := pairs[..|pairs| - 1];
      var last := pairs[|pairs| - 1];
      assert pairs == init + [last];
      assert InjectiveB(init);
      UsedOfSize(init);
      UsedOfAppend(init, last);
      assert last.j !in UsedOf(init);
    }
  }

  lemma {:induction false} SubsetSize(small: set<nat>, large: set<nat>)
    requires small <= large
    ensures |small| <= |large|
  {
    assert large == small + (large - small);
  }

  /** Raising the threshold never increases the number of pairs. */
  lemma HigherThresholdFewerPairs<U>(us1: seq<U>, us2: seq<U>, score: (U, U) -> Ratio, low: real, high: real)
    requires low <= high
    ensures |GreedyPrefix(us1, us2, score, high, |us1|)| <= |GreedyPrefix(us1, us2, score, low, |us1|)|
  {
    HigherThresholdUsesSubset(us1, us2, score, low, high, |us1|);
    GreedyPrefixIsMatching(us1, us2, score, high, |us1|);
    GreedyPrefixIsMatching(us1, us2, score, low, |us1|);
    UsedOfSize(GreedyPrefix(us1, us2, score, high, |us1|));
    UsedOfSize(GreedyPrefix(us1, us2, score, low, |us1|));
    SubsetSize(UsedOf(GreedyPrefix(us1, us2, score, high, |us1|)), UsedOf(GreedyPrefix(us1, us2, score, low, |us1|)));
  }

  /** `find_similar_blocks`: for each unit of A in order, pick the best unused
      unit of B reaching the threshold, record the pair, mark the B unit used. */
  method FindSimilarBlocks<U>(us1: seq<U>, us2: seq<U>, score: (U, U) -> Ratio, threshold: real) returns (pairs: seq<Match>)
    ensures pairs == GreedyPrefix(us1, us2, score, threshold, |us1|)
    ensures Sound(us1, us2, score, threshold, pairs) && AscendingA(pairs) && InjectiveB(pairs)
  {
    pairs := [];
    var used: set<nat> := {};
    var i := 0;
    while i < |us1|
      invariant 0 <= i <= |us1|
      invariant pairs == GreedyPrefix(us1, us2, score, threshold, i)
      invariant used == UsedOf(pairs)
    {
      var bestMatch: Option<nat> := None;
      var bestSimilarity: real := 0.0;
      var j := 0;
      while j < |us2|
        invariant 0 <= j <= |us2|
        invariant Best(bestMatch, bestSimilarity) == Scan(us1[i], us2, used, score, threshold, j)
      {
        if j !in used {
          var similarity := score(us1[i], us2[j]);
          if similarity >= threshold && similarity > bestSimilarity {
            bestSimilarity := similarity;
            bestMatch := Some(j);
          }
        }
        j := j + 1;
      }
      if bestMatch.Some? {
        UsedOfAppend(pairs, Match(i, bestMatch.value, bestSimilarity));
        pairs := pairs + [Match(i, bestMatch.value, bestSimilarity)];
        used := used + {bestMatch.value};
      }
      i := i + 1;
    }
    GreedyPrefixIsMatching(us1, us2, score, threshold, |us1|);
  }
}
