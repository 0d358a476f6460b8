/** The multiset-feature variant, Algorithm/ASTtestCode.py: whole-file
    similarity as the mean of three multiset Jaccard similarities over node
    features, an all-pairs matcher over dumped nodes, and a highlighter over
    inclusive line ranges. */
module FeatureAst {
  import opened Base

  /** What `node_features` extracts from one node: its type name and the
      (name, value) pairs of its scalar attributes and fields, in order.
      The reflection that produces them is not part of this model. */
  datatype NodeFeatures<V> = NodeFeatures(kind: string, attributes: seq<(string, V)>, fields: seq<(string, V)>)

  /** `counter1 | counter2`: the larger multiplicity of every element. */
  function CounterUnion<T(!new)>(c1: multiset<T>, c2: multiset<T>): (u: multiset<T>)
    ensures forall x :: u[x] == if c1[x] >= c2[x] then c1[x] else c2[x]
  {
    c1 + (c2 - c1)
  }

  /** A sub-multiset of the same size is the whole multiset. */
  lemma {:induction false} SubMultisetSize<T(!new)>(a: multiset<T>, b: multiset<T>)
    requires a <= b
    ensures |a| <= |b|
    ensures |a| == |b| ==> a == b
  {
    var d := b - a;
    assert b == a + d by {
      forall x
        ensures b[x] == (a + d)[x]
      {
        assert a[x] <= b[x];
      }
    }
    assert |b| == |a| + |d|;
    if |a| == |b| {
      assert d == multiset{};
    }
  }

  /** The intersection never outgrows the union, and fills it exactly when
      the two counters are equal. */
  lemma IntersectionWithinUnion<T(!new)>(c1: multiset<T>, c2: multiset<T>)
    ensures |c1 * c2| <= |CounterUnion(c1, c2)|
    ensures |c1 * c2| == |CounterUnion(c1, c2)| <==> c1 == c2
    ensures CounterUnion(c1, c2) == multiset{} <==> c1 == multiset{} && c2 == multiset{}
  {
    SubMultisetSize(c1 * c2, CounterUnion(c1, c2));
    if c1 == c2 {
      assert c1 * c2 == c1;
      assert CounterUnion(c1, c2) == c1;
    }
    if |c1 * c2| == |CounterUnion(c1, c2)| {
      assert c1 * c2 == CounterUnion(c1, c2);
      forall x
        ensures c1[x] == c2[x]
      {
        assert (c1 * c2)[x] == CounterUnion(c1, c2)[x];
      }
    }
    if CounterUnion(c1, c2) == multiset{} {
      forall x
        ensures c1[x] == 0 && c2[x] == 0
      {
        assert CounterUnion(c1, c2)[x] == 0;
      }
    }
  }

  /** A count over a positive total is a ratio in [0, 1] that is 0 only for
      a zero count and 1 only for the full total. */
  lemma {:induction false} RatioInUnitInterval(count: nat, total: nat)
    requires 0 < total && count <= total
    ensures 0.0 <= count as real / total as real <= 1.0
    ensures count as real / total as real == 0.0 <==> count == 0
    ensures count as real / total as real == 1.0 <==> count == total
  {
    var r := count as real / total as real;
    assert r * total as real == count as real;
  }

  /** `calculate_counter_similarity`: `|c1 & c2| / |c1 | c2|` with min and
      max multiplicities, and 0 when both counters are empty. */
  function CounterSimilarity<T(!new)>(c1: multiset<T>, c2: multiset<T>): (r: real)
    ensures 0.0 <= r <= 1.0
    ensures r == 0.0 <==> c1 * c2 == multiset{}
    ensures r == 1.0 <==> c1 == c2 && c1 != multiset{}
  {
    IntersectionWithinUnion(c1, c2);
    var intersection := |c1 * c2|;
    var union := |CounterUnion(c1, c2)|;
    if union > 0 then
      RatioInUnitInterval(intersection, union);
      intersection as real / union as real
    else
      0.0
  }

  /** The counter similarity does not depend on the order of its arguments. */
  lemma CounterSimilaritySymmetric<T(!new)>(c1: multiset<T>, c2: multiset<T>)
    ensures CounterSimilarity(c1, c2) == CounterSimilarity(c2, c1)
  {
    assert c1 * c2 == c2 * c1;
    assert CounterUnion(c1, c2) == CounterUnion(c2, c1);
  }

  /** `Counter(feature['type'] for ...)`. */
  function TypeCounter<V>(features: seq<NodeFeatures<V>>): (c: multiset<string>)
    ensures |c| == |features|
  {
    multiset(seq(|features|, k requires 0 <= k < |features| => features[k].kind))
  }

  /** `Counter((feature['type'], tuple(feature['attributes'])) for ...)`. */
  function AttrCounter<V(==,!new)>(features: seq<NodeFeatures<V>>): (c: multiset<(string, seq<(string, V)>)>)
    ensures |c| == |features|
  {
    multiset(seq(|features|, k requires 0 <= k < |features| => (features[k].kind, features[k].attributes)))
  }

  /** `Counter((feature['type'], tuple(feature['fields'])) for ...)`. */
  function FieldCounter<V(==,!new)>(features: seq<NodeFeatures<V>>): (c: multiset<(string, seq<(string, V)>)>)
    ensures |c| == |features|
  {
    multiset(seq(|features|, k requires 0 <= k < |features| => (features[k].kind, features[k].fields)))
  }

  /** `calculate_similarity`: the mean of the type, attribute and field
      counter similarities. It is 1 exactly when the first file has nodes
      and all three counters agree, and 0 when either file has none. */
  function CalculateSimilarity<V(==,!new)>(features1: seq<NodeFeatures<V>>, features2: seq<NodeFeatures<V>>): (r: real)
    ensures 0.0 <= r <= 1.0
    ensures r == 1.0 <==>
      && |features1| > 0
      && TypeCounter(features1) == TypeCounter(features2)
      && AttrCounter(features1) == AttrCounter(features2)
      && FieldCounter(features1) == FieldCounter(features2)
    ensures features1 == [] || features2 == [] ==> r == 0.0
  {
    var typeSimilarity := CounterSimilarity(TypeCounter(features1), TypeCounter(features2));
    var attrSimilarity := CounterSimilarity(AttrCounter(features1), AttrCounter(features2));
    var fieldSimilarity := CounterSimilarity(FieldCounter(features1), FieldCounter(features2));
    (typeSimilarity + attrSimilarity + fieldSimilarity) / 3.0
  }

  /** Two files with the same node features are fully similar, unless they
      have no nodes at all. */
  lemma CalculateSimilarityOfSelf<V(!new)>(features: seq<NodeFeatures<V>>)
    ensures CalculateSimilarity(features, features) == if features == [] then 0.0 else 1.0
  {
  }

  /** The whole-file similarity does not depend on the order of the files. */
  lemma CalculateSimilaritySymmetric<V(!new)>(features1: seq<NodeFeatures<V>>, features2: seq<NodeFeatures<V>>)
    ensures CalculateSimilarity(features1, features2) == CalculateSimilarity(features2, features1)
  {
    CounterSimilaritySymmetric(TypeCounter(features1), TypeCounter(features2));
    CounterSimilaritySymmetric(AttrCounter(features1), AttrCounter(features2));
    CounterSimilaritySymmetric(FieldCounter(features1), FieldCounter(features2));
  }

  /** The pair `(i, j)` comes strictly before the position `(i', j')` in
      row-major order. */
  predicate Before(m: Match, i: int, j: int)
  {
    m.i < i || (m.i == i && m.j < j)
  }

  /** The pair `(i, j)` is among the matches. */
  predicate HasPair(similarBlocks: seq<Match>, i: nat, j: nat)
  {
    exists k :: 0 <= k < |similarBlocks| && similarBlocks[k].i == i && similarBlocks[k].j == j
  }

  lemma HasPairAppend(similarBlocks: seq<Match>, m: Match, i: nat, j: nat)
    ensures HasPair(similarBlocks + [m], i, j) <==> HasPair(similarBlocks, i, j) || (m.i == i && m.j == j)
  {
    var extended := similarBlocks + [m];
    if HasPair(similarBlocks, i, j) {
      var k :| 0 <= k < |similarBlocks| && similarBlocks[k].i == i && similarBlocks[k].j == j;
      assert extended[k] == similarBlocks[k];
    }
    if HasPair(extended, i, j) {
      var k :| 0 <= k < |extended| && extended[k].i == i && extended[k].j == j;
      if k < |similarBlocks| {
        assert extended[k] == similarBlocks[k];
      }
    }
    if m.i == i && m.j == j {
      assert extended[|similarBlocks|] == m;
    }
  }

  /** `find_similar_blocks` of the feature variant: every pair of nodes, in
      row-major order, whose dumped texts score at least the threshold. A
      node of file B may appear in many pairs. */
  method FindSimilarBlocks<N>(nodes1: seq<N>, nodes2: seq<N>, dump: N -> string,
                              sim: (string, string) -> Ratio, threshold: real := 0.9)
    returns (similarBlocks: seq<Match>)
    ensures forall k :: 0 <= k < |similarBlocks| ==>
      && similarBlocks[k].i < |nodes1| && similarBlocks[k].j < |nodes2|
      && similarBlocks[k].score == sim(dump(nodes1[similarBlocks[k].i]), dump(nodes2[similarBlocks[k].j]))
      && similarBlocks[k].score >= threshold
    ensures forall p, q :: 0 <= p < q < |similarBlocks| ==> Before(similarBlocks[p], similarBlocks[q].i, similarBlocks[q].j)
    ensures forall p, q :: 0 <= p < q < |similarBlocks| ==> (similarBlocks[p].i, similarBlocks[p].j) != (similarBlocks[q].i, similarBlocks[q].j)
    ensures forall i, j :: 0 <= i < |nodes1| && 0 <= j < |nodes2| && sim(dump(nodes1[i]), dump(nodes2[j])) >= threshold ==>
      HasPair(similarBlocks, i, j)
  {
    var blocks1 := seq(|nodes1|, k requires 0 <= k < |nodes1| => dump(nodes1[k]));
    var blocks2 := seq(|nodes2|, k requires 0 <= k < |nodes2| => dump(nodes2[k]));
    similarBlocks := [];
    var usedPairs: set<(nat, nat)> := {};
    var i := 0;
    while i < |blocks1|
      invariant 0 <= i <= |blocks1|
      invariant forall p :: p in usedPairs ==> p.0 < i
      invariant forall k :: 0 <= k < |similarBlocks| ==>
        && similarBlocks[k].i < i && similarBlocks[k].j < |nodes2|
        && similarBlocks[k].score == sim(dump(nodes1[similarBlocks[k].i]), dump(nodes2[similarBlocks[k].j]))
        && similarBlocks[k].score >= threshold
      invariant forall p, q :: 0 <= p < q < |similarBlocks| ==> Before(similarBlocks[p], similarBlocks[q].i, similarBlocks[q].j)
      invariant forall i', j' :: 0 <= i' < i && 0 <= j' < |nodes2| && sim(dump(nodes1[i']), dump(nodes2[j'])) >= threshold ==>
        HasPair(similarBlocks, i', j')
    {
      var j := 0;
      while j < |blocks2|
        invariant 0 <= j <= |blocks2|
        invariant forall p :: p in usedPairs ==> p.0 < i || (p.0 == i && p.1 < j)
        invariant forall k :: 0 <= k < |similarBlocks| ==>
          && Before(similarBlocks[k], i, j) && similarBlocks[k].j < |nodes2|
          && similarBlocks[k].score == sim(dump(nodes1[similarBlocks[k].i]), dump(nodes2[similarBlocks[k].j]))
          && similarBlocks[k].score >= threshold
        invariant forall p, q :: 0 <= p < q < |similarBlocks| ==> Before(similarBlocks[p], similarBlocks[q].i, similarBlocks[q].j)
        invariant forall i', j' :: 0 <= j' < |nodes2| && (0 <= i' < i || (i' == i && j' < j)) && sim(dump(nodes1[i']), dump(nodes2[j'])) >= threshold ==>
          HasPair(similarBlocks, i', j')
      {
        var similarity := sim(blocks1[i], blocks2[j]);
        if similarity >= threshold && (i, j) !in usedPairs {
          forall i': nat, j': nat
            ensures HasPair(similarBlocks + [Match(i, j, similarity)], i', j') <==> HasPair(similarBlocks, i', j') || (i' == i && j' == j)
          {
            HasPairAppend(similarBlocks, Match(i, j, similarity), i', j');
          }
          similarBlocks := similarBlocks + [Match(i, j, similarity)];
          usedPairs := usedPairs + {(i, j)};
        }
        j := j + 1;
      }
      i := i + 1;
    }
  }

  /** The list index `i` exists in a list of `n` items under Python's
      indexing, where `-n <= i < 0` counts from the end. */
  predicate IndexExists(i: int, n: nat)
  {
    -(n as int) <= i < n
  }

  /** Every index of the inclusive range `start..end` exists. */
  predicate RangeFits(range: (int, int), n: nat)
  {
    range.1 < range.0 || (IndexExists(range.0, n) && IndexExists(range.1, n))
  }

  /** Line `p` of `n` is reached by some inclusive range, directly or through
      a negative index. */
  predicate Marked(ranges: seq<(int, int)>, n: nat, p: nat)
  {
    exists k :: 0 <= k < |ranges| && (ranges[k].0 <= p <= ranges[k].1 || ranges[k].0 <= p - n <= ranges[k].1)
  }

  lemma MarkedExtend(ranges: seq<(int, int)>, k: nat, n: nat, p: nat)
    requires k < |ranges|
    ensures Marked(ranges[..k + 1], n, p) <==>
      Marked(ranges[..k], n, p) || ranges[k].0 <= p <= ranges[k].1 || ranges[k].0 <= p - n <= ranges[k].1
  {
    if Marked(ranges[..k + 1], n, p) {
      var q :| 0 <= q < k + 1 && (ranges[..k + 1][q].0 <= p <= ranges[..k + 1][q].1 || ranges[..k + 1][q].0 <= p - n <= ranges[..k + 1][q].1);
      if q < k {
        assert ranges[..k][q] == ranges[q];
      }
    }
    if Marked(ranges[..k], n, p) {
      var q :| 0 <= q < k && (ranges[..k][q].0 <= p <= ranges[..k][q].1 || ranges[..k][q].0 <= p - n <= ranges[..k][q].1);
      assert ranges[..k + 1][q] == ranges[q];
    }
    if ranges[k].0 <= p <= ranges[k].1 || ranges[k].0 <= p - n <= ranges[k].1 {
      assert ranges[..k + 1][k] == ranges[k];
    }
  }

  /** `highlight_code` of the feature variant: every line inside one of the
      inclusive ranges is wrapped, every other line is kept and the line
      count is preserved. IndexError when a non-empty range reaches past the
      lines. */
  method HighlightCode(lines: seq<string>, similarBlocks: seq<(int, int)>, wrap: string -> string)
    returns (r: Result<seq<string>>)
    ensures r.Ok? <==> forall k :: 0 <= k < |similarBlocks| ==> RangeFits(similarBlocks[k], |lines|)
    ensures r.Err? ==> r.error == IndexError
    ensures r.Ok? ==> |r.value| == |lines| && forall p :: 0 <= p < |lines| ==>
      r.value[p] == if Marked(similarBlocks, |lines|, p) then wrap(lines[p]) else lines[p]
  {
    var n := |lines|;
    var highlightedLines: seq<string> := [];
    var i := 0;
    while i < n
      invariant 0 <= i <= n && highlightedLines == lines[..i]
    {
      highlightedLines := highlightedLines + [lines[i]];
      i := i + 1;
    }
    assert lines[..n] == lines;
    var k := 0;
    while k < |similarBlocks|
      invariant 0 <= k <= |similarBlocks|
      invariant forall q :: 0 <= q < k ==> RangeFits(similarBlocks[q], n)
      invariant |highlightedLines| == n
      invariant forall p :: 0 <= p < n ==>
        highlightedLines[p] == if Marked(similarBlocks[..k], n, p) then wrap(lines[p]) else lines[p]
    {
      var start := similarBlocks[k].0;
      var end := similarBlocks[k].1;
      i := start;
      while i < end + 1
        invariant start <= i && (start <= end + 1 ==> i <= end + 1) && (start > end + 1 ==> i == start)
        invariant forall q :: start <= q < i ==> IndexExists(q, n)
        invariant |highlightedLines| == n
        invariant forall p :: 0 <= p < n ==>
          highlightedLines[p] == if Marked(similarBlocks[..k], n, p) || start <= p < i || start <= p - n < i
                                 then wrap(lines[p]) else lines[p]
      {
        if !IndexExists(i, n) {
          assert !RangeFits(similarBlocks[k], n);
          return Err(IndexError);
        }
        var index := if i < 0 then i + n else i;
        highlightedLines := highlightedLines[index := wrap(lines[index])];
        i := i + 1;
      }
      assert RangeFits(similarBlocks[k], n) by {
        if start <= end {
          assert IndexExists(start, n) && IndexExists(end, n);
        }
      }
      forall p | 0 <= p < n
        ensures highlightedLines[p] == if Marked(similarBlocks[..k + 1], n, p) then wrap(lines[p]) else lines[p]
      {
        MarkedExtend(similarBlocks, k, n, p);
      }
      k := k + 1;
    }
    assert similarBlocks[..k] == similarBlocks;
    r := Ok(highlightedLines);
  }
}
