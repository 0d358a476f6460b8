/** Syntax-tree mode without renaming, the engine functions of ASTnew.py:
    statements are compared through `node_to_string` (`ast.dump`, the
    abstract `dump`) with no normalisation. */
module PlainAst {
  import opened Base
  import opened Syntax
  import opened Highlight
  import Greedy
  import Aggregate

  /** `ast_similarity` of ASTnew.py. */
  function AstSimilarity(node1: Stmt, node2: Stmt, dump: Stmt -> string, sim: (string, string) -> Ratio): Ratio
  {
    sim(dump(node1), dump(node2))
  }

  function AstScore(dump: Stmt -> string, sim: (string, string) -> Ratio): (Stmt, Stmt) -> Ratio
  {
    (a: Stmt, b: Stmt) => AstSimilarity(a, b, dump, sim)
  }

  /** `find_similar_blocks` over the statements of both files. */
  method FindSimilarBlocks(blocks1: seq<Stmt>, blocks2: seq<Stmt>, dump: Stmt -> string,
                           sim: (string, string) -> Ratio, threshold: real := 0.9)
    returns (pairs: seq<Match>)
    ensures pairs == Greedy.GreedyPrefix(blocks1, blocks2, AstScore(dump, sim), threshold, |blocks1|)
    ensures Greedy.Sound(blocks1, blocks2, AstScore(dump, sim), threshold, pairs)
    ensures Greedy.AscendingA(pairs) && Greedy.InjectiveB(pairs)
  {
    pairs := Greedy.FindSimilarBlocks(blocks1, blocks2, AstScore(dump, sim), threshold);
  }

  /** `highlight_code`: wraps exactly the lines `lineno - 1 .. end_lineno - 1`
      of the matched statements in both files; other lines are unchanged and
      the line counts are kept. IndexError when a pair names a missing
      statement or a statement runs past the lines. */
  method HighlightCode(lines1: seq<string>, lines2: seq<string>, similarBlocks: seq<Match>,
                       blocks1: seq<Stmt>, blocks2: seq<Stmt>, wrap: string -> string)
    returns (r: Result<(seq<string>, seq<string>)>)
    ensures r.Ok? <==>
      && IndicesValid(similarBlocks, blocks1, blocks2)
      && Fits(SpansA(similarBlocks, blocks1), |lines1|) && Fits(SpansB(similarBlocks, blocks2), |lines2|)
    ensures r.Err? ==> r.error == IndexError
    ensures r.Ok? ==>
      && |r.value.0| == |lines1| && |r.value.1| == |lines2|
      && (forall i :: 0 <= i < |lines1| ==>
            r.value.0[i] == if Covers(SpansA(similarBlocks, blocks1), i) then wrap(lines1[i]) else lines1[i])
      && (forall i :: 0 <= i < |lines2| ==>
            r.value.1[i] == if Covers(SpansB(similarBlocks, blocks2), i) then wrap(lines2[i]) else lines2[i])
  {
    if !IndicesValid(similarBlocks, blocks1, blocks2) {
      return Err(IndexError);
    }
    var highlighted1 := MarkLines(lines1, SpansA(similarBlocks, blocks1), NoSkip, wrap);
    var highlighted2 := MarkLines(lines2, SpansB(similarBlocks, blocks2), NoSkip, wrap);
    if highlighted1.Err? || highlighted2.Err? {
      return Err(IndexError);
    }
    r := Ok((highlighted1.value, highlighted2.value));
  }

  /** `calculate_overall_similarity`: the mean of per-statement best scores
      (each 0 when the second file has no statements); ZeroDivisionError when
      the first file has none. */
  method CalculateOverallSimilarity(blocks1: seq<Stmt>, blocks2: seq<Stmt>, dump: Stmt -> string,
                                    sim: (string, string) -> Ratio)
    returns (r: Result<real>)
    ensures r.Err? <==> |blocks1| == 0
    ensures r.Err? ==> r.error == ZeroDivisionError
    ensures r.Ok? ==> r.value == Aggregate.Overall(blocks1, blocks2, AstScore(dump, sim)) && 0.0 <= r.value <= 1.0
    ensures r.Ok? && blocks2 == [] ==> r.value == 0.0
  {
    r := Aggregate.CalculateOverallSimilarity(blocks1, blocks2, AstScore(dump, sim));
    if r.Ok? && blocks2 == [] {
      Aggregate.OverallAgainstNothingIsZero(blocks1, AstScore(dump, sim));
    }
  }
}
