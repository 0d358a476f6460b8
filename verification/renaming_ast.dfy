/** Syntax-tree mode with identifier renaming, the engine functions of AST.py:
    statements are compared after `normalize_variable_names`, rendered back to
    source by `node_to_string` (the abstract `toSource`). */
module RenamingAst {
  import opened Base
  import opened Syntax
  import opened Highlight
  import N = Normalizer
  import Greedy
  import Aggregate

  /** The statement that `normalize_variable_names` returns. */
  function NormalizeStmt(s: Stmt): Stmt
  {
    s.(tokens := N.Normalize(s.tokens))
  }

  /** `ast_similarity`: each node is normalised by its own fresh visitor,
      rendered, and the two texts are scored. The texts compared are fixed
      points of normalisation, so scoring statements that a previous call
      already normalised gives the same score. */
  function AstSimilarity(node1: Stmt, node2: Stmt, toSource: Stmt -> string, sim: (string, string) -> Ratio): (r: Ratio)
    ensures r == sim(toSource(NormalizeStmt(NormalizeStmt(node1))), toSource(NormalizeStmt(NormalizeStmt(node2))))
  {
    N.NormalizeIsIdempotent(node1.tokens);
    N.NormalizeIsIdempotent(node2.tokens);
    sim(toSource(NormalizeStmt(node1)), toSource(NormalizeStmt(node2)))
  }

  /** `ast_similarity` as the score of the greedy matcher. */
  function AstScore(toSource: Stmt -> string, sim: (string, string) -> Ratio): (Stmt, Stmt) -> Ratio
  {
    (a: Stmt, b: Stmt) => AstSimilarity(a, b, toSource, sim)
  }

  /** A statement with its identifiers consistently renamed. */
  function RenameStmt(rho: string -> string, s: Stmt): Stmt
  {
    s.(tokens := N.RenameIdentifiers(rho, s.tokens))
  }

  /** Since every call normalises each node with fresh state, renaming the
      identifiers of either statement, each by its own injective renaming,
      never changes their score. */
  lemma AstSimilarityIgnoresRenaming(node1: Stmt, node2: Stmt, rho1: string -> string, rho2: string -> string,
                                     toSource: Stmt -> string, sim: (string, string) -> Ratio)
    requires N.Injective(rho1) && N.Injective(rho2)
    ensures AstSimilarity(RenameStmt(rho1, node1), RenameStmt(rho2, node2), toSource, sim)
         == AstSimilarity(node1, node2, toSource, sim)
  {
    N.RenamingInvariance(rho1, node1.tokens);
    N.RenamingInvariance(rho2, node2.tokens);
    assert NormalizeStmt(RenameStmt(rho1, node1)) == NormalizeStmt(node1);
    assert NormalizeStmt(RenameStmt(rho2, node2)) == NormalizeStmt(node2);
  }

  /** A statement and a renamed copy of it (`x = 1` against `a = 1`) are
      scored as two identical texts. */
  lemma RenamedCopyScoresAsIdentical(node: Stmt, rho: string -> string, toSource: Stmt -> string, sim: (string, string) -> Ratio)
    requires N.Injective(rho)
    ensures AstSimilarity(node, RenameStmt(rho, node), toSource, sim)
         == sim(toSource(NormalizeStmt(node)), toSource(NormalizeStmt(node)))
  {
    N.RenamingInvariance(rho, node.tokens);
    assert NormalizeStmt(RenameStmt(rho, node)) == NormalizeStmt(node);
  }

  /** AST.py rewrites statement trees in place, and a nested statement shares
      its leaves with the statement enclosing it. For `def f(a): b = a`
      (leaves: argument `a`, stored `b`, loaded `a`), normalising the `def`
      and then its nested assignment on its own leaves the `def` as
      `def f(var1): var1 = var2`, whose normalisation differs from the fresh
      one, `def f(var1): var2 = var1`. */
  lemma NestedRewriteChangesEnclosing()
    ensures var def := [Arg("a"), Name("b", Store), Name("a", Load)];
      var once := N.Normalize(def);
      var rewritten := once[..1] + N.Normalize(once[1..]);
      N.Normalize(rewritten) != N.Normalize(def)
  {
    var def := [Arg("a"), Name("b", Store), Name("a", Load)];
    var once := N.Normalize(def);
    var inner := once[1..];
    var rewritten := once[..1] + N.Normalize(inner);
    N.NormalizeIsConsistentRenaming(def);
    N.NormalizeNamesInOrder(def, 0);
    assert def[..0] == [];
    N.NormalizeIsConsistentRenaming(inner);
    N.NormalizeNamesInOrder(inner, 0);
    assert inner[..0] == [];
    // The nested rewrite gives the stored name the name the argument already has.
    assert N.IdOf(rewritten[0]) == N.IdOf(rewritten[1]);
    N.NormalizeIsConsistentRenaming(rewritten);
    assert N.IdOf(N.Normalize(rewritten)[0]) == N.IdOf(N.Normalize(rewritten)[1]);
    assert N.IdOf(N.Normalize(def)[0]) != N.IdOf(N.Normalize(def)[1]);
  }

  /** `find_similar_blocks` over the statements of both files. */
  method FindSimilarBlocks(blocks1: seq<Stmt>, blocks2: seq<Stmt>, toSource: Stmt -> string,
                           sim: (string, string) -> Ratio, threshold: real := 0.9)
    returns (pairs: seq<Match>)
    ensures pairs == Greedy.GreedyPrefix(blocks1, blocks2, AstScore(toSource, sim), threshold, |blocks1|)
    ensures Greedy.Sound(blocks1, blocks2, AstScore(toSource, sim), threshold, pairs)
    ensures Greedy.AscendingA(pairs) && Greedy.InjectiveB(pairs)
  {
    pairs := Greedy.FindSimilarBlocks(blocks1, blocks2, AstScore(toSource, sim), threshold);
  }

  /** Python's `str.isspace` for one character. */
  predicate IsSpace(c: char)
  {
    || c == ' ' || ('\t' <= c <= '\r') || ('\U{1C}' <= c <= '\U{1F}')
    || c == '\U{85}' || c == '\U{A0}' || c == '\U{1680}' || ('\U{2000}' <= c <= '\U{200A}')
    || c == '\U{2028}' || c == '\U{2029}' || c == '\U{202F}' || c == '\U{205F}' || c == '\U{3000}'
  }

  /** The leading part of `line.strip()`: the line without its leading whitespace. */
  function StripLeading(line: string): (r: string)
    ensures |r| <= |line| && r == line[|line| - |r|..]
    ensures forall k :: 0 <= k < |line| - |r| ==> IsSpace(line[k])
    ensures r == [] || !IsSpace(r[0])
  {
    if line == [] || !IsSpace(line[0]) then line else StripLeading(line[1..])
  }

  /** `line.strip().startswith("#")`: the first character that is not
      whitespace is `#`. */
  function IsCommentLine(line: string): (b: bool)
    ensures b <==> exists k :: 0 <= k < |line| && line[k] == '#' && forall m :: 0 <= m < k ==> IsSpace(line[m])
  {
    var t := StripLeading(line);
    var k := |line| - |t|;
    assert |t| > 0 ==> line[k] == t[0];
    |t| > 0 && t[0] == '#'
  }

  /** `highlight_code`: wraps the lines `lineno - 1 .. end_lineno - 1` of every
      matched statement in both files, except comment lines; all other lines
      are unchanged and the line counts are kept. IndexError when a pair
      names a missing statement or a statement runs past the lines. */
  method HighlightCode(lines1: seq<string>, lines2: seq<string>, similarBlocks: seq<Match>,
                       blocks1: seq<Stmt>, blocks2: seq<Stmt>, wrap: string -> string)
    returns (r: Result<(seq<string>, seq<string>)>)
    ensures r.Ok? <==>
      && IndicesValid(similarBlocks, blocks1, blocks2)
      && Fits(SpansA(similarBlocks, blocks1), |lines1|) && Fits(SpansB(similarBlocks, blocks2), |lines2|)
    ensures r.Err? ==> r.error == IndexError
    ensures r.Ok? ==>
      && |r.value.0| == |lines1| && |r.value.1| == |lines2|
      && (forall i :: 0 <= i < |lines1| ==>
            r.value.0[i] == if Covers(SpansA(similarBlocks, blocks1), i) && !IsCommentLine(lines1[i]) then wrap(lines1[i]) else lines1[i])
      && (forall i :: 0 <= i < |lines2| ==>
            r.value.1[i] == if Covers(SpansB(similarBlocks, blocks2), i) && !IsCommentLine(lines2[i]) then wrap(lines2[i]) else lines2[i])
  {
    if !IndicesValid(similarBlocks, blocks1, blocks2) {
      return Err(IndexError);
    }
    var highlighted1 := MarkLines(lines1, SpansA(similarBlocks, blocks1), IsCommentLine, wrap);
    var highlighted2 := MarkLines(lines2, SpansB(similarBlocks, blocks2), IsCommentLine, wrap);
    if highlighted1.Err? || highlighted2.Err? {
      return Err(IndexError);
    }
    r := Ok((highlighted1.value, highlighted2.value));
  }

  /** `calculate_overall_similarity` with `ast_similarity`; ZeroDivisionError
      when the first file has no statements. */
  method CalculateOverallSimilarity(blocks1: seq<Stmt>, blocks2: seq<Stmt>, toSource: Stmt -> string,
                                    sim: (string, string) -> Ratio)
    returns (r: Result<real>)
    ensures r.Err? <==> |blocks1| == 0
    ensures r.Err? ==> r.error == ZeroDivisionError
    ensures r.Ok? ==> r.value == Aggregate.Overall(blocks1, blocks2, AstScore(toSource, sim)) && 0.0 <= r.value <= 1.0
    ensures r.Ok? && blocks2 == [] ==> r.value == 0.0
  {
    r := Aggregate.CalculateOverallSimilarity(blocks1, blocks2, AstScore(toSource, sim));
    if r.Ok? && blocks2 == [] {
      Aggregate.OverallAgainstNothingIsZero(blocks1, AstScore(toSource, sim));
    }
  }
}
