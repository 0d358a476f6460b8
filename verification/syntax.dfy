/** The syntax-tree statement units of AST.py and ASTnew.py, reduced to what
    the engine looks at: line numbers and the identifier tokens that the
    normaliser visits, in traversal order. */
module Syntax {
  import opened Base
  import opened Highlight

  /** A Python `lineno`: line numbers start at 1. */
  type LineNo = n: int | 1 <= n witness 1

  /** The context of an `ast.Name`. */
  datatype Ctx = Load | Store | Del

  /** A leaf met while traversing a statement: a `Name` node, an `arg` node,
      or any other leaf (keyword, operator, literal, attribute name, ...). */
  datatype Token = Name(id: string, ctx: Ctx) | Arg(arg: string) | Other(text: string)

  /** An `ast.stmt` node: inclusive 1-based line range and its leaves. */
  datatype Stmt = Stmt(lineno: LineNo, endLineno: nat, tokens: seq<Token>)

  /** `range(block.lineno - 1, block.end_lineno)`: the 0-based lines of a statement. */
  function StmtSpan(s: Stmt): Span
  {
    Span(s.lineno - 1, s.endLineno)
  }

  /** Every matched pair indexes existing statements of both files. */
  predicate IndicesValid(pairs: seq<Match>, blocks1: seq<Stmt>, blocks2: seq<Stmt>)
  {
    forall k :: 0 <= k < |pairs| ==> pairs[k].i < |blocks1| && pairs[k].j < |blocks2|
  }

  /** The line ranges of the first (A) statements of the pairs. */
  function SpansA(pairs: seq<Match>, blocks1: seq<Stmt>): seq<Span>
    requires forall k :: 0 <= k < |pairs| ==> pairs[k].i < |blocks1|
  {
    seq(|pairs|, k requires 0 <= k < |pairs| => StmtSpan(blocks1[pairs[k].i]))
  }

  /** The line ranges of the second (B) statements of the pairs. */
  function SpansB(pairs: seq<Match>, blocks2: seq<Stmt>): seq<Span>
    requires forall k :: 0 <= k < |pairs| ==> pairs[k].j < |blocks2|
  {
    seq(|pairs|, k requires 0 <= k < |pairs| => StmtSpan(blocks2[pairs[k].j]))
  }
}
