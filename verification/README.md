# CodeCheck similarity engine in Dafny

CodeCheck compares two Python files and reports how similar they are. It
also reports which parts of one file resemble which parts of the other. The
engine exists in four near-duplicate variants:

- **Line mode** (`MainWindow.py`). The units are the lines of each file.
  A greedy matcher pairs a line of file A with the best unused line of
  file B, but only when some unused line scores at least the threshold and
  more than 0; otherwise the line of A gets no pair. A region expander grows a matched pair forward while the joined
  windows stay similar. A highlighter wraps the lines of matched blocks. The
  overall score is the mean, over the lines of A, of each line's best score
  against B.
- **Syntax-tree mode with renaming** (`AST.py`). The units are the
  statements of each file. Before two statements are compared, the
  identifiers of `Name` nodes in Store or Load context and of `arg` nodes
  (parameters) are rewritten to `var1`, `var2`, … in order of first
  appearance. Nothing else is renamed: `Name` nodes in Del context, function
  and class names, `except … as` names, import aliases, `global` names and
  keyword-argument names keep their text. The highlighter skips comment
  lines.
- **Syntax-tree mode without renaming** (`ASTnew.py`). The same, with
  statements compared through their syntax-tree dump, and its highlighter
  does not skip comment lines.
- **Feature variant** (`Algorithm/ASTtestCode.py`). The whole-file score is
  the mean of three multiset Jaccard similarities over node features. An
  all-pairs matcher lists every node pair that reaches the threshold. A
  highlighter works on inclusive line ranges.

The per-pair text score `SequenceMatcher(None, a, b).ratio()` becomes an
abstract function `sim`. Its only assumption is the range `[0, 1]`, given by
the type `Ratio`; symmetry is not assumed. The statement serialisers
(`astor.to_source`, `ast.dump`) and the highlight markup are also abstract
function parameters.

Module layout:

- `Base`: ratios, `Option`, `Result`, and the Python exceptions the engine raises.
- `Greedy`: the matcher shared by the three greedy variants. It is an
  imperative method proved equal to a recursive specification
  (`GreedyPrefix`), and the lemmas state what that specification guarantees.
- `Aggregate`: the overall score.
- `Highlight`: marking lines in place.
- `LineMode`, `RenamingAst`, `PlainAst`, `FeatureAst`: one module per
  source file.
- `Syntax` and `Normalizer`: statements as token sequences, and the
  identifier normaliser of `AST.py`. The normaliser is a class with the
  source's map and counter fields, proved against the pure function
  `Normalize`.

A Python exception is an `Err` result: `IndexError` when a highlighted range
runs past the lines, and `ZeroDivisionError` when the overall score of an
empty file A is asked for.

## Model

| member | source | states |
|---|---|---|
| Greedy.FindSimilarBlocks | MainWindow.py:111-128 | the nested loops with `used_blocks2` compute exactly `GreedyPrefix` over all units of A; every pair scores `>= threshold` and `> 0` with its recorded score equal to the unit pair's score, A indices strictly increase, no B index repeats |
| Greedy.GreedyPrefixIsMatching | MainWindow.py:112-126 | after any number of A units: pairs are sound, ascending in A, injective in B, at most one per visited A unit |
| Greedy.ScanFindsFirstBest | MainWindow.py:115-123 | the inner scan returns no index iff no unused B unit reaches the threshold with a positive score; otherwise an eligible index whose score is the maximum over unused units reaching the threshold, every earlier such unit scoring strictly less (first index wins ties) |
| Greedy.GreedyPairWasChosen | MainWindow.py:114-126 | the k-th pair was produced when its A unit was visited, by the scan over the B units used by the earlier pairs |
| Greedy.GreedyPicksFirstBest | MainWindow.py:117-123 | the chosen B unit of a pair scores at least as high as every B unit unused at that point that reaches the threshold, and strictly higher than every earlier one |
| Greedy.GreedyVisitedUnitIsMatched | MainWindow.py:124-126 | when the scan for an A unit finds a candidate, that A unit appears in the result |
| Greedy.GreedyUnmatchedHadNoCandidate | MainWindow.py:124-126 | an A unit without a pair leaves the pairs and the used set unchanged; no unused B unit was eligible when it was visited; every B unit it could have taken is used by the final result |
| Greedy.GreedyPrefixGrows | MainWindow.py:114-126 | visiting more A units only appends pairs |
| Greedy.HigherThresholdUsesSubset | MainWindow.py:114-126 | after any number of A units, every B unit used under a higher threshold is also used under a lower one |
| Greedy.UsedOfSize | MainWindow.py:124-126 | with no B index repeated, the set of used B units has one element per pair |
| Greedy.HigherThresholdFewerPairs | MainWindow.py:111-128 | raising the threshold never yields more pairs |
| Aggregate.CalculateOverallSimilarity | MainWindow.py:159-170 | ZeroDivisionError iff A is empty; otherwise the mean over A of each unit's best score (starting from 0), which lies in [0, 1] |
| Aggregate.BestScoreIsMaximum | MainWindow.py:163-167 | the best score of a unit is in [0, 1], bounds every score against B, and is 0 or one of those scores |
| Aggregate.BestScoresAt | MainWindow.py:160-168 | the list of best scores has one entry per A unit, each that unit's best score against all of B |
| Aggregate.SumBounds | MainWindow.py:170 | a sum of values in [0, 1] lies between 0 and their count |
| Aggregate.OverallInUnitInterval | MainWindow.py:159-170 | the overall score lies in [0, 1] |
| Aggregate.OverallAgainstNothingIsZero | ASTnew.py:61-72 | against an empty file B every best score is 0, so the overall score is 0 |
| Aggregate.OverallOfSelfIsOne | MainWindow.py:159-170 | a file compared with itself scores 1 when every unit scores 1 against itself |
| Highlight.MarkLines | MainWindow.py:148-155 | IndexError iff some non-empty range runs past the lines; otherwise the copy keeps the line count, each covered and not skipped line is wrapped once from the original text, and every other line is unchanged |
| LineMode.SplitLines | MainWindow.py:135-136 | the inverse of the `"\n".join` at these lines, used by `SplitJoinLines` (the source itself never splits here): `str.split("\n")`, which gives at least one piece |
| LineMode.SplitAppend | MainWindow.py:135-136 | a step of the `SplitJoinLines` proof about the inverse of the join: the pieces of a concatenation are the pieces of both parts, the last piece of the first glued to the first piece of the second |
| LineMode.SplitWithoutNewline | MainWindow.py:135-136 | a step of the `SplitJoinLines` proof about the inverse of the join: text without a newline is a single piece |
| LineMode.SplitJoinLines | MainWindow.py:135-136 | `JoinLines` (`"\n".join`) of one or more lines without newlines splits back into exactly those lines, so a joined window keeps every line of the block |
| LineMode.FindSimilarBlocks | MainWindow.py:107-128 | the greedy matcher over lines, with its soundness, ordering and B-injectivity |
| LineMode.TryExpandBlock | MainWindow.py:130-145 | two equal lengths `L >= 1`; both windows fit when `L > 1`; every joined window of `k` lines, `2 <= k <= L`, scored at least the threshold; growth stopped because a file ran out or the window of `L + 1` lines scored below the threshold |
| LineMode.HighlightCode | MainWindow.py:147-157 | IndexError iff some block runs past its file; otherwise exactly the lines `start .. start + length - 1` of some block are wrapped in each file and the line counts are kept |
| LineMode.CalculateOverallSimilarity | MainWindow.py:159-170 | the overall score over lines, ZeroDivisionError on an empty file A |
| Normalizer.Digits | AST.py:21 | the decimal text of a counter has at least one digit, and at least two from 10 on |
| Normalizer.DigitsInjective | AST.py:21 | distinct counters print differently |
| Normalizer.CanonicalNameInjective | AST.py:21 | `var{a}` and `var{b}` are equal only when `a == b` |
| Normalizer.NextName | AST.py:18-22 | after `get_new_name` the map binds the original name to the returned name |
| Normalizer.NextNameKeepsValid | AST.py:18-22 | `get_new_name` keeps `counter == len(variable_map)`, values of the form `var{k}` with `1 <= k <= counter` and pairwise distinct; existing bindings stay, and the keys grow by the original name only |
| Normalizer.NewNameIsFresh | AST.py:19-21 | the next name `var{counter + 1}` is not yet a value of the map |
| Normalizer.NextNameIsStable | AST.py:18-22 | asking again for the same original name returns the same name and leaves the state unchanged |
| Normalizer.VisitTokenKeepsValid | AST.py:24-32 | visiting one token keeps the map invariant |
| Normalizer.VisitTokenGrows | AST.py:24-32 | visiting one token keeps existing bindings, adds the token's identifier only when it is a Store/Load name or an argument, and the token becomes its identifier's binding |
| Normalizer.NormalizeFromKeepsValid | AST.py:34 | a whole visit keeps the map invariant |
| Normalizer.NormalizeFromGrows | AST.py:34 | a whole visit keeps existing bindings and its keys are the old keys plus the renamed identifiers of the input |
| Normalizer.NormalizeFromRenamesThroughMap | AST.py:24-34 | every renamed token of the input is rewritten through the final map, every other token is kept |
| Normalizer.NormalizeFromAt | AST.py:34 | token `i` of the output is the visit of token `i` in the state left by the tokens before it |
| Normalizer.NormalizeIsConsistentRenaming | AST.py:18-32 | the output has the input's length; tokens other than Store/Load names and arguments pass through unchanged; renamed tokens keep their kind and context; two renamed tokens get equal names iff their original names are equal |
| Normalizer.NormalizeNamesInOrder | AST.py:19-21 | the first occurrence of the k-th distinct renamed identifier becomes `var{k}` |
| Normalizer.MirrorsNextName | AST.py:18-22 | in a second visit whose map sends every name the first visit handed out to itself, asking for the name the first visit returned gives that name back, and the two states stay in step |
| Normalizer.MirrorsStep | AST.py:24-32 | visiting a normalised token from the mirrored state returns it unchanged |
| Normalizer.NormalizeFromMirrored | AST.py:34 | visiting the normalised output from the mirrored state returns it unchanged |
| Normalizer.NormalizeIsIdempotent | AST.py:9-34 | normalising an already normalised sequence returns it unchanged |
| Normalizer.NormalizeFromCorresponds | AST.py:34 | a visit of a renamed input from a state related by the renaming gives the same output and related final states |
| Normalizer.RenamingInvariance | AST.py:9-12 | two token sequences that differ by an injective renaming of their Store/Load names and arguments normalise to the same sequence |
| Normalizer.DelNameIsNotNormalised | AST.py:24-28 | a Name in Del context keeps its identifier, so the single statements `for x in y: del x` and `for z in y: del z` normalise differently |
| Normalizer.VariableNameNormalizer.constructor | AST.py:14-16 | a new visitor has an empty map and counter 0 |
| Normalizer.VariableNameNormalizer.GetNewName | AST.py:18-22 | a known name returns its binding and changes nothing; an unknown name increments the counter, binds the name to `var{counter}` and returns it; the invariant is kept |
| Normalizer.VariableNameNormalizer.VisitName | AST.py:24-28 | a Store or Load name is renamed through `get_new_name`; any other name is returned unchanged with the state unchanged |
| Normalizer.VariableNameNormalizer.VisitArg | AST.py:30-32 | an argument is renamed through `get_new_name` |
| Normalizer.VariableNameNormalizer.Visit | AST.py:34 | the visit of a token sequence returns `NormalizeFrom` of the state before it, and leaves its final state in the fields |
| Normalizer.NormalizeVariableNames | AST.py:9-34 | a fresh visitor returns `Normalize` of the tokens |
| RenamingAst.AstSimilarity | AST.py:42-45 | the texts scored are renderings of fixed points of normalisation: scoring the already normalised statements gives the same score |
| RenamingAst.NestedRewriteChangesEnclosing | AST.py:9-34 | for `def f(a): b = a`, normalising the `def`, then its nested assignment, then the `def` again does not give the `def`'s fresh normal form |
| RenamingAst.AstSimilarityIgnoresRenaming | AST.py:42-45 | each node is normalised with its own fresh state, so renaming either node, each by its own injective renaming, never changes the score |
| RenamingAst.RenamedCopyScoresAsIdentical | AST.py:42-45 | a statement and a renamed copy of it score as two identical texts |
| RenamingAst.FindSimilarBlocks | AST.py:47-71 | the greedy matcher over statements, scored by the similarity of their normalised renderings, with its soundness, ordering and B-injectivity |
| RenamingAst.StripLeading | AST.py:84 | the result is the line without its leading whitespace: a suffix of it, everything removed is whitespace, and it does not start with whitespace |
| RenamingAst.IsCommentLine | AST.py:84 | a line is a comment line iff its first character that is not whitespace is `#` |
| RenamingAst.HighlightCode | AST.py:73-91 | IndexError iff a pair names a missing statement or a statement's lines run past the file; otherwise exactly the lines `lineno - 1 .. end_lineno - 1` of matched statements are wrapped, except comment lines, and the line counts are kept |
| RenamingAst.CalculateOverallSimilarity | AST.py:93-104 | ZeroDivisionError iff there are no statements in A; otherwise the mean of best normalised scores, in [0, 1], and 0 against an empty B |
| PlainAst.FindSimilarBlocks | ASTnew.py:17-41 | the greedy matcher over statements scored by their dumps, with its soundness, ordering and B-injectivity |
| PlainAst.HighlightCode | ASTnew.py:43-59 | IndexError iff a pair names a missing statement or a statement's lines run past the file; otherwise exactly the lines of matched statements are wrapped, comments included, and the line counts are kept |
| PlainAst.CalculateOverallSimilarity | ASTnew.py:61-72 | ZeroDivisionError iff there are no statements in A; otherwise the mean of best scores, in [0, 1], and 0 against an empty B |
| FeatureAst.CounterUnion | Algorithm/ASTtestCode.py:57 | `counter1 \| counter2` has the larger of the two multiplicities of every element |
| FeatureAst.IntersectionWithinUnion | Algorithm/ASTtestCode.py:56-57 | the intersection is never larger than the union, equal in size exactly when the counters are equal, and the union is empty iff both are |
| FeatureAst.CounterSimilarity | Algorithm/ASTtestCode.py:55-59 | the result lies in [0, 1]; it is 0 iff the counters share nothing (including both empty); it is 1 iff the counters are equal and non-empty |
| FeatureAst.CounterSimilaritySymmetric | Algorithm/ASTtestCode.py:55-59 | the counter similarity does not depend on the order of its arguments |
| FeatureAst.TypeCounter | Algorithm/ASTtestCode.py:40-41 | one count per node |
| FeatureAst.AttrCounter | Algorithm/ASTtestCode.py:43-44 | one count per node |
| FeatureAst.FieldCounter | Algorithm/ASTtestCode.py:46-47 | one count per node |
| FeatureAst.CalculateSimilarity | Algorithm/ASTtestCode.py:36-53 | the mean of the three counter similarities lies in [0, 1]; it is 1 iff A has nodes and all three counters agree; it is 0 when either file has no nodes |
| FeatureAst.CalculateSimilarityOfSelf | Algorithm/ASTtestCode.py:36-53 | a file compared with itself scores 1, or 0 when it has no nodes |
| FeatureAst.CalculateSimilaritySymmetric | Algorithm/ASTtestCode.py:36-53 | the whole-file similarity does not depend on the order of the files |
| FeatureAst.FindSimilarBlocks | Algorithm/ASTtestCode.py:61-75 | exactly the node pairs whose dumps score at least the threshold, each with its score, in strictly increasing row-major order, so each pair at most once; a B node may appear in many pairs |
| FeatureAst.HighlightCode | Algorithm/ASTtestCode.py:83-93 | IndexError iff a non-empty inclusive range reaches outside the lines under Python indexing; otherwise the line count is kept, a line inside some range (directly or through a negative index) is wrapped, and every other line is unchanged |

## Left out

- The Qt windows and dialogs, and the file and JSON I/O. This includes the `main` functions, which read files and print results.
- `MainWindow.py:72` calls `highlight_code` with five arguments, but the function is defined with three at `MainWindow.py:147`. That call belongs to the window class. The model follows the definition.
- `content.splitlines()` and the final `"\n".join` / `"<br>".join`: the highlighters take and return lists of lines. Likewise `find_similar_blocks` of `MainWindow.py` splits both contents (lines 108-109) and returns the pairs together with both line lists (line 128); `LineMode.FindSimilarBlocks` takes the line lists and returns only the pairs.
- The markup strings are the abstract `wrap`.
- `ast.parse`, `ast.walk` and the `isinstance(node, ast.stmt)` filter: the statements (or nodes) of each file are given as a sequence in walk order.
- `SequenceMatcher.ratio`, `astor.to_source`, `ast.dump` and `ast.get_source_segment` are not modelled; the first three become abstract function parameters.
- Statements are reduced to a line range and the sequence of their leaf tokens in traversal order, which is all the normaliser reads or writes. Tree structure, `ast.copy_location`, and an argument's annotation (its tokens appear as ordinary tokens) are not modelled.
- `node_features` works by reflection. Its output is taken as given: a type name plus attribute and field pairs over an abstract value type. Python's cross-type numeric equality (`1 == 1.0 == True`) is whatever that type's equality is.
- Floating point: scores and averages are exact reals.
- Normalizer.NormalizeVariableNames: returns new tokens. `ast.NodeTransformer` rewrites the caller's tree in place, and `ast.walk` lists nested statements that share their subtrees with the statements enclosing them. So later `ast_similarity` calls see statements that an earlier call already rewrote. Three cases follow. A statement normalised again with nothing inside it changed keeps its tokens (`NormalizeIsIdempotent`). A nested statement that was rewritten as part of its enclosing statement differs from its fresh form by an injective renaming, so it normalises as if fresh (`RenamingInvariance`). An enclosing statement whose nested statement was rewritten since does not return to its fresh form (`NestedRewriteChangesEnclosing`).
- RenamingAst.FindSimilarBlocks: every statement is normalised from its fresh tokens, so scores can differ from the in-place rewriting of AST.py. Take A = `x = 0` followed by `def f(a): b = a`, and B = `def f(a): b = a`. While A's `x = 0` is scored, B's `def` is normalised in place first and then B's nested `b = a`. So from A's next statement on, B's `def` reads `def f(var1): var1 = var2`. A's `def` is scored against it in its fresh form `def f(var1): var2 = var1`, where the model scores two equal texts (`NestedRewriteChangesEnclosing`).
- RenamingAst.CalculateOverallSimilarity: it scores fresh statements too. In AST.py it runs after `find_similar_blocks` on the same, already rewritten trees (lines 110-112). With the A and B above, A's nested `b = a` was scored after A's `def` and rewrote it, so A's `def` reads `def f(var1): var1 = var2` rather than its fresh form `def f(var1): var2 = var1`, and its scores can differ from the model's (`NestedRewriteChangesEnclosing`).
- Normalizer.RenamingInvariance: holds only for renamings of Store/Load names and arguments. A Name in Del context is never renamed, so renaming it changes the normalised form (`DelNameIsNotNormalised`).
- RenamingAst.IsSpace: the whitespace characters of Python's `str.isspace` are listed explicitly from the Unicode tables. Any later Unicode change is not tracked.
- FeatureAst.HighlightCode: the `(lineno - 1, end_lineno - 1)` ranges and the `hasattr` check that build its input belong to `main`, which is not part of this model.
