/** Line mode, the engine functions of MainWindow.py: every line is a unit and
    lines are compared as raw text by `calculate_node_similarity`, the abstract
    `sim` here. */
module LineMode {
  import opened Base
  import Greedy
  import Aggregate
  import opened Highlight

  /** `"\n".join(lines)`. */
  function JoinLines(lines: seq<string>): string
  {
    if |lines| == 0 then ""
    else if |lines| == 1 then lines[0]
    else JoinLines(lines[..|lines| - 1]) + "\n" + lines[|lines| - 1]
  }

  /** `text.split("\n")`, the inverse of `JoinLines` on lines that hold no
      newline. Like Python's, it returns one empty piece for empty text. */
  function SplitLines(text: string): (r: seq<string>)
    ensures |r| >= 1
  {
    if |text| == 0 then [""]
    else
      var rest := SplitLines(text[1..]);
      if text[0] == '\n' then [""] + rest
      else [[text[0]] + rest[0]] + rest[1..]
  }

  /** The pieces of `x` then `y`, with the last of `x` glued to the first of `y`. */
  function Glue(x: seq<string>, y: seq<string>): (r: seq<string>)
    requires |x| >= 1 && |y| >= 1
    ensures |r| == |x| + |y| - 1
  {
    x[..|x| - 1] + [x[|x| - 1] + y[0]] + y[1..]
  }

  /** Adding a character to the front of the first piece commutes with gluing. */
  lemma GlueFront(c: char, x: seq<string>, y: seq<string>)
    requires |x| >= 1 && |y| >= 1
    ensures var g := Glue(x, y);
      [[c] + g[0]] + g[1..] == Glue([[c] + x[0]] + x[1..], y)
  {
    var g := Glue(x, y);
    var x' := [[c] + x[0]] + x[1..];
    if |x| == 1 {
      assert g == [x[0] + y[0]] + y[1..];
      assert [c] + (x[0] + y[0]) == ([c] + x[0]) + y[0];
    } else {
      assert g[0] == x[0] && g[1..] == x[1..|x| - 1] + [x[|x| - 1] + y[0]] + y[1..];
      assert x'[..|x'| - 1] == [[c] + x[0]] + x[1..|x| - 1];
    }
  }

  /** Splitting a concatenation glues the last piece of the first part to
      the first piece of the second. */
  lemma {:induction false} SplitAppend(a: string, b: string)
    ensures SplitLines(a + b) == Glue(SplitLines(a), SplitLines(b))
  {
    if |a| == 0 {
      var sb := SplitLines(b);
      assert a + b == b && "" + sb[0] == sb[0];
      assert Glue([""], sb) == [sb[0]] + sb[1..] == sb;
    } else {
      assert (a + b)[1..] == a[1..] + b;
      SplitAppend(a[1..], b);
      var st := SplitLines(a[1..]);
      if a[0] == '\n' {
        assert ([""] + st)[..|st|] == [""] + st[..|st| - 1];
      } else {
        GlueFront(a[0], st, SplitLines(b));
      }
    }
  }

  /** Text without a newline splits into itself. */
  lemma {:induction false} SplitWithoutNewline(text: string)
    requires forall k :: 0 <= k < |text| ==> text[k] != '\n'
    ensures SplitLines(text) == [text]
  {
    if |text| > 0 {
      SplitWithoutNewline(text[1..]);
      assert [text[0]] + text[1..] == text;
    }
  }

  /** Joining lines that hold no newline and splitting the result again gives
      the lines back, so the joined windows the expander scores keep every
      line of the block. */
  lemma {:induction false} SplitJoinLines(lines: seq<string>)
    requires |lines| >= 1
    requires forall i, k :: 0 <= i < |lines| && 0 <= k < |lines[i]| ==> lines[i][k] != '\n'
    ensures SplitLines(JoinLines(lines)) == lines
  {
    var last := lines[|lines| - 1];
    SplitWithoutNewline(last);
    if |lines| > 1 {
      var init := lines[..|lines| - 1];
      SplitJoinLines(init);
      var tail := "\n" + last;
      assert tail[1..] == last;
      assert SplitLines(tail) == ["", last];
      assert JoinLines(lines) == JoinLines(init) + tail;
      SplitAppend(JoinLines(init), tail);
      assert init[|init| - 1] + "" == init[|init| - 1];
      assert Glue(init, ["", last]) == init[..|init| - 1] + [init[|init| - 1]] + [last];
      assert init[..|init| - 1] + [init[|init| - 1]] == init;
    }
  }

  /** The `k` lines starting at `start`, joined as the expander compares them. */
  function Window(lines: seq<string>, start: nat, k: nat): string
    requires start + k <= |lines|
  {
    JoinLines(lines[start..start + k])
  }

  /** `find_similar_blocks` over the lines of both files. */
  method FindSimilarBlocks(lines1: seq<string>, lines2: seq<string>, sim: (string, string) -> Ratio, threshold: real := 0.9)
    returns (pairs: seq<Match>)
    ensures pairs == Greedy.GreedyPrefix(lines1, lines2, sim, threshold, |lines1|)
    ensures Greedy.Sound(lines1, lines2, sim, threshold, pairs)
    ensures Greedy.AscendingA(pairs) && Greedy.InjectiveB(pairs)
  {
    pairs := Greedy.FindSimilarBlocks(lines1, lines2, sim, threshold);
  }

  /** `try_expand_block`: grows a matched line pair forward, one line in each
      file at a time, while the joined blocks keep scoring at least the
      threshold. The result is the two (equal) block lengths. */
  method TryExpandBlock(lines1: seq<string>, lines2: seq<string>, block1Start: nat, block2Start: nat,
                        threshold: real, sim: (string, string) -> Ratio)
    returns (length1: nat, length2: nat)
    ensures length1 == length2 && length1 >= 1
    ensures length1 == 1 || (block1Start + length1 <= |lines1| && block2Start + length2 <= |lines2|)
    ensures forall k :: 2 <= k <= length1 ==>
      && block1Start + k <= |lines1| && block2Start + k <= |lines2|
      && sim(Window(lines1, block1Start, k), Window(lines2, block2Start, k)) >= threshold
    ensures block1Start + length1 < |lines1| && block2Start + length1 < |lines2| ==>
      sim(Window(lines1, block1Start, length1 + 1), Window(lines2, block2Start, length1 + 1)) < threshold
  {
    var block1End := block1Start + 1;
    var block2End := block2Start + 1;
    while block1End < |lines1| && block2End < |lines2|
      invariant block1End - block1Start == block2End - block2Start >= 1
      invariant block1End - block1Start == 1 || (block1End <= |lines1| && block2End <= |lines2|)
      invariant forall k :: 2 <= k <= block1End - block1Start ==>
        && block1Start + k <= |lines1| && block2Start + k <= |lines2|
        && sim(Window(lines1, block1Start, k), Window(lines2, block2Start, k)) >= threshold
      decreases |lines1| - block1End
    {
      var block1 := JoinLines(lines1[block1Start..block1End + 1]);
      var block2 := JoinLines(lines2[block2Start..block2End + 1]);
      var similarity := sim(block1, block2);
      if similarity >= threshold {
        block1End := block1End + 1;
        block2End := block2End + 1;
      } else {
        break;
      }
    }
    length1, length2 := block1End - block1Start, block2End - block2Start;
  }

  /** One highlighted region: `(block1_idx, block2_idx, length)`. */
  datatype Block = Block(start1: nat, start2: nat, length: nat)

  function Spans1(blocks: seq<Block>): seq<Span>
  {
    seq(|blocks|, k requires 0 <= k < |blocks| => Span(blocks[k].start1, blocks[k].start1 + blocks[k].length))
  }

  function Spans2(blocks: seq<Block>): seq<Span>
  {
    seq(|blocks|, k requires 0 <= k < |blocks| => Span(blocks[k].start2, blocks[k].start2 + blocks[k].length))
  }

  /** `highlight_code` as defined (three arguments): wraps exactly the lines
      that some block covers, leaves the others unchanged, keeps the line
      count; IndexError when a block runs past the end of either file. */
  method HighlightCode(similarBlocks: seq<Block>, lines1: seq<string>, lines2: seq<string>, wrap: string -> string)
    returns (r: Result<(seq<string>, seq<string>)>)
    ensures r.Ok? <==> Fits(Spans1(similarBlocks), |lines1|) && Fits(Spans2(similarBlocks), |lines2|)
    ensures r.Err? ==> r.error == IndexError
    ensures r.Ok? ==>
      && |r.value.0| == |lines1| && |r.value.1| == |lines2|
      && (forall i :: 0 <= i < |lines1| ==>
            r.value.0[i] == if Covers(Spans1(similarBlocks), i) then wrap(lines1[i]) else lines1[i])
      && (forall i :: 0 <= i < |lines2| ==>
            r.value.1[i] == if Covers(Spans2(similarBlocks), i) then wrap(lines2[i]) else lines2[i])
  {
    var highlighted1 := MarkLines(lines1, Spans1(similarBlocks), NoSkip, wrap);
    var highlighted2 := MarkLines(lines2, Spans2(similarBlocks), NoSkip, wrap);
    if highlighted1.Err? || highlighted2.Err? {
      return Err(IndexError);
    }
    r := Ok((highlighted1.value, highlighted2.value));
  }

  /** `calculate_overall_similarity` over lines; ZeroDivisionError on an empty first file. */
  method CalculateOverallSimilarity(lines1: seq<string>, lines2: seq<string>, sim: (string, string) -> Ratio)
    returns (r: Result<real>)
    ensures r.Err? <==> |lines1| == 0
    ensures r.Err? ==> r.error == ZeroDivisionError
    ensures r.Ok? ==> r.value == Aggregate.Overall(lines1, lines2, sim) && 0.0 <= r.value <= 1.0
  {
    r := Aggregate.CalculateOverallSimilarity(lines1, lines2, sim);
  }
}
