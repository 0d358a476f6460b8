/** The line-marking loop of every `highlight_code`: copy the lines, then for
    each matched range overwrite the covered entries with the wrapped original
    line. An index past the end raises IndexError, and then nothing is returned. */
module Highlight {
  import opened Base

  /** The half-open line range `range(lo, hi)`. */
  datatype Span = Span(lo: nat, hi: nat)

  /** Line `i` lies in some span. */
  predicate Covers(spans: seq<Span>, i: nat)
  {
    exists k :: 0 <= k < |spans| && spans[k].lo <= i < spans[k].hi
  }

  /** Every non-empty span ends within `n` lines, so no index is out of range. */
  predicate Fits(spans: seq<Span>, n: nat)
  {
    forall k :: 0 <= k < |spans| ==> spans[k].hi <= spans[k].lo || spans[k].hi <= n
  }

  /** No line is exempt: every covered line is highlighted, comments
      included (line mode and the plain syntax-tree mode). */
  function NoSkip(line: string): bool
  {
    false
  }

  /** The rendering every variant expects of a line: wrapped when a span covers
      it and it is not skipped, unchanged otherwise. */
  predicate Rendered(lines: seq<string>, spans: seq<Span>, skip: string -> bool, wrap: string -> string, out: seq<string>)
  {
    && |out| == |lines|
    && forall i :: 0 <= i < |lines| ==>
         out[i] == if Covers(spans, i) && !skip(lines[i]) then wrap(lines[i]) else lines[i]
  }

  lemma CoversExtend(spans: seq<Span>, k: nat, i: nat)
    requires k < |spans|
    ensures Covers(spans[..k + 1], i) <==> Covers(spans[..k], i) || spans[k].lo <= i < spans[k].hi
  {
    if Covers(spans[..k + 1], i) && !(spans[k].lo <= i < spans[k].hi) {
      var m :| 0 <= m < k + 1 && spans[..k + 1][m].lo <= i < spans[..k + 1][m].hi;
      assert spans[..k][m] == spans[m];
    }
    if Covers(spans[..k], i) {
      var m :| 0 <= m < k && spans[..k][m].lo <= i < spans[..k][m].hi;
      assert spans[..k + 1][m] == spans[m];
    }
    if spans[k].lo <= i < spans[k].hi {
      assert spans[..k + 1][k] == spans[k];
    }
  }

  /** Marks the lines of `lines` covered by `spans`; a line is wrapped once
      however many spans cover it, since the wrap always reads the original. */
  method MarkLines(lines: seq<string>, spans: seq<Span>, skip: string -> bool, wrap: string -> string) returns (r: Result<seq<string>>)
    ensures r.Err? <==> !Fits(spans, |lines|)
    ensures r.Err? ==> r.error == IndexError
    ensures r.Ok? ==> Rendered(lines, spans, skip, wrap, r.value)
  {
    var highlighted := lines;
    var k := 0;
    while k < |spans|
      invariant 0 <= k <= |spans|
      invariant Fits(spans[..k], |lines|)
      invariant Rendered(lines, spans[..k], skip, wrap, highlighted)
    {
      var i := spans[k].lo;
      while i < spans[k].hi
        invariant spans[k].lo <= i
        invariant i == spans[k].lo || i <= |lines|
        invariant i == spans[k].lo || i <= spans[k].hi
        invariant |highlighted| == |lines|
        invariant forall m :: 0 <= m < |lines| ==>
          highlighted[m] == if (Covers(spans[..k], m) || spans[k].lo <= m < i) && !skip(lines[m]) then wrap(lines[m]) else lines[m]
      {
        if i >= |lines| {
          assert !Fits(spans, |lines|) by {
            assert !(spans[k].hi <= spans[k].lo || spans[k].hi <= |lines|);
          }
          return Err(IndexError);
        }
        if !skip(lines[i]) {
          highlighted := highlighted[i := wrap(lines[i])];
        }
        i := i + 1;
      }
      forall m | 0 <= m < |lines|
        ensures Covers(spans[..k + 1], m) <==> Covers(spans[..k], m) || spans[k].lo <= m < spans[k].hi
      {
        CoversExtend(spans, k, m);
      }
      assert spans[..k + 1][k] == spans[k];
      k := k + 1;
    }
    assert spans[..|spans|] == spans;
    r := Ok(highlighted);
  }
}
