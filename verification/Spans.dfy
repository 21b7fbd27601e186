/**
 The lines a declaration spans. Only start lines are stored; where a declaration ends is recovered from
 the start of its next sibling, or from its parent's own end.
 */
module Spans {
  import opened Options
  import opened Skeleton

  /** The last line of the first sibling: the line before the next one starts, or the parent's end. */
  function SpanEnd(siblings: seq<Declaration>, parentEnd: Option<nat>): Option<nat>
    requires siblings != []
  {
    if |siblings| > 1 then Some(if siblings[1].line == 0 then 0 else siblings[1].line - 1) else parentEnd
  }

  predicate Within(line: nat, end: Option<nat>) {
    match end
    case Some(last) => line <= last
    case None => true
  }

  predicate FirstSpans(siblings: seq<Declaration>, line: nat, parentEnd: Option<nat>)
    requires siblings != []
  {
    siblings[0].line <= line && Within(line, SpanEnd(siblings, parentEnd))
  }

  /** The declarations whose spans hold the line, outermost first. */
  function EnclosingChain(siblings: seq<Declaration>, line: nat, parentEnd: Option<nat>): seq<Declaration>
    decreases siblings
  {
    if siblings == [] then []
    else if FirstSpans(siblings, line, parentEnd) then
      [siblings[0]] + EnclosingChain(siblings[0].children, line, SpanEnd(siblings, parentEnd))
    else EnclosingChain(siblings[1..], line, parentEnd)
  }

  datatype DeclarationSpan = DeclarationSpan(start: nat, end: Option<nat>)

  /** Of the declarations that begin on the line, the span of the one nested deepest. */
  function SpanAt(siblings: seq<Declaration>, line: nat, parentEnd: Option<nat>): Option<DeclarationSpan>
    decreases siblings
  {
    if siblings == [] then None
    else if FirstSpans(siblings, line, parentEnd) then
      var end := SpanEnd(siblings, parentEnd);
      var inner := SpanAt(siblings[0].children, line, end);
      if inner.Some? then inner
      else if siblings[0].line == line then Some(DeclarationSpan(line, end))
      else SpanAt(siblings[1..], line, parentEnd)
    else SpanAt(siblings[1..], line, parentEnd)
  }

  /** The innermost declaration of the chain that starts exactly on the line. */
  function LastStartingOn(chain: seq<Declaration>, line: nat): Option<Declaration> {
    if chain == [] then None
    else if chain[|chain| - 1].line == line then Some(chain[|chain| - 1])
    else LastStartingOn(chain[..|chain| - 1], line)
  }

  function DeclarationStartingAt(declarations: seq<Declaration>, line: nat): Option<Declaration> {
    LastStartingOn(EnclosingChain(declarations, line, None), line)
  }

  function DeclarationSpanAt(declarations: seq<Declaration>, line: nat): Option<DeclarationSpan> {
    SpanAt(declarations, line, None)
  }

  /** What the extractor guarantees: lines count from one, and siblings come in ascending order, at every level. */
  predicate Ascending(siblings: seq<Declaration>)
    decreases siblings
  {
    siblings == []
    || (siblings[0].line >= 1 && (|siblings| > 1 ==> siblings[0].line <= siblings[1].line)
        && Ascending(siblings[0].children) && Ascending(siblings[1..]))
  }

  lemma {:induction false} AscendingLines(siblings: seq<Declaration>, i: nat, j: nat)
    requires Ascending(siblings) && i <= j < |siblings|
    ensures 1 <= siblings[i].line <= siblings[j].line
  {
    if i > 0 {
      AscendingLines(siblings[1..], i - 1, j - 1);
    } else if j > 0 {
      AscendingLines(siblings[1..], 0, j - 1);
    }
  }

  // ----- spans of siblings

  /** The span of the sibling at `i`. */
  predicate Spans(siblings: seq<Declaration>, i: nat, line: nat, parentEnd: Option<nat>)
    requires i < |siblings|
  {
    FirstSpans(siblings[i..], line, parentEnd)
  }

  /** A sibling spans a line exactly when it is the last to start on or before it, within the parent's end. */
  lemma {:induction false} SpansFromItsStart(siblings: seq<Declaration>, i: nat, line: nat, parentEnd: Option<nat>)
    requires Ascending(siblings) && i < |siblings|
    ensures Spans(siblings, i, line, parentEnd)
       <==> siblings[i].line <= line && (if i + 1 < |siblings| then line < siblings[i + 1].line else Within(line, parentEnd))
  {
    if i + 1 < |siblings| {
      AscendingLines(siblings, i + 1, i + 1);
      assert siblings[i..][1] == siblings[i + 1];
    }
  }

  /** No line belongs to two siblings. */
  lemma {:induction false} SiblingSpansDisjoint(siblings: seq<Declaration>, i: nat, j: nat, line: nat,
                                                parentEnd: Option<nat>)
    requires Ascending(siblings) && i < |siblings| && j < |siblings|
    requires Spans(siblings, i, line, parentEnd) && Spans(siblings, j, line, parentEnd)
    ensures i == j
  {
    SpansFromItsStart(siblings, i, line, parentEnd);
    SpansFromItsStart(siblings, j, line, parentEnd);
    if i < j {
      AscendingLines(siblings, i + 1, j);
    } else if j < i {
      AscendingLines(siblings, j + 1, i);
    }
  }

  /** Every line from the first sibling on, up to the parent's end, belongs to one. */
  lemma {:induction false} SiblingSpansCover(siblings: seq<Declaration>, line: nat,
                                             parentEnd: Option<nat>) returns (i: nat)
    requires Ascending(siblings) && siblings != [] && siblings[0].line <= line && Within(line, parentEnd)
    ensures i < |siblings| && Spans(siblings, i, line, parentEnd)
  {
    i := 0;
    while i + 1 < |siblings| && siblings[i + 1].line <= line
      invariant i < |siblings| && siblings[i].line <= line
    {
      i := i + 1;
    }
    SpansFromItsStart(siblings, i, line, parentEnd);
  }

  lemma {:induction false} ChainFromSpan(siblings: seq<Declaration>, i: nat, line: nat, parentEnd: Option<nat>)
    requires i < |siblings| && Spans(siblings, i, line, parentEnd)
    requires forall k | 0 <= k < i :: !Spans(siblings, k, line, parentEnd)
    ensures EnclosingChain(siblings, line, parentEnd)
         == [siblings[i]] + EnclosingChain(siblings[i].children, line, SpanEnd(siblings[i..], parentEnd))
  {
    if i == 0 {
      assert siblings[0..] == siblings;
    } else {
      assert !Spans(siblings, 0, line, parentEnd) && siblings[0..] == siblings;
      assert forall k | 0 <= k < |siblings| - 1 :: siblings[1..][k..] == siblings[k + 1..];
      forall k | 0 <= k < i - 1
        ensures !Spans(siblings[1..], k, line, parentEnd)
      {
        assert !Spans(siblings, k + 1, line, parentEnd);
      }
      ChainFromSpan(siblings[1..], i - 1, line, parentEnd);
    }
  }

  lemma {:induction false} NoChain(siblings: seq<Declaration>, line: nat, parentEnd: Option<nat>)
    requires Ascending(siblings) && (siblings == [] || line < siblings[0].line)
    ensures EnclosingChain(siblings, line, parentEnd) == []
  {
    if siblings != [] && line < siblings[0].line {
      if |siblings| > 1 {
        NoChain(siblings[1..], line, parentEnd);
      }
    }
  }

  /** In a file with declarations, a line has an enclosing declaration exactly from the first one on. */
  lemma {:induction false} EnclosedFromTheFirstOn(declarations: seq<Declaration>, line: nat)
    requires Ascending(declarations)
    ensures EnclosingChain(declarations, line, None) != [] <==> declarations != [] && declarations[0].line <= line
  {
    if declarations != [] && declarations[0].line <= line {
      var i := SiblingSpansCover(declarations, line, None);
      forall k | 0 <= k < i
        ensures !Spans(declarations, k, line, None)
      {
        if Spans(declarations, k, line, None) {
          SiblingSpansDisjoint(declarations, k, i, line, None);
          assert false;
        }
      }
      ChainFromSpan(declarations, i, line, None);
    } else {
      NoChain(declarations, line, None);
    }
  }

  // ----- the innermost declaration is the last to start

  /** All declarations in the order they are written. */
  function Written(siblings: seq<Declaration>): seq<Declaration>
    decreases siblings
  {
    if siblings == [] then []
    else [siblings[0]] + Written(siblings[0].children) + Written(siblings[1..])
  }

  ghost predicate LinesAscend(ds: seq<Declaration>) {
    forall i, j | 0 <= i < j < |ds| :: ds[i].line <= ds[j].line
  }

  ghost predicate FromLineOne(ds: seq<Declaration>) {
    forall d | d in ds :: d.line >= 1
  }

  /** The last declaration to start on or before the line. */
  function LastStarted(ds: seq<Declaration>, line: nat): Option<Declaration> {
    if ds == [] then None
    else if ds[|ds| - 1].line <= line then Some(ds[|ds| - 1])
    else LastStarted(ds[..|ds| - 1], line)
  }

  lemma {:induction false} LastStartedAppends(a: seq<Declaration>, b: seq<Declaration>, line: nat)
    ensures LastStarted(a + b, line) == if LastStarted(b, line).Some? then LastStarted(b, line) else LastStarted(a, line)
  {
    if b == [] {
      assert a + b == a;
    } else if b[|b| - 1].line > line {
      assert (a + b)[..|a + b| - 1] == a + b[..|b| - 1];
      LastStartedAppends(a, b[..|b| - 1], line);
    }
  }

  lemma {:induction false} NoneStarted(ds: seq<Declaration>, line: nat)
    requires forall d | d in ds :: d.line > line
    ensures LastStarted(ds, line) == None
  {
    if ds != [] {
      assert ds[|ds| - 1] in ds;
      assert forall d | d in ds[..|ds| - 1] :: d in ds;
      NoneStarted(ds[..|ds| - 1], line);
    }
  }

  function Innermost(chain: seq<Declaration>): Option<Declaration> {
    if chain == [] then None else Some(chain[|chain| - 1])
  }

  lemma AscendingSlice(all: seq<Declaration>, i: nat, j: nat)
    requires LinesAscend(all) && FromLineOne(all) && i <= j <= |all|
    ensures LinesAscend(all[i..j]) && FromLineOne(all[i..j])
    ensures i > 0 ==> forall d | d in all[i..j] :: all[0].line <= d.line
  {
    assert forall d | d in all[i..j] :: d in all;
    forall d | d in all[i..j]
      ensures i > 0 ==> all[0].line <= d.line
    {
      var k :| 0 <= k < j - i && all[i..j][k] == d;
      assert all[i + k] == d;
    }
  }

  lemma AscendingParts(first: Declaration, a: seq<Declaration>, b: seq<Declaration>, all: seq<Declaration>)
    requires all == [first] + a + b && LinesAscend(all) && FromLineOne(all)
    ensures LinesAscend(a) && FromLineOne(a) && LinesAscend(b) && FromLineOne(b) && first.line >= 1
    ensures forall d | d in a || d in b :: first.line <= d.line
  {
    assert all[0] == first && all[0] in all;
    assert a == all[1..1 + |a|] && b == all[1 + |a|..|all|];
    AscendingSlice(all, 1, 1 + |a|);
    AscendingSlice(all, 1 + |a|, |all|);
  }

  lemma WrittenParts(siblings: seq<Declaration>)
    requires siblings != [] && LinesAscend(Written(siblings)) && FromLineOne(Written(siblings))
    ensures LinesAscend(Written(siblings[0].children)) && FromLineOne(Written(siblings[0].children))
    ensures LinesAscend(Written(siblings[1..])) && FromLineOne(Written(siblings[1..]))
    ensures siblings[0].line >= 1
    ensures forall d | d in Written(siblings[0].children) || d in Written(siblings[1..]) :: siblings[0].line <= d.line
  {
    AscendingParts(siblings[0], Written(siblings[0].children), Written(siblings[1..]), Written(siblings));
  }

  lemma {:induction false} LaterLines(siblings: seq<Declaration>, line: nat)
    requires siblings != [] && LinesAscend(Written(siblings)) && FromLineOne(Written(siblings)) && line < siblings[0].line
    ensures forall d | d in Written(siblings) :: d.line > line
  {
    var written := Written(siblings);
    assert written[0] == siblings[0];
    forall d | d in written
      ensures d.line > line
    {
      var k :| 0 <= k < |written| && written[k] == d;
    }
  }

  /**
   When declarations are written in ascending line order, the innermost declaration enclosing a line is simply the last
   one to start on or before it, however they are nested.
   */
  lemma {:induction false} InnermostIsLastStarted(siblings: seq<Declaration>, line: nat, parentEnd: Option<nat>)
    requires LinesAscend(Written(siblings)) && FromLineOne(Written(siblings)) && Within(line, parentEnd)
    ensures Innermost(EnclosingChain(siblings, line, parentEnd)) == LastStarted(Written(siblings), line)
    decreases siblings
  {
    if siblings != [] {
      WrittenParts(siblings);
      var first, later := [siblings[0]] + Written(siblings[0].children), Written(siblings[1..]);
      LastStartedAppends(first, later, line);
      if FirstSpans(siblings, line, parentEnd) {
        InnermostInFirst(siblings, line, parentEnd);
      } else {
        InnermostIsLastStarted(siblings[1..], line, parentEnd);
        if line < siblings[0].line {
          LaterLines(siblings, line);
          NoneStarted(Written(siblings), line);
          NoneStartedLater(siblings, line);
        } else {
          assert siblings[1].line <= line;
          FirstHasStarted(siblings[1..], line);
        }
      }
    }
  }

  lemma {:induction false} InnermostInFirst(siblings: seq<Declaration>, line: nat, parentEnd: Option<nat>)
    requires siblings != [] && LinesAscend(Written(siblings)) && FromLineOne(Written(siblings)) && Within(line, parentEnd)
    requires FirstSpans(siblings, line, parentEnd)
    ensures Innermost(EnclosingChain(siblings, line, parentEnd))
         == LastStarted([siblings[0]] + Written(siblings[0].children), line)
    ensures LastStarted(Written(siblings[1..]), line) == None
    decreases siblings, 0
  {
    WrittenParts(siblings);
    var children := siblings[0].children;
    InnermostIsLastStarted(children, line, SpanEnd(siblings, parentEnd));
    LastStartedAppends([siblings[0]], Written(children), line);
    if |siblings| > 1 {
      var rest := siblings[1..];
      assert Written(rest)[0] == rest[0] && Written(rest)[0] in Written(rest);
      LaterLines(rest, line);
      NoneStarted(Written(rest), line);
    }
  }

  lemma {:induction false} NoneStartedLater(siblings: seq<Declaration>, line: nat)
    requires siblings != [] && forall d | d in Written(siblings) :: d.line > line
    ensures LastStarted(Written(siblings[1..]), line) == None
  {
    assert Written(siblings) == [siblings[0]] + Written(siblings[0].children) + Written(siblings[1..]);
    assert forall d | d in Written(siblings[1..]) :: d in Written(siblings);
    NoneStarted(Written(siblings[1..]), line);
  }

  lemma {:induction false} FirstHasStarted(siblings: seq<Declaration>, line: nat)
    requires siblings != [] && siblings[0].line <= line
    ensures LastStarted(Written(siblings), line).Some?
  {
    var rest := Written(siblings[0].children) + Written(siblings[1..]);
    assert Written(siblings) == [siblings[0]] + rest;
    LastStartedAppends([siblings[0]], rest, line);
  }

  // ----- the span and the declaration agree

  /** The chain with the end of each span beside its declaration. */
  ghost function SpanChain(siblings: seq<Declaration>, line: nat,
                           parentEnd: Option<nat>): seq<(Declaration, Option<nat>)>
    decreases siblings
  {
    if siblings == [] then []
    else if FirstSpans(siblings, line, parentEnd) then
      [(siblings[0], SpanEnd(siblings, parentEnd))] + SpanChain(siblings[0].children, line, SpanEnd(siblings, parentEnd))
    else SpanChain(siblings[1..], line, parentEnd)
  }

  lemma {:induction false} ChainOfSpans(siblings: seq<Declaration>, line: nat, parentEnd: Option<nat>)
    ensures |SpanChain(siblings, line, parentEnd)| == |EnclosingChain(siblings, line, parentEnd)|
    ensures forall i | 0 <= i < |SpanChain(siblings, line, parentEnd)| ::
              SpanChain(siblings, line, parentEnd)[i].0 == EnclosingChain(siblings, line, parentEnd)[i]
    decreases siblings
  {
    if siblings != [] {
      if FirstSpans(siblings, line, parentEnd) {
        ChainOfSpans(siblings[0].children, line, SpanEnd(siblings, parentEnd));
      } else {
        ChainOfSpans(siblings[1..], line, parentEnd);
      }
    }
  }

  /** The position in the chain of the innermost declaration that starts on the line. */
  ghost predicate StartsInnermost(chain: seq<(Declaration, Option<nat>)>, line: nat, i: nat) {
    i < |chain| && chain[i].0.line == line && forall k | i < k < |chain| :: chain[k].0.line != line
  }

  ghost predicate NeverStarts(chain: seq<(Declaration, Option<nat>)>, line: nat) {
    forall k | 0 <= k < |chain| :: chain[k].0.line != line
  }

  lemma {:induction false} NoSpanLater(siblings: seq<Declaration>, line: nat, parentEnd: Option<nat>)
    requires siblings == [] || forall i | 0 <= i < |siblings| :: line < siblings[i].line
    ensures SpanAt(siblings, line, parentEnd) == None
  {
    if siblings != [] {
      assert forall i | 0 <= i < |siblings[1..]| :: siblings[1..][i] == siblings[i + 1];
      NoSpanLater(siblings[1..], line, parentEnd);
    }
  }

  /** The span is that of the innermost declaration on the chain starting on the line; there is none without one. */
  ghost predicate SpansInnermost(span: Option<DeclarationSpan>, chain: seq<(Declaration, Option<nat>)>, line: nat) {
    match span
    case None => NeverStarts(chain, line)
    case Some(span) => exists i: nat :: StartsInnermost(chain, line, i) && span == DeclarationSpan(line, chain[i].1)
  }

  lemma SpansInnermostOfMore(span: DeclarationSpan, first: (Declaration, Option<nat>),
                             inner: seq<(Declaration, Option<nat>)>, line: nat)
    requires SpansInnermost(Some(span), inner, line)
    ensures SpansInnermost(Some(span), [first] + inner, line)
  {
    var i: nat :| StartsInnermost(inner, line, i) && span == DeclarationSpan(line, inner[i].1);
    assert StartsInnermost([first] + inner, line, i + 1);
  }

  lemma FirstStartsHere(first: (Declaration, Option<nat>), inner: seq<(Declaration, Option<nat>)>, line: nat)
    requires first.0.line == line && NeverStarts(inner, line)
    ensures SpansInnermost(Some(DeclarationSpan(line, first.1)), [first] + inner, line)
  {
    assert StartsInnermost([first] + inner, line, 0);
  }

  /** The span found is that of the innermost declaration on the chain starting on the line, end included. */
  lemma {:induction false} SpanAtInnermost(siblings: seq<Declaration>, line: nat, parentEnd: Option<nat>)
    requires Ascending(siblings)
    ensures SpansInnermost(SpanAt(siblings, line, parentEnd), SpanChain(siblings, line, parentEnd), line)
    decreases siblings
  {
    if siblings != [] {
      if FirstSpans(siblings, line, parentEnd) {
        var end := SpanEnd(siblings, parentEnd);
        var children := siblings[0].children;
        var chain, inner := SpanChain(siblings, line, parentEnd), SpanChain(children, line, end);
        SpanAtInnermost(children, line, end);
        assert chain == [(siblings[0], end)] + inner;
        match SpanAt(children, line, end) {
          case Some(span) => SpansInnermostOfMore(span, (siblings[0], end), inner, line);
          case None =>
            if siblings[0].line == line {
              FirstStartsHere((siblings[0], end), inner, line);
            } else {
              forall i | 0 <= i < |siblings| - 1
                ensures line < siblings[1..][i].line
              {
                AscendingLines(siblings, 1, i + 1);
              }
              NoSpanLater(siblings[1..], line, parentEnd);
            }
        }
      } else {
        SpanAtInnermost(siblings[1..], line, parentEnd);
      }
    }
  }

  lemma {:induction false} LastStartingPosition(chain: seq<Declaration>, line: nat)
    ensures match LastStartingOn(chain, line)
            case None => forall k | 0 <= k < |chain| :: chain[k].line != line
            case Some(d) => exists i: nat :: i < |chain| && chain[i] == d && d.line == line
                                        && forall k | i < k < |chain| :: chain[k].line != line
  {
    if chain != [] && chain[|chain| - 1].line != line {
      LastStartingPosition(chain[..|chain| - 1], line);
    }
  }

  /** Both look-ups find a declaration on the same lines, and it is the same one: the span is the found declaration's own. */
  lemma {:induction false} SpanAndDeclarationAgree(declarations: seq<Declaration>, line: nat)
    requires Ascending(declarations)
    ensures DeclarationSpanAt(declarations, line).Some? <==> DeclarationStartingAt(declarations, line).Some?
    ensures DeclarationSpanAt(declarations, line).Some? ==>
              exists i: nat :: var chain := SpanChain(declarations, line, None);
                          && StartsInnermost(chain, line, i)
                          && DeclarationStartingAt(declarations, line) == Some(chain[i].0)
                          && DeclarationSpanAt(declarations, line) == Some(DeclarationSpan(line, chain[i].1))
  {
    var chain := SpanChain(declarations, line, None);
    var plain := EnclosingChain(declarations, line, None);
    ChainOfSpans(declarations, line, None);
    SpanAtInnermost(declarations, line, None);
    LastStartingPosition(plain, line);
    if DeclarationSpanAt(declarations, line).Some? {
      var i: nat :| StartsInnermost(chain, line, i)
                    && DeclarationSpanAt(declarations, line).value == DeclarationSpan(line, chain[i].1);
      assert plain[i].line == line;
      var d := DeclarationStartingAt(declarations, line).value;
      var j: nat :| j < |plain| && plain[j] == d && d.line == line && forall k | j < k < |plain| :: plain[k].line != line;
      assert chain[j].0.line == line;
      assert i == j;
    }
  }
}
