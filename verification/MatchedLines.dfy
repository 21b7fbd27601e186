/** The lines of a body that match a pattern, with their context and with marks where lines were left out. */
module MatchedLines {
  import opened Omissions
  import opened Options
  import opened Ordering

  datatype MatchedLine = MatchedLine(number: nat, text: string, gapBefore: bool)

  /** One offered body line: the text that is measured and printed, and the values the two views keep. */
  datatype SourceCandidate = SourceCandidate(rendered: string, raw: string, matched: Option<MatchedLine>)

  /** A line is kept when it is within `around` lines of one that matches. */
  ghost predicate IsKept(lines: seq<string>, matches: string -> bool, around: nat, k: nat) {
    k < |lines| && exists hit: nat :: hit < |lines| && matches(lines[hit]) && hit <= k + around && k <= hit + around
  }

  ghost predicate KeptBy(lines: seq<string>, matches: string -> bool, around: nat, hits: nat, k: nat)
    requires hits <= |lines|
  {
    k < |lines| && exists hit: nat :: hit < hits && matches(lines[hit]) && hit <= k + around && k <= hit + around
  }

  lemma OneMoreHit(lines: seq<string>, matches: string -> bool, around: nat, hits: nat, k: nat)
    requires hits < |lines|
    ensures KeptBy(lines, matches, around, hits + 1, k)
       <==> KeptBy(lines, matches, around, hits, k)
            || (k < |lines| && matches(lines[hits]) && hits <= k + around && k <= hits + around)
  {
  }

  /** The kept indices: each once, ascending, however the windows overlap. */
  method KeptIndices(lines: seq<string>, matches: string -> bool, around: nat) returns (kept: seq<nat>)
    ensures forall k: nat :: k in kept <==> IsKept(lines, matches, around, k)
    ensures forall i, j | 0 <= i < j < |kept| :: kept[i] < kept[j]
  {
    var keep: set<nat> := {};
    for index := 0 to |lines|
      invariant forall k: nat :: k in keep <==> KeptBy(lines, matches, around, index, k)
    {
      ghost var before := keep;
      if matches(lines[index]) {
        var low := if index >= around then index - around else 0;
        var high := if index + around <= |lines| - 1 then index + around else |lines| - 1;
        for neighbour := low to high + 1
          invariant forall k: nat :: k in keep <==> k in before || low <= k < neighbour
        {
          keep := keep + {neighbour};
        }
      }
      forall k: nat
        ensures k in keep <==> KeptBy(lines, matches, around, index + 1, k)
      {
        OneMoreHit(lines, matches, around, index, k);
      }
    }
    NatIsTotalOrder();
    kept := ReadOut(keep, NatLe());
    forall i, j | 0 <= i < j < |kept|
      ensures kept[i] < kept[j]
    {
      assert NatLe()(kept[i], kept[j]);
    }
  }

  predicate GapBefore(kept: seq<nat>, i: nat)
    requires i < |kept|
  {
    if i == 0 then kept[0] > 0 else kept[i] > kept[i - 1] + 1
  }

  function Numbered(number: nat, text: string): string {
    Decimal(number) + ": " + text
  }

  function CandidateAt(lines: seq<string>, startLine: nat, index: nat, gap: bool): SourceCandidate
    requires index < |lines|
  {
    var numbered := Numbered(startLine + index, lines[index]);
    SourceCandidate(if gap then "...\n" + numbered else numbered, lines[index],
                    Some(MatchedLine(startLine + index, lines[index], gap)))
  }

  ghost predicate InBody(lines: seq<string>, kept: seq<nat>) {
    && (forall i | 0 <= i < |kept| :: kept[i] < |lines|)
    && (forall i, j | 0 <= i < j < |kept| :: kept[i] < kept[j])
  }

  /** The candidates of the kept lines. */
  ghost function MatchedCandidates(lines: seq<string>, startLine: nat, kept: seq<nat>): seq<SourceCandidate>
    requires InBody(lines, kept)
  {
    seq(|kept|, i requires 0 <= i < |kept| => CandidateAt(lines, startLine, kept[i], GapBefore(kept, i)))
  }

  /** The candidates are exactly those of the lines within reach of a match. */
  ghost predicate IsMatchedBody(lines: seq<string>, startLine: nat, matches: string -> bool, around: nat,
                                candidates: seq<SourceCandidate>) {
    exists kept: seq<nat> ::
      && InBody(lines, kept) && (forall k: nat :: k in kept <==> IsKept(lines, matches, around, k))
      && candidates == MatchedCandidates(lines, startLine, kept)
  }

  method MatchedBody(lines: seq<string>, startLine: nat, matches: string -> bool, around: nat)
    returns (candidates: seq<SourceCandidate>)
    ensures IsMatchedBody(lines, startLine, matches, around, candidates)
  {
    var kept := KeptIndices(lines, matches, around);
    assert InBody(lines, kept) by {
      forall i | 0 <= i < |kept|
        ensures kept[i] < |lines|
      {
        assert kept[i] in kept;
      }
    }
    candidates := CandidatesAt(lines, startLine, kept);
  }

  method CandidatesAt(lines: seq<string>, startLine: nat, kept: seq<nat>) returns (candidates: seq<SourceCandidate>)
    requires InBody(lines, kept)
    ensures candidates == MatchedCandidates(lines, startLine, kept)
  {
    candidates := [];
    var previous: Option<nat> := None;
    ghost var all := MatchedCandidates(lines, startLine, kept);
    for i := 0 to |kept|
      invariant candidates == all[..i]
      invariant previous == if i == 0 then None else Some(kept[i - 1])
    {
      var index := kept[i];
      var gap := match previous case None => index > 0 case Some(before) => index > before + 1;
      assert gap == GapBefore(kept, i);
      previous := Some(index);
      var candidate := CandidateAt(lines, startLine, index, gap);
      assert candidate == all[i];
      candidates := candidates + [candidate];
    }
  }

  lemma NeighbourKept(kept: seq<nat>, i: nat)
    requires i < |kept| && forall a, b | 0 <= a < b < |kept| :: kept[a] < kept[b]
    ensures GapBefore(kept, i) <==> kept[i] > 0 && kept[i] - 1 !in kept
  {
    if kept[i] > 0 && kept[i] - 1 in kept {
      var j :| 0 <= j < |kept| && kept[j] == kept[i] - 1;
      assert j < i;
      assert kept[j] <= kept[i - 1] < kept[i];
    }
  }

  /** What one shown line says: its own text and number, and a gap exactly when the line before it exists and is not shown. */
  ghost predicate ShowsLine(lines: seq<string>, startLine: nat, matches: string -> bool, around: nat,
                            c: SourceCandidate) {
    && c.matched.Some?
    && var shown := c.matched.value;
       && startLine <= shown.number < startLine + |lines|
       && shown.text == c.raw == lines[shown.number - startLine]
       && IsKept(lines, matches, around, shown.number - startLine)
       && (shown.gapBefore <==> shown.number > startLine && !IsKept(lines, matches, around, shown.number - startLine - 1))
  }

  ghost predicate HasNumber(candidates: seq<SourceCandidate>, number: nat) {
    exists c :: c in candidates && c.matched.Some? && c.matched.value.number == number
  }

  lemma KeptOf(lines: seq<string>, startLine: nat, matches: string -> bool, around: nat,
               candidates: seq<SourceCandidate>)
    returns (kept: seq<nat>)
    requires IsMatchedBody(lines, startLine, matches, around, candidates)
    ensures InBody(lines, kept) && (forall k: nat :: k in kept <==> IsKept(lines, matches, around, k))
    ensures |candidates| == |kept|
    ensures forall i | 0 <= i < |kept| :: candidates[i] == CandidateAt(lines, startLine, kept[i], GapBefore(kept, i))
  {
    kept :| InBody(lines, kept) && (forall k: nat :: k in kept <==> IsKept(lines, matches, around, k))
            && candidates == MatchedCandidates(lines, startLine, kept);
  }

  lemma CandidateShowsLine(lines: seq<string>, startLine: nat, matches: string -> bool, around: nat, kept: seq<nat>,
                           i: nat)
    requires InBody(lines, kept) && (forall k: nat :: k in kept <==> IsKept(lines, matches, around, k)) && i < |kept|
    ensures ShowsLine(lines, startLine, matches, around, CandidateAt(lines, startLine, kept[i], GapBefore(kept, i)))
  {
    NeighbourKept(kept, i);
    assert kept[i] in kept;
  }

  /** The matched view shows a body line exactly when it is within reach of a match, once and in order. */
  lemma KeptHasNumber(lines: seq<string>, startLine: nat, kept: seq<nat>, k: nat)
    requires InBody(lines, kept) && k in kept
    ensures HasNumber(MatchedCandidates(lines, startLine, kept), startLine + k)
  {
    var candidates := MatchedCandidates(lines, startLine, kept);
    var i :| 0 <= i < |kept| && kept[i] == k;
    assert candidates[i] in candidates;
  }

  lemma MatchedBodyIsExact(lines: seq<string>, startLine: nat, matches: string -> bool, around: nat,
                           candidates: seq<SourceCandidate>)
    requires IsMatchedBody(lines, startLine, matches, around, candidates)
    ensures forall c | c in candidates :: ShowsLine(lines, startLine, matches, around, c)
    ensures forall i, j | 0 <= i < j < |candidates| && candidates[i].matched.Some? && candidates[j].matched.Some? ::
              candidates[i].matched.value.number < candidates[j].matched.value.number
    ensures forall k: nat | IsKept(lines, matches, around, k) :: HasNumber(candidates, startLine + k)
  {
    var kept := KeptOf(lines, startLine, matches, around, candidates);
    forall c | c in candidates
      ensures ShowsLine(lines, startLine, matches, around, c)
    {
      var i :| 0 <= i < |candidates| && candidates[i] == c;
      CandidateShowsLine(lines, startLine, matches, around, kept, i);
    }
    forall k: nat | IsKept(lines, matches, around, k)
      ensures HasNumber(candidates, startLine + k)
    {
      KeptHasNumber(lines, startLine, kept, k);
    }
  }

  // ----- what is printed is what was measured

  function JoinLines(lines: seq<string>): string {
    if lines == [] then ""
    else if |lines| == 1 then lines[0]
    else JoinLines(lines[..|lines| - 1]) + "\n" + lines[|lines| - 1]
  }

  function PrintedLines(lines: seq<MatchedLine>): seq<string> {
    if lines == [] then []
    else
      var last := lines[|lines| - 1];
      PrintedLines(lines[..|lines| - 1]) + (if last.gapBefore then ["..."] else []) + [Numbered(last.number, last.text)]
  }

  /** The lines of the matched view as the renderer prints them. */
  function MatchedBodyText(lines: seq<MatchedLine>): string {
    JoinLines(PrintedLines(lines))
  }

  ghost function RenderedTexts(candidates: seq<SourceCandidate>): seq<string> {
    seq(|candidates|, i requires 0 <= i < |candidates| => candidates[i].rendered)
  }

  ghost predicate AllMatched(candidates: seq<SourceCandidate>) {
    forall c | c in candidates ::
      c.matched.Some?
      && var shown := c.matched.value;
         c.rendered == (if shown.gapBefore then "...\n" else "") + Numbered(shown.number, shown.text)
  }

  ghost function MatchedOf(candidates: seq<SourceCandidate>): seq<MatchedLine>
    requires AllMatched(candidates)
  {
    seq(|candidates|, i requires 0 <= i < |candidates| => assert candidates[i] in candidates; candidates[i].matched.value)
  }

  lemma JoinOneMore(lines: seq<string>, last: string)
    ensures JoinLines(lines + [last]) == if lines == [] then last else JoinLines(lines) + "\n" + last
  {
    assert (lines + [last])[..|lines|] == lines;
  }

  lemma PrintPlain(printed: seq<string>, texts: seq<string>, numbered: string)
    requires JoinLines(printed) == JoinLines(texts) && (printed == [] <==> texts == [])
    ensures JoinLines(printed + [numbered]) == JoinLines(texts + [numbered])
  {
    JoinOneMore(texts, numbered);
    JoinOneMore(printed, numbered);
  }

  lemma PrintGap(printed: seq<string>, texts: seq<string>, numbered: string)
    requires JoinLines(printed) == JoinLines(texts) && (printed == [] <==> texts == [])
    ensures JoinLines(printed + ["..."] + [numbered]) == JoinLines(texts + ["...\n" + numbered])
  {
    var before, gap := JoinLines(printed), "...";
    JoinOneMore(texts, "...\n" + numbered);
    JoinOneMore(printed, gap);
    JoinOneMore(printed + [gap], numbered);
    assert "...\n" == gap + "\n";
    assert before + "\n" + gap + "\n" + numbered == before + "\n" + (gap + "\n" + numbered);
  }

  lemma PrintOneMore(printed: seq<string>, texts: seq<string>, gap: bool, numbered: string)
    requires JoinLines(printed) == JoinLines(texts) && (printed == [] <==> texts == [])
    ensures JoinLines(printed + (if gap then ["..."] else []) + [numbered])
         == JoinLines(texts + [(if gap then "...\n" else "") + numbered])
  {
    if gap {
      PrintGap(printed, texts, numbered);
    } else {
      assert printed + [] == printed && "" + numbered == numbered;
      PrintPlain(printed, texts, numbered);
    }
  }

  lemma LastPrinted(candidates: seq<SourceCandidate>)
    requires AllMatched(candidates) && candidates != []
    ensures AllMatched(candidates[..|candidates| - 1])
    ensures var shown := MatchedOf(candidates)[|candidates| - 1];
            PrintedLines(MatchedOf(candidates))
            == PrintedLines(MatchedOf(candidates[..|candidates| - 1]))
               + (if shown.gapBefore then ["..."] else []) + [Numbered(shown.number, shown.text)]
  {
    assert forall c | c in candidates[..|candidates| - 1] :: c in candidates;
    assert MatchedOf(candidates)[..|candidates| - 1] == MatchedOf(candidates[..|candidates| - 1]);
  }

  lemma LastRendered(candidates: seq<SourceCandidate>)
    requires AllMatched(candidates) && candidates != []
    ensures var shown := MatchedOf(candidates)[|candidates| - 1];
            RenderedTexts(candidates)
            == RenderedTexts(candidates[..|candidates| - 1])
               + [(if shown.gapBefore then "...\n" else "") + Numbered(shown.number, shown.text)]
  {
    assert candidates[|candidates| - 1] in candidates;
  }

  /** Whatever prefix of the candidates the budget leaves, the texts it measured, joined, are the text that is printed. */
  lemma {:induction false} PrintedAsMeasured(candidates: seq<SourceCandidate>)
    requires AllMatched(candidates)
    ensures MatchedBodyText(MatchedOf(candidates)) == JoinLines(RenderedTexts(candidates))
    ensures PrintedLines(MatchedOf(candidates)) == [] <==> candidates == []
  {
    if candidates != [] {
      LastPrinted(candidates);
      LastRendered(candidates);
      var rest := candidates[..|candidates| - 1];
      PrintedAsMeasured(rest);
      var shown := MatchedOf(candidates)[|candidates| - 1];
      PrintOneMore(PrintedLines(MatchedOf(rest)), RenderedTexts(rest), shown.gapBefore, Numbered(shown.number, shown.text));
    }
  }

  lemma CandidateIsMatched(lines: seq<string>, startLine: nat, index: nat, gap: bool)
    requires index < |lines|
    ensures AllMatched([CandidateAt(lines, startLine, index, gap)])
  {
    var numbered := Numbered(startLine + index, lines[index]);
    assert "" + numbered == numbered;
  }

  /** Every prefix of a matched body prints as it was measured. */
  lemma MatchedBodyPrints(lines: seq<string>, startLine: nat, matches: string -> bool, around: nat,
                          candidates: seq<SourceCandidate>, n: nat)
    requires IsMatchedBody(lines, startLine, matches, around, candidates) && n <= |candidates|
    ensures AllMatched(candidates[..n])
    ensures MatchedBodyText(MatchedOf(candidates[..n])) == JoinLines(RenderedTexts(candidates[..n]))
  {
    var kept := KeptOf(lines, startLine, matches, around, candidates);
    assert AllMatched(candidates[..n]) by {
      forall c | c in candidates[..n]
        ensures AllMatched([c])
      {
        var i :| 0 <= i < n && candidates[i] == c;
        CandidateIsMatched(lines, startLine, kept[i], GapBefore(kept, i));
      }
      assert forall c | c in candidates[..n] :: AllMatched([c]) && c in [c];
    }
    PrintedAsMeasured(candidates[..n]);
  }
}
