/**
 Whole-word occurrences of a name in source text, the line and UTF-16 column they are reported at, and the
 way back from such a position to the character and its lexical state.
 */
module WordMatches {
  import opened JavaLexer
  import opened Options
  import opened Text

  function Utf16Length(c: char): nat {
    if c as int < 0x1_0000 then 1 else 2
  }

  function Utf16Count(text: seq<char>): nat {
    if text == [] then 0 else Utf16Count(text[..|text| - 1]) + Utf16Length(text[|text| - 1])
  }

  predicate IsIdentifierChar(c: char) {
    'a' <= c <= 'z' || 'A' <= c <= 'Z' || '0' <= c <= '9' || c == '_'
  }

  /** The letters and digits are ASCII's, with the first and last of each, and what stands next to them is out. */
  lemma IdentifierCharEnds(c: char)
    ensures c in {'a', 'z', 'A', 'Z', '0', '9', '_'} ==> IsIdentifierChar(c)
    ensures c in {'`', '{', '@', '[', '/', ':', '-', '$'} || c as int > 0x7f ==> !IsIdentifierChar(c)
  {
  }

  // ----- positions

  /** The 1-based UTF-16 column of character `i` on its line. */
  ghost function ColumnOf(source: seq<char>, i: nat): nat
    requires i <= |source|
  {
    if i == 0 || source[i - 1] == '\n' then 1 else ColumnOf(source, i - 1) + Utf16Length(source[i - 1])
  }

  ghost function PositionOf(source: seq<char>, i: nat): (nat, nat)
    requires i <= |source|
  {
    (LineOf(source, i), ColumnOf(source, i))
  }

  /** A character that stands at the position; a line break stands nowhere. */
  ghost predicate StandsAt(source: seq<char>, i: nat, position: (nat, nat)) {
    i < |source| && source[i] != '\n' && PositionOf(source, i) == position
  }

  ghost predicate StartsLine(source: seq<char>, start: nat) {
    start <= |source| && (start == 0 || source[start - 1] == '\n')
  }

  ghost predicate Unbroken(source: seq<char>, i: nat, j: nat) {
    i <= j <= |source| && forall k | i <= k < j :: source[k] != '\n'
  }

  /** On one line, the line number stays and the column counts the UTF-16 units from the line's start. */
  lemma {:induction false} AlongTheLine(source: seq<char>, start: nat, j: nat)
    requires StartsLine(source, start) && Unbroken(source, start, j)
    ensures LineOf(source, j) == LineOf(source, start)
    ensures ColumnOf(source, j) == Utf16Count(source[start..j]) + 1
    decreases j
  {
    if start < j {
      AlongTheLine(source, start, j - 1);
      assert source[start..j][..j - 1 - start] == source[start..j - 1];
    }
  }

  lemma {:induction false} LineStartOf(source: seq<char>, i: nat) returns (start: nat)
    requires i <= |source|
    ensures start <= i && StartsLine(source, start) && Unbroken(source, start, i)
  {
    if i == 0 || source[i - 1] == '\n' {
      start := i;
    } else {
      start := LineStartOf(source, i - 1);
    }
  }

  /** A line has one start. */
  lemma OneStart(source: seq<char>, a: nat, b: nat)
    requires StartsLine(source, a) && StartsLine(source, b) && LineOf(source, a) == LineOf(source, b)
    ensures a == b
  {
    if a < b {
      NewlinesGrow(source, a, b);
    } else if b < a {
      NewlinesGrow(source, b, a);
    }
  }

  lemma {:induction false} CountGrows(text: seq<char>, i: nat, j: nat)
    requires i < j <= |text|
    ensures Utf16Count(text[..i]) < Utf16Count(text[..j])
    decreases j
  {
    assert text[..j][..j - 1] == text[..j - 1];
    if i < j - 1 {
      CountGrows(text, i, j - 1);
    }
  }

  /** Different characters stand at different positions. */
  lemma {:induction false} PositionsDiffer(source: seq<char>, i: nat, j: nat)
    requires i < j <= |source|
    ensures PositionOf(source, i) != PositionOf(source, j)
  {
    if LineOf(source, i) == LineOf(source, j) {
      var start := LineStartOf(source, i);
      var other := LineStartOf(source, j);
      AlongTheLine(source, start, i);
      AlongTheLine(source, other, j);
      OneStart(source, start, other);
      var line := source[start..j];
      assert line[..i - start] == source[start..i] && line[..j - start] == line;
      CountGrows(line, i - start, j - start);
    }
  }

  lemma {:induction false} OffsetsDiffer(source: seq<char>, i: nat, j: nat)
    requires i < j <= |source|
    ensures OffsetOf(source, i) < OffsetOf(source, j)
  {
    if i < j - 1 {
      OffsetsDiffer(source, i, j - 1);
    }
  }

  // ----- from a position back to the character

  /** Where the line starts, as a character and as a byte offset. */
  method LineStartOffset(source: seq<char>, line: nat) returns (r: Option<(nat, nat)>)
    requires line >= 1
    ensures r.Some? ==> StartsLine(source, r.value.0) && LineOf(source, r.value.0) == line
                        && r.value.1 == OffsetOf(source, r.value.0)
    ensures r.None? ==> forall i: nat | i <= |source| :: LineOf(source, i) < line
  {
    if line == 1 {
      return Some((0, 0));
    }
    var remaining := line - 1;
    var offset: nat := 0;
    for i := 0 to |source|
      invariant offset == OffsetOf(source, i)
      invariant remaining > 0 && Newlines(source, i) + remaining == line - 1
    {
      if source[i] == '\n' {
        remaining := remaining - 1;
        if remaining == 0 {
          assert Newlines(source, i + 1) == line - 1;
          return Some((i + 1, offset + 1));
        }
      }
      offset := offset + Utf8Length(source[i]);
    }
    forall i: nat | i <= |source|
      ensures LineOf(source, i) < line
    {
      NewlinesGrow(source, i, |source|);
    }
    r := None;
  }

  /** The byte offset found is that of the one character standing at the position; nothing is found when none does. */
  ghost predicate Locates(source: seq<char>, position: (nat, nat), offset: Option<nat>) {
    match offset
    case Some(o) => exists i: nat :: StandsAt(source, i, position) && o == OffsetOf(source, i)
    case None => forall i: nat :: !StandsAt(source, i, position)
  }

  method ByteOffsetOf(source: seq<char>, line: nat, column: nat) returns (offset: Option<nat>)
    ensures Locates(source, (line, column), offset)
  {
    if line == 0 || column == 0 {
      ColumnsCountFromOne(source);
      return None;
    }
    var begin := LineStartOffset(source, line);
    if begin.None? {
      return None;
    }
    var (start, bytes) := begin.value;
    var j := start;
    var units := 0;
    while j < |source| && source[j] != '\n'
      invariant Unbroken(source, start, j)
      invariant bytes == OffsetOf(source, j) && units == Utf16Count(source[start..j])
      invariant forall i | start <= i < j :: ColumnOf(source, i) != column
    {
      AlongTheLine(source, start, j);
      if units + 1 == column {
        assert StandsAt(source, j, (line, column));
        return Some(bytes);
      }
      assert source[start..j + 1][..j - start] == source[start..j];
      units := units + Utf16Length(source[j]);
      bytes := bytes + Utf8Length(source[j]);
      j := j + 1;
    }
    forall i: nat
      ensures !StandsAt(source, i, (line, column))
    {
      if StandsAt(source, i, (line, column)) {
        OnThisLine(source, start, j, i);
      }
    }
    offset := None;
  }

  lemma ColumnsCountFromOne(source: seq<char>)
    ensures forall i: nat, position | StandsAt(source, i, position) :: position.0 >= 1 && position.1 >= 1
  {
    forall i: nat, position | StandsAt(source, i, position)
      ensures position.0 >= 1 && position.1 >= 1
    {
      var start := LineStartOf(source, i);
      AlongTheLine(source, start, i);
    }
  }

  /** A character on the line that starts at `start` and ends at `end` lies between them. */
  lemma OnThisLine(source: seq<char>, start: nat, end: nat, i: nat)
    requires StartsLine(source, start) && Unbroken(source, start, end) && (end == |source| || source[end] == '\n')
    requires i < |source| && source[i] != '\n' && LineOf(source, i) == LineOf(source, start)
    ensures start <= i < end
  {
    var own := LineStartOf(source, i);
    AlongTheLine(source, own, i);
    OneStart(source, own, start);
    AlongTheLine(source, start, end);
    if end < i {
      NewlinesGrow(source, end, i);
    }
  }

  /** Looking up where a character stands finds that character. */
  lemma LocatesInverts(source: seq<char>, i: nat, offset: Option<nat>)
    requires i < |source| && source[i] != '\n' && Locates(source, PositionOf(source, i), offset)
    ensures offset == Some(OffsetOf(source, i))
  {
    var position := PositionOf(source, i);
    assert StandsAt(source, i, position);
    var j: nat :| StandsAt(source, j, position) && offset.value == OffsetOf(source, j);
    if i < j {
      PositionsDiffer(source, i, j);
    } else if j < i {
      PositionsDiffer(source, j, i);
    }
  }

  // ----- the scan

  predicate MatchesAt(source: seq<char>, symbol: seq<char>, i: nat) {
    i + |symbol| <= |source| && source[i..i + |symbol|] == symbol
  }

  /** The symbol is at `i`, on one line; a carriage return that ends the line with its line break is not part of it. */
  ghost predicate Occurs(source: seq<char>, symbol: seq<char>, i: nat) {
    && symbol != [] && MatchesAt(source, symbol, i)
    && '\n' !in symbol
    && !(symbol[|symbol| - 1] == '\r' && i + |symbol| < |source| && source[i + |symbol|] == '\n')
  }

  /** No identifier goes on at either side. */
  ghost predicate IsWhole(source: seq<char>, symbol: seq<char>, i: nat) {
    && Occurs(source, symbol, i)
    && (i == 0 || !IsIdentifierChar(source[i - 1]))
    && (i + |symbol| == |source| || !IsIdentifierChar(source[i + |symbol|]))
  }

  datatype Outcome = Found(sites: seq<(nat, nat)>) | Aborted

  ghost predicate AscendingHits(source: seq<char>, symbol: seq<char>, hits: seq<nat>, limit: nat) {
    && (forall i, j | 0 <= i < j < |hits| :: hits[i] < hits[j])
    && (forall i: nat :: i in hits <==> i < limit && IsWhole(source, symbol, i))
  }

  ghost predicate SitesOf(source: seq<char>, hits: seq<nat>, sites: seq<(nat, nat)>) {
    |sites| == |hits| && forall k | 0 <= k < |hits| :: hits[k] <= |source| && sites[k] == PositionOf(source, hits[k])
  }

  /** The sites are the positions of all whole-word occurrences, in order. */
  ghost predicate ListsWholeWords(source: seq<char>, symbol: seq<char>, sites: seq<(nat, nat)>) {
    exists hits :: AscendingHits(source, symbol, hits, |source|) && SitesOf(source, hits, sites)
  }

  method NextNewline(source: seq<char>, start: nat) returns (end: nat)
    requires start <= |source|
    ensures Unbroken(source, start, end) && (end < |source| ==> source[end] == '\n')
  {
    end := start;
    while end < |source| && source[end] != '\n'
      invariant Unbroken(source, start, end)
    {
      end := end + 1;
    }
  }

  /** The next place from `first` on where the symbol is, before the end of the line. */
  method Find(source: seq<char>, symbol: seq<char>, first: nat, end: nat) returns (r: Option<nat>)
    requires first <= end <= |source| && symbol != []
    ensures r.Some? ==> first <= r.value && r.value + |symbol| <= end && MatchesAt(source, symbol, r.value)
    ensures forall i: nat | first <= i && i + |symbol| <= end && (r.Some? ==> i < r.value) :: !MatchesAt(source, symbol, i)
  {
    var i := first;
    while i + |symbol| <= end
      invariant first <= i
      invariant forall k: nat | first <= k < i && k + |symbol| <= end :: !MatchesAt(source, symbol, k)
    {
      if MatchesAt(source, symbol, i) {
        return Some(i);
      }
      i := i + 1;
    }
    r := None;
  }

  /** A line's text: from its start to its line break, without the carriage return before that. */
  ghost predicate IsLine(source: seq<char>, start: nat, end: nat, newline: nat) {
    && StartsLine(source, start) && Unbroken(source, start, newline) && (newline < |source| ==> source[newline] == '\n')
    && end == (if newline < |source| && newline > start && source[newline - 1] == '\r' then newline - 1 else newline)
  }

  /** Within a line's text, the symbol is there exactly when it occurs in the source. */
  lemma OccursOnLine(source: seq<char>, symbol: seq<char>, start: nat, end: nat, newline: nat, i: nat)
    requires IsLine(source, start, end, newline) && start <= i <= newline && symbol != []
    ensures Occurs(source, symbol, i) <==> i + |symbol| <= end && MatchesAt(source, symbol, i)
  {
    var n := |symbol|;
    if MatchesAt(source, symbol, i) {
      assert forall k | 0 <= k < n :: symbol[k] == source[i + k];
      if i + n <= end {
        assert '\n' !in symbol;
        assert symbol[n - 1] == source[i + n - 1];
      } else if i + n <= newline {
        assert i + n == newline && symbol[n - 1] == '\r';
      } else {
        assert symbol[newline - i] == '\n';
      }
    }
  }

  /** The boundaries of a line are boundaries of words. */
  predicate BoundedOnLine(source: seq<char>, start: nat, end: nat, i: nat, n: nat)
    requires start <= i && i + n <= end <= |source|
  {
    (i == start || !IsIdentifierChar(source[i - 1])) && (i + n >= end || !IsIdentifierChar(source[i + n]))
  }

  lemma WholeOnLine(source: seq<char>, symbol: seq<char>, start: nat, end: nat, newline: nat, i: nat)
    requires IsLine(source, start, end, newline) && start <= i <= newline && symbol != []
    requires i + |symbol| <= end && MatchesAt(source, symbol, i)
    ensures IsWhole(source, symbol, i) <==> BoundedOnLine(source, start, end, i, |symbol|)
  {
    OccursOnLine(source, symbol, start, end, newline, i);
  }

  lemma HitAdded(source: seq<char>, symbol: seq<char>, hits: seq<nat>, limit: nat, i: nat)
    requires AscendingHits(source, symbol, hits, limit) && limit <= i
    requires forall k: nat | limit <= k < i :: !IsWhole(source, symbol, k)
    ensures AscendingHits(source, symbol, if IsWhole(source, symbol, i) then hits + [i] else hits, i + 1)
  {
    assert forall k | 0 <= k < |hits| :: hits[k] in hits;
    forall k: nat
      ensures k < i + 1 && IsWhole(source, symbol, k)
         <==> (k < limit && IsWhole(source, symbol, k)) || (k == i && IsWhole(source, symbol, k))
    {
    }
  }

  lemma NoneAdded(source: seq<char>, symbol: seq<char>, hits: seq<nat>, limit: nat, i: nat)
    requires AscendingHits(source, symbol, hits, limit) && limit <= i
    requires forall k: nat | limit <= k < i :: !IsWhole(source, symbol, k)
    ensures AscendingHits(source, symbol, hits, i)
  {
  }

  ghost predicate OccursWithin(source: seq<char>, symbol: seq<char>, start: nat, newline: nat) {
    exists i: nat :: start <= i <= newline && Occurs(source, symbol, i)
  }

  lemma NoneBefore(source: seq<char>, symbol: seq<char>, start: nat, end: nat, newline: nat, first: nat,
                   next: Option<nat>)
    requires IsLine(source, start, end, newline) && start <= first <= end && symbol != []
    requires forall i: nat | first <= i && i + |symbol| <= end && (next.Some? ==> i < next.value) ::
               !MatchesAt(source, symbol, i)
    ensures forall i: nat | first <= i <= newline && (next.Some? ==> i < next.value) :: !Occurs(source, symbol, i)
  {
    forall i: nat | first <= i <= newline && (next.Some? ==> i < next.value)
      ensures !Occurs(source, symbol, i)
    {
      OccursOnLine(source, symbol, start, end, newline, i);
    }
  }

  lemma OnOneLine(source: seq<char>, start: nat, newline: nat, i: nat)
    requires StartsLine(source, start) && Unbroken(source, start, newline) && start <= i <= newline
    ensures PositionOf(source, i) == (LineOf(source, start), Utf16Count(source[start..i]) + 1)
  {
    AlongTheLine(source, start, i);
  }

  lemma SiteAdded(source: seq<char>, hits: seq<nat>, found: seq<(nat, nat)>, i: nat, position: (nat, nat))
    requires SitesOf(source, hits, found) && i <= |source| && position == PositionOf(source, i)
    ensures SitesOf(source, hits + [i], found + [position])
  {
  }

  /** One find: counted as a hit and reported at its position when it is a whole word. */
  lemma FindReported(source: seq<char>, symbol: seq<char>, start: nat, end: nat, newline: nat, row: nat, hits: seq<nat>,
                     found: seq<(nat, nat)>, first: nat, i: nat)
    requires IsLine(source, start, end, newline) && LineOf(source, start) == row + 1 && symbol != []
    requires AscendingHits(source, symbol, hits, first) && SitesOf(source, hits, found)
    requires start <= first <= i && i + |symbol| <= end && MatchesAt(source, symbol, i)
    requires forall k: nat | first <= k < i :: !Occurs(source, symbol, k)
    ensures Occurs(source, symbol, i)
    ensures var whole := BoundedOnLine(source, start, end, i, |symbol|);
            && AscendingHits(source, symbol, if whole then hits + [i] else hits, i + 1)
            && SitesOf(source, if whole then hits + [i] else hits,
                       if whole then found + [(row + 1, Utf16Count(source[start..i]) + 1)] else found)
  {
    OccursOnLine(source, symbol, start, end, newline, i);
    WholeOnLine(source, symbol, start, end, newline, i);
    HitAdded(source, symbol, hits, first, i);
    OnOneLine(source, start, newline, i);
    SiteAdded(source, hits, found, i, (row + 1, Utf16Count(source[start..i]) + 1));
  }

  /**
   Scans one line. After a find the scan goes on one byte further, which is the next character only when the symbol starts
   with a character of one byte; otherwise it aborts.
   */
  method ScanLine(source: seq<char>, symbol: seq<char>, start: nat, end: nat, row: nat, ghost newline: nat,
                  ghost hits: seq<nat>, found: seq<(nat, nat)>)
    returns (aborted: bool, found': seq<(nat, nat)>, ghost hits': seq<nat>)
    requires symbol != [] && IsLine(source, start, end, newline) && LineOf(source, start) == row + 1
    requires AscendingHits(source, symbol, hits, start) && SitesOf(source, hits, found)
    ensures aborted <==> Utf8Length(symbol[0]) > 1 && OccursWithin(source, symbol, start, newline)
    ensures !aborted ==> AscendingHits(source, symbol, hits', newline + 1) && SitesOf(source, hits', found')
  {
    found', hits', aborted := found, hits, false;
    var first := start;
    var next := Find(source, symbol, first, end);
    NoneBefore(source, symbol, start, end, newline, first, next);
    while next.Some?
      invariant start <= first <= end
      invariant AscendingHits(source, symbol, hits', first) && SitesOf(source, hits', found')
      invariant first > start ==> Utf8Length(symbol[0]) == 1
      invariant next.Some? ==> first <= next.value && next.value + |symbol| <= end
                               && MatchesAt(source, symbol, next.value)
      invariant forall i: nat | first <= i <= newline && (next.Some? ==> i < next.value) :: !Occurs(source, symbol, i)
      decreases end - first
    {
      var i := next.value;
      FindReported(source, symbol, start, end, newline, row, hits', found', first, i);
      if BoundedOnLine(source, start, end, i, |symbol|) {
        found' := found' + [(row + 1, Utf16Count(source[start..i]) + 1)];
        hits' := hits' + [i];
      }
      if Utf8Length(symbol[0]) > 1 {
        assert OccursWithin(source, symbol, start, newline);
        return true, found', hits';
      }
      first := i + 1;
      next := Find(source, symbol, first, end);
      NoneBefore(source, symbol, start, end, newline, first, next);
    }
    NoneAdded(source, symbol, hits', first, newline + 1);
  }

  lemma PastTheEnd(source: seq<char>, symbol: seq<char>, hits: seq<nat>, limit: nat)
    requires AscendingHits(source, symbol, hits, limit) && limit >= |source|
    ensures AscendingHits(source, symbol, hits, |source|)
  {
  }

  /** The scan meets a symbol whose first character takes several bytes, and steps into the middle of it. */
  ghost predicate Aborts(source: seq<char>, symbol: seq<char>) {
    symbol != [] && Utf8Length(symbol[0]) > 1 && exists i: nat :: Occurs(source, symbol, i)
  }

  /** Every whole-word occurrence of the symbol, by line and column, unless the scan aborts. */
  method WordBoundedMatches(source: seq<char>, symbol: seq<char>) returns (outcome: Outcome)
    ensures symbol == [] ==> outcome == Found([])
    ensures outcome.Aborted? <==> Aborts(source, symbol)
    ensures symbol != [] && outcome.Found? ==> ListsWholeWords(source, symbol, outcome.sites)
  {
    if symbol == [] {
      return Found([]);
    }
    var found: seq<(nat, nat)> := [];
    ghost var hits: seq<nat> := [];
    var start, row := 0, 0;
    while start < |source|
      invariant start <= |source| ==> StartsLine(source, start) && Newlines(source, start) == row
      invariant AscendingHits(source, symbol, hits, start) && SitesOf(source, hits, found)
      invariant Utf8Length(symbol[0]) > 1 ==> forall i: nat | i < start :: !Occurs(source, symbol, i)
      decreases |source| - start
    {
      var newline := NextNewline(source, start);
      var end := if newline < |source| && newline > start && source[newline - 1] == '\r' then newline - 1 else newline;
      AlongTheLine(source, start, newline);
      var aborted;
      aborted, found, hits := ScanLine(source, symbol, start, end, row, newline, hits, found);
      if aborted {
        return Aborted;
      }
      start, row := newline + 1, row + 1;
    }
    PastTheEnd(source, symbol, hits, start);
    outcome := Found(found);
  }

  /** The scan for a name that starts outside ASCII aborts in the text that is just this name. */
  lemma NonAsciiNameAborts()
    ensures Aborts(['\U{e9}', 't'], ['\U{e9}', 't'])
  {
    assert Occurs(['\U{e9}', 't'], ['\U{e9}', 't'], 0);
  }

  // ----- the kind of a site

  datatype SiteKind = CodeSite | CommentSite | StringSite

  function KindOf(state: LexState): (kind: SiteKind)
    ensures kind == CodeSite <==> state.Code?
    ensures kind == CommentSite <==> state.LineComment? || state.BlockComment?
  {
    match state
    case Code => CodeSite
    case LineComment => CommentSite
    case BlockComment => CommentSite
    case StringLiteral => StringSite
    case TextBlock => StringSite
    case CharLiteral => StringSite
  }

  /** The character a site stands for, if no later site stands for it as well. */
  ghost predicate Claims(source: seq<char>, sites: seq<(nat, nat)>, k: nat, i: nat) {
    k < |sites| && StandsAt(source, i, sites[k]) && forall later | k < later < |sites| :: sites[later] != sites[k]
  }

  /** A site is of the kind of its character; one that stands nowhere, or is repeated later, is taken for code. */
  ghost predicate Classifies(source: seq<char>, sites: seq<(nat, nat)>, kinds: seq<SiteKind>) {
    && |kinds| == |sites|
    && (forall k: nat, i: nat | Claims(source, sites, k, i) :: kinds[k] == KindOf(ModeAt(source, i).state))
    && (forall k: nat | k < |sites| && !(exists i: nat :: Claims(source, sites, k, i)) :: kinds[k] == CodeSite)
  }

  /** The offsets the sites stand at, each with the last site standing there. */
  ghost predicate Wants(source: seq<char>, sites: seq<(nat, nat)>, n: nat, wanted: map<nat, nat>) {
    && n <= |sites|
    && (forall offset | offset in wanted ::
          wanted[offset] < n && exists i: nat :: Claims(source, sites[..n], wanted[offset], i) && offset == OffsetOf(source, i))
    && (forall k: nat, i: nat | Claims(source, sites[..n], k, i) ::
          OffsetOf(source, i) in wanted && wanted[OffsetOf(source, i)] == k)
  }

  lemma SameOffset(source: seq<char>, i: nat, j: nat)
    requires i <= |source| && j <= |source| && OffsetOf(source, i) == OffsetOf(source, j)
    ensures i == j
  {
    if i < j {
      OffsetsDiffer(source, i, j);
    } else if j < i {
      OffsetsDiffer(source, j, i);
    }
  }

  lemma SamePosition(source: seq<char>, i: nat, j: nat)
    requires i <= |source| && j <= |source| && PositionOf(source, i) == PositionOf(source, j)
    ensures i == j
  {
    if i < j {
      PositionsDiffer(source, i, j);
    } else if j < i {
      PositionsDiffer(source, j, i);
    }
  }

  lemma ClaimsOneMore(source: seq<char>, sites: seq<(nat, nat)>, n: nat, k: nat, i: nat)
    requires n < |sites|
    ensures Claims(source, sites[..n + 1], k, i)
       <==> if k == n then StandsAt(source, i, sites[n]) else Claims(source, sites[..n], k, i) && sites[n] != sites[k]
  {
    if k < n {
      assert sites[..n + 1][k] == sites[..n][k] == sites[k];
      assert sites[..n + 1][n] == sites[n];
      assert forall later | k < later < n :: sites[..n + 1][later] == sites[..n][later];
    }
  }

  lemma WantsOneMore(source: seq<char>, sites: seq<(nat, nat)>, n: nat, wanted: map<nat, nat>, offset: Option<nat>)
    requires n < |sites| && Wants(source, sites, n, wanted) && Locates(source, sites[n], offset)
    ensures Wants(source, sites, n + 1, if offset.Some? then wanted[offset.value := n] else wanted)
  {
    var after := if offset.Some? then wanted[offset.value := n] else wanted;
    forall o | o in after
      ensures after[o] < n + 1 && exists i: nat :: Claims(source, sites[..n + 1], after[o], i) && o == OffsetOf(source, i)
    {
      if offset == Some(o) {
        var i: nat :| StandsAt(source, i, sites[n]) && o == OffsetOf(source, i);
        ClaimsOneMore(source, sites, n, n, i);
      } else {
        var i: nat :| Claims(source, sites[..n], wanted[o], i) && o == OffsetOf(source, i);
        ClaimsOneMore(source, sites, n, wanted[o], i);
        if sites[n] == sites[wanted[o]] {
          assert StandsAt(source, i, sites[n]);
          LocatesInverts(source, i, offset);
        }
      }
    }
    var seen := sites[..n + 1];
    forall k: nat, i: nat | Claims(source, seen, k, i)
      ensures OffsetOf(source, i) in after && after[OffsetOf(source, i)] == k
    {
      ClaimsOneMore(source, sites, n, k, i);
      if k == n {
        LocatesInverts(source, i, offset);
      } else if offset == Some(OffsetOf(source, i)) {
        var j: nat :| StandsAt(source, j, sites[n]) && offset.value == OffsetOf(source, j);
        SameOffset(source, i, j);
      }
    }
  }

  method Wanted(source: seq<char>, sites: seq<(nat, nat)>) returns (wanted: map<nat, nat>)
    ensures Wants(source, sites, |sites|, wanted)
  {
    wanted := map[];
    for n := 0 to |sites|
      invariant Wants(source, sites, n, wanted)
    {
      var offset := ByteOffsetOf(source, sites[n].0, sites[n].1);
      WantsOneMore(source, sites, n, wanted, offset);
      if offset.Some? {
        wanted := wanted[offset.value := n];
      }
    }
  }

  ghost predicate ClassifiesUpTo(source: seq<char>, sites: seq<(nat, nat)>, kinds: seq<SiteKind>, n: nat)
    requires n <= |source|
  {
    && |kinds| == |sites|
    && (forall k: nat, i: nat | i < n && Claims(source, sites, k, i) :: kinds[k] == KindOf(ModeAt(source, i).state))
    && (forall k: nat | k < |sites| && !(exists i: nat :: i < n && Claims(source, sites, k, i)) :: kinds[k] == CodeSite)
  }

  lemma OneClaim(source: seq<char>, sites: seq<(nat, nat)>, k: nat, i: nat, j: nat)
    requires Claims(source, sites, k, i) && Claims(source, sites, k, j)
    ensures i == j
  {
    SamePosition(source, i, j);
  }

  lemma ClassifiesOneMore(source: seq<char>, sites: seq<(nat, nat)>, wanted: map<nat, nat>, kinds: seq<SiteKind>,
                          n: nat)
    requires n < |source| && Wants(source, sites, |sites|, wanted) && ClassifiesUpTo(source, sites, kinds, n)
    ensures var offset := OffsetOf(source, n);
            offset in wanted ==>
              && wanted[offset] < |sites|
              && ClassifiesUpTo(source, sites, kinds[wanted[offset] := KindOf(ModeAt(source, n).state)], n + 1)
    ensures OffsetOf(source, n) !in wanted ==> ClassifiesUpTo(source, sites, kinds, n + 1)
  {
    assert sites[..|sites|] == sites;
    var offset := OffsetOf(source, n);
    if offset in wanted {
      var own := wanted[offset];
      var i: nat :| Claims(source, sites, own, i) && offset == OffsetOf(source, i);
      SameOffset(source, i, n);
      ClassifiesClaimed(source, sites, wanted, kinds, n, own);
    } else {
      forall k: nat
        ensures !Claims(source, sites, k, n)
      {
      }
    }
  }

  lemma ClassifiesClaimed(source: seq<char>, sites: seq<(nat, nat)>, wanted: map<nat, nat>, kinds: seq<SiteKind>,
                          n: nat, own: nat)
    requires n < |source| && Wants(source, sites, |sites|, wanted) && ClassifiesUpTo(source, sites, kinds, n)
    requires Claims(source, sites, own, n)
    ensures ClassifiesUpTo(source, sites, kinds[own := KindOf(ModeAt(source, n).state)], n + 1)
  {
    assert sites[..|sites|] == sites;
    var after := kinds[own := KindOf(ModeAt(source, n).state)];
    forall k: nat, i: nat | i < n + 1 && Claims(source, sites, k, i)
      ensures after[k] == KindOf(ModeAt(source, i).state)
    {
      if k == own {
        OneClaim(source, sites, own, n, i);
      }
      assert i == n ==> k == own;
    }
  }

  /** Classifies each site by the lexical state of the character it stands for. */
  method ClassifySites(source: seq<char>, sites: seq<(nat, nat)>) returns (kinds: seq<SiteKind>)
    ensures Classifies(source, sites, kinds)
  {
    var wanted := Wanted(source, sites);
    kinds := seq(|sites|, _ => CodeSite);
    var classified := Lex(source);
    for n := 0 to |classified|
      invariant ClassifiesUpTo(source, sites, kinds, n)
    {
      var (offset, state) := classified[n];
      ClassifiesOneMore(source, sites, wanted, kinds, n);
      if offset in wanted {
        kinds := kinds[wanted[offset] := KindOf(state)];
      }
    }
    assert forall k: nat, i: nat | Claims(source, sites, k, i) :: i < |source|;
  }

  /** Every site the scan finds is classified by the lexical state of the very character the occurrence starts with. */
  lemma FoundSitesAreClassified(source: seq<char>, symbol: seq<char>, sites: seq<(nat, nat)>, kinds: seq<SiteKind>)
    requires ListsWholeWords(source, symbol, sites) && Classifies(source, sites, kinds)
    ensures exists hits ::
              AscendingHits(source, symbol, hits, |source|) && SitesOf(source, hits, sites)
              && forall k | 0 <= k < |hits| :: hits[k] < |source| && kinds[k] == KindOf(ModeAt(source, hits[k]).state)
  {
    var hits :| AscendingHits(source, symbol, hits, |source|) && SitesOf(source, hits, sites);
    forall k | 0 <= k < |hits|
      ensures hits[k] < |source| && kinds[k] == KindOf(ModeAt(source, hits[k]).state)
    {
      assert hits[k] in hits;
      assert symbol[0] == source[hits[k]..hits[k] + |symbol|][0];
      forall later | k < later < |sites|
        ensures sites[later] != sites[k]
      {
        PositionsDiffer(source, hits[k], hits[later]);
      }
      assert Claims(source, sites, k, hits[k]);
    }
  }

  /** The same site is given again further on. */
  ghost predicate GivenAgain(sites: seq<(nat, nat)>, k: nat) {
    exists later :: k < later < |sites| && sites[later] == sites[k]
  }

  /**
   Every site that stands somewhere gets the kind of its character exactly when the ones that are given
   again stand in code.
   */
  lemma KindsAreExactly(source: seq<char>, sites: seq<(nat, nat)>, kinds: seq<SiteKind>)
    requires Classifies(source, sites, kinds)
    ensures (forall k: nat, i: nat | k < |sites| && StandsAt(source, i, sites[k]) ::
               kinds[k] == KindOf(ModeAt(source, i).state))
       <==> (forall k: nat, i: nat | k < |sites| && StandsAt(source, i, sites[k]) && GivenAgain(sites, k) ::
               ModeAt(source, i).state == Code)
  {
    forall k: nat, i: nat | k < |sites| && StandsAt(source, i, sites[k])
      ensures if GivenAgain(sites, k) then kinds[k] == CodeSite else kinds[k] == KindOf(ModeAt(source, i).state)
    {
      if !GivenAgain(sites, k) {
        assert Claims(source, sites, k, i);
      }
    }
  }

  /** In an unclosed string, the first of two equal sites is taken for code. */
  lemma FirstOfTwoIsTakenForCode(kinds: seq<SiteKind>)
    requires Classifies(['"', 'a'], [(1, 2), (1, 2)], kinds)
    ensures kinds == [CodeSite, StringSite]
  {
    var source, sites := ['"', 'a'], [(1, 2), (1, 2)];
    assert ColumnOf(source, 1) == 2 && LineOf(source, 1) == 1;
    assert StandsAt(source, 1, sites[0]) && sites[1] == sites[0];
    assert Claims(source, sites, 1, 1);
    assert ModeAt(source, 1).state == StringLiteral;
  }
}
