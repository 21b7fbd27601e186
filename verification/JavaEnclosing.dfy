/**
 The brace walk that names the Java declaration enclosing a line: it opens a scope at every `{`,
 names it when a type or member header precedes it, and closes it at the matching `}`.
 */
module JavaEnclosing {
  import opened JavaHeaders
  import opened JavaLexer
  import opened JavaTokens
  import opened Options

  /** The header read so far, as the walk keeps it. */
  datatype Unit = Unit(
    className: Option<string>,
    methodName: Option<string>,
    prevIdent: Option<string>,
    expectClassName: bool,
    sawNew: bool,
    sawArrow: bool,
    startLine: Option<nat>)
  {
    function ObserveIdent(name: string, line: nat): Unit {
      Observe(name, line, IsClassKeyword(name), name == "new")
    }

    function Observe(name: string, line: nat, isClass: bool, isNew: bool): Unit {
      var begun := if startLine.None? then this.(startLine := Some(line)) else this;
      var seen :=
        if isClass then begun.(expectClassName := true)
        else if begun.expectClassName then begun.(className := Some(name), expectClassName := false)
        else if isNew then begun.(sawNew := true)
        else begun;
      seen.(prevIdent := Some(name))
    }

    function ObserveParamListOpen(): Unit {
      if className.Some? then this
      else if prevIdent.Some? && !IsControlKeyword(prevIdent.value) && !sawNew then this.(methodName := prevIdent)
      else this
    }

    function ScopeName(parenDepth: nat): Option<string> {
      if className.Some? then className
      else if parenDepth == 0 && !sawArrow then methodName
      else None
    }
  }

  const NO_UNIT := Unit(None, None, None, false, false, false, None)

  /** A scope still open. `openAt` is the position of its brace among the tokens, which only the proofs look at. */
  datatype OpenScope = OpenScope(openLine: nat, named: bool, path: Option<string>, openAt: nat)

  /**
   A closed scope: the lines it spans, the dotted path of named scopes it lies in, and the positions of its
   two braces. Scopes that the end of the text closes are closed one by one behind the last token.
   */
  datatype Interval = Interval(openLine: nat, closeLine: nat, path: Option<string>, openAt: nat, closeAt: nat)

  datatype Walk = Walk(
    index: nat,
    intervals: seq<Interval>,
    namedStack: seq<string>,
    open: seq<OpenScope>,
    unit: Unit,
    parenDepth: nat)

  const START := Walk(0, [], [], [], NO_UNIT, 0)

  function Joined(names: seq<string>): string {
    if names == [] then ""
    else if |names| == 1 then names[0]
    else Joined(names[..|names| - 1]) + "." + names[|names| - 1]
  }

  function PathOf(names: seq<string>): Option<string> {
    if names == [] then None else Some(Joined(names))
  }

  function Opened(w: Walk, line: nat, at: nat): Walk {
    var name := w.unit.ScopeName(w.parenDepth);
    var names := if name.Some? then w.namedStack + [name.value] else w.namedStack;
    var openLine := if name.Some? && w.unit.startLine.Some? then w.unit.startLine.value else line;
    w.(namedStack := names, open := w.open + [OpenScope(openLine, name.Some?, PathOf(names), at)], unit := NO_UNIT)
  }

  function Closed(w: Walk, line: nat, at: nat): Walk {
    if w.open == [] then w.(unit := NO_UNIT)
    else
      var scope := w.open[|w.open| - 1];
      w.(open := WithoutLast(w.open),
         namedStack := if scope.named then WithoutLast(w.namedStack) else w.namedStack,
         intervals := w.intervals + [Interval(scope.openLine, line, scope.path, scope.openAt, at)],
         unit := NO_UNIT)
  }

  /** One iteration of the walk. */
  ghost function Step(tokens: seq<Spanned>, w: Walk): Walk
    requires w.index < |tokens|
  {
    var line := tokens[w.index].line;
    var next := w.(index := w.index + 1);
    match tokens[w.index].token
    case At =>
      if DeclaresAnnotation(tokens, w.index + 1) then
        w.(index := w.index + 2, unit := w.unit.(expectClassName := true))
      else w.(index := AnnotationEnd(tokens, w.index + 1))
    case Ident(name) => next.(unit := w.unit.ObserveIdent(name, line))
    case LParen =>
      next.(unit := if w.parenDepth == 0 then w.unit.ObserveParamListOpen() else w.unit, parenDepth := w.parenDepth + 1)
    case RParen => next.(parenDepth := if w.parenDepth == 0 then 0 else w.parenDepth - 1)
    case Arrow => next.(unit := w.unit.(sawArrow := true))
    case LBrace => Opened(next, line, w.index)
    case RBrace => Closed(next, line, w.index)
    case Semi => next.(unit := NO_UNIT)
    case _ => next
  }

  /** The walk after `n` iterations, or at its end. */
  ghost function After(tokens: seq<Spanned>, n: nat): Walk {
    if n == 0 then START
    else
      var before := After(tokens, n - 1);
      if before.index < |tokens| then Step(tokens, before) else before
  }

  /** Scopes left open at the end are closed at the last line, innermost first. */
  function ClosedAll(w: Walk, lastLine: nat, at: nat): Walk
    decreases |w.open|
  {
    if w.open == [] then w else ClosedAll(Closed(w, lastLine, at), lastLine, at + 1)
  }

  /** All the scopes of the tokens, in the order they close. */
  ghost function Scopes(tokens: seq<Spanned>, lastLine: nat): seq<Interval> {
    var end := After(tokens, |tokens|);
    ClosedAll(end, lastLine, end.index).intervals
  }

  lemma NothingLeftToRead(tokens: seq<Spanned>, n: nat)
    requires After(tokens, n).index >= |tokens|
    ensures After(tokens, n + 1) == After(tokens, n)
  {
  }

  lemma {:induction false} StaysAtTheEnd(tokens: seq<Spanned>, n: nat, m: nat)
    requires n <= m && After(tokens, n).index >= |tokens|
    ensures After(tokens, m) == After(tokens, n)
    decreases m - n
  {
    if n < m {
      NothingLeftToRead(tokens, n);
      StaysAtTheEnd(tokens, n + 1, m);
    }
  }

  /** Closes the scopes that are left open, innermost first. */
  method CloseRest(intervals: seq<Interval>, open: seq<OpenScope>, lastLine: nat, end: nat, ghost w: Walk)
    returns (intervals': seq<Interval>)
    requires w.intervals == intervals && w.open == open
    ensures intervals' == ClosedAll(w, lastLine, end).intervals
  {
    intervals' := intervals;
    var rest, at := open, end;
    ghost var now := w;
    while rest != []
      invariant now.intervals == intervals' && now.open == rest
      invariant ClosedAll(now, lastLine, at) == ClosedAll(w, lastLine, end)
      decreases |rest|
    {
      var scope := rest[|rest| - 1];
      now := Closed(now, lastLine, at);
      rest := rest[..|rest| - 1];
      intervals' := intervals' + [Interval(scope.openLine, lastLine, scope.path, scope.openAt, at)];
      at := at + 1;
    }
  }

  /** What a token that neither opens, closes nor ends anything does to the walk. */
  method ReadOn(tokens: seq<Spanned>, index: nat, unit: Unit, parenDepth: nat)
    returns (index': nat, unit': Unit, parenDepth': nat)
    requires index < |tokens| && !IsBoundary(tokens[index].token)
    ensures forall intervals, namedStack, open ::
              Step(tokens, Walk(index, intervals, namedStack, open, unit, parenDepth))
              == Walk(index', intervals, namedStack, open, unit', parenDepth')
    ensures index' > index
  {
    var line := tokens[index].line;
    index', unit', parenDepth' := index + 1, unit, parenDepth;
    match tokens[index].token {
      case At =>
        if DeclaresAnnotation(tokens, index + 1) {
          unit' := unit.(expectClassName := true);
          index' := index + 2;
        } else {
          index' := SkipAnnotationUse(tokens, index + 1);
        }
      case Ident(name) => unit' := unit.ObserveIdent(name, line);
      case LParen =>
        if parenDepth == 0 {
          unit' := unit.ObserveParamListOpen();
        }
        parenDepth' := parenDepth + 1;
      case RParen => parenDepth' := if parenDepth == 0 then 0 else parenDepth - 1;
      case Arrow => unit' := unit.(sawArrow := true);
      case _ =>
    }
  }

  /** The walk over all the tokens, which takes as many iterations as there are tokens, at most. */
  method EnclosingIntervals(tokens: seq<Spanned>, lastLine: nat) returns (intervals: seq<Interval>)
    ensures After(tokens, |tokens|).index >= |tokens|
    ensures intervals == Scopes(tokens, lastLine)
  {
    ghost var iterations: nat := 0;
    intervals := [];
    var namedStack: seq<string> := [];
    var open: seq<OpenScope> := [];
    var unit := NO_UNIT;
    var parenDepth: nat := 0;
    var index: nat := 0;
    while index < |tokens|
      invariant iterations <= index && iterations <= |tokens|
      invariant Walk(index, intervals, namedStack, open, unit, parenDepth) == After(tokens, iterations)
      decreases |tokens| - index
    {
      var line := tokens[index].line;
      match tokens[index].token {
        case LBrace =>
          var named := unit.ScopeName(parenDepth);
          var openLine := line;
          match named {
            case Some(name) =>
              namedStack := namedStack + [name];
              openLine := if unit.startLine.Some? then unit.startLine.value else line;
            case None =>
          }
          open := open + [OpenScope(openLine, named.Some?, PathOf(namedStack), index)];
          unit := NO_UNIT;
          index := index + 1;
        case RBrace =>
          if open != [] {
            var scope := open[|open| - 1];
            open := open[..|open| - 1];
            if scope.named {
              namedStack := WithoutLast(namedStack);
            }
            intervals := intervals + [Interval(scope.openLine, line, scope.path, scope.openAt, index)];
          }
          unit := NO_UNIT;
          index := index + 1;
        case Semi =>
          unit := NO_UNIT;
          index := index + 1;
        case _ =>
          index, unit, parenDepth := ReadOn(tokens, index, unit, parenDepth);
      }
      iterations := iterations + 1;
    }
    StaysAtTheEnd(tokens, iterations, |tokens|);
    intervals := CloseRest(intervals, open, lastLine, index, After(tokens, |tokens|));
  }

  // ----- what names a scope

  /** What a header comes to. */
  ghost function UnitOf(h: seq<Read>): Unit {
    var begun := First(h, EndsInWord);
    Unit(NameIn(TypeName(h)), NameIn(MemberName(h)), NameIn(Last(h, EndsInWord)), ExpectsName(h), Last(h, EndsInNew) != [],
         HasArrow(h), if begun == [] then None else Some(Final(begun).spanned.line))
  }

  lemma WordIsObserved(h: seq<Read>, r: Read)
    requires r.spanned.token.Ident?
    ensures UnitOf(h + [r]) == UnitOf(h).ObserveIdent(r.spanned.token.name, r.spanned.line)
  {
    LastOfOneMore(h, r, EndsInWord);
    LastOfOneMore(h, r, EndsInMark);
    LastOfOneMore(h, r, EndsInTypeName);
    LastOfOneMore(h, r, EndsInNamingList);
    LastOfOneMore(h, r, EndsInNew);
    LastOfOneMore(h, r, EndsInArrow);
  }

  lemma ListIsObserved(h: seq<Read>, r: Read)
    requires r.spanned.token.LParen?
    ensures UnitOf(h + [r]) == if r.depth == 0 then UnitOf(h).ObserveParamListOpen() else UnitOf(h)
  {
    LastOfOneMore(h, r, EndsInWord);
    LastOfOneMore(h, r, EndsInMark);
    LastOfOneMore(h, r, EndsInTypeName);
    LastOfOneMore(h, r, EndsInNamingList);
    LastOfOneMore(h, r, EndsInNew);
    LastOfOneMore(h, r, EndsInArrow);
  }

  lemma OtherIsObserved(h: seq<Read>, r: Read)
    requires !r.spanned.token.Ident? && !r.spanned.token.LParen?
    ensures UnitOf(h + [r])
         == if r.spanned.token.At? then UnitOf(h).(expectClassName := true)
            else if r.spanned.token.Arrow? then UnitOf(h).(sawArrow := true)
            else UnitOf(h)
  {
    LastOfOneMore(h, r, EndsInWord);
    LastOfOneMore(h, r, EndsInMark);
    LastOfOneMore(h, r, EndsInTypeName);
    LastOfOneMore(h, r, EndsInNamingList);
    LastOfOneMore(h, r, EndsInNew);
    LastOfOneMore(h, r, EndsInArrow);
  }

  /** What one more token that is no boundary makes of it. */
  function Observed(unit: Unit, r: Read): Unit {
    match r.spanned.token
    case Ident(name) => unit.ObserveIdent(name, r.spanned.line)
    case LParen => if r.depth == 0 then unit.ObserveParamListOpen() else unit
    case At => unit.(expectClassName := true)
    case Arrow => unit.(sawArrow := true)
    case _ => unit
  }

  lemma HeaderGrows(h: seq<Read>, r: Read)
    requires !IsBoundary(r.spanned.token)
    ensures UnitOf(h + [r]) == Observed(UnitOf(h), r)
  {
    match r.spanned.token {
      case Ident(_) => WordIsObserved(h, r);
      case LParen => ListIsObserved(h, r);
      case _ => OtherIsObserved(h, r);
    }
  }

  /** The walk moves as the reader does, and takes note of what the reader reads. */
  lemma StepObserves(tokens: seq<Spanned>, w: Walk, r: Reader)
    requires w.index == r.index < |tokens| && w.parenDepth == r.depth
    ensures Step(tokens, w).index == ReadNext(tokens, r).index && Step(tokens, w).parenDepth == ReadNext(tokens, r).depth
    ensures var now, next, read := Step(tokens, w), ReadNext(tokens, r), Read(tokens[r.index], r.depth);
            if IsBoundary(read.spanned.token) then next.header == [] && now.unit == NO_UNIT
            else if IsUse(tokens, r.index) then next.header == r.header && now.unit == w.unit
            else next.header == r.header + [read] && now.unit == Observed(w.unit, read)
  {
  }

  /** The walk stands where the reader does, with the unit that its header comes to. */
  ghost predicate Reads(w: Walk, r: Reader) {
    w.index == r.index && w.parenDepth == r.depth && w.unit == UnitOf(r.header)
  }

  lemma EmptyHeader()
    ensures UnitOf([]) == NO_UNIT
  {
  }

  lemma StepReads(tokens: seq<Spanned>, w: Walk, r: Reader)
    requires Reads(w, r) && w.index < |tokens|
    ensures Reads(Step(tokens, w), ReadNext(tokens, r))
  {
    StepObserves(tokens, w, r);
    var read := Read(tokens[r.index], r.depth);
    if IsBoundary(read.spanned.token) {
      EmptyHeader();
    } else if !IsUse(tokens, r.index) {
      HeaderGrows(r.header, read);
    }
  }

  /** The walk knows of the tokens since the last boundary what their header says. */
  lemma {:induction false} HeaderIsRead(tokens: seq<Spanned>, n: nat)
    ensures Reads(After(tokens, n), Reading(tokens, n))
  {
    if n > 0 {
      HeaderIsRead(tokens, n - 1);
      if After(tokens, n - 1).index < |tokens| {
        StepReads(tokens, After(tokens, n - 1), Reading(tokens, n - 1));
      }
    }
  }

  lemma ClassNameIsRead(tokens: seq<Spanned>, n: nat)
    ensures After(tokens, n).index == Reading(tokens, n).index
    ensures After(tokens, n).unit.className == NameIn(TypeName(Reading(tokens, n).header))
  {
    HeaderIsRead(tokens, n);
  }

  /** The name of the scope that a `{` opens behind the header. */
  ghost function ScopeNameOf(h: seq<Read>, depth: nat): Option<string> {
    if TypeName(h) != [] then NameIn(TypeName(h))
    else if depth == 0 && !HasArrow(h) then NameIn(MemberName(h))
    else None
  }

  /** A `{` opens a scope named by the type name of the header, or else by its member name outside lists and lambdas. */
  lemma BraceOpensNamedScope(tokens: seq<Spanned>, n: nat)
    requires After(tokens, n).index < |tokens| && tokens[After(tokens, n).index].token.LBrace?
    ensures var w, now, r := After(tokens, n), After(tokens, n + 1), Reading(tokens, n);
            var name := ScopeNameOf(r.header, r.depth);
            && now.namedStack == (if name.Some? then w.namedStack + [name.value] else w.namedStack)
            && |now.open| == |w.open| + 1
            && now.open[|w.open|].named == name.Some?
            && now.open[|w.open|].path == PathOf(now.namedStack)
  {
    HeaderIsRead(tokens, n);
  }

  /** A control block is anonymous exactly when no word of its header follows a class word. */
  lemma ControlBlockIsAnonymousExactly(h: seq<Read>, p: nat, depth: nat)
    requires IsControlHeader(h, p)
    ensures ScopeNameOf(h, depth) == None <==> !exists j: nat, k: nat :: NamesType(h, j, k)
  {
    ControlBlockHasNoMemberName(h, p);
    TypeNameExactly(h);
  }

  // ----- the scopes are laminar

  /** Token lines never decrease, and stay within the file. */
  ghost predicate InOrder(tokens: seq<Spanned>, lastLine: nat) {
    && (forall i, j | 0 <= i <= j < |tokens| :: tokens[i].line <= tokens[j].line)
    && (forall i | 0 <= i < |tokens| :: tokens[i].line <= lastLine)
  }

  /** `inner` lies in `outer`: its path is the outer path or continues it at a dot. */
  predicate Continues(outer: Option<string>, inner: Option<string>) {
    || outer.None?
    || (inner.Some? && (inner == outer || outer.value + "." <= inner.value))
  }

  /** The lines and the path of `a` lie within those of `b`. */
  predicate Inside(a: Interval, b: Interval) {
    b.openLine <= a.openLine && a.closeLine <= b.closeLine && Continues(b.path, a.path)
  }

  /** The braces of `a` stand between those of `b`. */
  predicate NestedIn(a: Interval, b: Interval) {
    b.openAt < a.openAt && a.closeAt < b.closeAt
  }

  /** Both braces of `a` stand before those of `b`. */
  predicate EndsBefore(a: Interval, b: Interval) {
    a.closeAt < b.openAt
  }

  /** Of two scopes, `a` closed first: its braces stand between those of `b` or before them, and so do its lines. */
  predicate NestsOrEnds(a: Interval, b: Interval) {
    (NestedIn(a, b) && Inside(a, b)) || (EndsBefore(a, b) && a.closeLine <= b.openLine)
  }

  ghost predicate Laminar(intervals: seq<Interval>) {
    && (forall k | 0 <= k < |intervals| :: intervals[k].openAt < intervals[k].closeAt)
    && (forall k, l | 0 <= k < l < |intervals| :: NestsOrEnds(intervals[k], intervals[l]))
  }

  /** The same of a closed scope and one that is still open. */
  predicate NestsOrEndsOpen(a: Interval, b: OpenScope) {
    || (b.openAt < a.openAt && b.openLine <= a.openLine && Continues(b.path, a.path))
    || (a.closeAt < b.openAt && a.closeLine <= b.openLine)
  }

  /** The stack of names holds the names of the open named scopes, and each scope's path is what it held then. */
  ghost predicate NamesMatch(namedStack: seq<string>, open: seq<OpenScope>)
    decreases |open|
  {
    if open == [] then namedStack == []
    else
      var scope := open[|open| - 1];
      && scope.path == PathOf(namedStack)
      && (scope.named ==> namedStack != [])
      && NamesMatch(if scope.named then WithoutLast(namedStack) else namedStack, open[..|open| - 1])
  }

  ghost predicate OpensNest(open: seq<OpenScope>) {
    forall i, j | 0 <= i < j < |open| :: open[i].openLine <= open[j].openLine && open[i].openAt < open[j].openAt
  }

  ghost predicate ClosedBy(intervals: seq<Interval>, line: nat) {
    forall k | 0 <= k < |intervals| :: intervals[k].openLine <= intervals[k].closeLine <= line
  }

  ghost predicate OpenedBy(open: seq<OpenScope>, line: nat) {
    forall i | 0 <= i < |open| :: open[i].openLine <= line
  }

  /** Every brace met so far stands before position `at`. */
  ghost predicate BracesBefore(intervals: seq<Interval>, open: seq<OpenScope>, at: nat) {
    && (forall k | 0 <= k < |intervals| :: intervals[k].openAt < intervals[k].closeAt < at)
    && (forall i | 0 <= i < |open| :: open[i].openAt < at)
  }

  ghost predicate ClosedAmongOpen(intervals: seq<Interval>, open: seq<OpenScope>) {
    forall k, i | 0 <= k < |intervals| && 0 <= i < |open| :: NestsOrEndsOpen(intervals[k], open[i])
  }

  /** What the walk keeps true while it has read no token beyond `line`, nor at position `at`. */
  ghost predicate WalkedTo(w: Walk, line: nat, at: nat) {
    && NamesMatch(w.namedStack, w.open)
    && OpensNest(w.open) && OpenedBy(w.open, line)
    && ClosedBy(w.intervals, line) && Laminar(w.intervals)
    && ClosedAmongOpen(w.intervals, w.open)
    && BracesBefore(w.intervals, w.open, at)
    && (w.unit.startLine.Some? ==>
          w.unit.startLine.value <= line
          && OpenedBy(w.open, w.unit.startLine.value) && ClosedBy(w.intervals, w.unit.startLine.value))
  }

  lemma {:induction false} JoinedContinues(names: seq<string>, n: nat)
    requires 0 < n < |names|
    ensures Joined(names[..n]) + "." <= Joined(names)
    decreases |names|
  {
    var shorter := names[..|names| - 1];
    if n < |names| - 1 {
      JoinedContinues(shorter, n);
      assert shorter[..n] == names[..n];
    }
  }

  lemma PathContinues(names: seq<string>, n: nat)
    requires n <= |names|
    ensures Continues(PathOf(names[..n]), PathOf(names))
  {
    if 0 < n < |names| {
      JoinedContinues(names, n);
    } else if n == |names| {
      assert names[..n] == names;
    }
  }

  /** Every open scope's path is an initial part of the current one. */
  lemma {:induction false} OpenPathsArePrefixes(namedStack: seq<string>, open: seq<OpenScope>, i: nat)
    requires NamesMatch(namedStack, open) && i < |open|
    ensures exists n :: 0 <= n <= |namedStack| && open[i].path == PathOf(namedStack[..n])
    decreases |open|
  {
    var scope := open[|open| - 1];
    if i == |open| - 1 {
      assert namedStack[..|namedStack|] == namedStack;
    } else {
      var names := if scope.named then WithoutLast(namedStack) else namedStack;
      OpenPathsArePrefixes(names, open[..|open| - 1], i);
      var n :| 0 <= n <= |names| && open[..|open| - 1][i].path == PathOf(names[..n]);
      assert names[..n] == namedStack[..n];
    }
  }

  /** So a scope's path continues the path of every scope around it. */
  lemma OpenPathsContinue(namedStack: seq<string>, open: seq<OpenScope>, i: nat)
    requires NamesMatch(namedStack, open) && i < |open|
    ensures Continues(open[i].path, open[|open| - 1].path)
  {
    OpenPathsArePrefixes(namedStack, open, i);
    var n :| 0 <= n <= |namedStack| && open[i].path == PathOf(namedStack[..n]);
    PathContinues(namedStack, n);
  }

  lemma OpenKeepsNames(w: Walk, line: nat, at: nat)
    requires NamesMatch(w.namedStack, w.open)
    ensures NamesMatch(Opened(w, line, at).namedStack, Opened(w, line, at).open)
  {
    var now := Opened(w, line, at);
    assert now.open[..|w.open|] == w.open;
    assert now.open[|w.open|].named ==> WithoutLast(now.namedStack) == w.namedStack;
  }

  lemma OpenKeepsClosed(intervals: seq<Interval>, open: seq<OpenScope>, at: nat, scope: OpenScope)
    requires ClosedAmongOpen(intervals, open) && BracesBefore(intervals, open, at) && ClosedBy(intervals, scope.openLine)
    requires scope.openAt == at
    ensures ClosedAmongOpen(intervals, open + [scope])
  {
    forall k, i | 0 <= k < |intervals| && 0 <= i < |open + [scope]|
      ensures NestsOrEndsOpen(intervals[k], (open + [scope])[i])
    {
      if i < |open| {
        assert (open + [scope])[i] == open[i];
      }
    }
  }

  lemma OpenKeeps(w: Walk, line: nat, at: nat)
    requires WalkedTo(w, line, at)
    ensures WalkedTo(Opened(w, line, at), line, at + 1)
  {
    var now := Opened(w, line, at);
    OpenKeepsNames(w, line, at);
    OpenKeepsClosed(w.intervals, w.open, at, now.open[|w.open|]);
    assert now.open == w.open + [now.open[|w.open|]];
  }

  lemma CloseKeeps(w: Walk, line: nat, at: nat)
    requires WalkedTo(w, line, at)
    ensures WalkedTo(Closed(w, line, at), line, at + 1)
  {
    if w.open != [] {
      var now := Closed(w, line, at);
      var last := |w.open| - 1;
      var scope := w.open[last];
      assert now.open == w.open[..last];
      forall k, l | 0 <= k < l < |now.intervals|
        ensures NestsOrEnds(now.intervals[k], now.intervals[l])
      {
        if l == |w.intervals| {
          assert NestsOrEndsOpen(w.intervals[k], scope);
        }
      }
      forall k, i | 0 <= k < |now.intervals| && 0 <= i < |now.open|
        ensures NestsOrEndsOpen(now.intervals[k], now.open[i])
      {
        if k == |w.intervals| {
          OpenPathsContinue(w.namedStack, w.open, i);
        } else {
          assert NestsOrEndsOpen(w.intervals[k], w.open[i]);
        }
      }
    }
  }

  lemma LaterKeeps(w: Walk, line: nat, at: nat, later: nat, beyond: nat)
    requires WalkedTo(w, line, at) && line <= later && at <= beyond
    ensures WalkedTo(w, later, beyond)
  {
  }

  lemma StepKeeps(tokens: seq<Spanned>, w: Walk, line: nat)
    requires w.index < |tokens| && WalkedTo(w, line, w.index) && line <= tokens[w.index].line
    ensures WalkedTo(Step(tokens, w), tokens[w.index].line, Step(tokens, w).index)
    ensures Step(tokens, w).index > w.index
  {
    var here := tokens[w.index].line;
    LaterKeeps(w, line, w.index, here, w.index);
    if tokens[w.index].token.LBrace? || tokens[w.index].token.RBrace? {
      BraceKeeps(tokens, w, here);
    } else {
      OtherKeeps(tokens, w, here);
    }
  }

  lemma BraceKeeps(tokens: seq<Spanned>, w: Walk, here: nat)
    requires w.index < |tokens| && here == tokens[w.index].line && WalkedTo(w, here, w.index)
    requires tokens[w.index].token.LBrace? || tokens[w.index].token.RBrace?
    ensures WalkedTo(Step(tokens, w), here, Step(tokens, w).index) && Step(tokens, w).index > w.index
  {
    var next := w.(index := w.index + 1);
    assert WalkedTo(next, here, w.index);
    if tokens[w.index].token.LBrace? {
      OpenKeeps(next, here, w.index);
    } else {
      CloseKeeps(next, here, w.index);
    }
  }

  /** Between braces only the unit and the position change, and the unit begins on the line it is read at. */
  lemma OtherKeeps(tokens: seq<Spanned>, w: Walk, here: nat)
    requires w.index < |tokens| && here == tokens[w.index].line
    requires WalkedTo(w, here, w.index)
    requires !tokens[w.index].token.LBrace? && !tokens[w.index].token.RBrace?
    ensures Step(tokens, w).index > w.index
    ensures WalkedTo(Step(tokens, w), here, Step(tokens, w).index)
  {
    var after := Step(tokens, w);
    assert after.open == w.open && after.intervals == w.intervals && after.namedStack == w.namedStack;
    assert after.unit.startLine == w.unit.startLine || after.unit.startLine == Some(here) || after.unit.startLine == None;
  }

  /** `line` is the line of the last token read. */
  ghost predicate ReadUpTo(tokens: seq<Spanned>, lastLine: nat, w: Walk, line: nat) {
    line <= lastLine && WalkedTo(w, line, w.index) && (w.index < |tokens| ==> line <= tokens[w.index].line)
  }

  lemma {:induction false} AfterKeeps(tokens: seq<Spanned>, lastLine: nat, n: nat) returns (line: nat)
    requires InOrder(tokens, lastLine)
    ensures ReadUpTo(tokens, lastLine, After(tokens, n), line)
  {
    if n == 0 {
      line := 0;
    } else {
      line := AfterKeeps(tokens, lastLine, n - 1);
      var before := After(tokens, n - 1);
      if before.index < |tokens| {
        StepKeeps(tokens, before, line);
        line := tokens[before.index].line;
      }
    }
  }

  lemma {:induction false} ClosedAllKeeps(w: Walk, lastLine: nat, at: nat)
    requires WalkedTo(w, lastLine, at)
    ensures Laminar(ClosedAll(w, lastLine, at).intervals)
    ensures ClosedBy(ClosedAll(w, lastLine, at).intervals, lastLine)
    ensures |ClosedAll(w, lastLine, at).intervals| == |w.intervals| + |w.open|
    decreases |w.open|
  {
    if w.open != [] {
      CloseKeeps(w, lastLine, at);
      ClosedAllKeeps(Closed(w, lastLine, at), lastLine, at + 1);
    }
  }

  lemma StepCounts(tokens: seq<Spanned>, w: Walk)
    requires w.index < |tokens|
    ensures |Step(tokens, w).intervals| + |Step(tokens, w).open|
         == |w.intervals| + |w.open| + (if tokens[w.index].token.LBrace? then 1 else 0)
  {
  }

  /** How many `{` the walk met, annotations skipped: each gave one scope, closed or still open. */
  ghost function BracesMet(tokens: seq<Spanned>, n: nat): (r: nat)
    ensures r == |After(tokens, n).intervals| + |After(tokens, n).open|
  {
    if n == 0 then 0
    else
      var before := After(tokens, n - 1);
      var met := BracesMet(tokens, n - 1);
      if before.index < |tokens| then
        StepCounts(tokens, before);
        met + (if tokens[before.index].token.LBrace? then 1 else 0)
      else met
  }

  /**
   Every `{` met yields one scope. Of any two, the braces of one stand between those of the other or before
   them, and then its lines and its path do so, too.
   */
  lemma ScopesAreLaminar(tokens: seq<Spanned>, lastLine: nat)
    requires InOrder(tokens, lastLine)
    ensures Laminar(Scopes(tokens, lastLine)) && ClosedBy(Scopes(tokens, lastLine), lastLine)
    ensures |Scopes(tokens, lastLine)| == BracesMet(tokens, |tokens|)
  {
    var end := After(tokens, |tokens|);
    var line := AfterKeeps(tokens, lastLine, |tokens|);
    LaterKeeps(end, line, end.index, lastLine, end.index);
    ClosedAllKeeps(end, lastLine, end.index);
  }

  // ----- every scope belongs to its braces

  lemma StepAdvances(tokens: seq<Spanned>, w: Walk)
    requires w.index < |tokens|
    ensures Step(tokens, w).index > w.index
  {
  }

  lemma {:induction false} EndIsReached(tokens: seq<Spanned>, n: nat)
    ensures After(tokens, n).index >= n || After(tokens, n).index >= |tokens|
  {
    if n > 0 {
      EndIsReached(tokens, n - 1);
      if After(tokens, n - 1).index < |tokens| {
        StepAdvances(tokens, After(tokens, n - 1));
      }
    }
  }

  /** The scope was opened by the brace at its position, and closed by the one at the other or by the end of the text. */
  ghost predicate StandsAtItsBraces(tokens: seq<Spanned>, lastLine: nat, a: Interval) {
    && a.openAt < |tokens| && tokens[a.openAt].token.LBrace?
    && if a.closeAt < |tokens| then tokens[a.closeAt].token.RBrace? && tokens[a.closeAt].line == a.closeLine
       else a.closeLine == lastLine
  }

  ghost predicate AtBraces(tokens: seq<Spanned>, lastLine: nat, w: Walk) {
    && (forall k | 0 <= k < |w.intervals| :: StandsAtItsBraces(tokens, lastLine, w.intervals[k]))
    && (forall i | 0 <= i < |w.open| :: w.open[i].openAt < |tokens| && tokens[w.open[i].openAt].token.LBrace?)
  }

  lemma StepKeepsBraces(tokens: seq<Spanned>, lastLine: nat, w: Walk)
    requires AtBraces(tokens, lastLine, w) && w.index < |tokens|
    ensures AtBraces(tokens, lastLine, Step(tokens, w))
  {
  }

  lemma {:induction false} AfterAtBraces(tokens: seq<Spanned>, lastLine: nat, n: nat)
    ensures AtBraces(tokens, lastLine, After(tokens, n))
  {
    if n > 0 {
      AfterAtBraces(tokens, lastLine, n - 1);
      if After(tokens, n - 1).index < |tokens| {
        StepKeepsBraces(tokens, lastLine, After(tokens, n - 1));
      }
    }
  }

  lemma {:induction false} ClosedAllAtBraces(tokens: seq<Spanned>, lastLine: nat, w: Walk, at: nat)
    requires AtBraces(tokens, lastLine, w) && at >= |tokens|
    ensures AtBraces(tokens, lastLine, ClosedAll(w, lastLine, at))
    decreases |w.open|
  {
    if w.open != [] {
      ClosedAllAtBraces(tokens, lastLine, Closed(w, lastLine, at), at + 1);
    }
  }

  /** The positions by which scopes nest are those of their braces. */
  lemma ScopesStandAtBraces(tokens: seq<Spanned>, lastLine: nat)
    ensures forall a | a in Scopes(tokens, lastLine) :: StandsAtItsBraces(tokens, lastLine, a)
  {
    var end := After(tokens, |tokens|);
    EndIsReached(tokens, |tokens|);
    AfterAtBraces(tokens, lastLine, |tokens|);
    ClosedAllAtBraces(tokens, lastLine, end, end.index);
  }

  /** The walk knows the scope opened at the position, on the line and under the path. */
  ghost predicate KnowsScope(w: Walk, at: nat, line: nat, path: Option<string>) {
    || (exists a :: a in w.intervals && a.openAt == at && a.openLine == line && a.path == path)
    || (exists o :: o in w.open && o.openAt == at && o.openLine == line && o.path == path)
  }

  lemma ClosingKeepsScope(w: Walk, line: nat, close: nat, at: nat, openLine: nat, path: Option<string>)
    requires KnowsScope(w, at, openLine, path)
    ensures KnowsScope(Closed(w, line, close), at, openLine, path)
  {
    if w.open != [] {
      var now := Closed(w, line, close);
      var scope := w.open[|w.open| - 1];
      assert now.intervals == w.intervals + [Interval(scope.openLine, line, scope.path, scope.openAt, close)];
      assert forall a | a in w.intervals :: a in now.intervals;
      assert now.intervals[|w.intervals|] in now.intervals;
      assert w.open == now.open + [scope];
    }
  }

  lemma StepKeepsScope(tokens: seq<Spanned>, w: Walk, at: nat, openLine: nat, path: Option<string>)
    requires w.index < |tokens| && KnowsScope(w, at, openLine, path)
    ensures KnowsScope(Step(tokens, w), at, openLine, path)
  {
    var next := w.(index := w.index + 1);
    match tokens[w.index].token {
      case RBrace => ClosingKeepsScope(next, tokens[w.index].line, w.index, at, openLine, path);
      case LBrace =>
        var now := Opened(next, tokens[w.index].line, w.index);
        assert forall o | o in w.open :: o in now.open;
      case _ =>
        assert Step(tokens, w).open == w.open && Step(tokens, w).intervals == w.intervals;
    }
  }

  lemma {:induction false} LaterKnowsScope(tokens: seq<Spanned>, n: nat, m: nat, at: nat, openLine: nat, path: Option<string>)
    requires n <= m && KnowsScope(After(tokens, n), at, openLine, path)
    ensures KnowsScope(After(tokens, m), at, openLine, path)
    decreases m - n
  {
    if n < m {
      if After(tokens, n).index < |tokens| {
        StepKeepsScope(tokens, After(tokens, n), at, openLine, path);
      }
      assert KnowsScope(After(tokens, n + 1), at, openLine, path);
      LaterKnowsScope(tokens, n + 1, m, at, openLine, path);
    }
  }

  lemma {:induction false} ClosedAllKnowsScope(w: Walk, lastLine: nat, end: nat, at: nat, openLine: nat, path: Option<string>)
    requires KnowsScope(w, at, openLine, path)
    ensures exists a :: a in ClosedAll(w, lastLine, end).intervals && a.openAt == at && a.openLine == openLine && a.path == path
    decreases |w.open|
  {
    if w.open != [] {
      ClosingKeepsScope(w, lastLine, end, at, openLine, path);
      ClosedAllKnowsScope(Closed(w, lastLine, end), lastLine, end + 1, at, openLine, path);
    }
  }

  /** The line a scope opens on: that of its header's first word if the header names it, otherwise that of its brace. */
  ghost function OpenLineOf(h: seq<Read>, depth: nat, braceLine: nat): nat {
    var begun := First(h, EndsInWord);
    if ScopeNameOf(h, depth).Some? && begun != [] then Final(begun).spanned.line else braceLine
  }

  lemma BraceIsKnown(tokens: seq<Spanned>, n: nat)
    requires After(tokens, n).index < |tokens| && tokens[After(tokens, n).index].token.LBrace?
    ensures var at, r := After(tokens, n).index, Reading(tokens, n);
            KnowsScope(After(tokens, n + 1), at, OpenLineOf(r.header, r.depth, tokens[at].line),
                       PathOf(After(tokens, n + 1).namedStack))
  {
    HeaderIsRead(tokens, n);
    var now := After(tokens, n + 1);
    assert now.open[|now.open| - 1] in now.open;
  }

  /** A brace's scope is listed, from the line its header begins on, under the path of the names open behind the brace. */
  lemma BraceOpensListedScope(tokens: seq<Spanned>, lastLine: nat, n: nat)
    requires After(tokens, n).index < |tokens| && tokens[After(tokens, n).index].token.LBrace?
    ensures exists a :: a in Scopes(tokens, lastLine) && a.openAt == After(tokens, n).index
                        && a.openLine == OpenLineOf(Reading(tokens, n).header, Reading(tokens, n).depth,
                                                    tokens[After(tokens, n).index].line)
                        && a.path == PathOf(After(tokens, n + 1).namedStack)
  {
    var at, path := After(tokens, n).index, PathOf(After(tokens, n + 1).namedStack);
    var openLine := OpenLineOf(Reading(tokens, n).header, Reading(tokens, n).depth, tokens[at].line);
    BraceIsKnown(tokens, n);
    EndIsReached(tokens, n);
    LaterKnowsScope(tokens, n + 1, |tokens|, at, openLine, path);
    ClosedAllKnowsScope(After(tokens, |tokens|), lastLine, After(tokens, |tokens|).index, at, openLine, path);
  }

  /** From the text of a file to its scopes: one for each `{` met, and none overlaps another. */
  method ScopesOf(cls: CharClass, source: seq<char>)
    returns (intervals: seq<Interval>, ghost tokens: seq<Spanned>)
    requires Sane(cls)
    ensures TokensOf(cls, source, tokens)
    ensures intervals == Scopes(tokens, LineCount(source))
    ensures |intervals| == BracesMet(tokens, |tokens|)
    ensures Laminar(intervals) && ClosedBy(intervals, LineCount(source))
  {
    var read := Tokenize(cls, source);
    tokens := read;
    var lastLine := CountLines(source);
    TokensOfInOrder(cls, source, tokens);
    intervals := EnclosingIntervals(read, lastLine);
    ScopesAreLaminar(tokens, lastLine);
  }

  // ----- the scope a line is attributed to

  predicate Contains(interval: Interval, line: nat) {
    interval.openLine <= line <= interval.closeLine
  }

  /** The last of the containing scopes that open on the greatest line. */
  function Chosen(intervals: seq<Interval>, line: nat): Option<nat> {
    if intervals == [] then None
    else
      var last := |intervals| - 1;
      var best := Chosen(intervals[..last], line);
      if Contains(intervals[last], line)
         && (best.None? || (best.value < last && intervals[best.value].openLine <= intervals[last].openLine))
      then Some(last)
      else best
  }

  function InnermostPath(intervals: seq<Interval>, line: nat): Option<string> {
    match Chosen(intervals, line)
    case Some(k) => if k < |intervals| then intervals[k].path else None
    case None => None
  }

  lemma {:induction false} ChosenIsLastGreatest(intervals: seq<Interval>, line: nat)
    ensures Chosen(intervals, line).None? <==> forall k | 0 <= k < |intervals| :: !Contains(intervals[k], line)
    ensures Chosen(intervals, line).Some? ==>
              var c := Chosen(intervals, line).value;
              && c < |intervals| && Contains(intervals[c], line)
              && (forall k | 0 <= k < |intervals| && Contains(intervals[k], line) ::
                    intervals[k].openLine <= intervals[c].openLine
                    && (k > c ==> intervals[k].openLine < intervals[c].openLine))
  {
    if intervals != [] {
      var rest := intervals[..|intervals| - 1];
      ChosenIsLastGreatest(rest, line);
      assert forall k | 0 <= k < |rest| :: intervals[k] == rest[k];
    }
  }

  /** No scope around the line has its braces between those of scope `c`. */
  ghost predicate IsInnermost(intervals: seq<Interval>, line: nat, c: nat)
    requires c < |intervals|
  {
    forall k | 0 <= k < |intervals| && Contains(intervals[k], line) :: !NestedIn(intervals[k], intervals[c])
  }

  /** Another scope around the line that opens on the very line the chosen one opens on. */
  predicate Ties(intervals: seq<Interval>, line: nat, c: nat, k: nat)
    requires c < |intervals|
  {
    k < |intervals| && k != c && Contains(intervals[k], line) && intervals[k].openLine == intervals[c].openLine
  }

  /** A tied scope closed before the chosen one, so it lies in it or ended before it began. */
  lemma TiesClosedFirst(intervals: seq<Interval>, line: nat, k: nat)
    requires Laminar(intervals) && Chosen(intervals, line).Some?
    ensures Chosen(intervals, line).value < |intervals|
    ensures Ties(intervals, line, Chosen(intervals, line).value, k) ==>
              k < Chosen(intervals, line).value
              && NestsOrEnds(intervals[k], intervals[Chosen(intervals, line).value])
  {
    ChosenIsLastGreatest(intervals, line);
  }

  /**
   The chosen scope is an innermost one exactly when every other scope around the line that opens on the same line
   ended before it began: that is, when none of those lies in it.
   */
  lemma ChosenIsInnermostExactly(intervals: seq<Interval>, line: nat)
    requires Laminar(intervals) && Chosen(intervals, line).Some?
    ensures Chosen(intervals, line).value < |intervals|
    ensures var c := Chosen(intervals, line).value;
            IsInnermost(intervals, line, c)
            <==> forall k: nat | Ties(intervals, line, c, k) :: EndsBefore(intervals[k], intervals[c])
    ensures var c := Chosen(intervals, line).value;
            IsInnermost(intervals, line, c)
            <==> forall k: nat | Ties(intervals, line, c, k) :: !NestedIn(intervals[k], intervals[c])
  {
    ChosenIsLastGreatest(intervals, line);
    var c := Chosen(intervals, line).value;
    forall k: nat | Ties(intervals, line, c, k)
      ensures NestedIn(intervals[k], intervals[c]) <==> !EndsBefore(intervals[k], intervals[c])
    {
      TiesClosedFirst(intervals, line, k);
    }
    forall k | 0 <= k < |intervals| && Contains(intervals[k], line) && NestedIn(intervals[k], intervals[c])
      ensures Ties(intervals, line, c, k)
    {
      NestedOpensLater(intervals, k, c);
    }
  }

  /** A nested scope closed earlier, and opens no earlier. */
  lemma NestedOpensLater(intervals: seq<Interval>, k: nat, c: nat)
    requires Laminar(intervals) && k < |intervals| && c < |intervals| && NestedIn(intervals[k], intervals[c])
    ensures k < c && intervals[c].openLine <= intervals[k].openLine
  {
    if c < k {
      NestedOneWay(intervals[c], intervals[k]);
    }
  }

  lemma NestedOneWay(a: Interval, b: Interval)
    requires a.openAt < a.closeAt && b.openAt < b.closeAt && NestsOrEnds(a, b)
    ensures !NestedIn(b, a)
  {
  }

  /** When the scopes around a line open on distinct lines, the line goes to an innermost one. */
  lemma DistinctLinesGiveInnermost(intervals: seq<Interval>, line: nat)
    requires Laminar(intervals) && Chosen(intervals, line).Some?
    requires forall k, l | 0 <= k < l < |intervals| && Contains(intervals[k], line) && Contains(intervals[l], line) ::
               intervals[k].openLine != intervals[l].openLine
    ensures Chosen(intervals, line).value < |intervals|
    ensures IsInnermost(intervals, line, Chosen(intervals, line).value)
  {
    ChosenIsInnermostExactly(intervals, line);
    ChosenIsLastGreatest(intervals, line);
    var c := Chosen(intervals, line).value;
    forall k: nat
      ensures !Ties(intervals, line, c, k)
    {
    }
  }

  /** `class A { void m() {` on one line, the method's closing brace on line `end`, that of the class on line 3. */
  function SharedLine(end: nat): seq<Spanned> {
    [ Spanned(Ident("class"), 1, 0), Spanned(Ident("A"), 1, 6), Spanned(LBrace, 1, 8),
      Spanned(Ident("void"), 1, 10), Spanned(Ident("m"), 1, 15), Spanned(LParen, 1, 16), Spanned(RParen, 1, 17),
      Spanned(LBrace, 1, 19), Spanned(RBrace, end, 25), Spanned(RBrace, 3, 28) ]
  }

  const CLASS_SCOPE := OpenScope(1, true, Some("A"), 2)

  /** The walk just before the method's brace: it is inside the class, with the method's header seen. */
  const BEFORE_METHOD := Walk(7, [], ["A"], [CLASS_SCOPE], Unit(None, Some("m"), Some("m"), false, false, false, Some(1)), 0)

  lemma SharedLineUpToClass(end: nat)
    ensures After(SharedLine(end), 3) == Walk(3, [], ["A"], [CLASS_SCOPE], NO_UNIT, 0)
  {
    var t := SharedLine(end);
    assert After(t, 1) == Walk(1, [], [], [], Unit(None, None, Some("class"), true, false, false, Some(1)), 0);
    assert After(t, 2) == Walk(2, [], [], [], Unit(Some("A"), None, Some("A"), false, false, false, Some(1)), 0);
  }

  lemma SharedLineUpToName(end: nat)
    ensures After(SharedLine(end), 5)
         == Walk(5, [], ["A"], [CLASS_SCOPE], Unit(None, None, Some("m"), false, false, false, Some(1)), 0)
  {
    var t := SharedLine(end);
    SharedLineUpToClass(end);
    assert After(t, 4)
        == Walk(4, [], ["A"], [CLASS_SCOPE], Unit(None, None, Some("void"), false, false, false, Some(1)), 0);
  }

  lemma SharedLineUpToMethod(end: nat)
    ensures After(SharedLine(end), 7) == BEFORE_METHOD
  {
    var t := SharedLine(end);
    SharedLineUpToName(end);
    assert After(t, 6)
        == Walk(6, [], ["A"], [CLASS_SCOPE], Unit(None, Some("m"), Some("m"), false, false, false, Some(1)), 1);
  }

  lemma MethodOpens()
    ensures Opened(BEFORE_METHOD.(index := 8), 1, 7)
         == Walk(8, [], ["A", "m"], [CLASS_SCOPE, OpenScope(1, true, Some("A.m"), 7)], NO_UNIT, 0)
  {
    var names := ["A", "m"];
    assert names[..1] == ["A"] && ["A"] + ["m"] == names;
    assert Joined(names) == Joined(["A"]) + "." + "m";
    assert Joined(names) == "A.m";
  }

  lemma SharedLineUpToBody(end: nat)
    ensures After(SharedLine(end), 8)
         == Walk(8, [], ["A", "m"], [CLASS_SCOPE, OpenScope(1, true, Some("A.m"), 7)], NO_UNIT, 0)
  {
    SharedLineUpToMethod(end);
    MethodOpens();
    assert SharedLine(end)[7] == Spanned(LBrace, 1, 19);
  }

  lemma SharedLineScopes(end: nat)
    ensures Scopes(SharedLine(end), 3) == [Interval(1, end, Some("A.m"), 7, 8), Interval(1, 3, Some("A"), 2, 9)]
  {
    var t := SharedLine(end);
    SharedLineUpToBody(end);
    assert ["A", "m"][..1] == ["A"];
    assert After(t, 9) == Walk(9, [Interval(1, end, Some("A.m"), 7, 8)], ["A"], [CLASS_SCOPE], NO_UNIT, 0);
    assert After(t, 10).open == [] && |t| == 10;
    assert After(t, 10).intervals == [Interval(1, end, Some("A.m"), 7, 8), Interval(1, 3, Some("A"), 2, 9)];
  }

  lemma TieTakesTheOuter(found: seq<Interval>, line: nat)
    requires |found| == 2 && Contains(found[0], line) && Contains(found[1], line)
    requires found[0].openLine == found[1].openLine
    ensures Chosen(found, line) == Some(1)
  {
    ChosenIsLastGreatest(found, line);
  }

  /**
   There every line of the method goes to the class: of scopes that tie, the outer one is taken. With `end` 1 this is a
   method on one line.
   */
  lemma SharedLineIsAttributedToTheOuterScope(end: nat, line: nat)
    requires 1 <= line <= end <= 3
    ensures var intervals := Scopes(SharedLine(end), 3);
            && intervals == [Interval(1, end, Some("A.m"), 7, 8), Interval(1, 3, Some("A"), 2, 9)]
            && Contains(intervals[0], line) && NestedIn(intervals[0], intervals[1])
            && InnermostPath(intervals, line) == Some("A") && !IsInnermost(intervals, line, 1)
  {
    SharedLineScopes(end);
    var intervals := Scopes(SharedLine(end), 3);
    TieTakesTheOuter(intervals, line);
  }
}
