/**
 A budgeted bundle about one symbol: its declaration, its body, the outline of its file, its callers,
 further mentions and its implementors, in this order of priority.
 */
module Context {
  import opened Budget
  import opened Callers
  import opened MatchedLines
  import opened Options
  import opened Sections
  import opened Skeleton
  import opened Spans

  datatype ContextSections = ContextSections(source: bool, outline: bool, callers: bool, implementors: bool)

  predicate IsCallersOnly(s: ContextSections) {
    s.callers && !s.source && !s.outline && !s.implementors
  }

  datatype Definition = Definition(qualifiedName: string, path: string, line: nat, signature: string)

  datatype SourceMatch = SourceMatch(matches: string -> bool, around: nat)

  datatype ContextInput = ContextInput(
    definition: Definition,
    sections: ContextSections,
    file: Option<FileSkeleton>,
    source: Option<seq<string>>,
    sourceMatch: Option<SourceMatch>,
    callers: seq<RelatedDeclaration>,
    annotated: seq<AnnotatedDeclaration>,
    javaTextReferences: seq<ForeignReference>,
    kotlinTextReferences: seq<ForeignReference>,
    implementors: seq<RelatedDeclaration>,
    budget: nat)

  /** What other modules lend: how a unit of each kind reads, how text is made safe, and the token estimate. */
  datatype Renderer = Renderer(
    callerLine: RelatedDeclaration -> string,
    annotatedLine: AnnotatedDeclaration -> string,
    foreignLine: ForeignReference -> string,
    relatedLine: RelatedDeclaration -> string,
    outline: FileSkeleton -> string,
    neutralize: string -> string,
    estimate: string -> nat)

  datatype SourceSection = SourceSection(lines: seq<string>, startLine: nat, endLine: nat, omittedLines: nat)

  datatype MatchedSource = MatchedSource(lines: seq<MatchedLine>, startLine: nat, endLine: nat, omittedLines: nat)

  datatype SymbolContext = SymbolContext(
    declaration: ContextSection<string>,
    source: Option<SourceSection>,
    matchedSource: Option<MatchedSource>,
    fileOutline: ContextSection<string>,
    callers: ContextSection<RelatedDeclaration>,
    callersOmitted: nat,
    testCallersOmitted: nat,
    annotated: ContextSection<AnnotatedDeclaration>,
    javaTextReferences: ContextSection<ForeignReference>,
    kotlinTextReferences: ContextSection<ForeignReference>,
    implementors: ContextSection<RelatedDeclaration>,
    budget: nat,
    tokenUpperBound: nat)

  // ----- the body

  datatype SourceBody = SourceBody(candidates: seq<SourceCandidate>, startLine: nat, endLine: nat, matched: bool)

  /** The lines of the declaration that starts on the definition's line; an open end is the end of the file. */
  function BodyRange(input: ContextInput): (r: Option<(nat, nat)>)
    ensures r.Some? ==> input.source.Some? && input.file.Some?
                        && 1 <= r.value.0 == input.definition.line <= r.value.1 <= |input.source.value|
  {
    match (input.source, input.file)
    case (Some(source), Some(file)) =>
      (match DeclarationSpanAt(file.declarations, input.definition.line)
       case None => None
       case Some(span) =>
         var total := |source|;
         var end := match span.end case Some(last) => (if last <= total then last else total) case None => total;
         SpanStartsOnItsLine(file.declarations, input.definition.line, None);
         if span.start == 0 || span.start > end then None else Some((span.start, end)))
    case _ => None
  }

  /**
   The line of the source is one of the declaration's: the span of the innermost declaration that starts on the
   definition's line holds it.
   */
  ghost predicate IsBodyLine(input: ContextInput, line: nat) {
    && input.source.Some? && input.file.Some? && 1 <= input.definition.line <= line <= |input.source.value|
    && var chain := SpanChain(input.file.value.declarations, input.definition.line, None);
       exists i: nat :: StartsInnermost(chain, input.definition.line, i) && Within(line, chain[i].1)
  }

  lemma OneStartsInnermost(chain: seq<(Declaration, Option<nat>)>, line: nat, i: nat, j: nat)
    requires StartsInnermost(chain, line, i) && StartsInnermost(chain, line, j)
    ensures i == j
  {
  }

  /** The range holds exactly these lines, and there is none without any. */
  lemma BodyRangeIsExact(input: ContextInput)
    requires input.file.Some? ==> Ascending(input.file.value.declarations)
    ensures forall line: nat ::
              IsBodyLine(input, line) <==> BodyRange(input).Some? && BodyRange(input).value.0 <= line <= BodyRange(input).value.1
  {
    if input.source.Some? && input.file.Some? {
      var declarations, start := input.file.value.declarations, input.definition.line;
      var chain := SpanChain(declarations, start, None);
      SpanAtInnermost(declarations, start, None);
      match DeclarationSpanAt(declarations, start)
      case None =>
        assert forall i: nat :: !StartsInnermost(chain, start, i);
      case Some(span) =>
        var i: nat :| StartsInnermost(chain, start, i) && span == DeclarationSpan(start, chain[i].1);
        forall j: nat | StartsInnermost(chain, start, j)
          ensures j == i
        {
          OneStartsInnermost(chain, start, i, j);
        }
    }
  }

  lemma {:induction false} SpanStartsOnItsLine(siblings: seq<Declaration>, line: nat, parentEnd: Option<nat>)
    ensures SpanAt(siblings, line, parentEnd).Some? ==> SpanAt(siblings, line, parentEnd).value.start == line
    decreases siblings
  {
    if siblings != [] {
      SpanStartsOnItsLine(siblings[1..], line, parentEnd);
      SpanStartsOnItsLine(siblings[0].children, line, SpanEnd(siblings, parentEnd));
    }
  }

  function RawLines(source: seq<string>, start: nat, end: nat, neutralize: string -> string): seq<string>
    requires 1 <= start <= end <= |source|
  {
    seq(end - start + 1, i requires 0 <= i < end - start + 1 => neutralize(source[start - 1 + i]))
  }

  function WholeCandidates(lines: seq<string>): seq<SourceCandidate> {
    seq(|lines|, i requires 0 <= i < |lines| => SourceCandidate(lines[i], lines[i], None))
  }

  function Asked(input: ContextInput): (r: Option<(nat, nat)>)
    ensures r.Some? ==> r == BodyRange(input)
  {
    if input.sections.source then BodyRange(input) else None
  }

  ghost predicate IsBody(input: ContextInput, neutralize: string -> string, body: Option<SourceBody>) {
    match Asked(input)
    case None => body == None
    case Some(range) =>
      var lines := RawLines(input.source.value, range.0, range.1, neutralize);
      && body.Some? && body.value.startLine == range.0 && body.value.endLine == range.1
      && body.value.matched == input.sourceMatch.Some?
      && match input.sourceMatch
         case None => body.value.candidates == WholeCandidates(lines)
         case Some(spec) => IsMatchedBody(lines, range.0, spec.matches, spec.around, body.value.candidates)
  }

  method BuildBody(input: ContextInput, neutralize: string -> string) returns (body: Option<SourceBody>)
    ensures IsBody(input, neutralize, body)
  {
    match Asked(input) {
      case None =>
        body := None;
      case Some(range) =>
        var lines := RawLines(input.source.value, range.0, range.1, neutralize);
        match input.sourceMatch {
          case None =>
            body := Some(SourceBody(WholeCandidates(lines), range.0, range.1, false));
          case Some(spec) =>
            var candidates := MatchedBody(lines, range.0, spec.matches, spec.around);
            body := Some(SourceBody(candidates, range.0, range.1, true));
        }
    }
  }

  function CandidatesOf(body: Option<SourceBody>): seq<SourceCandidate> {
    match body case Some(b) => b.candidates case None => []
  }

  function RawTexts(candidates: seq<SourceCandidate>): seq<string> {
    seq(|candidates|, i requires 0 <= i < |candidates| => candidates[i].raw)
  }

  function MatchedAmong(candidates: seq<SourceCandidate>): seq<MatchedLine> {
    if candidates == [] then []
    else
      var n := |candidates| - 1;
      MatchedAmong(candidates[..n]) + match candidates[n].matched case Some(line) => [line] case None => []
  }

  function SplitSource(body: Option<SourceBody>, kept: seq<SourceCandidate>): (Option<SourceSection>,
                       Option<MatchedSource>)
    requires |kept| <= |CandidatesOf(body)|
  {
    match body
    case None => (None, None)
    case Some(b) =>
      var omitted := |b.candidates| - |kept|;
      if b.matched then (None, Some(MatchedSource(MatchedAmong(kept), b.startLine, b.endLine, omitted)))
      else (Some(SourceSection(RawTexts(kept), b.startLine, b.endLine, omitted)), None)
  }

  // ----- the units

  function DeclarationUnit(): string -> Unit {
    (signature: string) => Unit(signature, Payload.Declaration(signature))
  }

  function SourceUnit(): SourceCandidate -> Unit {
    (candidate: SourceCandidate) => Unit(candidate.rendered, SourceLine(candidate))
  }

  function OutlineUnit(): string -> Unit {
    (block: string) => Unit(block, FileOutline(block))
  }

  function CallerUnit(line: RelatedDeclaration -> string): RelatedDeclaration -> Unit {
    (caller: RelatedDeclaration) => Unit(line(caller), Caller(caller))
  }

  function AnnotatedUnit(line: AnnotatedDeclaration -> string): AnnotatedDeclaration -> Unit {
    (declaration: AnnotatedDeclaration) => Unit(line(declaration), Annotated(declaration))
  }

  function JavaUnit(line: ForeignReference -> string): ForeignReference -> Unit {
    (reference: ForeignReference) => Unit(line(reference), JavaReference(reference))
  }

  function KotlinUnit(line: ForeignReference -> string): ForeignReference -> Unit {
    (reference: ForeignReference) => Unit(line(reference), KotlinReference(reference))
  }

  function ImplementorUnit(line: RelatedDeclaration -> string): RelatedDeclaration -> Unit {
    (implementor: RelatedDeclaration) => Unit(line(implementor), Implementor(implementor))
  }

  /** One block for each top-level declaration that renders as anything. */
  function OutlineBlocks(file: FileSkeleton, ds: seq<Skeleton.Declaration>,
                         outline: FileSkeleton -> string): seq<string> {
    if ds == [] then []
    else
      var n := |ds| - 1;
      var block := outline(FileSkeleton(file.path, file.package, [], [ds[n]]));
      OutlineBlocks(file, ds[..n], outline) + if block == "" then [] else [block]
  }

  function Signature(input: ContextInput): seq<string> {
    if input.definition.signature == "" then [] else [input.definition.signature]
  }

  function Outline(input: ContextInput, outline: FileSkeleton -> string): seq<string> {
    match input.file
    case Some(file) => if input.sections.outline then OutlineBlocks(file, file.declarations, outline) else []
    case None => []
  }

  function When<T>(on: bool, items: seq<T>): seq<T> {
    if on then items else []
  }

  /** What is offered of each kind, in order of priority. */
  function Segments(input: ContextInput, t: Renderer, candidates: seq<SourceCandidate>,
                    callers: seq<RelatedDeclaration>):
    seq<seq<Unit>>
  {
    [ Units(Signature(input), DeclarationUnit()),
      Units(candidates, SourceUnit()),
      Units(Outline(input, t.outline), OutlineUnit()),
      Units(When(input.sections.callers, callers), CallerUnit(t.callerLine)),
      Units(When(input.sections.callers, input.annotated), AnnotatedUnit(t.annotatedLine)),
      Units(When(input.sections.callers, input.javaTextReferences), JavaUnit(t.foreignLine)),
      Units(When(input.sections.callers, input.kotlinTextReferences), KotlinUnit(t.foreignLine)),
      Units(When(input.sections.implementors, input.implementors), ImplementorUnit(t.relatedLine)) ]
  }

  function Offered(input: ContextInput, t: Renderer, candidates: seq<SourceCandidate>,
                   callers: seq<RelatedDeclaration>):
    seq<Unit>
  {
    Flatten(Segments(input, t, candidates, callers))
  }

  // ----- counting and regrouping

  datatype Available = Available(
    declaration: nat, source: nat, fileOutline: nat, callers: nat, annotated: nat, javaTextReferences: nat,
    kotlinTextReferences: nat, implementors: nat)

  ghost predicate Counts(units: seq<Unit>, a: Available) {
    && a.declaration == |Select(units, AsDeclaration)|
    && a.source == |Select(units, AsSourceLine)|
    && a.fileOutline == |Select(units, AsFileOutline)|
    && a.callers == |Select(units, AsCaller)|
    && a.annotated == |Select(units, AsAnnotated)|
    && a.javaTextReferences == |Select(units, AsJavaReference)|
    && a.kotlinTextReferences == |Select(units, AsKotlinReference)|
    && a.implementors == |Select(units, AsImplementor)|
  }

  function CountOne(a: Available, p: Payload): Available {
    match p
    case Declaration(_) => a.(declaration := a.declaration + 1)
    case SourceLine(_) => a.(source := a.source + 1)
    case FileOutline(_) => a.(fileOutline := a.fileOutline + 1)
    case Caller(_) => a.(callers := a.callers + 1)
    case Annotated(_) => a.(annotated := a.annotated + 1)
    case JavaReference(_) => a.(javaTextReferences := a.javaTextReferences + 1)
    case KotlinReference(_) => a.(kotlinTextReferences := a.kotlinTextReferences + 1)
    case Implementor(_) => a.(implementors := a.implementors + 1)
  }

  method CountAvailable(units: seq<Unit>) returns (counts: Available)
    ensures Counts(units, counts)
  {
    counts := Available(0, 0, 0, 0, 0, 0, 0, 0);
    for k := 0 to |units|
      invariant Counts(units[..k], counts)
    {
      assert units[..k + 1][..k] == units[..k];
      counts := CountOne(counts, units[k].payload);
    }
    assert units[..|units|] == units;
  }

  datatype Kept = Kept(
    declaration: seq<string>, source: seq<SourceCandidate>, fileOutline: seq<string>, callers: seq<RelatedDeclaration>,
    annotated: seq<AnnotatedDeclaration>, javaTextReferences: seq<ForeignReference>,
    kotlinTextReferences: seq<ForeignReference>, implementors: seq<RelatedDeclaration>)

  ghost predicate Regroups(units: seq<Unit>, kept: Kept) {
    && kept.declaration == Select(units, AsDeclaration)
    && kept.source == Select(units, AsSourceLine)
    && kept.fileOutline == Select(units, AsFileOutline)
    && kept.callers == Select(units, AsCaller)
    && kept.annotated == Select(units, AsAnnotated)
    && kept.javaTextReferences == Select(units, AsJavaReference)
    && kept.kotlinTextReferences == Select(units, AsKotlinReference)
    && kept.implementors == Select(units, AsImplementor)
  }

  function KeepOne(kept: Kept, p: Payload): Kept {
    match p
    case Declaration(signature) => kept.(declaration := kept.declaration + [signature])
    case SourceLine(candidate) => kept.(source := kept.source + [candidate])
    case FileOutline(block) => kept.(fileOutline := kept.fileOutline + [block])
    case Caller(caller) => kept.(callers := kept.callers + [caller])
    case Annotated(declaration) => kept.(annotated := kept.annotated + [declaration])
    case JavaReference(reference) => kept.(javaTextReferences := kept.javaTextReferences + [reference])
    case KotlinReference(reference) => kept.(kotlinTextReferences := kept.kotlinTextReferences + [reference])
    case Implementor(implementor) => kept.(implementors := kept.implementors + [implementor])
  }

  method Regroup(units: seq<Unit>) returns (kept: Kept)
    ensures Regroups(units, kept)
  {
    kept := Kept([], [], [], [], [], [], [], []);
    for k := 0 to |units|
      invariant Regroups(units[..k], kept)
    {
      assert units[..k + 1][..k] == units[..k];
      kept := KeepOne(kept, units[k].payload);
    }
    assert units[..|units|] == units;
  }

  /** Items that fit, and how many did not, never below zero. */
  function Section<T>(items: seq<T>, available: nat): ContextSection<T> {
    ContextSection(items, if available >= |items| then available - |items| else 0)
  }

  // ----- the bundle

  function UnitCost(estimate: string -> nat): Unit -> nat {
    (unit: Unit) => estimate(unit.text)
  }

  /** The bundle made of what was offered and what of it was emitted. */
  ghost predicate Holds(context: SymbolContext, offered: seq<Unit>, emitted: seq<Unit>) {
    && IsSection(context.declaration, offered, emitted, AsDeclaration)
    && IsSection(context.fileOutline, offered, emitted, AsFileOutline)
    && IsSection(context.callers, offered, emitted, AsCaller)
    && IsSection(context.annotated, offered, emitted, AsAnnotated)
    && IsSection(context.javaTextReferences, offered, emitted, AsJavaReference)
    && IsSection(context.kotlinTextReferences, offered, emitted, AsKotlinReference)
    && IsSection(context.implementors, offered, emitted, AsImplementor)
  }

  ghost predicate HoldsSource(context: SymbolContext, body: Option<SourceBody>, kept: seq<SourceCandidate>) {
    |kept| <= |CandidatesOf(body)| && (context.source, context.matchedSource) == SplitSource(body, kept)
  }

  function DefaultCaps(sections: ContextSections): Option<CallerCaps> {
    if IsCallersOnly(sections) then None else Some(DEFAULT_CAPS)
  }

  ghost predicate IsBundle(input: ContextInput, t: Renderer, body: Option<SourceBody>, callers: seq<RelatedDeclaration>,
                           context: SymbolContext) {
    var offered := Offered(input, t, CandidatesOf(body), callers);
    var emitted := Affordable(offered, UnitCost(t.estimate), input.budget);
    && IsBody(input, t.neutralize, body)
    && Caps(input.callers, DefaultCaps(input.sections), callers, context.callersOmitted, context.testCallersOmitted)
    && Holds(context, offered, emitted)
    && HoldsSource(context, body, Select(emitted, AsSourceLine))
    && context.budget == input.budget
    && context.tokenUpperBound == Total(emitted, UnitCost(t.estimate))
  }

  lemma SelectShrinks<T>(offered: seq<Unit>, emitted: seq<Unit>, pick: Payload -> Option<T>)
    requires emitted <= offered
    ensures Select(emitted, pick) <= Select(offered, pick)
  {
    SelectAppends(emitted, offered[|emitted|..], pick);
    assert offered == emitted + offered[|emitted|..];
  }

  /** No section offers less than it keeps, so the counts of the dropped are exact. */
  lemma SectionIsExact<T>(items: seq<T>, available: nat, offered: seq<Unit>, emitted: seq<Unit>,
                          pick: Payload -> Option<T>)
    requires emitted <= offered && items == Select(emitted, pick) && available == |Select(offered, pick)|
    ensures IsSection(Section(items, available), offered, emitted, pick)
  {
    SelectShrinks(offered, emitted, pick);
  }

  /** The sections filled from what was kept. */
  method FillSections(kept: Kept, available: Available, source: (Option<SourceSection>, Option<MatchedSource>),
                      callersOmitted: nat, testCallersOmitted: nat, budget: nat, bound: nat,
                      ghost offered: seq<Unit>, ghost emitted: seq<Unit>)
    returns (context: SymbolContext)
    requires emitted <= offered && Regroups(emitted, kept) && Counts(offered, available)
    ensures Holds(context, offered, emitted) && (context.source, context.matchedSource) == source
    ensures context.callersOmitted == callersOmitted && context.testCallersOmitted == testCallersOmitted
    ensures context.budget == budget && context.tokenUpperBound == bound
  {
    context := SymbolContext(
      Section(kept.declaration, available.declaration), source.0, source.1,
      Section(kept.fileOutline, available.fileOutline),
      Section(kept.callers, available.callers), callersOmitted, testCallersOmitted,
      Section(kept.annotated, available.annotated),
      Section(kept.javaTextReferences, available.javaTextReferences),
      Section(kept.kotlinTextReferences, available.kotlinTextReferences),
      Section(kept.implementors, available.implementors),
      budget, bound);
    SectionIsExact(kept.declaration, available.declaration, offered, emitted, AsDeclaration);
    SectionIsExact(kept.fileOutline, available.fileOutline, offered, emitted, AsFileOutline);
    SectionIsExact(kept.callers, available.callers, offered, emitted, AsCaller);
    SectionIsExact(kept.annotated, available.annotated, offered, emitted, AsAnnotated);
    SectionIsExact(kept.javaTextReferences, available.javaTextReferences, offered, emitted, AsJavaReference);
    SectionIsExact(kept.kotlinTextReferences, available.kotlinTextReferences, offered, emitted, AsKotlinReference);
    SectionIsExact(kept.implementors, available.implementors, offered, emitted, AsImplementor);
  }

  /** A bundle of the input: of its body and of its callers, capped. */
  ghost predicate IsContext(input: ContextInput, t: Renderer, context: SymbolContext) {
    exists body, callers :: IsBundle(input, t, body, callers, context)
  }

  /** The bundle holds the longest part of the offered units, taken in order, that stays within the budget. */
  method BuildContext(input: ContextInput, t: Renderer) returns (context: SymbolContext)
    ensures IsContext(input, t, context)
    ensures context.tokenUpperBound <= context.budget == input.budget
  {
    var body := BuildBody(input, t.neutralize);
    var callers, productionOmitted, testOmitted := CapCallers(input.callers, DefaultCaps(input.sections));
    var offered := Offered(input, t, CandidatesOf(body), callers);
    var available := CountAvailable(offered);
    var emitted, bound := EmitWithinBudget(offered, input.budget, UnitCost(t.estimate));
    AffordableIsEmitted(offered, UnitCost(t.estimate), input.budget, emitted, bound);
    var kept := Regroup(emitted);
    SelectShrinks(offered, emitted, AsSourceLine);
    OfferedSource(input, t, CandidatesOf(body), callers);
    var source := SplitSource(body, kept.source);
    context := FillSections(kept, available, source, productionOmitted, testOmitted, input.budget, bound, offered, emitted);
    assert IsBundle(input, t, body, callers, context);
  }

  // ----- what is offered of each kind

  lemma SegmentsByRank(input: ContextInput, t: Renderer, candidates: seq<SourceCandidate>,
                       callers: seq<RelatedDeclaration>)
    ensures ByRank(Segments(input, t, candidates, callers)) && |Segments(input, t, candidates, callers)| == 8
  {
    UnitsRanked(Signature(input), DeclarationUnit(), 0);
    UnitsRanked(candidates, SourceUnit(), 1);
    UnitsRanked(Outline(input, t.outline), OutlineUnit(), 2);
    UnitsRanked(When(input.sections.callers, callers), CallerUnit(t.callerLine), 3);
    UnitsRanked(When(input.sections.callers, input.annotated), AnnotatedUnit(t.annotatedLine), 4);
    UnitsRanked(When(input.sections.callers, input.javaTextReferences), JavaUnit(t.foreignLine), 5);
    UnitsRanked(When(input.sections.callers, input.kotlinTextReferences), KotlinUnit(t.foreignLine), 6);
    UnitsRanked(When(input.sections.implementors, input.implementors), ImplementorUnit(t.relatedLine), 7);
  }

  /** The units are offered in order of priority. */
  lemma OfferedInPriorityOrder(input: ContextInput, t: Renderer, candidates: seq<SourceCandidate>,
                               callers: seq<RelatedDeclaration>)
    ensures RanksAscend(Offered(input, t, candidates, callers))
  {
    SegmentsByRank(input, t, candidates, callers);
    FlattenAscends(Segments(input, t, candidates, callers));
  }

  lemma OfferedOf<T(!new)>(input: ContextInput, t: Renderer, candidates: seq<SourceCandidate>, callers: seq<RelatedDeclaration>,
                           pick: Payload -> Option<T>, k: nat, items: seq<T>, unit: T -> Unit)
    requires Picks(pick, k) && k < 8 && Segments(input, t, candidates, callers)[k] == Units(items, unit)
    requires forall x :: pick(unit(x).payload) == Some(x)
    ensures Select(Offered(input, t, candidates, callers), pick) == items
  {
    SegmentsByRank(input, t, candidates, callers);
    SelectSegment(Segments(input, t, candidates, callers), pick, k);
    SelectUnits(items, unit, pick);
  }

  lemma OfferedSource(input: ContextInput, t: Renderer, candidates: seq<SourceCandidate>,
                      callers: seq<RelatedDeclaration>)
    ensures Select(Offered(input, t, candidates, callers), AsSourceLine) == candidates
  {
    OfferedOf(input, t, candidates, callers, AsSourceLine, 1, candidates, SourceUnit());
  }

  /** What the bundle had to offer in each section. */
  lemma OfferedBySection(input: ContextInput, t: Renderer, candidates: seq<SourceCandidate>,
                         callers: seq<RelatedDeclaration>)
    ensures var offered := Offered(input, t, candidates, callers);
            && Select(offered, AsDeclaration) == Signature(input)
            && Select(offered, AsFileOutline) == Outline(input, t.outline)
            && Select(offered, AsCaller) == When(input.sections.callers, callers)
            && Select(offered, AsAnnotated) == When(input.sections.callers, input.annotated)
            && Select(offered, AsJavaReference) == When(input.sections.callers, input.javaTextReferences)
            && Select(offered, AsKotlinReference) == When(input.sections.callers, input.kotlinTextReferences)
            && Select(offered, AsImplementor) == When(input.sections.implementors, input.implementors)
  {
    OfferedOf(input, t, candidates, callers, AsDeclaration, 0, Signature(input), DeclarationUnit());
    OfferedOf(input, t, candidates, callers, AsFileOutline, 2, Outline(input, t.outline), OutlineUnit());
    OfferedMentions(input, t, candidates, callers);
    OfferedOf(input, t, candidates, callers, AsImplementor, 7, When(input.sections.implementors, input.implementors),
              ImplementorUnit(t.relatedLine));
  }

  /** The outline block at `k`: the top-level declaration alone in its file, if it renders as anything. */
  ghost function BlockAt(input: ContextInput, outline: FileSkeleton -> string, k: nat): Option<string> {
    if input.sections.outline && input.file.Some? && k < |input.file.value.declarations| then
      var file := input.file.value;
      var block := outline(FileSkeleton(file.path, file.package, [], [file.declarations[k]]));
      if block != "" then Some(block) else None
    else None
  }

  lemma {:induction false} BlocksInOrder(file: FileSkeleton, ds: seq<Skeleton.Declaration>,
                                         outline: FileSkeleton -> string, found: nat -> Option<string>)
    requires forall k: nat | k < |ds| ::
               var block := outline(FileSkeleton(file.path, file.package, [], [ds[k]]));
               found(k) == if block != "" then Some(block) else None
    ensures OutlineBlocks(file, ds, outline) == Collected(found, |ds|)
  {
    if ds != [] {
      var rest := ds[..|ds| - 1];
      assert forall k | 0 <= k < |rest| :: rest[k] == ds[k];
      BlocksInOrder(file, rest, outline, found);
    }
  }

  /** What each section offers when it is on, and that it offers nothing when it is off. */
  lemma SectionsOffer(input: ContextInput, t: Renderer, candidates: seq<SourceCandidate>,
                      callers: seq<RelatedDeclaration>)
    ensures var offered := Offered(input, t, candidates, callers);
            && Select(offered, AsDeclaration) == (if input.definition.signature == "" then [] else [input.definition.signature])
            && Select(offered, AsSourceLine) == candidates
            && Select(offered, AsFileOutline)
               == Collected(k => BlockAt(input, t.outline, k), if input.file.Some? then |input.file.value.declarations| else 0)
            && (if input.sections.callers then
                  && Select(offered, AsCaller) == callers && Select(offered, AsAnnotated) == input.annotated
                  && Select(offered, AsJavaReference) == input.javaTextReferences
                  && Select(offered, AsKotlinReference) == input.kotlinTextReferences
                else
                  && Select(offered, AsCaller) == [] && Select(offered, AsAnnotated) == []
                  && Select(offered, AsJavaReference) == [] && Select(offered, AsKotlinReference) == [])
            && Select(offered, AsImplementor) == (if input.sections.implementors then input.implementors else [])
  {
    OfferedBySection(input, t, candidates, callers);
    OfferedSource(input, t, candidates, callers);
    OutlineIsExact(input, t.outline);
  }

  lemma OutlineIsExact(input: ContextInput, outline: FileSkeleton -> string)
    ensures Outline(input, outline)
         == Collected(k => BlockAt(input, outline, k), if input.file.Some? then |input.file.value.declarations| else 0)
  {
    var found := (k: nat) => BlockAt(input, outline, k);
    if input.file.Some? {
      if input.sections.outline {
        BlocksInOrder(input.file.value, input.file.value.declarations, outline, found);
      } else {
        CollectedNothing(found, |input.file.value.declarations|);
      }
    }
  }

  /** The text that a unit is printed as, and measured by. */
  ghost function TextOf(t: Renderer, p: Payload): string {
    match p
    case Declaration(signature) => signature
    case SourceLine(candidate) => candidate.rendered
    case FileOutline(block) => block
    case Caller(caller) => t.callerLine(caller)
    case Annotated(annotated) => t.annotatedLine(annotated)
    case JavaReference(reference) => t.foreignLine(reference)
    case KotlinReference(reference) => t.foreignLine(reference)
    case Implementor(implementor) => t.relatedLine(implementor)
  }

  lemma UnitsRead<T(!new)>(items: seq<T>, unit: T -> Unit, t: Renderer)
    requires forall x :: unit(x).text == TextOf(t, unit(x).payload)
    ensures forall u | u in Units(items, unit) :: u.text == TextOf(t, u.payload)
  {
  }

  lemma {:induction false} FlattenedContents(segments: seq<seq<Unit>>)
    ensures forall u | u in Flatten(segments) :: exists i :: 0 <= i < |segments| && u in segments[i]
  {
    if segments != [] {
      FlattenedContents(segments[..|segments| - 1]);
    }
  }

  /** Every unit is measured by the text it is printed as. */
  lemma OfferedTexts(input: ContextInput, t: Renderer, candidates: seq<SourceCandidate>,
                     callers: seq<RelatedDeclaration>)
    ensures forall u | u in Offered(input, t, candidates, callers) :: u.text == TextOf(t, u.payload)
  {
    UnitsRead(Signature(input), DeclarationUnit(), t);
    UnitsRead(candidates, SourceUnit(), t);
    UnitsRead(Outline(input, t.outline), OutlineUnit(), t);
    UnitsRead(When(input.sections.callers, callers), CallerUnit(t.callerLine), t);
    UnitsRead(When(input.sections.callers, input.annotated), AnnotatedUnit(t.annotatedLine), t);
    UnitsRead(When(input.sections.callers, input.javaTextReferences), JavaUnit(t.foreignLine), t);
    UnitsRead(When(input.sections.callers, input.kotlinTextReferences), KotlinUnit(t.foreignLine), t);
    UnitsRead(When(input.sections.implementors, input.implementors), ImplementorUnit(t.relatedLine), t);
    FlattenedContents(Segments(input, t, candidates, callers));
  }

  lemma OfferedMentions(input: ContextInput, t: Renderer, candidates: seq<SourceCandidate>,
                        callers: seq<RelatedDeclaration>)
    ensures var offered := Offered(input, t, candidates, callers);
            && Select(offered, AsCaller) == When(input.sections.callers, callers)
            && Select(offered, AsAnnotated) == When(input.sections.callers, input.annotated)
            && Select(offered, AsJavaReference) == When(input.sections.callers, input.javaTextReferences)
            && Select(offered, AsKotlinReference) == When(input.sections.callers, input.kotlinTextReferences)
  {
    OfferedOf(input, t, candidates, callers, AsCaller, 3, When(input.sections.callers, callers), CallerUnit(t.callerLine));
    OfferedOf(input, t, candidates, callers, AsAnnotated, 4, When(input.sections.callers, input.annotated),
              AnnotatedUnit(t.annotatedLine));
    OfferedForeign(input, t, candidates, callers);
  }

  lemma OfferedForeign(input: ContextInput, t: Renderer, candidates: seq<SourceCandidate>,
                       callers: seq<RelatedDeclaration>)
    ensures var offered := Offered(input, t, candidates, callers);
            && Select(offered, AsJavaReference) == When(input.sections.callers, input.javaTextReferences)
            && Select(offered, AsKotlinReference) == When(input.sections.callers, input.kotlinTextReferences)
  {
    OfferedOf(input, t, candidates, callers, AsJavaReference, 5, When(input.sections.callers, input.javaTextReferences),
              JavaUnit(t.foreignLine));
    OfferedOf(input, t, candidates, callers, AsKotlinReference, 6, When(input.sections.callers, input.kotlinTextReferences),
              KotlinUnit(t.foreignLine));
  }

  // ----- the promises of a bundle

  ghost function EmittedOf(input: ContextInput, t: Renderer, body: Option<SourceBody>,
                           callers: seq<RelatedDeclaration>): seq<Unit> {
    Affordable(Offered(input, t, CandidatesOf(body), callers), UnitCost(t.estimate), input.budget)
  }

  /** The first of what was offered, and the number of the rest. */
  ghost predicate ListsFirst<T(!new)>(section: ContextSection<T>, offered: seq<T>) {
    section.items <= offered && section.omitted + |section.items| == |offered|
  }

  lemma FirstOfSection<T(!new)>(section: ContextSection<T>, offered: seq<Unit>, emitted: seq<Unit>, pick: Payload -> Option<T>)
    requires emitted <= offered && IsSection(section, offered, emitted, pick)
    ensures ListsFirst(section, Select(offered, pick))
  {
    SelectShrinks(offered, emitted, pick);
  }

  /** Every section lists the first of what it had to offer, in order, and counts exactly what was dropped. */
  lemma SectionsConserve(input: ContextInput, t: Renderer, body: Option<SourceBody>, callers: seq<RelatedDeclaration>,
                         context: SymbolContext)
    requires IsBundle(input, t, body, callers, context)
    ensures ListsFirst(context.declaration, Signature(input))
    ensures ListsFirst(context.fileOutline, Outline(input, t.outline))
    ensures ListsFirst(context.callers, When(input.sections.callers, callers))
    ensures ListsFirst(context.annotated, When(input.sections.callers, input.annotated))
    ensures ListsFirst(context.javaTextReferences, When(input.sections.callers, input.javaTextReferences))
    ensures ListsFirst(context.kotlinTextReferences, When(input.sections.callers, input.kotlinTextReferences))
    ensures ListsFirst(context.implementors, When(input.sections.implementors, input.implementors))
  {
    var offered := Offered(input, t, CandidatesOf(body), callers);
    var emitted := EmittedOf(input, t, body, callers);
    OfferedBySection(input, t, CandidatesOf(body), callers);
    FirstOfSection(context.declaration, offered, emitted, AsDeclaration);
    FirstOfSection(context.fileOutline, offered, emitted, AsFileOutline);
    FirstOfSection(context.callers, offered, emitted, AsCaller);
    FirstOfSection(context.annotated, offered, emitted, AsAnnotated);
    FirstOfSection(context.javaTextReferences, offered, emitted, AsJavaReference);
    FirstOfSection(context.kotlinTextReferences, offered, emitted, AsKotlinReference);
    FirstOfSection(context.implementors, offered, emitted, AsImplementor);
  }

  /** With the callers section on, every caller is listed, dropped for budget or left out by the cap of its kind. */
  lemma CallersConserve(input: ContextInput, t: Renderer, body: Option<SourceBody>, callers: seq<RelatedDeclaration>,
                        context: SymbolContext)
    requires IsBundle(input, t, body, callers, context) && input.sections.callers
    ensures |context.callers.items| + context.callers.omitted + context.callersOmitted + context.testCallersOmitted
         == |input.callers|
    ensures input.sections == ContextSections(false, false, true, false) ==>
              callers == input.callers && context.callersOmitted == context.testCallersOmitted == 0
    ensures input.sections != ContextSections(false, false, true, false) ==>
              OfKind(callers, false) == Min(10, OfKind(input.callers, false))
              && OfKind(callers, true) == Min(3, OfKind(input.callers, true))
  {
    SectionsConserve(input, t, body, callers, context);
    CapsConserve(input.callers, DefaultCaps(input.sections), callers, context.callersOmitted, context.testCallersOmitted);
  }

  function Texts(units: seq<Unit>): seq<string> {
    seq(|units|, i requires 0 <= i < |units| => units[i].text)
  }

  lemma {:induction false} TextsCost(units: seq<Unit>, estimate: string -> nat)
    ensures Total(Texts(units), estimate) == Total(units, UnitCost(estimate))
  {
    if units != [] {
      var n := |units| - 1;
      TextsCost(units[..n], estimate);
      assert Texts(units)[..n] == Texts(units[..n]);
    }
  }

  /** The reported bound is within the budget, and with the byte ratio estimator never below what the emitted text costs. */
  lemma BoundIsSafe(input: ContextInput, t: Renderer, body: Option<SourceBody>, callers: seq<RelatedDeclaration>,
                    context: SymbolContext)
    requires IsBundle(input, t, body, callers, context)
    ensures context.tokenUpperBound <= context.budget == input.budget
    ensures t.estimate == ByteRatio ==>
              ByteRatio(Concatenation(Texts(EmittedOf(input, t, body, callers)))) <= context.tokenUpperBound
  {
    var emitted := EmittedOf(input, t, body, callers);
    TextsCost(emitted, t.estimate);
    BoundCoversConcatenation(Texts(emitted));
  }

  /** Whether a bundle lists anything of a section. */
  function ItemCount(context: SymbolContext, rank: nat): nat {
    match rank
    case 0 => |context.declaration.items|
    case 1 => SourceCount(context)
    case 2 => |context.fileOutline.items|
    case 3 => |context.callers.items|
    case 4 => |context.annotated.items|
    case 5 => |context.javaTextReferences.items|
    case 6 => |context.kotlinTextReferences.items|
    case _ => |context.implementors.items|
  }

  function OmittedCount(context: SymbolContext, rank: nat): nat {
    match rank
    case 0 => context.declaration.omitted
    case 1 => SourceOmitted(context)
    case 2 => context.fileOutline.omitted
    case 3 => context.callers.omitted
    case 4 => context.annotated.omitted
    case 5 => context.javaTextReferences.omitted
    case 6 => context.kotlinTextReferences.omitted
    case _ => context.implementors.omitted
  }

  function SourceCount(context: SymbolContext): nat {
    match (context.source, context.matchedSource)
    case (Some(section), _) => |section.lines|
    case (None, Some(matched)) => |matched.lines|
    case (None, None) => 0
  }

  function SourceOmitted(context: SymbolContext): nat {
    match (context.source, context.matchedSource)
    case (Some(section), _) => section.omittedLines
    case (None, Some(matched)) => matched.omittedLines
    case (None, None) => 0
  }

  /** How many units of a rank there are. */
  ghost function OfRank(units: seq<Unit>, rank: nat): nat {
    if units == [] then 0
    else OfRank(units[..|units| - 1], rank) + if Rank(units[|units| - 1].payload) == rank then 1 else 0
  }

  lemma {:induction false} SelectCounts<T>(units: seq<Unit>, pick: Payload -> Option<T>, rank: nat)
    requires Picks(pick, rank)
    ensures |Select(units, pick)| == OfRank(units, rank)
  {
    if units != [] {
      SelectCounts(units[..|units| - 1], pick, rank);
    }
  }

  lemma {:induction false} RankAppends(a: seq<Unit>, b: seq<Unit>, rank: nat)
    ensures OfRank(a + b, rank) == OfRank(a, rank) + OfRank(b, rank)
  {
    if b == [] {
      assert a + b == a;
    } else {
      RankAppends(a, b[..|b| - 1], rank);
      assert (a + b)[..|a + b| - 1] == a + b[..|b| - 1];
    }
  }

  lemma {:induction false} NoneOfRank(units: seq<Unit>, rank: nat)
    requires forall u | u in units :: Rank(u.payload) != rank
    ensures OfRank(units, rank) == 0
  {
    if units != [] {
      assert units[|units| - 1] in units && forall u | u in units[..|units| - 1] :: u in units;
      NoneOfRank(units[..|units| - 1], rank);
    }
  }

  lemma {:induction false} SomeOfRank(units: seq<Unit>, rank: nat) returns (i: nat)
    requires OfRank(units, rank) > 0
    ensures i < |units| && Rank(units[i].payload) == rank
  {
    if Rank(units[|units| - 1].payload) == rank {
      i := |units| - 1;
    } else {
      i := SomeOfRank(units[..|units| - 1], rank);
    }
  }

  /** When a prefix of units in order of rank holds one of a rank, it holds all those of lower ranks. */
  lemma {:induction false} LowerRanksAreWhole(offered: seq<Unit>, emitted: seq<Unit>, higher: nat, lower: nat)
    requires RanksAscend(offered) && emitted <= offered && higher < lower && OfRank(emitted, lower) > 0
    ensures OfRank(emitted, higher) == OfRank(offered, higher)
  {
    var i := SomeOfRank(emitted, lower);
    var rest := offered[|emitted|..];
    assert offered == emitted + rest && offered[i] == emitted[i];
    forall u | u in rest
      ensures Rank(u.payload) != higher
    {
      var j :| 0 <= j < |rest| && rest[j] == u;
      assert offered[|emitted| + j] == u;
    }
    NoneOfRank(rest, higher);
    RankAppends(emitted, rest, higher);
  }

  lemma {:induction false} MatchedAmongAll(candidates: seq<SourceCandidate>)
    requires forall c | c in candidates :: c.matched.Some?
    ensures |MatchedAmong(candidates)| == |candidates|
    ensures forall i | 0 <= i < |candidates| :: MatchedAmong(candidates)[i] == candidates[i].matched.value
  {
    if candidates != [] {
      var n := |candidates| - 1;
      assert candidates[n] in candidates && forall c | c in candidates[..n] :: c in candidates;
      MatchedAmongAll(candidates[..n]);
    }
  }

  lemma BodyIsMatched(input: ContextInput, neutralize: string -> string, body: Option<SourceBody>)
    requires IsBody(input, neutralize, body) && body.Some? && body.value.matched
    ensures forall c | c in body.value.candidates :: c.matched.Some?
  {
    var range := Asked(input).value;
    var lines := RawLines(input.source.value, range.0, range.1, neutralize);
    var spec := input.sourceMatch.value;
    MatchedBodyIsExact(lines, range.0, spec.matches, spec.around, body.value.candidates);
    assert forall c | c in body.value.candidates :: ShowsLine(lines, range.0, spec.matches, spec.around, c);
  }

  /** The body view counts the source lines that were emitted and those that were not. */
  lemma SourceCounts(input: ContextInput, t: Renderer, body: Option<SourceBody>, kept: seq<SourceCandidate>,
                     context: SymbolContext)
    requires IsBody(input, t.neutralize, body) && HoldsSource(context, body, kept) && kept <= CandidatesOf(body)
    ensures SourceCount(context) == |kept| && SourceOmitted(context) + |kept| == |CandidatesOf(body)|
  {
    if body.Some? && body.value.matched {
      BodyIsMatched(input, t.neutralize, body);
      assert forall c | c in kept :: c in body.value.candidates;
      MatchedAmongAll(kept);
    }
  }

  lemma CountsByRank(input: ContextInput, t: Renderer, body: Option<SourceBody>, callers: seq<RelatedDeclaration>,
                     context: SymbolContext, rank: nat)
    requires IsBundle(input, t, body, callers, context) && rank < 8
    ensures ItemCount(context, rank) == OfRank(EmittedOf(input, t, body, callers), rank)
    ensures ItemCount(context, rank) + OmittedCount(context, rank)
         == OfRank(Offered(input, t, CandidatesOf(body), callers), rank)
  {
    var offered := Offered(input, t, CandidatesOf(body), callers);
    var emitted := EmittedOf(input, t, body, callers);
    if rank == 1 {
      OfferedSource(input, t, CandidatesOf(body), callers);
      SelectShrinks(offered, emitted, AsSourceLine);
      SourceCounts(input, t, body, Select(emitted, AsSourceLine), context);
      SelectCounts(offered, AsSourceLine, 1);
      SelectCounts(emitted, AsSourceLine, 1);
    } else {
      SectionCounts(context, offered, emitted, rank);
    }
  }

  lemma SectionCounts(context: SymbolContext, offered: seq<Unit>, emitted: seq<Unit>, rank: nat)
    requires Holds(context, offered, emitted) && rank < 8 && rank != 1
    ensures ItemCount(context, rank) == OfRank(emitted, rank)
    ensures ItemCount(context, rank) + OmittedCount(context, rank) == OfRank(offered, rank)
  {
    match rank
    case 0 => SelectCounts(offered, AsDeclaration, 0); SelectCounts(emitted, AsDeclaration, 0);
    case 2 => SelectCounts(offered, AsFileOutline, 2); SelectCounts(emitted, AsFileOutline, 2);
    case 3 => SelectCounts(offered, AsCaller, 3); SelectCounts(emitted, AsCaller, 3);
    case 4 => SelectCounts(offered, AsAnnotated, 4); SelectCounts(emitted, AsAnnotated, 4);
    case 5 => SelectCounts(offered, AsJavaReference, 5); SelectCounts(emitted, AsJavaReference, 5);
    case 6 => SelectCounts(offered, AsKotlinReference, 6); SelectCounts(emitted, AsKotlinReference, 6);
    case 7 => SelectCounts(offered, AsImplementor, 7); SelectCounts(emitted, AsImplementor, 7);
    case _ =>
  }

  /** A section that lists anything implies that no section before it, the body included, lost anything to the budget. */
  lemma PriorityIsKept(input: ContextInput, t: Renderer, body: Option<SourceBody>, callers: seq<RelatedDeclaration>,
                       context: SymbolContext, higher: nat, lower: nat)
    requires IsBundle(input, t, body, callers, context) && higher < lower < 8
    requires ItemCount(context, lower) > 0
    ensures OmittedCount(context, higher) == 0
  {
    OfferedInPriorityOrder(input, t, CandidatesOf(body), callers);
    CountsByRank(input, t, body, callers, context, higher);
    CountsByRank(input, t, body, callers, context, lower);
    LowerRanksAreWhole(Offered(input, t, CandidatesOf(body), callers), EmittedOf(input, t, body, callers), higher, lower);
  }

  // ----- the body view

  /** The lines from the first to the last are exactly the declaration's. */
  ghost predicate Covers(input: ContextInput, startLine: nat, endLine: nat) {
    forall line: nat :: startLine <= line <= endLine <==> IsBodyLine(input, line)
  }

  /** The whole view lists the first lines of the declaration, as they read, and counts the others up to its last. */
  lemma WholeBodyIsAPrefix(input: ContextInput, t: Renderer, body: Option<SourceBody>, callers: seq<RelatedDeclaration>,
                           context: SymbolContext)
    requires IsBundle(input, t, body, callers, context) && context.source.Some?
    ensures var section := context.source.value;
            && input.source.Some? && input.file.Some?
            && 1 <= section.startLine == input.definition.line <= section.endLine <= |input.source.value|
            && section.startLine + |section.lines| + section.omittedLines == section.endLine + 1
            && (forall i | 0 <= i < |section.lines| ::
                  section.lines[i] == t.neutralize(input.source.value[section.startLine - 1 + i]))
            && (Ascending(input.file.value.declarations) ==> Covers(input, section.startLine, section.endLine))
  {
    var offered := Offered(input, t, CandidatesOf(body), callers);
    var emitted := EmittedOf(input, t, body, callers);
    OfferedSource(input, t, CandidatesOf(body), callers);
    SelectShrinks(offered, emitted, AsSourceLine);
    WholeView(input, t.neutralize, body, Select(emitted, AsSourceLine), context);
  }

  lemma WholeView(input: ContextInput, neutralize: string -> string, body: Option<SourceBody>,
                  kept: seq<SourceCandidate>,
                  context: SymbolContext)
    requires IsBody(input, neutralize, body) && HoldsSource(context, body, kept) && kept <= CandidatesOf(body)
    requires context.source.Some?
    ensures var section := context.source.value;
            && input.source.Some? && input.file.Some?
            && 1 <= section.startLine == input.definition.line <= section.endLine <= |input.source.value|
            && section.startLine + |section.lines| + section.omittedLines == section.endLine + 1
            && (forall i | 0 <= i < |section.lines| ::
                  section.lines[i] == neutralize(input.source.value[section.startLine - 1 + i]))
            && (Ascending(input.file.value.declarations) ==> Covers(input, section.startLine, section.endLine))
  {
    if input.file.Some? && Ascending(input.file.value.declarations) {
      BodyRangeIsExact(input);
    }
    var b := body.value;
    assert !b.matched;
    var lines := RawLines(input.source.value, b.startLine, b.endLine, neutralize);
    assert b.candidates == WholeCandidates(lines);
    assert forall i | 0 <= i < |kept| :: kept[i] == b.candidates[i] && kept[i].raw == lines[i];
  }

  /** The lines of the source from the first to the last, neutralized. */
  ghost predicate ReadsLines(input: ContextInput, neutralize: string -> string, startLine: nat, endLine: nat,
                             lines: seq<string>) {
    && input.source.Some? && 1 <= startLine <= endLine <= |input.source.value| && |lines| == endLine - startLine + 1
    && forall i | 0 <= i < |lines| :: lines[i] == neutralize(input.source.value[startLine - 1 + i])
  }

  /** The matched view lists the first matched lines with the marks of the whole set, and prints as it was measured. */
  lemma MatchedBodyIsAPrefix(input: ContextInput, t: Renderer, body: Option<SourceBody>,
                             callers: seq<RelatedDeclaration>,
                             context: SymbolContext)
    requires IsBundle(input, t, body, callers, context) && context.matchedSource.Some?
    ensures body.Some? && body.value.matched
    ensures var shown := context.matchedSource.value;
            var candidates := body.value.candidates;
            && |shown.lines| + shown.omittedLines == |candidates|
            && (forall i | 0 <= i < |shown.lines| :: Some(shown.lines[i]) == candidates[i].matched)
            && MatchedBodyText(shown.lines) == JoinLines(RenderedTexts(candidates[..|shown.lines|]))
    ensures var shown := context.matchedSource.value;
            && input.sourceMatch.Some? && input.file.Some? && shown.startLine == input.definition.line
            && (Ascending(input.file.value.declarations) ==> Covers(input, shown.startLine, shown.endLine))
            && exists lines ::
                 && ReadsLines(input, t.neutralize, shown.startLine, shown.endLine, lines)
                 && IsMatchedBody(lines, shown.startLine, input.sourceMatch.value.matches, input.sourceMatch.value.around,
                                  body.value.candidates)
  {
    MatchedRange(input, t.neutralize, body, context);
    var offered := Offered(input, t, CandidatesOf(body), callers);
    var emitted := EmittedOf(input, t, body, callers);
    OfferedSource(input, t, CandidatesOf(body), callers);
    SelectShrinks(offered, emitted, AsSourceLine);
    MatchedView(input, t.neutralize, body, Select(emitted, AsSourceLine), context);
  }

  lemma MatchedRange(input: ContextInput, neutralize: string -> string, body: Option<SourceBody>, context: SymbolContext)
    requires IsBody(input, neutralize, body) && context.matchedSource.Some?
    requires exists kept :: HoldsSource(context, body, kept)
    ensures var shown := context.matchedSource.value;
            && input.sourceMatch.Some? && input.file.Some? && shown.startLine == input.definition.line
            && (Ascending(input.file.value.declarations) ==> Covers(input, shown.startLine, shown.endLine))
            && exists lines ::
                 && ReadsLines(input, neutralize, shown.startLine, shown.endLine, lines)
                 && IsMatchedBody(lines, shown.startLine, input.sourceMatch.value.matches, input.sourceMatch.value.around,
                                  body.value.candidates)
  {
    var shown := context.matchedSource.value;
    var kept :| HoldsSource(context, body, kept);
    assert body.Some? && shown.startLine == body.value.startLine && shown.endLine == body.value.endLine;
    var lines := BodyLines(input, neutralize, body);
    RangeIsCovered(input, neutralize, body);
  }

  lemma RangeIsCovered(input: ContextInput, neutralize: string -> string, body: Option<SourceBody>)
    requires IsBody(input, neutralize, body) && body.Some?
    ensures input.file.Some? && body.value.startLine == input.definition.line
    ensures Ascending(input.file.value.declarations) ==> Covers(input, body.value.startLine, body.value.endLine)
  {
    if Ascending(input.file.value.declarations) {
      BodyRangeIsExact(input);
    }
  }

  /** The lines a body is made of. */
  lemma BodyLines(input: ContextInput, neutralize: string -> string, body: Option<SourceBody>) returns (lines: seq<string>)
    requires IsBody(input, neutralize, body) && body.Some?
    ensures ReadsLines(input, neutralize, body.value.startLine, body.value.endLine, lines)
    ensures body.value.matched ==>
              input.sourceMatch.Some?
              && IsMatchedBody(lines, body.value.startLine, input.sourceMatch.value.matches, input.sourceMatch.value.around,
                               body.value.candidates)
  {
    lines := RawLines(input.source.value, body.value.startLine, body.value.endLine, neutralize);
  }

  /** There is a body exactly when the section is asked for and the declaration has lines. */
  lemma BodyIsThereExactly(input: ContextInput, neutralize: string -> string, body: Option<SourceBody>)
    requires IsBody(input, neutralize, body) && (input.file.Some? ==> Ascending(input.file.value.declarations))
    ensures body.Some? <==> input.sections.source && exists line: nat :: IsBodyLine(input, line)
    ensures body.Some? ==> (body.value.matched <==> input.sourceMatch.Some?)
  {
    BodyRangeIsExact(input);
    if body.Some? {
      assert IsBodyLine(input, BodyRange(input).value.0);
    }
  }

  lemma MatchedView(input: ContextInput, neutralize: string -> string, body: Option<SourceBody>,
                    kept: seq<SourceCandidate>,
                    context: SymbolContext)
    requires IsBody(input, neutralize, body) && HoldsSource(context, body, kept) && kept <= CandidatesOf(body)
    requires context.matchedSource.Some?
    ensures body.Some? && body.value.matched
    ensures var shown := context.matchedSource.value;
            var candidates := body.value.candidates;
            && |shown.lines| + shown.omittedLines == |candidates|
            && (forall i | 0 <= i < |shown.lines| :: Some(shown.lines[i]) == candidates[i].matched)
            && MatchedBodyText(shown.lines) == JoinLines(RenderedTexts(candidates[..|shown.lines|]))
  {
    var b := body.value;
    var range := Asked(input).value;
    var lines := RawLines(input.source.value, range.0, range.1, neutralize);
    var spec := input.sourceMatch.value;
    assert kept == b.candidates[..|kept|];
    KeptPrintsAsMeasured(lines, range.0, spec, b.candidates, |kept|);
  }

  lemma AmongIsOf(kept: seq<SourceCandidate>)
    requires AllMatched(kept)
    ensures MatchedAmong(kept) == MatchedOf(kept)
  {
    MatchedAmongAll(kept);
  }

  lemma KeptPrintsAsMeasured(lines: seq<string>, startLine: nat, spec: SourceMatch, candidates: seq<SourceCandidate>,
                             n: nat)
    requires IsMatchedBody(lines, startLine, spec.matches, spec.around, candidates) && n <= |candidates|
    ensures var shown := MatchedAmong(candidates[..n]);
            && |shown| == n && (forall i | 0 <= i < n :: Some(shown[i]) == candidates[i].matched)
            && MatchedBodyText(shown) == JoinLines(RenderedTexts(candidates[..n]))
  {
    var kept := candidates[..n];
    MatchedBodyPrints(lines, startLine, spec.matches, spec.around, candidates, n);
    AmongIsOf(kept);
    forall i | 0 <= i < n
      ensures Some(MatchedAmong(kept)[i]) == candidates[i].matched
    {
      assert kept[i] in kept;
    }
  }
}
