/**
 The budgeted map of a repository: an optional focus section, the signatures of the most central files,
 and a line that says where the files left out live.
 */
module RepoMap {
  import opened Budget
  import opened FileRanking
  import opened MapConservation
  import opened MapUnits
  import opened Omissions
  import opened Options
  import opened Ordering
  import opened Skeleton
  import opened TarjanInvariant

  datatype FocusSpec = FocusSpec(pattern: string, matches: string -> bool)

  /** What the caller asks for. */
  datatype Request = Request(budget: nat, path: seq<string>, compact: bool, focus: Option<FocusSpec>, fill: bool)

  datatype PathFilter = PathFilter(substrings: seq<string>, totalFiles: nat, matchedFiles: nat)

  datatype FocusMatches = FocusMatches(pattern: string, files: seq<MappedFile>, omitted: nat)

  datatype RepoMap = RepoMap(
    pathFilter: Option<PathFilter>,
    focus: Option<FocusMatches>,
    fill: Option<bool>,
    otherFilesNotMapped: Option<nat>,
    files: seq<MappedFile>,
    budget: nat,
    tokenUpperBound: nat,
    filesOmitted: nat,
    omittedDirectories: seq<OmittedDirectory>,
    omittedDirectoriesShown: nat,
    filesWithoutPublicDeclarations: nat)

  const SUMMARY_FRACTION := 4

  // ----- the path restriction

  predicate OccursAt(text: string, needle: string, i: nat) {
    i + |needle| <= |text| && text[i..i + |needle|] == needle
  }

  predicate Contains(text: string, needle: string) {
    exists i | 0 <= i <= |text| :: OccursAt(text, needle, i)
  }

  predicate PathMatches(f: FileSkeleton, needles: seq<string>) {
    needles == [] || exists needle :: needle in needles && Contains(f.path, needle)
  }

  function Matching(files: seq<FileSkeleton>, needles: seq<string>): seq<FileSkeleton> {
    if files == [] then []
    else
      var last := files[|files| - 1];
      Matching(files[..|files| - 1], needles) + if PathMatches(last, needles) then [last] else []
  }

  /** The files a restriction keeps; without one, all of them. */
  function RestrictToPath(files: seq<FileSkeleton>, needles: seq<string>): seq<FileSkeleton> {
    if needles == [] then files else Matching(files, needles)
  }

  lemma {:induction false} MatchingAll(files: seq<FileSkeleton>)
    ensures Matching(files, []) == files
  {
    if files != [] {
      MatchingAll(files[..|files| - 1]);
    }
  }

  /** Which files are kept, and how often, does not depend on their order. */
  lemma {:induction false} RestrictionCounts(files: seq<FileSkeleton>, needles: seq<string>, f: FileSkeleton)
    ensures multiset(RestrictToPath(files, needles))[f] == if PathMatches(f, needles) then multiset(files)[f] else 0
    ensures |RestrictToPath(files, needles)| <= |files|
  {
    MatchingAll(files);
    MatchingCounts(files, needles, f);
  }

  lemma {:induction false} MatchingCounts(files: seq<FileSkeleton>, needles: seq<string>, f: FileSkeleton)
    ensures multiset(Matching(files, needles))[f] == if PathMatches(f, needles) then multiset(files)[f] else 0
    ensures |Matching(files, needles)| <= |files|
  {
    if files != [] {
      MatchingCounts(files[..|files| - 1], needles, f);
      assert files == files[..|files| - 1] + [files[|files| - 1]];
    }
  }

  // ----- emitting units

  function UnitCost(estimate: string -> nat): Unit -> nat {
    (unit: Unit) => estimate(unit.text)
  }

  ghost function Emitted(cs: seq<Candidate>, estimate: string -> nat, budget: nat): (units: seq<Unit>)
    ensures units <= UnitsOf(cs) && Cost(units, estimate) <= budget
  {
    Affordable(UnitsOf(cs), UnitCost(estimate), budget)
  }

  ghost function Cost(units: seq<Unit>, estimate: string -> nat): nat {
    Total(units, UnitCost(estimate))
  }

  /** The longest prefix of the units within the budget, and its cost. */
  method Emit(units: seq<Unit>, estimate: string -> nat, budget: nat, ghost cs: seq<Candidate>)
    returns (emitted: seq<Unit>, bound: nat)
    requires units == UnitsOf(cs)
    ensures emitted == Emitted(cs, estimate, budget) && bound == Cost(emitted, estimate) <= budget
  {
    emitted, bound := EmitWithinBudget(units, budget, UnitCost(estimate));
    AffordableIsEmitted(units, UnitCost(estimate), budget, emitted, bound);
  }

  // ----- the focus section

  datatype FocusBuild = FocusBuild(matches: Option<FocusMatches>, tokens: nat, matchFiles: nat)

  lemma EmissionShowsPrefix(cs: seq<Candidate>, estimate: string -> nat, budget: nat)
    requires forall c | c in cs :: c.signatures != []
    ensures ShowsPrefix(cs, Regrouped(Emitted(cs, estimate, budget)))
    ensures DeclarationCount(Regrouped(Emitted(cs, estimate, budget))) <= SignatureCount(cs)
  {
    PrefixShowsPrefix(cs, Emitted(cs, estimate, budget));
    ShownSignatures(cs, Regrouped(Emitted(cs, estimate, budget)));
  }

  /** The focus section of a request: what it matches, emitted with the first claim on the budget. */
  ghost predicate IsFocus(t: Toolkit, ranking: Ranking, ordered: seq<FileSkeleton>, request: Request,
                          built: FocusBuild) {
    match request.focus
    case None => built == FocusBuild(None, 0, 0)
    case Some(spec) =>
      var cs := Candidates(t, ranking, ordered, Focused(spec.matches));
      var emitted := Emitted(cs, t.estimate, request.budget);
      && built.tokens == Cost(emitted, t.estimate)
      && built.matchFiles == |cs|
      && built.matches.Some?
      && built.matches.value.pattern == spec.pattern
      && built.matches.value.files == Regrouped(emitted)
      && built.matches.value.omitted + DeclarationCount(Regrouped(emitted)) == SignatureCount(cs)
  }

  method CountDeclarations(files: seq<MappedFile>) returns (count: nat)
    ensures count == DeclarationCount(files)
  {
    count := 0;
    for k := 0 to |files|
      invariant count == DeclarationCount(files[..k])
    {
      assert files[..k + 1][..k] == files[..k];
      count := count + |files[k].declarations|;
    }
    assert files[..|files|] == files;
  }

  /** No subtraction here goes below zero: no more signatures are shown than were matched. */
  method BuildFocusSection(t: Toolkit, ranking: Ranking, ordered: seq<FileSkeleton>, request: Request)
    returns (built: FocusBuild)
    ensures IsFocus(t, ranking, ordered, request, built)
    ensures built.tokens <= request.budget
  {
    match request.focus {
      case None =>
        built := FocusBuild(None, 0, 0);
      case Some(spec) =>
        ghost var cs := Candidates(t, ranking, ordered, Focused(spec.matches));
        var all := CollectUnits(t, ranking, ordered, Focused(spec.matches));
        var emitted, bound := Emit(all.units, t.estimate, request.budget, cs);
        EmissionShowsPrefix(cs, t.estimate, request.budget);
        var files := Regroup(emitted);
        var shown := CountDeclarations(files);
        built := FocusBuild(Some(FocusMatches(spec.pattern, files, all.signaturesSeen - shown)), bound, |all.paths|);
    }
  }

  // ----- the reserve for the summary

  /** The cost of naming all dropped directories, at most a quarter of the budget; nothing when none were dropped. */
  ghost predicate IsReserve(dropped: seq<string>, budget: nat, estimate: string -> nat, reserve: nat) {
    if dropped == [] then reserve == 0
    else exists directories ::
      Groups(dropped, directories)
      && var full := FullLineCost(directories, estimate);
         reserve == if full <= budget / SUMMARY_FRACTION then full else budget / SUMMARY_FRACTION
  }

  function FullLineCost(directories: seq<OmittedDirectory>, estimate: string -> nat): nat {
    match OmittedLine(directories, |directories|)
    case Some(line) => estimate(line)
    case None => estimate("")
  }

  method SummaryReserve(dropped: seq<string>, budget: nat, estimate: string -> nat) returns (reserve: nat)
    ensures IsReserve(dropped, budget, estimate, reserve) && reserve <= budget
  {
    if dropped == [] {
      return 0;
    }
    var directories := GroupOmitted(dropped);
    var full := FullLineCost(directories, estimate);
    reserve := if full <= budget / SUMMARY_FRACTION then full else budget / SUMMARY_FRACTION;
  }

  lemma ReserveUnique(dropped: seq<string>, budget: nat, estimate: string -> nat, a: nat, b: nat)
    requires IsReserve(dropped, budget, estimate, a) && IsReserve(dropped, budget, estimate, b)
    ensures a == b
  {
    if dropped != [] {
      forall x, y | Groups(dropped, x) && Groups(dropped, y)
        ensures x == y
      {
        GroupsUnique(dropped, x, y);
      }
    }
  }

  // ----- the ranked part

  /** What the ranked part of the map comes to within the budget the focus leaves. */
  datatype RankedPart = RankedPart(
    files: seq<MappedFile>,
    bound: nat,
    omitted: seq<string>,
    directories: seq<OmittedDirectory>,
    directoriesShown: nat)

  /** The units are emitted once at the full budget; if that drops files, again with room held back for the summary. */
  ghost predicate IsRankedPart(cs: seq<Candidate>, estimate: string -> nat, budget: nat, part: RankedPart) {
    exists reserve: nat | reserve <= budget ::
      IsReserve(OmittedFrom(Paths(cs), Emitted(cs, estimate, budget)), budget, estimate, reserve)
      && LeavesPart(cs, estimate, budget, reserve, part)
  }

  ghost predicate LeavesPart(cs: seq<Candidate>, estimate: string -> nat, budget: nat, reserve: nat, part: RankedPart)
    requires reserve <= budget
  {
    IsEmission(cs, estimate, budget, Emitted(cs, estimate, budget - reserve), part)
  }

  ghost predicate IsEmission(cs: seq<Candidate>, estimate: string -> nat, budget: nat, units: seq<Unit>,
                             part: RankedPart) {
    && Cost(units, estimate) <= budget
    && part.files == Regrouped(units)
    && part.omitted == OmittedFrom(Paths(cs), units)
    && Groups(part.omitted, part.directories)
    && part.directoriesShown == FitDirectories(part.directories, budget - Cost(units, estimate), estimate)
    && part.bound == Cost(units, estimate) + LineCost(part.directories, part.directoriesShown, estimate)
  }

  method Summarize(ghost cs: seq<Candidate>, paths: seq<string>, units: seq<Unit>, bound: nat,
                           estimate: string -> nat, budget: nat)
    returns (part: RankedPart)
    requires paths == Paths(cs) && bound == Cost(units, estimate) <= budget
    ensures IsEmission(cs, estimate, budget, units, part)
  {
    var files := Regroup(units);
    var omitted := OmittedFrom(paths, units);
    var directories := GroupOmitted(omitted);
    var room := budget - bound;
    var shown := FitDirectories(directories, room, estimate);
    part := RankedPart(files, bound + LineCost(directories, shown, estimate), omitted, directories, shown);
  }

  lemma ReserveMakesPart(cs: seq<Candidate>, estimate: string -> nat, budget: nat, reserve: nat, part: RankedPart)
    requires reserve <= budget
    ensures && IsReserve(OmittedFrom(Paths(cs), Emitted(cs, estimate, budget)), budget, estimate, reserve)
            && IsEmission(cs, estimate, budget, Emitted(cs, estimate, budget - reserve), part)
            ==> IsRankedPart(cs, estimate, budget, part)
  {
  }

  method BuildRankedPart(ghost cs: seq<Candidate>, paths: seq<string>, units: seq<Unit>, estimate: string -> nat,
                         budget: nat)
    returns (part: RankedPart)
    requires paths == Paths(cs) && units == UnitsOf(cs)
    ensures IsRankedPart(cs, estimate, budget, part)
  {
    var full, fullBound := Emit(units, estimate, budget, cs);
    var dropped := OmittedFrom(paths, full);
    var reserve := SummaryReserve(dropped, budget, estimate);
    if reserve == 0 {
      assert budget - reserve == budget;
      part := Summarize(cs, paths, full, fullBound, estimate, budget);
    } else {
      var emitted, bound := Emit(units, estimate, budget - reserve, cs);
      part := Summarize(cs, paths, emitted, bound, estimate, budget);
    }
    ReserveMakesPart(cs, estimate, budget, reserve, part);
  }

  // ----- the map

  ghost predicate IsFocusOnly(request: Request, built: FocusBuild, cs: seq<Candidate>, map': RepoMap) {
    && map'.fill == Some(false) && map'.files == [] && map'.filesOmitted == 0
    && map'.omittedDirectories == [] && map'.omittedDirectoriesShown == 0
    && map'.tokenUpperBound == built.tokens
    && map'.otherFilesNotMapped.Some? && map'.otherFilesNotMapped.value + built.matchFiles == |cs|
  }

  ghost predicate IsFilled(request: Request, built: FocusBuild, part: RankedPart, map': RepoMap) {
    && map'.fill == (if request.focus.Some? then Some(true) else None) && map'.otherFilesNotMapped == None
    && map'.files == part.files && map'.filesOmitted == |part.omitted|
    && map'.omittedDirectories == part.directories && map'.omittedDirectoriesShown == part.directoriesShown
    && map'.tokenUpperBound == built.tokens + part.bound
  }

  predicate FocusOnly(request: Request) {
    request.focus.Some? && !request.fill
  }

  /** The map of files in the given order, of `total` files before the restriction. */
  ghost predicate IsMapOf(t: Toolkit, ranking: Ranking, ordered: seq<FileSkeleton>, total: nat, request: Request,
                          map': RepoMap) {
    var cs := Candidates(t, ranking, ordered, Ranked(request.compact));
    && map'.pathFilter == (if request.path == [] then None else Some(PathFilter(request.path, total, |ordered|)))
    && map'.budget == request.budget
    && map'.filesWithoutPublicDeclarations + |cs| == |ordered|
    && exists built :: IsFocus(t, ranking, ordered, request, built) && map'.focus == built.matches
                       && built.tokens <= request.budget && IsRest(t, cs, request, built, map')
  }

  ghost predicate IsRest(t: Toolkit, cs: seq<Candidate>, request: Request, built: FocusBuild, map': RepoMap)
    requires built.tokens <= request.budget
  {
    if FocusOnly(request) then IsFocusOnly(request, built, cs, map')
    else HasPart(cs, t.estimate, request.budget - built.tokens, request, built, map')
  }

  ghost predicate HasPart(cs: seq<Candidate>, estimate: string -> nat, budget: nat, request: Request, built: FocusBuild,
                          map': RepoMap) {
    exists part :: IsRankedPart(cs, estimate, budget, part) && IsFilled(request, built, part, map')
  }

  lemma AssembledMap(t: Toolkit, ranking: Ranking, ordered: seq<FileSkeleton>, total: nat, request: Request,
                     built: FocusBuild, map': RepoMap)
    requires built.tokens <= request.budget && IsFocus(t, ranking, ordered, request, built)
    requires IsRest(t, Candidates(t, ranking, ordered, Ranked(request.compact)), request, built, map')
    requires map'.pathFilter == (if request.path == [] then None else Some(PathFilter(request.path, total, |ordered|)))
    requires map'.budget == request.budget && map'.focus == built.matches
    requires map'.filesWithoutPublicDeclarations + |Candidates(t, ranking, ordered, Ranked(request.compact))| == |ordered|
    ensures IsMapOf(t, ranking, ordered, total, request, map')
  {
  }

  /** Only the focus section; the candidates without a match are counted. */
  method FocusOnlyMap(ghost t: Toolkit, ghost cs: seq<Candidate>, ghost request: Request, built: FocusBuild,
                      filter: Option<PathFilter>, candidateFiles: nat, withoutAny: nat, budget: nat)
    returns (map': RepoMap)
    requires candidateFiles == |cs| && built.matchFiles <= |cs| && FocusOnly(request) && built.tokens <= request.budget
    ensures IsRest(t, cs, request, built, map')
    ensures map'.pathFilter == filter && map'.budget == budget && map'.focus == built.matches
    ensures map'.filesWithoutPublicDeclarations == withoutAny
  {
    map' := RepoMap(filter, built.matches, Some(false), Some(candidateFiles - built.matchFiles), [], budget, built.tokens,
                    0, [], 0, withoutAny);
  }

  /** The focus section, if any, and the ranked part in what budget it leaves. */
  method FilledMap(t: Toolkit, ghost cs: seq<Candidate>, request: Request, built: FocusBuild,
                   filter: Option<PathFilter>,
                   all: Collection)
    returns (map': RepoMap)
    requires Collects(cs, all) && !FocusOnly(request) && built.tokens <= request.budget
    ensures IsRest(t, cs, request, built, map')
    ensures map'.pathFilter == filter && map'.budget == request.budget && map'.focus == built.matches
    ensures map'.filesWithoutPublicDeclarations == all.withoutAny
  {
    var part := BuildRankedPart(cs, all.paths, all.units, t.estimate, request.budget - built.tokens);
    map' := RepoMap(filter, built.matches, if request.focus.Some? then Some(true) else None, None, part.files,
                    request.budget, built.tokens + part.bound, |part.omitted|, part.directories, part.directoriesShown,
                    all.withoutAny);
    assert IsFilled(request, built, part, map');
  }

  method BuildOrderedMap(t: Toolkit, ranking: Ranking, ordered: seq<FileSkeleton>, total: nat, request: Request)
    returns (map': RepoMap)
    ensures IsMapOf(t, ranking, ordered, total, request, map')
  {
    ghost var cs := Candidates(t, ranking, ordered, Ranked(request.compact));
    var built := BuildFocusSection(t, ranking, ordered, request);
    var all := CollectUnits(t, ranking, ordered, Ranked(request.compact));
    var filter := if request.path == [] then None else Some(PathFilter(request.path, total, |ordered|));
    if FocusOnly(request) {
      FocusHasFewerFiles(t, ranking, ordered, request.focus.value.matches, request.compact);
      map' := FocusOnlyMap(t, cs, request, built, filter, |all.paths|, all.withoutAny, request.budget);
    } else {
      map' := FilledMap(t, cs, request, built, filter, all);
    }
    AssembledMap(t, ranking, ordered, total, request, built, map');
  }

  /** The map of files in whatever order they were found. */
  ghost predicate IsRepoMap(t: Toolkit, files: seq<FileSkeleton>, references: map<string, nat>, request: Request,
                            map': RepoMap) {
    var kept := RestrictToPath(files, request.path);
    exists scores, importers ::
      && ScoresPackages(Elements(kept), scores) && CountsImporters(kept, importers)
      && var ranking := Ranking(references, importers);
         IsMapOf(t, ranking, Sort(kept, FileLe(ranking, scores)), |files|, request, map')
  }

  /** Builds the map of a repository. */
  method BuildRepoMap(t: Toolkit, files: seq<FileSkeleton>, references: map<string, nat>, request: Request)
    returns (map': RepoMap)
    requires |files| < UNVISITED
    ensures IsRepoMap(t, files, references, request, map')
    ensures map'.tokenUpperBound <= map'.budget == request.budget
  {
    var kept := RestrictToPath(files, request.path);
    KeepsFewer(files, request.path);
    var scores := PackageScores(kept);
    var importers := ImporterCounts(kept);
    var ranking := Ranking(references, importers);
    var ordered := Sort(kept, FileLe(ranking, scores));
    map' := BuildOrderedMap(t, ranking, ordered, |files|, request);
    BudgetIsKept(t, ranking, ordered, |files|, request, map');
  }

  lemma KeepsFewer(files: seq<FileSkeleton>, needles: seq<string>)
    ensures |RestrictToPath(files, needles)| <= |files|
  {
    if files != [] {
      RestrictionCounts(files, needles, files[0]);
    }
  }

  // ----- taking a map apart

  lemma FocusOf(t: Toolkit, ranking: Ranking, ordered: seq<FileSkeleton>, total: nat, request: Request, map': RepoMap)
    returns (built: FocusBuild)
    requires IsMapOf(t, ranking, ordered, total, request, map')
    ensures IsFocus(t, ranking, ordered, request, built) && map'.focus == built.matches && built.tokens <= request.budget
    ensures IsRest(t, Candidates(t, ranking, ordered, Ranked(request.compact)), request, built, map')
  {
    built :| IsFocus(t, ranking, ordered, request, built) && map'.focus == built.matches && built.tokens <= request.budget
             && IsRest(t, Candidates(t, ranking, ordered, Ranked(request.compact)), request, built, map');
  }

  lemma PartOf(t: Toolkit, cs: seq<Candidate>, request: Request, built: FocusBuild,
               map': RepoMap) returns (part: RankedPart)
    requires built.tokens <= request.budget && IsRest(t, cs, request, built, map') && !FocusOnly(request)
    ensures IsRankedPart(cs, t.estimate, request.budget - built.tokens, part) && IsFilled(request, built, part, map')
  {
    assert HasPart(cs, t.estimate, request.budget - built.tokens, request, built, map');
    part :| IsRankedPart(cs, t.estimate, request.budget - built.tokens, part) && IsFilled(request, built, part, map');
  }

  lemma ReserveOf(cs: seq<Candidate>, estimate: string -> nat, budget: nat, part: RankedPart) returns (reserve: nat)
    requires IsRankedPart(cs, estimate, budget, part)
    ensures reserve <= budget
    ensures IsReserve(OmittedFrom(Paths(cs), Emitted(cs, estimate, budget)), budget, estimate, reserve)
    ensures LeavesPart(cs, estimate, budget, reserve, part)
  {
    reserve :| reserve <= budget
               && IsReserve(OmittedFrom(Paths(cs), Emitted(cs, estimate, budget)), budget, estimate, reserve)
               && LeavesPart(cs, estimate, budget, reserve, part);
  }

  // ----- the budget

  /** The bound of the map, with the focus, the files and the summary line all charged, never exceeds the budget. */
  lemma BudgetIsKept(t: Toolkit, ranking: Ranking, ordered: seq<FileSkeleton>, total: nat, request: Request,
                     map': RepoMap)
    requires IsMapOf(t, ranking, ordered, total, request, map')
    ensures map'.tokenUpperBound <= map'.budget == request.budget
  {
    var built := FocusOf(t, ranking, ordered, total, request, map');
    RestKeepsBudget(t, Candidates(t, ranking, ordered, Ranked(request.compact)), request, built, map');
  }

  lemma RestKeepsBudget(t: Toolkit, cs: seq<Candidate>, request: Request, built: FocusBuild, map': RepoMap)
    requires built.tokens <= request.budget && IsRest(t, cs, request, built, map')
    ensures map'.tokenUpperBound <= request.budget
  {
    if !FocusOnly(request) {
      var part := PartOf(t, cs, request, built, map');
      PartKeepsBudget(cs, t.estimate, request.budget - built.tokens, part);
    }
  }

  lemma PartKeepsBudget(cs: seq<Candidate>, estimate: string -> nat, budget: nat, part: RankedPart)
    requires IsRankedPart(cs, estimate, budget, part)
    ensures part.bound <= budget
  {
    var reserve := ReserveOf(cs, estimate, budget, part);
  }

  // ----- what the bound covers

  /** The lines of a map's files as they are printed: a heading and the signatures of each. */
  ghost function ShownTexts(files: seq<MappedFile>): seq<string> {
    if files == [] then []
    else
      var last := files[|files| - 1];
      ShownTexts(files[..|files| - 1]) + [HEADING + last.path] + last.declarations
  }

  ghost function UnitTexts(units: seq<Unit>): seq<string> {
    seq(|units|, i requires 0 <= i < |units| => units[i].text)
  }

  lemma {:induction false} TextsCost(units: seq<Unit>, estimate: string -> nat)
    ensures Total(UnitTexts(units), estimate) == Cost(units, estimate)
  {
    if units != [] {
      var n := |units| - 1;
      TextsCost(units[..n], estimate);
      assert UnitTexts(units)[..n] == UnitTexts(units[..n]);
    }
  }

  lemma PartTexts(index: nat, c: Candidate, j: nat)
    requires 0 < j <= |FileUnits(index, c)|
    ensures UnitTexts(FileUnits(index, c)[..j]) == [HEADING + c.path] + c.signatures[..j - 1]
  {
  }

  lemma {:induction false} WholeTexts(cs: seq<Candidate>)
    requires forall c | c in cs :: !StartsLikeHeading(c.path)
    ensures UnitTexts(UnitsOf(cs)) == ShownTexts(Whole(cs))
  {
    if cs != [] {
      var n := |cs| - 1;
      assert cs[n] in cs && forall c | c in cs[..n] :: c in cs;
      WholeTexts(cs[..n]);
      TrimmedIsNoHeading(cs[n].path);
      PartTexts(n, cs[n], |FileUnits(n, cs[n])|);
      assert Whole(cs)[..n] == Whole(cs[..n]);
      assert FileUnits(n, cs[n])[..|FileUnits(n, cs[n])|] == FileUnits(n, cs[n]);
      assert UnitTexts(UnitsOf(cs)) == UnitTexts(UnitsOf(cs[..n])) + UnitTexts(FileUnits(n, cs[n]));
    }
  }

  /** What is shown of the units is the beginning of their texts. */
  lemma ShownIsMeasured(cs: seq<Candidate>, units: seq<Unit>)
    requires units <= UnitsOf(cs) && forall c | c in cs :: c.signatures != [] && !StartsLikeHeading(c.path)
    ensures ShownTexts(Regrouped(units)) <= UnitTexts(units)
  {
    var k, j := WhereAPrefixStops(cs, units);
    RegroupedPrefix(cs, units, k, j);
    assert forall c | c in cs[..k] :: c in cs;
    WholeTexts(cs[..k]);
    var whole := Whole(cs[..k]);
    if j == 0 {
      assert units == UnitsOf(cs[..k]) && Regrouped(units) == whole;
    } else {
      assert cs[k] in cs;
      PartTexts(k, cs[k], j);
      UnitTextsAppend(UnitsOf(cs[..k]), FileUnits(k, cs[k])[..j]);
      if j == 1 {
        assert Regrouped(units) == whole;
      } else {
        TrimmedIsNoHeading(cs[k].path);
        var last := MappedFile(cs[k].path, cs[k].signatures[..j - 1]);
        ShownTextsAppend(whole, last);
        assert Regrouped(units) == whole + [last];
      }
    }
  }

  lemma UnitTextsAppend(a: seq<Unit>, b: seq<Unit>)
    ensures UnitTexts(a + b) == UnitTexts(a) + UnitTexts(b)
  {
  }

  lemma ShownTextsAppend(files: seq<MappedFile>, last: MappedFile)
    ensures ShownTexts(files + [last]) == ShownTexts(files) + ([HEADING + last.path] + last.declarations)
  {
    assert (files + [last])[..|files|] == files;
  }

  lemma ShownCost(cs: seq<Candidate>, units: seq<Unit>, estimate: string -> nat)
    requires units <= UnitsOf(cs) && forall c | c in cs :: c.signatures != [] && !StartsLikeHeading(c.path)
    ensures Total(ShownTexts(Regrouped(units)), estimate) <= Cost(units, estimate)
  {
    ShownIsMeasured(cs, units);
    TextsCost(units, estimate);
    var texts, shown := UnitTexts(units), ShownTexts(Regrouped(units));
    TotalMonotone(texts, estimate, |shown|, |texts|);
    assert texts[..|shown|] == shown && texts[..|texts|] == texts;
  }

  /** The line that names omitted directories, if the map has one. */
  ghost function SummaryTexts(map': RepoMap): seq<string>
    requires map'.omittedDirectoriesShown <= |map'.omittedDirectories|
  {
    match OmittedLine(map'.omittedDirectories, map'.omittedDirectoriesShown)
    case Some(line) => [line]
    case None => []
  }

  ghost function FocusTexts(map': RepoMap): seq<string> {
    match map'.focus
    case Some(matches) => ShownTexts(matches.files)
    case None => []
  }

  lemma FocusIsCovered(t: Toolkit, ranking: Ranking, ordered: seq<FileSkeleton>, request: Request, built: FocusBuild)
    requires IsFocus(t, ranking, ordered, request, built) && PlainPaths(ordered)
    ensures built.matches.Some? ==> Total(ShownTexts(built.matches.value.files), t.estimate) <= built.tokens
  {
    if request.focus.Some? {
      var listing := Focused(request.focus.value.matches);
      var cs := Candidates(t, ranking, ordered, listing);
      CandidatePathsArePlain(t, ranking, ordered, listing);
      ShownCost(cs, Emitted(cs, t.estimate, request.budget), t.estimate);
    }
  }

  lemma PartIsCovered(cs: seq<Candidate>, estimate: string -> nat, budget: nat, part: RankedPart)
    requires IsRankedPart(cs, estimate, budget, part)
    requires forall c | c in cs :: c.signatures != [] && !StartsLikeHeading(c.path)
    ensures part.directoriesShown <= |part.directories|
    ensures Total(ShownTexts(part.files), estimate) + LineCost(part.directories, part.directoriesShown, estimate) <= part.bound
  {
    var reserve := ReserveOf(cs, estimate, budget, part);
    ShownCost(cs, Emitted(cs, estimate, budget - reserve), estimate);
  }

  /**
   The bound is never below what the parts of the map cost: its focus, its files and the line for the omitted directories,
   each line at its own estimate; nor, for the byte ratio estimator, below what the whole text costs.
   */
  lemma MapBoundIsSafe(t: Toolkit, ranking: Ranking, ordered: seq<FileSkeleton>, total: nat, request: Request,
                       map': RepoMap)
    requires IsMapOf(t, ranking, ordered, total, request, map') && PlainPaths(ordered)
    ensures map'.omittedDirectoriesShown <= |map'.omittedDirectories|
    ensures var texts := FocusTexts(map') + ShownTexts(map'.files) + SummaryTexts(map');
            Total(texts, t.estimate) <= map'.tokenUpperBound
            && (t.estimate == ByteRatio ==> ByteRatio(Concatenation(texts)) <= map'.tokenUpperBound)
  {
    var cs := Candidates(t, ranking, ordered, Ranked(request.compact));
    var built := FocusOf(t, ranking, ordered, total, request, map');
    FocusIsCovered(t, ranking, ordered, request, built);
    CandidatePathsArePlain(t, ranking, ordered, Ranked(request.compact));
    RestIsCovered(t, cs, request, built, map');
    TotalAppends(FocusTexts(map'), ShownTexts(map'.files), t.estimate);
    TotalAppends(FocusTexts(map') + ShownTexts(map'.files), SummaryTexts(map'), t.estimate);
    BoundCoversConcatenation(FocusTexts(map') + ShownTexts(map'.files) + SummaryTexts(map'));
  }

  lemma RestIsCovered(t: Toolkit, cs: seq<Candidate>, request: Request, built: FocusBuild, map': RepoMap)
    requires built.tokens <= request.budget && IsRest(t, cs, request, built, map')
    requires forall c | c in cs :: c.signatures != [] && !StartsLikeHeading(c.path)
    ensures map'.omittedDirectoriesShown <= |map'.omittedDirectories|
    ensures built.tokens + Total(ShownTexts(map'.files), t.estimate) + Total(SummaryTexts(map'), t.estimate)
         <= map'.tokenUpperBound
  {
    if !FocusOnly(request) {
      var part := PartOf(t, cs, request, built, map');
      PartIsCovered(cs, t.estimate, request.budget - built.tokens, part);
      SummaryCost(map', t.estimate);
    }
  }

  lemma SummaryCost(map': RepoMap, estimate: string -> nat)
    requires map'.omittedDirectoriesShown <= |map'.omittedDirectories|
    ensures Total(SummaryTexts(map'), estimate)
         == LineCost(map'.omittedDirectories, map'.omittedDirectoriesShown, estimate)
  {
    match OmittedLine(map'.omittedDirectories, map'.omittedDirectoriesShown)
    case Some(line) => assert [line][..0] == [];
    case None =>
  }

  lemma {:induction false} TotalAppends(a: seq<string>, b: seq<string>, estimate: string -> nat)
    ensures Total(a + b, estimate) == Total(a, estimate) + Total(b, estimate)
  {
    if b == [] {
      assert a + b == a;
    } else {
      TotalAppends(a, b[..|b| - 1], estimate);
      assert (a + b)[..|a + b| - 1] == a + b[..|b| - 1];
    }
  }

  // ----- what the request decides

  /** The text has the needle somewhere. */
  lemma ContainsExactly(text: string, needle: string)
    ensures Contains(text, needle) <==> exists before, after :: text == before + needle + after
  {
    if Contains(text, needle) {
      var i :| 0 <= i <= |text| && OccursAt(text, needle, i);
      assert text == text[..i] + needle + text[i + |needle|..];
    }
    if exists before, after :: text == before + needle + after {
      var before: string, after: string :| text == before + needle + after;
      assert OccursAt(text, needle, |before|);
    }
  }

  /** Without a restriction, or with one that part of the path meets. */
  ghost predicate IsKept(path: string, needles: seq<string>) {
    needles == [] || exists needle, before, after :: needle in needles && path == before + needle + after
  }

  /** The restriction keeps exactly the files with one of the needles in their path. */
  lemma RestrictionIsExact(files: seq<FileSkeleton>, needles: seq<string>, f: FileSkeleton)
    ensures multiset(RestrictToPath(files, needles))[f] == if IsKept(f.path, needles) then multiset(files)[f] else 0
  {
    RestrictionCounts(files, needles, f);
    forall needle | needle in needles
      ensures Contains(f.path, needle) <==> exists before, after :: f.path == before + needle + after
    {
      ContainsExactly(f.path, needle);
    }
  }

  /** The map has the focus and the other files the request asks for, and says which restriction it was made under. */
  lemma MapAnswersRequest(t: Toolkit, files: seq<FileSkeleton>, references: map<string, nat>, request: Request,
                          map': RepoMap)
    requires IsRepoMap(t, files, references, request, map')
    ensures map'.focus.Some? <==> request.focus.Some?
    ensures map'.fill == if request.focus.Some? then Some(request.fill) else None
    ensures map'.otherFilesNotMapped.Some? <==> request.focus.Some? && !request.fill
    ensures request.focus.Some? && !request.fill ==>
              map'.files == [] && map'.omittedDirectories == [] && map'.filesOmitted == 0
    ensures map'.pathFilter
         == if request.path == [] then None
            else Some(PathFilter(request.path, |files|, |RestrictToPath(files, request.path)|))
  {
    var kept := RestrictToPath(files, request.path);
    var scores, importers :| ScoresPackages(Elements(kept), scores) && CountsImporters(kept, importers)
      && IsMapOf(t, Ranking(references, importers), Sort(kept, FileLe(Ranking(references, importers), scores)), |files|,
                 request, map');
    SortContents(kept, FileLe(Ranking(references, importers), scores));
  }

  // ----- conservation

  lemma PartShowsPrefix(cs: seq<Candidate>, estimate: string -> nat, budget: nat, part: RankedPart)
    requires IsRankedPart(cs, estimate, budget, part) && forall c | c in cs :: c.signatures != []
    ensures ShowsPrefix(cs, part.files) && part.omitted == Unshown(Paths(cs), part.files)
    ensures FilesNamed(part.directories) == |part.omitted|
  {
    var reserve := ReserveOf(cs, estimate, budget, part);
    EmissionConserves(cs, estimate, budget, Emitted(cs, estimate, budget - reserve), part);
  }

  lemma EmissionConserves(cs: seq<Candidate>, estimate: string -> nat, budget: nat, units: seq<Unit>, part: RankedPart)
    requires IsEmission(cs, estimate, budget, units, part) && units <= UnitsOf(cs)
    requires forall c | c in cs :: c.signatures != []
    ensures ShowsPrefix(cs, part.files) && part.omitted == Unshown(Paths(cs), part.files)
    ensures FilesNamed(part.directories) == |part.omitted|
  {
    PrefixShowsPrefix(cs, units);
    GroupsAddUp(part.omitted, part.directories);
  }

  ghost predicate PlainPaths(files: seq<FileSkeleton>) {
    && (forall i, j | 0 <= i < j < |files| :: files[i].path != files[j].path)
    && forall f | f in files :: !StartsLikeHeading(f.path)
  }

  /**
   A map that is not focus-only shows the first of the ranked candidates, all but the last of them whole. For distinct
   paths that do not start like a heading, every candidate is either shown or counted as omitted, never both.
   */
  lemma MapConserves(t: Toolkit, ranking: Ranking, ordered: seq<FileSkeleton>, total: nat, request: Request,
                     map': RepoMap)
    requires IsMapOf(t, ranking, ordered, total, request, map') && !FocusOnly(request)
    ensures var cs := Candidates(t, ranking, ordered, Ranked(request.compact));
            && ShowsPrefix(cs, map'.files)
            && map'.filesWithoutPublicDeclarations + |cs| == |ordered|
            && (PlainPaths(ordered) ==>
                  && |map'.files| + map'.filesOmitted == |cs|
                  && forall i | 0 <= i < |map'.files| :: map'.files[i].path == cs[i].path)
    ensures FilesNamed(map'.omittedDirectories) == map'.filesOmitted
  {
    var cs := Candidates(t, ranking, ordered, Ranked(request.compact));
    var built := FocusOf(t, ranking, ordered, total, request, map');
    RestConserves(t, cs, request, built, map');
    if PlainPaths(ordered) {
      CandidatePathsArePlain(t, ranking, ordered, Ranked(request.compact));
    }
  }

  /** The kept files in order of centrality: best package first, then heaviest file, then by path. */
  ghost predicate InOrderOfCentrality(kept: seq<FileSkeleton>, references: map<string, nat>, ranking: Ranking,
                                      scores: map<string, real>, ordered: seq<FileSkeleton>) {
    && ScoresPackages(Elements(kept), scores)
    && ranking.references == references && CountsImporters(kept, ranking.importers)
    && (exists ranked ::
          && RanksPackages(Elements(kept), ranked)
          && forall i, j | 0 <= i < j < |ordered| :: MoreCentral(kept, references, ranked, ordered[i], ordered[j]))
    && multiset(ordered) == multiset(kept)
    && Sorted(ordered, FileLe(ranking, scores))
  }

  lemma SortedByCentrality(kept: seq<FileSkeleton>, ranking: Ranking, scores: map<string, real>,
                           ordered: seq<FileSkeleton>)
    requires ScoresPackages(Elements(kept), scores) && CountsImporters(kept, ranking.importers)
    requires Sorted(ordered, FileLe(ranking, scores))
    ensures exists ranked ::
              && RanksPackages(Elements(kept), ranked)
              && forall i, j | 0 <= i < j < |ordered| :: MoreCentral(kept, ranking.references, ranked, ordered[i], ordered[j])
  {
    var ranked :| RanksPackages(Elements(kept), ranked) && scores == ScoreMap(ranked);
    RankedApart(Elements(kept), ranked);
    forall i, j | 0 <= i < j < |ordered|
      ensures MoreCentral(kept, ranking.references, ranked, ordered[i], ordered[j])
    {
      OrderIsCentrality(kept, ranking, ranked, ordered[i], ordered[j]);
    }
  }

  lemma PlainInAnyOrder(kept: seq<FileSkeleton>, ordered: seq<FileSkeleton>)
    requires PlainPaths(kept) && multiset(kept) == multiset(ordered)
    ensures PlainPaths(ordered)
  {
    SameContents(kept, ordered);
    PermutedDistinct(kept, ordered);
    forall i, j | 0 <= i < j < |ordered|
      ensures ordered[i].path != ordered[j].path
    {
      assert ordered[i] in kept && ordered[j] in kept;
      var a :| 0 <= a < |kept| && kept[a] == ordered[i];
      var b :| 0 <= b < |kept| && kept[b] == ordered[j];
    }
  }

  /**
   A map shows the first of the kept files that have something to list, in order of centrality, all but the last of them
   whole; with plain paths, every other one is counted as omitted, and by its directory.
   */
  lemma RepoMapConserves(t: Toolkit, files: seq<FileSkeleton>, references: map<string, nat>, request: Request,
                         map': RepoMap)
    returns (ranking: Ranking, scores: map<string, real>, ordered: seq<FileSkeleton>)
    requires IsRepoMap(t, files, references, request, map') && !FocusOnly(request)
    ensures InOrderOfCentrality(RestrictToPath(files, request.path), references, ranking, scores, ordered)
    ensures ShowsPrefix(Candidates(t, ranking, ordered, Ranked(request.compact)), map'.files)
    ensures PlainPaths(RestrictToPath(files, request.path)) ==>
              |map'.files| + map'.filesOmitted + map'.filesWithoutPublicDeclarations == |RestrictToPath(files, request.path)|
    ensures FilesNamed(map'.omittedDirectories) == map'.filesOmitted
  {
    var kept := RestrictToPath(files, request.path);
    var best, importers :| ScoresPackages(Elements(kept), best) && CountsImporters(kept, importers)
      && IsMapOf(t, Ranking(references, importers), Sort(kept, FileLe(Ranking(references, importers), best)), |files|,
                 request, map');
    ranking, scores := Ranking(references, importers), best;
    ordered := Sort(kept, FileLe(ranking, scores));
    SortContents(kept, FileLe(ranking, scores));
    FileLeIsPreorder(ranking, scores);
    SortSorted(kept, FileLe(ranking, scores));
    SortedByCentrality(kept, ranking, scores, ordered);
    MapConserves(t, ranking, ordered, |files|, request, map');
    if PlainPaths(kept) {
      PlainInAnyOrder(kept, ordered);
    }
  }

  ghost predicate PlainCandidates(cs: seq<Candidate>) {
    && (forall i, j | 0 <= i < j < |cs| :: cs[i].path != cs[j].path)
    && (forall c | c in cs :: !StartsLikeHeading(c.path))
  }

  lemma RestConserves(t: Toolkit, cs: seq<Candidate>, request: Request, built: FocusBuild, map': RepoMap)
    requires built.tokens <= request.budget && IsRest(t, cs, request, built, map') && !FocusOnly(request)
    requires forall c | c in cs :: c.signatures != []
    ensures ShowsPrefix(cs, map'.files)
    ensures PlainCandidates(cs) ==>
              |map'.files| + map'.filesOmitted == |cs| && forall i | 0 <= i < |map'.files| :: map'.files[i].path == cs[i].path
    ensures FilesNamed(map'.omittedDirectories) == map'.filesOmitted
  {
    var part := PartOf(t, cs, request, built, map');
    PartShowsPrefix(cs, t.estimate, request.budget - built.tokens, part);
    if PlainCandidates(cs) {
      ShownPlusOmitted(cs, part.files);
    }
  }

  lemma PlainAppend(cs: seq<Candidate>, c: Candidate)
    requires PlainCandidates(cs) && !StartsLikeHeading(c.path) && forall d | d in cs :: d.path != c.path
    ensures PlainCandidates(cs + [c])
  {
    assert forall i | 0 <= i < |cs| :: cs[i] in cs;
  }

  lemma {:induction false} CandidatePathsArePlain(t: Toolkit, ranking: Ranking, ordered: seq<FileSkeleton>,
                                                  listing: Listing)
    requires PlainPaths(ordered)
    ensures PlainCandidates(Candidates(t, ranking, ordered, listing))
  {
    if ordered != [] {
      var n := |ordered| - 1;
      var rest := ordered[..n];
      assert ordered[n] in ordered && forall f | f in rest :: f in ordered;
      CandidatePathsArePlain(t, ranking, rest, listing);
      CandidatesAreFiles(t, ranking, rest, listing);
      forall f | f in rest
        ensures f.path != ordered[n].path
      {
        var i :| 0 <= i < n && rest[i] == f;
        assert ordered[i] == f;
      }
      var signatures := Signatures(t, ranking, ordered[n], listing);
      PlainAppend(Candidates(t, ranking, rest, listing), Candidate(ordered[n].path, signatures));
    }
  }

  lemma {:induction false} CandidatesAreFiles(t: Toolkit, ranking: Ranking, ordered: seq<FileSkeleton>,
                                              listing: Listing)
    ensures forall c | c in Candidates(t, ranking, ordered, listing) :: exists f :: f in ordered && f.path == c.path
  {
    if ordered != [] {
      var n := |ordered| - 1;
      CandidatesAreFiles(t, ranking, ordered[..n], listing);
      assert ordered[n] in ordered && forall f | f in ordered[..n] :: f in ordered;
    }
  }

  /** What the focus takes from the budget. */
  ghost function FocusCost(t: Toolkit, ranking: Ranking, ordered: seq<FileSkeleton>, request: Request): nat {
    match request.focus
    case None => 0
    case Some(spec) =>
      Cost(Emitted(Candidates(t, ranking, ordered, Focused(spec.matches)), t.estimate, request.budget), t.estimate)
  }

  lemma FocusTakesItsCost(t: Toolkit, ranking: Ranking, ordered: seq<FileSkeleton>, request: Request,
                          built: FocusBuild)
    requires IsFocus(t, ranking, ordered, request, built)
    ensures built.tokens == FocusCost(t, ranking, ordered, request)
  {
  }

  /** When every unit fits the budget the focus leaves, nothing is held back and everything is shown. */
  lemma EverythingFits(t: Toolkit, ranking: Ranking, ordered: seq<FileSkeleton>, total: nat, request: Request,
                       map': RepoMap)
    requires IsMapOf(t, ranking, ordered, total, request, map') && !FocusOnly(request) && PlainPaths(ordered)
    requires FocusCost(t, ranking, ordered, request)
             + Cost(UnitsOf(Candidates(t, ranking, ordered, Ranked(request.compact))), t.estimate) <= request.budget
    ensures map'.files == Whole(Candidates(t, ranking, ordered, Ranked(request.compact)))
    ensures map'.filesOmitted == 0 && map'.omittedDirectories == []
  {
    var built := FocusOf(t, ranking, ordered, total, request, map');
    FocusTakesItsCost(t, ranking, ordered, request, built);
    CandidatePathsArePlain(t, ranking, ordered, Ranked(request.compact));
    RestHoldsEverything(t, Candidates(t, ranking, ordered, Ranked(request.compact)), request, built, map');
  }

  lemma RestHoldsEverything(t: Toolkit, cs: seq<Candidate>, request: Request, built: FocusBuild, map': RepoMap)
    requires built.tokens + Cost(UnitsOf(cs), t.estimate) <= request.budget
    requires IsRest(t, cs, request, built, map') && !FocusOnly(request)
    requires PlainCandidates(cs) && forall c | c in cs :: c.signatures != []
    ensures map'.files == Whole(cs) && map'.filesOmitted == 0 && map'.omittedDirectories == []
  {
    FilledHoldsEverything(cs, t.estimate, request.budget - built.tokens, request, built, map');
  }

  lemma FilledHoldsEverything(cs: seq<Candidate>, estimate: string -> nat, budget: nat, request: Request,
                              built: FocusBuild, map': RepoMap)
    requires Cost(UnitsOf(cs), estimate) <= budget
    requires PlainCandidates(cs) && forall c | c in cs :: c.signatures != []
    ensures HasPart(cs, estimate, budget, request, built, map') ==>
              map'.files == Whole(cs) && map'.filesOmitted == 0 && map'.omittedDirectories == []
  {
    forall part
      ensures IsRankedPart(cs, estimate, budget, part) ==>
                part.files == Whole(cs) && part.omitted == [] && part.directories == []
    {
      PartHoldsEverything(cs, estimate, budget, part);
    }
  }

  lemma PartHoldsEverything(cs: seq<Candidate>, estimate: string -> nat, budget: nat, part: RankedPart)
    requires Cost(UnitsOf(cs), estimate) <= budget
    requires PlainCandidates(cs) && forall c | c in cs :: c.signatures != []
    ensures IsRankedPart(cs, estimate, budget, part) ==>
              part.files == Whole(cs) && part.omitted == [] && part.directories == []
  {
    assert Emitted(cs, estimate, budget) == UnitsOf(cs);
    EverythingShown(cs);
    PrefixShowsPrefix(cs, UnitsOf(cs));
    ShownPlusOmitted(cs, Whole(cs));
    assert OmittedFrom(Paths(cs), UnitsOf(cs)) == [];
    if IsRankedPart(cs, estimate, budget, part) {
      var reserve := ReserveOf(cs, estimate, budget, part);
      assert budget - reserve == budget;
      NothingGrouped(part.directories);
    }
  }

  lemma NothingGrouped(directories: seq<OmittedDirectory>)
    requires Groups([], directories)
    ensures directories == []
  {
    assert DirectoriesOf([]) == {};
    GroupsUnique([], directories, []);
  }

  // ----- the focus

  /**
   The focus shows the first of the matching files in the map's own order, and every match is shown or counted as
   omitted.
   */
  lemma FocusConserves(t: Toolkit, ranking: Ranking, ordered: seq<FileSkeleton>, total: nat, request: Request,
                       map': RepoMap)
    requires IsMapOf(t, ranking, ordered, total, request, map') && request.focus.Some?
    ensures map'.focus.Some? && map'.focus.value.pattern == request.focus.value.pattern
    ensures var cs := Candidates(t, ranking, ordered, Focused(request.focus.value.matches));
            && ShowsPrefix(cs, map'.focus.value.files)
            && DeclarationCount(map'.focus.value.files) + map'.focus.value.omitted == SignatureCount(cs)
  {
    var built := FocusOf(t, ranking, ordered, total, request, map');
    FocusShowsPrefix(t, ranking, ordered, request, built);
  }

  /** A focus-only map counts exactly the candidate files the focus did not match. */
  lemma OthersAreUnmatched(t: Toolkit, ranking: Ranking, ordered: seq<FileSkeleton>, total: nat, request: Request,
                           map': RepoMap)
    requires IsMapOf(t, ranking, ordered, total, request, map') && FocusOnly(request)
    ensures map'.otherFilesNotMapped == Some(Unmatched(t, ranking, ordered, request.focus.value.matches))
  {
    var built := FocusOf(t, ranking, ordered, total, request, map');
    var others := Unmatched(t, ranking, ordered, request.focus.value.matches);
    MatchFilesAreMatched(t, ranking, ordered, request, built);
    OthersCounted(t, Candidates(t, ranking, ordered, Ranked(request.compact)), request, built, map', others);
  }

  lemma MatchFilesAreMatched(t: Toolkit, ranking: Ranking, ordered: seq<FileSkeleton>, request: Request,
                             built: FocusBuild)
    requires IsFocus(t, ranking, ordered, request, built) && request.focus.Some?
    ensures Unmatched(t, ranking, ordered, request.focus.value.matches) + built.matchFiles
         == |Candidates(t, ranking, ordered, Ranked(request.compact))|
  {
    UnmatchedAreTheRest(t, ranking, ordered, request.focus.value.matches, request.compact);
  }

  lemma FocusShowsPrefix(t: Toolkit, ranking: Ranking, ordered: seq<FileSkeleton>, request: Request, built: FocusBuild)
    requires IsFocus(t, ranking, ordered, request, built) && request.focus.Some?
    ensures var cs := Candidates(t, ranking, ordered, Focused(request.focus.value.matches));
            && built.matches.Some? && built.matches.value.pattern == request.focus.value.pattern
            && ShowsPrefix(cs, built.matches.value.files) && built.matchFiles == |cs|
            && DeclarationCount(built.matches.value.files) + built.matches.value.omitted == SignatureCount(cs)
  {
    EmissionShowsPrefix(Candidates(t, ranking, ordered, Focused(request.focus.value.matches)), t.estimate, request.budget);
  }

  lemma OthersCounted(t: Toolkit, cs: seq<Candidate>, request: Request, built: FocusBuild, map': RepoMap, others: nat)
    requires built.tokens <= request.budget && FocusOnly(request) && IsRest(t, cs, request, built, map')
    requires others + built.matchFiles == |cs|
    ensures map'.otherFilesNotMapped == Some(others)
  {
  }

  ghost predicate HasVisible(t: Toolkit, f: FileSkeleton) {
    exists d :: d in f.declarations && Visible(t, f, d)
  }

  ghost predicate HasMatch(t: Toolkit, f: FileSkeleton, matches: string -> bool) {
    exists d :: d in f.declarations && matches(d.name) && Visible(t, f, d)
  }

  /** How many files have something to list of which nothing matches. */
  ghost function Unmatched(t: Toolkit, ranking: Ranking, ordered: seq<FileSkeleton>, matches: string -> bool): nat {
    if ordered == [] then 0
    else
      var last := ordered[|ordered| - 1];
      Unmatched(t, ranking, ordered[..|ordered| - 1], matches)
      + if HasVisible(t, last) && !HasMatch(t, last, matches) then 1 else 0
  }

  lemma {:induction false} UnmatchedAreTheRest(t: Toolkit, ranking: Ranking, ordered: seq<FileSkeleton>,
                                               matches: string -> bool, compact: bool)
    ensures Unmatched(t, ranking, ordered, matches) + |Candidates(t, ranking, ordered, Focused(matches))|
         == |Candidates(t, ranking, ordered, Ranked(compact))|
  {
    if ordered != [] {
      var last := ordered[|ordered| - 1];
      UnmatchedAreTheRest(t, ranking, ordered[..|ordered| - 1], matches, compact);
      VisibleListed(t, ranking, last, matches, compact);
    }
  }

  lemma VisibleListed(t: Toolkit, ranking: Ranking, f: FileSkeleton, matches: string -> bool, compact: bool)
    ensures Signatures(t, ranking, f, Ranked(compact)) != [] <==> HasVisible(t, f)
    ensures Signatures(t, ranking, f, Focused(matches)) != [] <==> HasMatch(t, f, matches)
    ensures HasMatch(t, f, matches) ==> HasVisible(t, f)
  {
    SomethingListed(t, ranking, f, Ranked(compact));
    SomethingListed(t, ranking, f, Focused(matches));
    if HasVisible(t, f) {
      var d :| d in f.declarations && Visible(t, f, d);
      assert Lists(Ranked(compact), d);
    }
    if HasMatch(t, f, matches) {
      var d :| d in f.declarations && matches(d.name) && Visible(t, f, d);
      assert Lists(Focused(matches), d);
    }
  }

  // ----- the same repository maps identically

  lemma FocusUnique(t: Toolkit, ranking: Ranking, ordered: seq<FileSkeleton>, request: Request, a: FocusBuild,
                    b: FocusBuild)
    requires IsFocus(t, ranking, ordered, request, a) && IsFocus(t, ranking, ordered, request, b)
    ensures a == b
  {
  }

  lemma PartUnique(cs: seq<Candidate>, estimate: string -> nat, budget: nat, reserve: nat, a: RankedPart, b: RankedPart)
    requires reserve <= budget && LeavesPart(cs, estimate, budget, reserve, a) && LeavesPart(cs, estimate, budget, reserve, b)
    ensures a == b
  {
    GroupsUnique(a.omitted, a.directories, b.directories);
  }

  lemma RankedPartUnique(cs: seq<Candidate>, estimate: string -> nat, budget: nat, a: RankedPart, b: RankedPart)
    ensures IsRankedPart(cs, estimate, budget, a) && IsRankedPart(cs, estimate, budget, b) ==> a == b
  {
    if IsRankedPart(cs, estimate, budget, a) && IsRankedPart(cs, estimate, budget, b) {
      var x := ReserveOf(cs, estimate, budget, a);
      var y := ReserveOf(cs, estimate, budget, b);
      ReserveUnique(OmittedFrom(Paths(cs), Emitted(cs, estimate, budget)), budget, estimate, x, y);
      PartUnique(cs, estimate, budget, x, a, b);
    }
  }

  lemma MapUnique(t: Toolkit, ranking: Ranking, ordered: seq<FileSkeleton>, total: nat, request: Request, a: RepoMap,
                  b: RepoMap)
    requires IsMapOf(t, ranking, ordered, total, request, a) && IsMapOf(t, ranking, ordered, total, request, b)
    ensures a == b
  {
    var cs := Candidates(t, ranking, ordered, Ranked(request.compact));
    var x := FocusOf(t, ranking, ordered, total, request, a);
    var y := FocusOf(t, ranking, ordered, total, request, b);
    FocusUnique(t, ranking, ordered, request, x, y);
    RestUnique(t, cs, request, x, a, b);
  }

  /** The two maps agree on everything that follows from the focus and the ranked part. */
  ghost predicate SameRest(a: RepoMap, b: RepoMap) {
    && a.fill == b.fill && a.otherFilesNotMapped == b.otherFilesNotMapped && a.files == b.files
    && a.tokenUpperBound == b.tokenUpperBound && a.filesOmitted == b.filesOmitted
    && a.omittedDirectories == b.omittedDirectories && a.omittedDirectoriesShown == b.omittedDirectoriesShown
  }

  lemma FocusOnlyUnique(request: Request, built: FocusBuild, cs: seq<Candidate>, a: RepoMap, b: RepoMap)
    requires IsFocusOnly(request, built, cs, a) && IsFocusOnly(request, built, cs, b)
    ensures SameRest(a, b)
  {
  }

  lemma PartsUnique(cs: seq<Candidate>, estimate: string -> nat, budget: nat, request: Request, built: FocusBuild,
                    a: RepoMap, b: RepoMap)
    ensures HasPart(cs, estimate, budget, request, built, a) && HasPart(cs, estimate, budget, request, built, b) ==>
              SameRest(a, b)
  {
    forall x, y | IsRankedPart(cs, estimate, budget, x) && IsRankedPart(cs, estimate, budget, y)
      ensures x == y
    {
      RankedPartUnique(cs, estimate, budget, x, y);
    }
  }

  lemma RestUnique(t: Toolkit, cs: seq<Candidate>, request: Request, built: FocusBuild, a: RepoMap, b: RepoMap)
    requires built.tokens <= request.budget && IsRest(t, cs, request, built, a) && IsRest(t, cs, request, built, b)
    ensures SameRest(a, b)
  {
    if FocusOnly(request) {
      FocusOnlyUnique(request, built, cs, a, b);
    } else {
      PartsUnique(cs, t.estimate, request.budget - built.tokens, request, built, a, b);
    }
  }

  lemma KeptIgnoreOrder(files: seq<FileSkeleton>, shuffled: seq<FileSkeleton>, needles: seq<string>)
    requires multiset(files) == multiset(shuffled)
    ensures multiset(RestrictToPath(files, needles)) == multiset(RestrictToPath(shuffled, needles))
    ensures Elements(RestrictToPath(files, needles)) == Elements(RestrictToPath(shuffled, needles))
    ensures forall f | f in RestrictToPath(files, needles) :: f in files
  {
    var a, b := RestrictToPath(files, needles), RestrictToPath(shuffled, needles);
    forall f
      ensures multiset(a)[f] == multiset(b)[f]
      ensures f in a ==> f in files
    {
      RestrictionCounts(files, needles, f);
      RestrictionCounts(shuffled, needles, f);
      assert f in a <==> f in multiset(a);
      assert f in files <==> f in multiset(files);
    }
    SameContents(a, b);
  }

  /** The map does not depend on the order the files were found in, as long as their paths differ. */
  lemma RepoMapIgnoresOrder(t: Toolkit, files: seq<FileSkeleton>, shuffled: seq<FileSkeleton>,
                            references: map<string, nat>,
                            request: Request, a: RepoMap, b: RepoMap)
    requires multiset(files) == multiset(shuffled) && DistinctPaths(files)
    requires IsRepoMap(t, files, references, request, a) && IsRepoMap(t, shuffled, references, request, b)
    ensures a == b
  {
    var kept, kept' := RestrictToPath(files, request.path), RestrictToPath(shuffled, request.path);
    KeptIgnoreOrder(files, shuffled, request.path);
    SameContents(files, shuffled);
    var scores, importers :| ScoresPackages(Elements(kept), scores) && CountsImporters(kept, importers)
      && IsMapOf(t, Ranking(references, importers), Sort(kept, FileLe(Ranking(references, importers), scores)), |files|,
                 request, a);
    var scores', importers' :| ScoresPackages(Elements(kept'), scores') && CountsImporters(kept', importers')
      && IsMapOf(t, Ranking(references, importers'), Sort(kept', FileLe(Ranking(references, importers'), scores')),
                 |shuffled|, request, b);
    ScoresDependOnTheFiles(kept, kept', scores, scores');
    CountsDetermined(kept, kept', importers, importers');
    var ranking := Ranking(references, importers);
    FileLeIsPreorder(ranking, scores);
    FileLeTellsApart(ranking, scores, kept);
    SortForgetsOrder(kept, kept', FileLe(ranking, scores));
    MapUnique(t, ranking, Sort(kept, FileLe(ranking, scores)), |files|, request, a, b);
  }
}
