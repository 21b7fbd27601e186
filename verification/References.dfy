/** Reference sites grouped by file, each with the declaration that encloses it, capped per file. */
module References {
  import opened Options
  import opened Ordering
  import Pick
  import opened Skeleton
  import opened Spans

  datatype Location = Location(path: string, line: nat, column: Option<nat>)

  datatype EnclosingDeclaration = EnclosingDeclaration(keyword: string, qualifiedName: string, line: nat)

  datatype Reference = Reference(line: nat, column: Option<nat>, enclosing: Option<EnclosingDeclaration>)

  datatype ReferenceGroup = ReferenceGroup(path: string, references: seq<Reference>, omitted: nat)

  datatype GroupingOptions = GroupingOptions(limit: Option<nat>, includeImports: bool)

  /** The names of the chain joined by dots; a nameless declaration leaves no trace. */
  function QualifiedName(chain: seq<Declaration>): string {
    if chain == [] then ""
    else
      var before := QualifiedName(chain[..|chain| - 1]);
      var name := chain[|chain| - 1].name;
      if name == "" then before else if before == "" then name else before + "." + name
  }

  /** The names of a chain that are any. */
  ghost function NamesOf(chain: seq<Declaration>): seq<string> {
    Collected((k: nat) => if k < |chain| && chain[k].name != "" then Some(chain[k].name) else None, |chain|)
  }

  /** The qualified name splits into the names it was made of, outermost first. */
  lemma {:induction false} QualifiedNameSplits(chain: seq<Declaration>)
    requires forall d | d in chain :: '.' !in d.name
    ensures if NamesOf(chain) == [] then QualifiedName(chain) == ""
            else QualifiedName(chain) != "" && Pick.Split(QualifiedName(chain)) == NamesOf(chain)
  {
    if chain != [] {
      var rest, name := chain[..|chain| - 1], chain[|chain| - 1].name;
      assert forall d | d in rest :: d in chain;
      assert chain[|chain| - 1] in chain;
      QualifiedNameSplits(rest);
      NamesOfOneMore(chain);
      if name != "" {
        Pick.SplitOne(name);
        Pick.SplitAppends(QualifiedName(rest), name);
      }
    }
  }

  lemma NamesOfOneMore(chain: seq<Declaration>)
    requires chain != []
    ensures var name := chain[|chain| - 1].name;
            NamesOf(chain) == NamesOf(chain[..|chain| - 1]) + if name == "" then [] else [name]
  {
    var n := |chain| - 1;
    CollectedAlike((k: nat) => if k < |chain| && chain[k].name != "" then Some(chain[k].name) else None,
                   (k: nat) => if k < |chain[..n]| && chain[..n][k].name != "" then Some(chain[..n][k].name) else None, n);
  }

  function EnclosingDeclarationOf(skeleton: FileSkeleton, line: nat): Option<EnclosingDeclaration> {
    var chain := EnclosingChain(skeleton.declarations, line, None);
    if chain == [] then None
    else Some(EnclosingDeclaration(chain[|chain| - 1].keyword, QualifiedName(chain), chain[|chain| - 1].line))
  }

  /** The least start line of a top-level declaration. */
  function FirstDeclarationLine(declarations: seq<Declaration>): Option<nat> {
    if declarations == [] then None
    else
      match FirstDeclarationLine(declarations[1..])
      case Some(line) => Some(if declarations[0].line <= line then declarations[0].line else line)
      case None => Some(declarations[0].line)
  }

  lemma {:induction false} FirstIsLeast(declarations: seq<Declaration>)
    requires Ascending(declarations)
    ensures FirstDeclarationLine(declarations) == if declarations == [] then None else Some(declarations[0].line)
  {
    if declarations != [] {
      FirstIsLeast(declarations[1..]);
    }
  }

  predicate InHeader(skeleton: Option<FileSkeleton>, line: nat) {
    match skeleton
    case None => false
    case Some(file) =>
      match FirstDeclarationLine(file.declarations)
      case Some(boundary) => line < boundary
      case None => false
  }

  predicate Keeps(skeleton: Option<FileSkeleton>, options: GroupingOptions, site: Location) {
    options.includeImports || !InHeader(skeleton, site.line)
  }

  function ReferenceAt(skeleton: Option<FileSkeleton>, site: Location): Reference {
    Reference(site.line, site.column,
              match skeleton case None => None case Some(file) => EnclosingDeclarationOf(file, site.line))
  }

  function KeptReferences(skeleton: Option<FileSkeleton>, options: GroupingOptions,
                          sites: seq<Location>): seq<Reference> {
    if sites == [] then []
    else
      var last := sites[|sites| - 1];
      KeptReferences(skeleton, options, sites[..|sites| - 1])
      + if Keeps(skeleton, options, last) then [ReferenceAt(skeleton, last)] else []
  }

  /** The line is above every top-level declaration of the file, and there is one. */
  ghost predicate IsAboveAll(skeleton: Option<FileSkeleton>, line: nat) {
    && skeleton.Some? && skeleton.value.declarations != []
    && forall d | d in skeleton.value.declarations :: line < d.line
  }

  lemma {:induction false} FirstIsLeastOfAll(declarations: seq<Declaration>)
    ensures match FirstDeclarationLine(declarations)
            case None => declarations == []
            case Some(line) =>
              (exists d :: d in declarations && d.line == line) && forall d | d in declarations :: line <= d.line
  {
    if declarations != [] {
      FirstIsLeastOfAll(declarations[1..]);
      assert declarations == [declarations[0]] + declarations[1..];
      assert declarations[0] in declarations;
    }
  }

  /** What the site at `k` comes to in the group of the file: nothing for other files and above all declarations. */
  ghost function ShownAt(skeleton: Option<FileSkeleton>, options: GroupingOptions, locations: seq<Location>, path: string,
                         k: nat): Option<Reference> {
    if k < |locations| && locations[k].path == path && (options.includeImports || !IsAboveAll(skeleton, locations[k].line))
    then Some(Reference(locations[k].line, locations[k].column,
                        if skeleton.None? then None else EnclosingDeclarationOf(skeleton.value, locations[k].line)))
    else None
  }

  /** The references kept are those of the sites in the file, in the order of the sites. */
  lemma {:induction false} KeptAreTheSites(skeleton: Option<FileSkeleton>, options: GroupingOptions,
                                           locations: seq<Location>, path: string)
    ensures KeptReferences(skeleton, options, SitesAt(locations, path))
         == Collected(k => ShownAt(skeleton, options, locations, path, k), |locations|)
  {
    if locations != [] {
      var n := |locations| - 1;
      var rest, site := locations[..n], locations[n];
      KeptAreTheSites(skeleton, options, rest, path);
      CollectedOneMore(k => ShownAt(skeleton, options, locations, path, k),
                       k => ShownAt(skeleton, options, rest, path, k), n);
      KeptOneMore(skeleton, options, locations, path);
    }
  }

  lemma KeptOneMore(skeleton: Option<FileSkeleton>, options: GroupingOptions, locations: seq<Location>, path: string)
    requires locations != []
    ensures KeptReferences(skeleton, options, SitesAt(locations, path))
         == Appended(KeptReferences(skeleton, options, SitesAt(locations[..|locations| - 1], path)),
                     ShownAt(skeleton, options, locations, path, |locations| - 1))
  {
    var rest, site := locations[..|locations| - 1], locations[|locations| - 1];
    if skeleton.Some? {
      FirstIsLeastOfAll(skeleton.value.declarations);
    }
    assert Keeps(skeleton, options, site) <==> options.includeImports || !IsAboveAll(skeleton, site.line);
    var before := SitesAt(rest, path);
    assert SitesAt(locations, path) == if site.path == path then before + [site] else before;
    assert (before + [site])[..|before|] == before;
  }

  ghost function HeaderSites(skeleton: Option<FileSkeleton>, options: GroupingOptions, sites: seq<Location>): nat {
    if sites == [] then 0
    else
      HeaderSites(skeleton, options, sites[..|sites| - 1]) + if Keeps(skeleton, options, sites[|sites| - 1]) then 0 else 1
  }

  /** By line, then column; a site without a column first. */
  predicate Precedes(x: Reference, y: Reference) {
    x.line < y.line
    || (x.line == y.line
        && match (x.column, y.column)
           case (None, _) => true
           case (Some(_), None) => false
           case (Some(a), Some(b)) => a <= b)
  }

  function ReferenceLe(): ((Reference, Reference) -> bool) {
    (x: Reference, y: Reference) => Precedes(x, y)
  }

  lemma ReferenceLeIsPreorder()
    ensures TotalPreorder(ReferenceLe())
  {
    var le := ReferenceLe();
    forall x: Reference, y: Reference
      ensures le(x, y) || le(y, x)
    {
      assert Precedes(x, y) || Precedes(y, x);
    }
    forall x: Reference, y: Reference, z: Reference | le(x, y) && le(y, z)
      ensures le(x, z)
    {
      assert Precedes(x, z);
    }
  }

  /** The kept references of a file in order, cut to the limit, and how many the cut dropped. */
  function CappedReferences(skeleton: Option<FileSkeleton>, options: GroupingOptions,
                            sites: seq<Location>): (seq<Reference>, nat) {
    var sorted := Sort(KeptReferences(skeleton, options, sites), ReferenceLe());
    match options.limit
    case Some(limit) => if |sorted| > limit then (sorted[..limit], |sorted| - limit) else (sorted, 0)
    case None => (sorted, 0)
  }

  lemma {:induction false} KeptPlusHeader(skeleton: Option<FileSkeleton>, options: GroupingOptions,
                                          sites: seq<Location>)
    ensures |KeptReferences(skeleton, options, sites)| + HeaderSites(skeleton, options, sites) == |sites|
  {
    if sites != [] {
      KeptPlusHeader(skeleton, options, sites[..|sites| - 1]);
    }
  }

  /** The first of the kept references in order, and the number of the others. */
  ghost predicate CutTo(kept: seq<Reference>, limit: Option<nat>, references: seq<Reference>, omitted: nat) {
    && |references| + omitted == |kept|
    && Sorted(references, ReferenceLe())
    && references <= Sort(kept, ReferenceLe())
    && (omitted > 0 ==> limit == Some(|references|))
  }

  lemma PrefixSorted(sorted: seq<Reference>, n: nat)
    requires Sorted(sorted, ReferenceLe()) && n <= |sorted|
    ensures Sorted(sorted[..n], ReferenceLe()) && sorted[..n] <= sorted
  {
  }

  lemma CapCuts(skeleton: Option<FileSkeleton>, options: GroupingOptions, sites: seq<Location>)
    ensures var (references, omitted) := CappedReferences(skeleton, options, sites);
            CutTo(KeptReferences(skeleton, options, sites), options.limit, references, omitted)
  {
    var kept := KeptReferences(skeleton, options, sites);
    var sorted := Sort(kept, ReferenceLe());
    ReferenceLeIsPreorder();
    SortContents(kept, ReferenceLe());
    SortSorted(kept, ReferenceLe());
    if options.limit.Some? && |sorted| > options.limit.value {
      PrefixSorted(sorted, options.limit.value);
    }
  }

  /** The listed references ascend by line, and on a line by column, those without a column first. */
  lemma ListedInOrder(skeleton: Option<FileSkeleton>, options: GroupingOptions, sites: seq<Location>, i: nat, j: nat)
    requires i < j < |CappedReferences(skeleton, options, sites).0|
    ensures var x, y := CappedReferences(skeleton, options, sites).0[i], CappedReferences(skeleton, options, sites).0[j];
            || x.line < y.line
            || (x.line == y.line && x.column.None?)
            || (x.line == y.line && x.column.Some? && y.column.Some? && x.column.value <= y.column.value)
  {
    CapCuts(skeleton, options, sites);
    var references := CappedReferences(skeleton, options, sites).0;
    assert ReferenceLe()(references[i], references[j]);
  }

  /** Every site of the file is listed, capped away, or a header site. The listed ones are the first in order. */
  lemma CapConserves(skeleton: Option<FileSkeleton>, options: GroupingOptions, sites: seq<Location>)
    ensures var (references, omitted) := CappedReferences(skeleton, options, sites);
            && |references| + omitted + HeaderSites(skeleton, options, sites) == |sites|
            && forall r | r in references :: r in KeptReferences(skeleton, options, sites)
  {
    KeptPlusHeader(skeleton, options, sites);
    CapCuts(skeleton, options, sites);
    SortContents(KeptReferences(skeleton, options, sites), ReferenceLe());
  }

  // ----- the groups

  function SitesAt(locations: seq<Location>, path: string): seq<Location> {
    if locations == [] then []
    else
      var last := locations[|locations| - 1];
      SitesAt(locations[..|locations| - 1], path) + if last.path == path then [last] else []
  }

  /** The last skeleton with the path. */
  function SkeletonAt(skeletons: seq<FileSkeleton>, path: string): Option<FileSkeleton> {
    if skeletons == [] then None
    else if skeletons[|skeletons| - 1].path == path then Some(skeletons[|skeletons| - 1])
    else SkeletonAt(skeletons[..|skeletons| - 1], path)
  }

  ghost function PathsOf(locations: seq<Location>): set<string> {
    set location | location in locations :: location.path
  }

  ghost predicate Bucketed(locations: seq<Location>, sitesByPath: map<string, seq<Location>>) {
    sitesByPath.Keys == PathsOf(locations)
    && forall path | path in sitesByPath :: sitesByPath[path] == SitesAt(locations, path)
  }

  lemma {:induction false} NoSitesElsewhere(locations: seq<Location>, path: string)
    ensures SitesAt(locations, path) == [] <==> path !in PathsOf(locations)
  {
    if locations != [] {
      var n := |locations| - 1;
      NoSitesElsewhere(locations[..n], path);
      assert PathsOf(locations) == PathsOf(locations[..n]) + {locations[n].path};
    }
  }

  method SitesByPath(locations: seq<Location>) returns (sitesByPath: map<string, seq<Location>>)
    ensures Bucketed(locations, sitesByPath)
  {
    sitesByPath := map[];
    for k := 0 to |locations|
      invariant Bucketed(locations[..k], sitesByPath)
    {
      var location := locations[k];
      assert locations[..k + 1][..k] == locations[..k];
      assert PathsOf(locations[..k + 1]) == PathsOf(locations[..k]) + {location.path};
      NoSitesElsewhere(locations[..k], location.path);
      var before := if location.path in sitesByPath then sitesByPath[location.path] else [];
      sitesByPath := sitesByPath[location.path := before + [location]];
    }
    assert locations[..|locations|] == locations;
  }

  /** The group of one file. */
  ghost predicate IsGroup(locations: seq<Location>, skeletons: seq<FileSkeleton>, options: GroupingOptions,
                          g: ReferenceGroup) {
    (g.references, g.omitted) == CappedReferences(SkeletonAt(skeletons, g.path), options, SitesAt(locations, g.path))
  }

  ghost predicate AreGroups(locations: seq<Location>, skeletons: seq<FileSkeleton>, options: GroupingOptions,
                            groups: seq<ReferenceGroup>) {
    forall g | g in groups :: IsGroup(locations, skeletons, options, g)
  }

  /** One group for each file that has sites, in path order. */
  ghost predicate GroupsReferences(locations: seq<Location>, skeletons: seq<FileSkeleton>, options: GroupingOptions,
                                   groups: seq<ReferenceGroup>) {
    && (forall g | g in groups :: IsGroup(locations, skeletons, options, g))
    && ReadsOut(PathsOf(locations), GroupPaths(groups), StringLe())
  }

  ghost function GroupPaths(groups: seq<ReferenceGroup>): seq<string> {
    seq(|groups|, i requires 0 <= i < |groups| => groups[i].path)
  }

  function LookUp(skeletonByPath: map<string, FileSkeleton>, path: string): Option<FileSkeleton> {
    if path in skeletonByPath then Some(skeletonByPath[path]) else None
  }

  method SkeletonByPath(skeletons: seq<FileSkeleton>) returns (skeletonByPath: map<string, FileSkeleton>)
    ensures forall path :: LookUp(skeletonByPath, path) == SkeletonAt(skeletons, path)
  {
    skeletonByPath := map[];
    for k := 0 to |skeletons|
      invariant forall path :: LookUp(skeletonByPath, path) == SkeletonAt(skeletons[..k], path)
    {
      assert skeletons[..k + 1][..k] == skeletons[..k];
      skeletonByPath := skeletonByPath[skeletons[k].path := skeletons[k]];
    }
    assert skeletons[..|skeletons|] == skeletons;
  }

  lemma GroupAdded(locations: seq<Location>, skeletons: seq<FileSkeleton>, options: GroupingOptions,
                   groups: seq<ReferenceGroup>, g: ReferenceGroup)
    requires AreGroups(locations, skeletons, options, groups) && IsGroup(locations, skeletons, options, g)
    ensures AreGroups(locations, skeletons, options, groups + [g])
    ensures GroupPaths(groups + [g]) == GroupPaths(groups) + [g.path]
  {
  }

  function GroupOf(skeleton: Option<FileSkeleton>, options: GroupingOptions, path: string,
                   sites: seq<Location>): ReferenceGroup {
    var (references, omitted) := CappedReferences(skeleton, options, sites);
    ReferenceGroup(path, references, omitted)
  }

  method GroupReferences(locations: seq<Location>, skeletons: seq<FileSkeleton>, options: GroupingOptions)
    returns (groups: seq<ReferenceGroup>)
    ensures GroupsReferences(locations, skeletons, options, groups)
  {
    var skeletonByPath := SkeletonByPath(skeletons);
    var sitesByPath := SitesByPath(locations);
    StringIsTotalOrder();
    var paths := ReadOut(sitesByPath.Keys, StringLe());
    groups := [];
    for k := 0 to |paths|
      invariant GroupPaths(groups) == paths[..k]
      invariant AreGroups(locations, skeletons, options, groups)
    {
      var path := paths[k];
      assert path in paths && path in sitesByPath;
      assert LookUp(skeletonByPath, path) == SkeletonAt(skeletons, path) && sitesByPath[path] == SitesAt(locations, path);
      var g := GroupOf(LookUp(skeletonByPath, path), options, path, sitesByPath[path]);
      assert paths[..k + 1] == paths[..k] + [path];
      GroupAdded(locations, skeletons, options, groups, g);
      groups := groups + [g];
    }
    assert paths[..|paths|] == paths;
  }

  // ----- nothing is lost

  /** Listed, capped and header sites of the groups together. */
  ghost function Accounted(locations: seq<Location>, skeletons: seq<FileSkeleton>, options: GroupingOptions,
                           groups: seq<ReferenceGroup>): nat {
    if groups == [] then 0
    else
      var last := groups[|groups| - 1];
      Accounted(locations, skeletons, options, groups[..|groups| - 1])
      + |last.references| + last.omitted
      + HeaderSites(SkeletonAt(skeletons, last.path), options, SitesAt(locations, last.path))
  }

  ghost function SitesAtAny(locations: seq<Location>, paths: seq<string>): nat {
    if paths == [] then 0 else SitesAtAny(locations, paths[..|paths| - 1]) + |SitesAt(locations, paths[|paths| - 1])|
  }

  lemma {:induction false} NoSites(paths: seq<string>)
    ensures SitesAtAny([], paths) == 0
  {
    if paths != [] {
      NoSites(paths[..|paths| - 1]);
    }
  }

  lemma {:induction false} OneMoreSite(locations: seq<Location>, paths: seq<string>)
    requires locations != [] && Distinct(paths)
    ensures SitesAtAny(locations, paths)
         == SitesAtAny(locations[..|locations| - 1], paths) + if locations[|locations| - 1].path in paths then 1 else 0
  {
    if paths != [] {
      var n := |paths| - 1;
      OneMoreSite(locations, paths[..n]);
      assert paths == paths[..n] + [paths[n]];
      assert paths[n] !in paths[..n];
    }
  }

  lemma {:induction false} EverySiteAtItsPath(locations: seq<Location>, paths: seq<string>)
    requires Distinct(paths) && forall location | location in locations :: location.path in paths
    ensures SitesAtAny(locations, paths) == |locations|
  {
    if locations == [] {
      NoSites(paths);
    } else {
      var n := |locations| - 1;
      assert locations[n] in locations && forall l | l in locations[..n] :: l in locations;
      EverySiteAtItsPath(locations[..n], paths);
      OneMoreSite(locations, paths);
    }
  }

  lemma {:induction false} AccountedByPath(locations: seq<Location>, skeletons: seq<FileSkeleton>,
                                           options: GroupingOptions,
                                           groups: seq<ReferenceGroup>)
    requires forall g | g in groups :: IsGroup(locations, skeletons, options, g)
    ensures Accounted(locations, skeletons, options, groups) == SitesAtAny(locations, GroupPaths(groups))
  {
    if groups != [] {
      var n := |groups| - 1;
      assert groups[n] in groups && forall g | g in groups[..n] :: g in groups;
      AccountedByPath(locations, skeletons, options, groups[..n]);
      assert GroupPaths(groups)[..n] == GroupPaths(groups[..n]);
      CapConserves(SkeletonAt(skeletons, groups[n].path), options, SitesAt(locations, groups[n].path));
    }
  }

  /** Every reference site is listed in a group, counted as omitted there, or a header site of its file. */
  lemma GroupingConserves(locations: seq<Location>, skeletons: seq<FileSkeleton>, options: GroupingOptions,
                          groups: seq<ReferenceGroup>)
    requires GroupsReferences(locations, skeletons, options, groups)
    ensures Accounted(locations, skeletons, options, groups) == |locations|
  {
    AccountedByPath(locations, skeletons, options, groups);
    forall location | location in locations
      ensures location.path in GroupPaths(groups)
    {
      assert location.path in PathsOf(locations);
    }
    EverySiteAtItsPath(locations, GroupPaths(groups));
  }

  // ----- every listed reference is attributed

  /** What the extractor guarantees of a skeleton. */
  ghost predicate InOrder(skeleton: FileSkeleton) {
    Ascending(skeleton.declarations)
  }

  lemma {:induction false} KeptAreAttributed(skeleton: FileSkeleton, options: GroupingOptions, sites: seq<Location>)
    requires InOrder(skeleton) && skeleton.declarations != [] && !options.includeImports
    ensures forall r | r in KeptReferences(Some(skeleton), options, sites) :: r.enclosing.Some?
  {
    if sites != [] {
      KeptAreAttributed(skeleton, options, sites[..|sites| - 1]);
      FirstIsLeast(skeleton.declarations);
      EnclosedFromTheFirstOn(skeleton.declarations, sites[|sites| - 1].line);
    }
  }

  /** With header sites dropped, every reference listed for a file with declarations names the declaration enclosing it. */
  lemma ListedAreAttributed(locations: seq<Location>, skeletons: seq<FileSkeleton>, options: GroupingOptions,
                            groups: seq<ReferenceGroup>, g: ReferenceGroup, skeleton: FileSkeleton)
    requires GroupsReferences(locations, skeletons, options, groups) && g in groups && !options.includeImports
    requires SkeletonAt(skeletons, g.path) == Some(skeleton) && InOrder(skeleton) && skeleton.declarations != []
    ensures forall r | r in g.references :: r.enclosing.Some?
  {
    var sites := SitesAt(locations, g.path);
    KeptAreAttributed(skeleton, options, sites);
    CapConserves(Some(skeleton), options, sites);
  }

  /** A header site is exactly one that no declaration encloses. */
  lemma HeaderIsUnenclosed(skeleton: FileSkeleton, line: nat)
    requires InOrder(skeleton) && skeleton.declarations != []
    ensures InHeader(Some(skeleton), line) <==> EnclosingDeclarationOf(skeleton, line) == None
  {
    FirstIsLeast(skeleton.declarations);
    EnclosedFromTheFirstOn(skeleton.declarations, line);
  }

  /** When declarations are written in line order, a site is attributed to the last one to start on or before it. */
  lemma AttributedToTheLastStarted(skeleton: FileSkeleton, line: nat)
    requires LinesAscend(Written(skeleton.declarations)) && FromLineOne(Written(skeleton.declarations))
    ensures match LastStarted(Written(skeleton.declarations), line)
            case None => EnclosingDeclarationOf(skeleton, line) == None
            case Some(d) =>
              EnclosingDeclarationOf(skeleton, line).Some?
              && EnclosingDeclarationOf(skeleton, line).value.keyword == d.keyword
              && EnclosingDeclarationOf(skeleton, line).value.line == d.line
  {
    InnermostIsLastStarted(skeleton.declarations, line, None);
  }
}
