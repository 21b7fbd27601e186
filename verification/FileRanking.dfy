/**
 How central a file is: the rank of its package in the import graph, then how often its declarations
 are referenced and imported by name; and in which order its signatures are listed.
 */
module FileRanking {
  import opened Graphs
  import opened Imports
  import opened Options
  import opened Ordering
  import opened PageRank
  import opened Skeleton
  import opened TarjanInvariant

  const DAMPING := 0.85
  const ITERATIONS: nat := 30

  // ----- importer counts

  /** A wildcard import names no declaration. */
  predicate IsWildcard(text: string)
    ensures IsWildcard(text) <==> exists package: string :: text == package + ".*"
  {
    assert |text| >= 2 ==> text == text[..|text| - 2] + text[|text| - 2..];
    |text| >= 2 && text[|text| - 2..] == ".*"
  }

  /** How many of the imports are `name`. */
  ghost function Mentions(imports: seq<string>, name: string): nat {
    if imports == [] then 0
    else
      var last := imports[|imports| - 1];
      Mentions(imports[..|imports| - 1], name) + if last == name && !IsWildcard(last) then 1 else 0
  }

  /** How many imports of all the files are `name`. */
  ghost function Importers(files: seq<FileSkeleton>, name: string): nat {
    if files == [] then 0
    else Importers(files[..|files| - 1], name) + Mentions(files[|files| - 1].imports, name)
  }

  function CountOf(counts: map<string, nat>, name: string): nat {
    if name in counts then counts[name] else 0
  }

  ghost predicate CountsImporters(files: seq<FileSkeleton>, counts: map<string, nat>) {
    forall name :: CountOf(counts, name) == Importers(files, name) && (name in counts ==> counts[name] > 0)
  }

  /** Counts the explicit imports of every declaration name. */
  method ImporterCounts(files: seq<FileSkeleton>) returns (counts: map<string, nat>)
    ensures CountsImporters(files, counts)
  {
    counts := map[];
    for i := 0 to |files|
      invariant CountsImporters(files[..i], counts)
    {
      var imports := files[i].imports;
      ghost var before := counts;
      for k := 0 to |imports|
        invariant forall name :: CountOf(counts, name) == CountOf(before, name) + Mentions(imports[..k], name)
        invariant forall name | name in counts :: counts[name] > 0
      {
        assert imports[..k + 1][..k] == imports[..k];
        if !IsWildcard(imports[k]) {
          counts := counts[imports[k] := CountOf(counts, imports[k]) + 1];
        }
      }
      assert imports[..|imports|] == imports;
      assert files[..i + 1][..i] == files[..i];
    }
    assert files[..|files|] == files;
  }

  /** How many of the files import `name`. */
  ghost function ImportingFiles(files: seq<FileSkeleton>, name: string): nat {
    if files == [] then 0
    else
      var last := files[|files| - 1];
      ImportingFiles(files[..|files| - 1], name) + if Mentions(last.imports, name) > 0 then 1 else 0
  }

  /** Imports are counted rather than files: the two are equal exactly when no file imports the name twice. */
  lemma {:induction false} ImportersAreFilesExactly(files: seq<FileSkeleton>, name: string)
    ensures ImportingFiles(files, name) <= Importers(files, name)
    ensures Importers(files, name) == ImportingFiles(files, name)
       <==> forall i | 0 <= i < |files| :: Mentions(files[i].imports, name) <= 1
  {
    if files != [] {
      var n := |files| - 1;
      ImportersAreFilesExactly(files[..n], name);
      assert forall i | 0 <= i < n :: files[..n][i] == files[i];
    }
  }

  /** A file that imports one name twice counts as two files that import it. */
  lemma ImportedTwiceCountsTwice(file: FileSkeleton, name: string)
    requires file.imports == [name, name] && !IsWildcard(name)
    ensures Importers([file], name) == 2 && ImportingFiles([file], name) == 1
  {
    assert file.imports[..1] == [name] && [name][..0] == [] && [file][..0] == [];
    assert Mentions([name], name) == 1 && Mentions(file.imports, name) == 2;
  }

  lemma {:induction false} ImportersWithout(files: seq<FileSkeleton>, i: nat, name: string)
    requires i < |files|
    ensures Importers(files, name) == Importers(files[..i] + files[i + 1..], name) + Mentions(files[i].imports, name)
  {
    var n := |files| - 1;
    var rest := files[..i] + files[i + 1..];
    if i == n {
      assert rest == files[..n];
    } else {
      ImportersWithout(files[..n], i, name);
      assert files[..n][..i] + files[..n][i + 1..] == rest[..n - 1];
      assert rest[n - 1] == files[n];
    }
  }

  /** The counts depend only on which files there are. */
  lemma {:induction false} ImportersIgnoreOrder(files: seq<FileSkeleton>, shuffled: seq<FileSkeleton>, name: string)
    requires multiset(files) == multiset(shuffled)
    ensures Importers(files, name) == Importers(shuffled, name)
  {
    SameContents(files, shuffled);
    if files != [] {
      var n := |files| - 1;
      assert files == files[..n] + [files[n]];
      assert files[n] in shuffled;
      var i: nat :| i < |shuffled| && shuffled[i] == files[n];
      assert shuffled == shuffled[..i] + [shuffled[i]] + shuffled[i + 1..];
      var rest := shuffled[..i] + shuffled[i + 1..];
      assert multiset(rest) == multiset(shuffled) - multiset{files[n]};
      ImportersIgnoreOrder(files[..n], rest, name);
      ImportersWithout(shuffled, i, name);
    }
  }

  lemma CountsDetermined(files: seq<FileSkeleton>, shuffled: seq<FileSkeleton>, a: map<string, nat>,
                         b: map<string, nat>)
    requires multiset(files) == multiset(shuffled) && CountsImporters(files, a) && CountsImporters(shuffled, b)
    ensures a == b
  {
    forall name
      ensures name in a <==> name in b
      ensures CountOf(a, name) == CountOf(b, name)
    {
      ImportersIgnoreOrder(files, shuffled, name);
    }
    forall name | name in a
      ensures a[name] == b[name]
    {
      assert CountOf(a, name) == CountOf(b, name);
    }
  }

  // ----- package scores

  function ScoreMap(ranked: seq<RankedNode<string>>): map<string, real> {
    if ranked == [] then map[]
    else
      var last := ranked[|ranked| - 1];
      ScoreMap(ranked[..|ranked| - 1])[last.node := last.score]
  }

  /** The packages ranked by the package graph of the files. */
  ghost predicate RanksPackages(files: set<FileSkeleton>, ranked: seq<RankedNode<string>>) {
    exists graph, simple ::
      && IsImportGraph(files, PackageLevel, graph)
      && IsGraphOf(graph.edges, simple)
      && IsRanking(simple, DAMPING, ITERATIONS, StringLe(), ranked)
  }

  /** The scores are the page rank of the package graph of the files. */
  ghost predicate ScoresPackages(files: set<FileSkeleton>, scores: map<string, real>) {
    exists ranked :: RanksPackages(files, ranked) && scores == ScoreMap(ranked)
  }

  method RankEdges(edges: seq<(string, string)>) returns (ranked: seq<RankedNode<string>>)
    ensures exists simple :: IsGraphOf(edges, simple) && IsRanking(simple, DAMPING, ITERATIONS, StringLe(), ranked)
  {
    StringIsTotalOrder();
    var simple := FromEdges(edges);
    ranked := Rank(simple, DAMPING, ITERATIONS, StringLe());
    assert IsGraphOf(edges, simple);
  }

  method RankPackages(files: seq<FileSkeleton>) returns (ranked: seq<RankedNode<string>>)
    requires |files| < UNVISITED
    ensures RanksPackages(Elements(files), ranked)
  {
    var graph := BuildImportGraph(files, PackageLevel);
    ranked := RankEdges(graph.edges);
  }

  method PackageScores(files: seq<FileSkeleton>) returns (scores: map<string, real>)
    requires |files| < UNVISITED
    ensures ScoresPackages(Elements(files), scores)
  {
    var ranked := RankPackages(files);
    scores := map[];
    for k := 0 to |ranked|
      invariant scores == ScoreMap(ranked[..k])
    {
      assert ranked[..k + 1][..k] == ranked[..k];
      scores := scores[ranked[k].node := ranked[k].score];
    }
    assert ranked[..|ranked|] == ranked;
  }

  lemma RanksDependOnTheFiles(files: seq<FileSkeleton>, shuffled: seq<FileSkeleton>, r: seq<RankedNode<string>>,
                              s: seq<RankedNode<string>>)
    requires Elements(files) == Elements(shuffled)
    requires RanksPackages(Elements(files), r) && RanksPackages(Elements(shuffled), s)
    ensures r == s
  {
    var g, x :| IsImportGraph(Elements(files), PackageLevel, g) && IsGraphOf(g.edges, x)
                && IsRanking(x, DAMPING, ITERATIONS, StringLe(), r);
    var h, y :| IsImportGraph(Elements(shuffled), PackageLevel, h) && IsGraphOf(h.edges, y)
                && IsRanking(y, DAMPING, ITERATIONS, StringLe(), s);
    ImportGraphIgnoresOrder(files, shuffled, PackageLevel, g, h);
    GraphDetermined(g.edges, x, y);
    StringIsTotalOrder();
    RankingDetermined(x, DAMPING, ITERATIONS, StringLe(), r, s);
  }

  /** The scores depend only on the set of files. */
  lemma ScoresDependOnTheFiles(files: seq<FileSkeleton>, shuffled: seq<FileSkeleton>, a: map<string, real>,
                               b: map<string, real>)
    requires Elements(files) == Elements(shuffled)
    requires ScoresPackages(Elements(files), a) && ScoresPackages(Elements(shuffled), b)
    ensures a == b
  {
    var r :| RanksPackages(Elements(files), r) && a == ScoreMap(r);
    var s :| RanksPackages(Elements(shuffled), s) && b == ScoreMap(s);
    RanksDependOnTheFiles(files, shuffled, r, s);
  }

  function ScoreOf(scores: map<string, real>, f: FileSkeleton): real {
    match f.package
    case Some(package) => if package in scores then scores[package] else 0.0
    case None => 0.0
  }

  /** The row of the file's package. */
  ghost predicate IsRowOf(ranked: seq<RankedNode<string>>, f: FileSkeleton, row: RankedNode<string>) {
    row in ranked && f.package == Some(row.node)
  }

  /** The score of a file: that of the row of its package, and zero when there is none. */
  ghost predicate HasScore(ranked: seq<RankedNode<string>>, f: FileSkeleton, score: real) {
    && (forall row | IsRowOf(ranked, f, row) :: score == row.score)
    && ((forall row :: !IsRowOf(ranked, f, row)) ==> score == 0.0)
  }

  ghost predicate RowsApart(ranked: seq<RankedNode<string>>) {
    forall i, j | 0 <= i < j < |ranked| :: ranked[i].node != ranked[j].node
  }

  lemma {:induction false} ScoreMapHolds(ranked: seq<RankedNode<string>>)
    requires RowsApart(ranked)
    ensures forall row | row in ranked :: row.node in ScoreMap(ranked) && ScoreMap(ranked)[row.node] == row.score
    ensures forall node | node in ScoreMap(ranked) :: exists row :: row in ranked && row.node == node
  {
    if ranked != [] {
      var rest, last := ranked[..|ranked| - 1], ranked[|ranked| - 1];
      ScoreMapHolds(rest);
      assert ranked == rest + [last];
      forall row | row in rest
        ensures row.node != last.node
      {
        var i :| 0 <= i < |rest| && rest[i] == row;
        assert ranked[i] == row;
      }
      assert last in ranked;
    }
  }

  lemma RankedApart(files: set<FileSkeleton>, ranked: seq<RankedNode<string>>)
    requires RanksPackages(files, ranked)
    ensures RowsApart(ranked)
  {
    var graph, simple :| IsImportGraph(files, PackageLevel, graph) && IsGraphOf(graph.edges, simple)
                         && IsRanking(simple, DAMPING, ITERATIONS, StringLe(), ranked);
    if simple.nodeIds != [] {
      var scores :| RankingOf(simple.nodeIds, scores, ranked, StringLe());
      RankedNodesApart(simple.nodeIds, scores, ranked, StringLe());
    }
  }

  /** The score files are ordered by is the one their package has in the ranking. */
  lemma ScoreOfIsExact(ranked: seq<RankedNode<string>>, f: FileSkeleton)
    requires RowsApart(ranked)
    ensures HasScore(ranked, f, ScoreOf(ScoreMap(ranked), f))
  {
    ScoreMapHolds(ranked);
    if f.package.Some? && f.package.value in ScoreMap(ranked) {
      var row :| row in ranked && row.node == f.package.value;
      assert IsRowOf(ranked, f, row);
    }
  }

  // ----- weights

  datatype Ranking = Ranking(references: map<string, nat>, importers: map<string, nat>)

  datatype Weight = Weight(references: nat, importers: nat)

  function QualifiedName(f: FileSkeleton, d: Declaration): string {
    match f.package
    case Some(package) => package + "." + d.name
    case None => d.name
  }

  function WeightOf(ranking: Ranking, f: FileSkeleton, d: Declaration): Weight {
    Weight(CountOf(ranking.references, d.name), CountOf(ranking.importers, QualifiedName(f, d)))
  }

  function TotalWeight(ranking: Ranking, f: FileSkeleton, ds: seq<Declaration>): Weight {
    if ds == [] then Weight(0, 0)
    else
      var before := TotalWeight(ranking, f, ds[..|ds| - 1]);
      var next := WeightOf(ranking, f, ds[|ds| - 1]);
      Weight(before.references + next.references, before.importers + next.importers)
  }

  function FileWeight(ranking: Ranking, f: FileSkeleton): Weight {
    TotalWeight(ranking, f, f.declarations)
  }

  /** An import by the qualified name is one that leads to the declaration, if its name has no dot. */
  lemma QualifiedNameLeadsToIt(files: set<FileSkeleton>, f: FileSkeleton, d: Declaration)
    requires f in files && d in f.declarations && f.package.Some? && '.' !in d.name
    ensures Resolves(files, QualifiedName(f, d)) && HasTarget(files, QualifiedName(f, d), FileLevel, f.path)
  {
    var package := f.package.value;
    assert Splits(QualifiedName(f, d), package, d.name) && Provides(f, package, d.name);
    assert IsTarget(files, package, d.name, FileLevel, f.path);
  }

  /** How often the names of the declarations are referenced. */
  ghost function ReferencesOf(references: map<string, nat>, ds: seq<Declaration>): nat {
    if ds == [] then 0
    else ReferencesOf(references, ds[..|ds| - 1]) + CountOf(references, ds[|ds| - 1].name)
  }

  /** How often the files import them. */
  ghost function ImportersOf(files: seq<FileSkeleton>, f: FileSkeleton, ds: seq<Declaration>): nat {
    if ds == [] then 0
    else ImportersOf(files, f, ds[..|ds| - 1]) + Importers(files, QualifiedName(f, ds[|ds| - 1]))
  }

  lemma {:induction false} WeightIsExact(files: seq<FileSkeleton>, ranking: Ranking, f: FileSkeleton,
                                         ds: seq<Declaration>)
    requires CountsImporters(files, ranking.importers)
    ensures TotalWeight(ranking, f, ds).references == ReferencesOf(ranking.references, ds)
    ensures TotalWeight(ranking, f, ds).importers == ImportersOf(files, f, ds)
  {
    if ds != [] {
      WeightIsExact(files, ranking, f, ds[..|ds| - 1]);
    }
  }

  predicate Heavier(x: Weight, y: Weight) {
    x.references > y.references || (x.references == y.references && x.importers > y.importers)
  }

  // ----- the order of the files

  /** What a file is ordered by. */
  datatype Standing = Standing(score: real, weight: Weight, path: string)

  function StandingOf(ranking: Ranking, scores: map<string, real>, f: FileSkeleton): Standing {
    Standing(ScoreOf(scores, f), FileWeight(ranking, f), f.path)
  }

  /** Package score descending, then weight descending, then path ascending. */
  predicate StandsBefore(x: Standing, y: Standing) {
    if x.score != y.score then x.score > y.score
    else if x.weight != y.weight then Heavier(x.weight, y.weight)
    else StringLe()(x.path, y.path)
  }

  function FileLe(ranking: Ranking, scores: map<string, real>): ((FileSkeleton, FileSkeleton) -> bool) {
    (left: FileSkeleton, right: FileSkeleton) =>
      StandsBefore(StandingOf(ranking, scores, left), StandingOf(ranking, scores, right))
  }

  /** The declarations of `f` are used more than those of `g`: by name, or else by import, or else its path comes first. */
  ghost predicate MoreUsed(files: seq<FileSkeleton>, references: map<string, nat>, f: FileSkeleton, g: FileSkeleton) {
    var byName, otherByName := ReferencesOf(references, f.declarations), ReferencesOf(references, g.declarations);
    var byImport, otherByImport := ImportersOf(files, f, f.declarations), ImportersOf(files, g, g.declarations);
    || byName > otherByName
    || (byName == otherByName && byImport > otherByImport)
    || (byName == otherByName && byImport == otherByImport && StringLe()(f.path, g.path))
  }

  /** The package of `f` is ranked higher than that of `g`, or as high and `f` is used more. */
  ghost predicate MoreCentral(files: seq<FileSkeleton>, references: map<string, nat>, ranked: seq<RankedNode<string>>,
                              f: FileSkeleton, g: FileSkeleton) {
    exists x, y ::
      HasScore(ranked, f, x) && HasScore(ranked, g, y) && (x > y || (x == y && MoreUsed(files, references, f, g)))
  }

  /** The order of the files is that of their centrality. */
  lemma OrderIsCentrality(files: seq<FileSkeleton>, ranking: Ranking, ranked: seq<RankedNode<string>>, f: FileSkeleton,
                          g: FileSkeleton)
    requires RowsApart(ranked) && CountsImporters(files, ranking.importers)
    requires FileLe(ranking, ScoreMap(ranked))(f, g)
    ensures MoreCentral(files, ranking.references, ranked, f, g)
  {
    ScoreOfIsExact(ranked, f);
    ScoreOfIsExact(ranked, g);
    WeightIsExact(files, ranking, f, f.declarations);
    WeightIsExact(files, ranking, g, g.declarations);
  }

  lemma StandsBeforeIsOrder()
    ensures forall x, y :: StandsBefore(x, y) || StandsBefore(y, x)
    ensures forall x, y, z :: StandsBefore(x, y) && StandsBefore(y, z) ==> StandsBefore(x, z)
    ensures forall x, y :: StandsBefore(x, y) && StandsBefore(y, x) ==> x == y
  {
    StringIsTotalOrder();
    forall x: Standing, y: Standing, z: Standing | StandsBefore(x, y) && StandsBefore(y, z)
      ensures StandsBefore(x, z)
    {
      assert x.path == x.path && StringLe()(x.path, y.path) && StringLe()(y.path, z.path) ==> StringLe()(x.path, z.path);
    }
    forall x: Standing, y: Standing
      ensures StandsBefore(x, y) || StandsBefore(y, x)
      ensures StandsBefore(x, y) && StandsBefore(y, x) ==> x == y
    {
      assert StringLe()(x.path, y.path) || StringLe()(y.path, x.path);
    }
  }

  ghost predicate DistinctPaths(files: seq<FileSkeleton>) {
    forall f, g | f in files && g in files && f.path == g.path :: f == g
  }

  lemma FileLeIsPreorder(ranking: Ranking, scores: map<string, real>)
    ensures TotalPreorder(FileLe(ranking, scores))
  {
    StandsBeforeIsOrder();
  }

  /** Files with different paths are never tied, so their order does not depend on how they were found. */
  lemma FileLeTellsApart(ranking: Ranking, scores: map<string, real>, files: seq<FileSkeleton>)
    requires DistinctPaths(files)
    ensures TellsApart(files, FileLe(ranking, scores))
  {
    StandsBeforeIsOrder();
    var le := FileLe(ranking, scores);
    forall x, y | x in files && y in files && le(x, y) && le(y, x)
      ensures x == y
    {
      assert StandingOf(ranking, scores, x) == StandingOf(ranking, scores, y);
    }
  }

  // ----- the signatures of a file

  /** What the caller lends: the first line of a rendered skeleton, the neutralized name, the token estimate. */
  datatype Toolkit = Toolkit(header: FileSkeleton -> Option<string>, neutralize: string -> string, estimate: string -> nat)

  /** Which declarations of a file are listed and how: all that render, or those a focus matches, by kind and name. */
  datatype Listing = Ranked(compact: bool) | Focused(matches: string -> bool)

  /** The declaration alone in its file, without members. */
  function SignatureOf(t: Toolkit, f: FileSkeleton, d: Declaration): Option<string> {
    t.header(FileSkeleton(f.path, f.package, [], [d.(children := [])]))
  }

  function CompactSignature(t: Toolkit, d: Declaration): Option<string> {
    if d.keyword == "" then None else Some(d.keyword + " " + t.neutralize(d.name))
  }

  function RenderedSignature(t: Toolkit, f: FileSkeleton, d: Declaration, compact: bool): Option<string> {
    match SignatureOf(t, f, d)
    case None => None
    case Some(full) =>
      if !compact then Some(full)
      else
        match CompactSignature(t, d)
        case Some(short) => Some(short)
        case None => Some(full)
  }

  /** Most referenced first, ties by line. */
  function DeclarationLe(ranking: Ranking, f: FileSkeleton): ((Declaration, Declaration) -> bool) {
    (left: Declaration, right: Declaration) =>
      if WeightOf(ranking, f, left) != WeightOf(ranking, f, right) then
        Heavier(WeightOf(ranking, f, left), WeightOf(ranking, f, right))
      else left.line <= right.line
  }

  lemma DeclarationLeIsPreorder(ranking: Ranking, f: FileSkeleton)
    ensures TotalPreorder(DeclarationLe(ranking, f))
  {
  }

  function Listed(ds: seq<Declaration>, listing: Listing): seq<Declaration> {
    match listing
    case Ranked(_) => ds
    case Focused(matches) =>
      if ds == [] then []
      else if matches(ds[0].name) then [ds[0]] + Listed(ds[1..], listing)
      else Listed(ds[1..], listing)
  }

  function Rendered(t: Toolkit, f: FileSkeleton, ds: seq<Declaration>, compact: bool): seq<string> {
    if ds == [] then []
    else
      match RenderedSignature(t, f, ds[0], compact)
      case Some(signature) => [signature] + Rendered(t, f, ds[1..], compact)
      case None => Rendered(t, f, ds[1..], compact)
  }

  function Signatures(t: Toolkit, ranking: Ranking, f: FileSkeleton, listing: Listing): seq<string> {
    Rendered(t, f, Sort(Listed(f.declarations, listing), DeclarationLe(ranking, f)),
             match listing case Ranked(compact) => compact case Focused(_) => true)
  }

  /** The listed declarations come heaviest first, those of the same weight in the order of their lines. */
  lemma HeaviestFirst(ranking: Ranking, f: FileSkeleton, listing: Listing, i: nat, j: nat)
    requires i < j < |Sort(Listed(f.declarations, listing), DeclarationLe(ranking, f))|
    ensures var sorted := Sort(Listed(f.declarations, listing), DeclarationLe(ranking, f));
            var x, y := WeightOf(ranking, f, sorted[i]), WeightOf(ranking, f, sorted[j]);
            Heavier(x, y) || (x == y && sorted[i].line <= sorted[j].line)
  {
    DeclarationLeIsPreorder(ranking, f);
    SortSorted(Listed(f.declarations, listing), DeclarationLe(ranking, f));
  }

  /** That is: most referenced by name first, then most imported by their qualified name, then by line. */
  lemma MostUsedFirst(files: seq<FileSkeleton>, ranking: Ranking, f: FileSkeleton, listing: Listing, i: nat, j: nat)
    requires CountsImporters(files, ranking.importers)
    requires i < j < |Sort(Listed(f.declarations, listing), DeclarationLe(ranking, f))|
    ensures var sorted := Sort(Listed(f.declarations, listing), DeclarationLe(ranking, f));
            var x, y := sorted[i], sorted[j];
            var byName, otherByName := CountOf(ranking.references, x.name), CountOf(ranking.references, y.name);
            var byImport, otherByImport := Importers(files, QualifiedName(f, x)), Importers(files, QualifiedName(f, y));
            || byName > otherByName
            || (byName == otherByName && byImport > otherByImport)
            || (byName == otherByName && byImport == otherByImport && x.line <= y.line)
  {
    HeaviestFirst(ranking, f, listing, i, j);
  }

  /** How the declaration at `k` reads: its own header without members, or its kind and name when compact. */
  ghost function SignatureAt(t: Toolkit, f: FileSkeleton, ds: seq<Declaration>, compact: bool, k: nat): Option<string> {
    if k >= |ds| then None
    else
      var lone := FileSkeleton(f.path, f.package, [], [Declaration(ds[k].keyword, ds[k].name, ds[k].line, [])]);
      if t.header(lone) == None then None
      else if compact && ds[k].keyword != "" then Some(ds[k].keyword + " " + t.neutralize(ds[k].name))
      else t.header(lone)
  }

  lemma {:induction false} RenderedInOrder(t: Toolkit, f: FileSkeleton, ds: seq<Declaration>, compact: bool)
    ensures Rendered(t, f, ds, compact) == Collected(k => SignatureAt(t, f, ds, compact, k), |ds|)
  {
    if ds != [] {
      var rest, last := ds[..|ds| - 1], ds[|ds| - 1];
      RenderedInOrder(t, f, rest, compact);
      RenderedAppends(t, f, rest, last, compact);
      assert ds == rest + [last];
      CollectedOneMore(k => SignatureAt(t, f, ds, compact, k), k => SignatureAt(t, f, rest, compact, k), |rest|);
    }
  }

  lemma {:induction false} RenderedAppends(t: Toolkit, f: FileSkeleton, ds: seq<Declaration>, d: Declaration,
                                           compact: bool)
    ensures Rendered(t, f, ds + [d], compact) == Appended(Rendered(t, f, ds, compact), RenderedSignature(t, f, d, compact))
  {
    if ds == [] {
      assert ds + [d] == [d];
    } else {
      assert (ds + [d])[1..] == ds[1..] + [d];
      RenderedAppends(t, f, ds[1..], d, compact);
    }
  }

  /** The listed declarations read in order: in a ranked map in full or compact, in a focus always compact. */
  lemma SignaturesRead(t: Toolkit, ranking: Ranking, f: FileSkeleton, listing: Listing)
    ensures var sorted := Sort(Listed(f.declarations, listing), DeclarationLe(ranking, f));
            Signatures(t, ranking, f, listing)
            == Collected(k => SignatureAt(t, f, sorted, listing != Ranked(false), k), |sorted|)
  {
    RenderedInOrder(t, f, Sort(Listed(f.declarations, listing), DeclarationLe(ranking, f)), listing != Ranked(false));
  }

  predicate Visible(t: Toolkit, f: FileSkeleton, d: Declaration) {
    SignatureOf(t, f, d).Some?
  }

  predicate Lists(listing: Listing, d: Declaration) {
    match listing
    case Ranked(_) => true
    case Focused(matches) => matches(d.name)
  }

  lemma {:induction false} ListedContents(ds: seq<Declaration>, listing: Listing)
    ensures forall d :: d in Listed(ds, listing) <==> d in ds && Lists(listing, d)
  {
    if listing.Focused? && ds != [] {
      ListedContents(ds[1..], listing);
      assert ds == [ds[0]] + ds[1..];
    }
  }

  lemma {:induction false} RenderedSomething(t: Toolkit, f: FileSkeleton, ds: seq<Declaration>, compact: bool)
    ensures Rendered(t, f, ds, compact) != [] <==> exists d :: d in ds && Visible(t, f, d)
  {
    if ds != [] {
      RenderedSomething(t, f, ds[1..], compact);
      assert forall d :: d in ds <==> d == ds[0] || d in ds[1..];
      assert Visible(t, f, ds[0]) <==> RenderedSignature(t, f, ds[0], compact).Some?;
    }
  }

  /** A file has something to list exactly when one of its listed declarations is visible: compact or not is no matter. */
  lemma SomethingListed(t: Toolkit, ranking: Ranking, f: FileSkeleton, listing: Listing)
    ensures Signatures(t, ranking, f, listing) != []
       <==> exists d :: d in f.declarations && Lists(listing, d) && Visible(t, f, d)
  {
    var ds := Listed(f.declarations, listing);
    SortContents(ds, DeclarationLe(ranking, f));
    ListedContents(f.declarations, listing);
    RenderedSomething(t, f, Sort(ds, DeclarationLe(ranking, f)),
                      match listing case Ranked(compact) => compact case Focused(_) => true);
  }

  /** What a focus lists, the full map lists too. */
  lemma FocusListsLess(t: Toolkit, ranking: Ranking, f: FileSkeleton, matches: string -> bool, compact: bool)
    ensures Signatures(t, ranking, f, Focused(matches)) != [] ==> Signatures(t, ranking, f, Ranked(compact)) != []
  {
    SomethingListed(t, ranking, f, Focused(matches));
    SomethingListed(t, ranking, f, Ranked(compact));
    if Signatures(t, ranking, f, Focused(matches)) != [] {
      var d :| d in f.declarations && Lists(Focused(matches), d) && Visible(t, f, d);
      assert Lists(Ranked(compact), d);
    }
  }
}
