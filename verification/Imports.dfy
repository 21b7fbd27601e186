/**
 The import dependency graph between packages or files, and what an import statement resolves to inside
 the workspace.
 */
module Imports {
  import opened Graphs
  import opened Options
  import opened Ordering
  import opened Scc
  import opened Skeleton
  import opened TarjanInvariant
  import opened Walks

  datatype Level = FileLevel | PackageLevel

  // ----- what an import means

  /** The text is a package and a name, with the last of its dots between them. */
  ghost predicate Splits(text: string, package: string, name: string) {
    text == package + "." + name && '.' !in name
  }

  /** The text around the last dot. */
  function SplitAtLastDot(text: string): (parts: Option<(string, string)>)
    ensures parts.Some? ==> Splits(text, parts.value.0, parts.value.1)
    ensures parts.None? <==> '.' !in text
  {
    if text == "" then None
    else
      var last := |text| - 1;
      if text[last] == '.' then Some((text[..last], ""))
      else
        assert text == text[..last] + [text[last]];
        match SplitAtLastDot(text[..last])
        case Some((before, after)) => Some((before, after + [text[last]]))
        case None => None
  }

  lemma SplitHasDot(text: string, package: string, name: string)
    ensures Splits(text, package, name) ==> '.' in text
  {
    if Splits(text, package, name) {
      assert text[|package|] == '.';
    }
  }

  lemma DotInside(package: string, name: string, longer: string, rest: string)
    requires package + "." + name == longer + "." + rest && |package| < |longer|
    ensures '.' in name
  {
    assert name[|longer| - |package| - 1] == (longer + "." + rest)[|longer|];
  }

  /** A text splits in one way at most. */
  lemma SplitUnique(text: string, package: string, name: string, otherPackage: string, otherName: string)
    requires Splits(text, package, name) && Splits(text, otherPackage, otherName)
    ensures package == otherPackage && name == otherName
  {
    if |package| < |otherPackage| {
      DotInside(package, name, otherPackage, otherName);
    } else if |otherPackage| < |package| {
      DotInside(otherPackage, otherName, package, name);
    } else {
      assert text[..|package|] == package == otherPackage;
      assert text[|package| + 1..] == name == otherName;
    }
  }

  /** The split is the one there is, and there is none without a dot. */
  lemma SplitIsExact(text: string, package: string, name: string)
    ensures SplitAtLastDot(text) == Some((package, name)) <==> Splits(text, package, name)
    ensures SplitAtLastDot(text) == None <==> '.' !in text
  {
    if Splits(text, package, name) {
      SplitHasDot(text, package, name);
      SplitUnique(text, package, name, SplitAtLastDot(text).value.0, SplitAtLastDot(text).value.1);
    }
  }

  predicate Declares(f: FileSkeleton, package: string, name: string) {
    f.package == Some(package) && exists d :: d in f.declarations && d.name == name
  }

  /** The workspace has what the import names: the package for a wildcard, a top-level declaration otherwise. */
  ghost predicate Resolves(files: set<FileSkeleton>, text: string) {
    exists package, name :: Splits(text, package, name) && exists f :: f in files && Provides(f, package, name)
  }

  /** The file is in the package, for a wildcard, or declares the name in it. */
  ghost predicate Provides(f: FileSkeleton, package: string, name: string) {
    f.package == Some(package) && (name == "*" || exists d :: d in f.declarations && d.name == name)
  }

  /** An import leads to its package, or to each file that has what it names. */
  ghost predicate HasTarget(files: set<FileSkeleton>, text: string, level: Level, target: string) {
    exists package, name :: Splits(text, package, name) && IsTarget(files, package, name, level, target)
  }

  ghost predicate IsTarget(files: set<FileSkeleton>, package: string, name: string, level: Level, target: string) {
    match level
    case PackageLevel => target == package
    case FileLevel => exists f :: f in files && f.path == target && Provides(f, package, name)
  }

  lemma SplitDecides(files: set<FileSkeleton>, text: string, package: string, name: string)
    requires Splits(text, package, name)
    ensures Resolves(files, text) <==> exists f :: f in files && Provides(f, package, name)
    ensures forall level, target :: HasTarget(files, text, level, target) <==> IsTarget(files, package, name, level, target)
  {
    forall otherPackage, otherName | Splits(text, otherPackage, otherName)
      ensures otherPackage == package && otherName == name
    {
      SplitUnique(text, package, name, otherPackage, otherName);
    }
  }

  /** The node of a file: its package or its path. A file without a package has none. */
  ghost predicate StandsFor(f: FileSkeleton, level: Level, node: string) {
    f.package.Some? && (level == PackageLevel ==> f.package.value == node) && (level == FileLevel ==> f.path == node)
  }

  function SourceOf(f: FileSkeleton, level: Level): (source: Option<string>)
    ensures forall node :: source == Some(node) <==> StandsFor(f, level, node)
  {
    match f.package
    case None => None
    case Some(package) => Some(match level case PackageLevel => package case FileLevel => f.path)
  }

  ghost predicate IsNode(files: set<FileSkeleton>, level: Level, node: string) {
    exists f :: f in files && StandsFor(f, level, node)
  }

  /** A file of `source` has an import that resolves to `target`, which is not `source` itself. */
  ghost predicate IsEdge(files: set<FileSkeleton>, level: Level, source: string, target: string) {
    source != target
    && exists f, text :: f in files && StandsFor(f, level, source) && text in f.imports
                         && Resolves(files, text) && HasTarget(files, text, level, target)
  }

  ghost predicate IsExternal(files: set<FileSkeleton>, level: Level, source: string, text: string) {
    exists f :: f in files && StandsFor(f, level, source) && text in f.imports && !Resolves(files, text)
  }

  lemma NoSplit(text: string)
    requires '.' !in text
    ensures forall package, name :: !Splits(text, package, name)
  {
    forall package, name
      ensures !Splits(text, package, name)
    {
      SplitHasDot(text, package, name);
    }
  }

  // ----- the workspace index

  datatype WorkspaceIndex = WorkspaceIndex(
    packages: set<string>,
    namesByPackage: map<string, set<string>>,
    filesByPackage: map<string, seq<string>>,
    filesBySymbol: map<(string, string), seq<string>>)

  function NamesOf(index: WorkspaceIndex, package: string): set<string> {
    if package in index.namesByPackage then index.namesByPackage[package] else {}
  }

  function FilesOf(index: WorkspaceIndex, package: string): seq<string> {
    if package in index.filesByPackage then index.filesByPackage[package] else []
  }

  function FilesDeclaring(index: WorkspaceIndex, package: string, name: string): seq<string> {
    if (package, name) in index.filesBySymbol then index.filesBySymbol[(package, name)] else []
  }

  predicate HasName(index: WorkspaceIndex, package: string, name: string) {
    name in NamesOf(index, package)
  }

  predicate HasFile(index: WorkspaceIndex, package: string, path: string) {
    path in FilesOf(index, package)
  }

  predicate HasDeclaring(index: WorkspaceIndex, package: string, name: string, path: string) {
    path in FilesDeclaring(index, package, name)
  }

  /** The index answers, for the files seen, who has a package and who declares a name in it. */
  ghost predicate Indexes(files: seq<FileSkeleton>, index: WorkspaceIndex) {
    && (forall p :: p in index.packages <==> exists f :: f in files && f.package == Some(p))
    && (forall p, n :: HasName(index, p, n) <==> exists f :: f in files && Declares(f, p, n))
    && (forall p, path :: HasFile(index, p, path) <==> exists f :: f in files && f.package == Some(p) && f.path == path)
    && (forall p, n, path ::
          HasDeclaring(index, p, n, path) <==> exists f :: f in files && Declares(f, p, n) && f.path == path)
  }

  const EMPTY_INDEX := WorkspaceIndex({}, map[], map[], map[])

  function WithPackage(index: WorkspaceIndex, package: string, path: string): WorkspaceIndex {
    index.(packages := index.packages + {package},
           filesByPackage := index.filesByPackage[package := FilesOf(index, package) + [path]])
  }

  function WithDeclaration(index: WorkspaceIndex, package: string, path: string, name: string): WorkspaceIndex {
    index.(namesByPackage := index.namesByPackage[package := NamesOf(index, package) + {name}],
           filesBySymbol := index.filesBySymbol[(package, name) := FilesDeclaring(index, package, name) + [path]])
  }

  /** `after` is `before` with one more file of the package, of which the names in `names` were entered. */
  ghost predicate Extends(before: WorkspaceIndex, after: WorkspaceIndex, package: string, path: string,
                          names: set<string>) {
    && after.packages == before.packages + {package}
    && (forall p, n :: HasName(after, p, n) <==> HasName(before, p, n) || (p == package && n in names))
    && (forall p, x :: HasFile(after, p, x) <==> HasFile(before, p, x) || (p == package && x == path))
    && (forall p, n, x ::
          HasDeclaring(after, p, n, x)
          <==> HasDeclaring(before, p, n, x) || (p == package && n in names && x == path))
  }

  lemma WithPackageExtends(index: WorkspaceIndex, package: string, path: string)
    ensures Extends(index, WithPackage(index, package, path), package, path, {})
  {
    var after := WithPackage(index, package, path);
    assert after.namesByPackage == index.namesByPackage && after.filesBySymbol == index.filesBySymbol;
    forall p: string, n: string
      ensures HasName(after, p, n) <==> HasName(index, p, n)
    {
      assert NamesOf(after, p) == NamesOf(index, p);
    }
    forall p: string, n: string
      ensures FilesDeclaring(after, p, n) == FilesDeclaring(index, p, n)
    {
    }
    forall p, x
      ensures HasFile(after, p, x) <==> HasFile(index, p, x) || (p == package && x == path)
    {
    }
  }

  lemma WithDeclarationExtends(index: WorkspaceIndex, now: WorkspaceIndex, package: string, path: string,
                               names: set<string>,
                               name: string)
    requires Extends(index, now, package, path, names)
    ensures Extends(index, WithDeclaration(now, package, path, name), package, path, names + {name})
  {
    var after := WithDeclaration(now, package, path, name);
    forall p, n
      ensures HasName(after, p, n) <==> HasName(now, p, n) || (p == package && n == name)
    {
      if p == package {
        assert NamesOf(after, p) == NamesOf(now, p) + {name};
      } else {
        assert NamesOf(after, p) == NamesOf(now, p);
      }
    }
    forall p, n, x
      ensures HasDeclaring(after, p, n, x)
         <==> HasDeclaring(now, p, n, x) || (p == package && n == name && x == path)
    {
      if p == package && n == name {
        assert FilesDeclaring(after, p, n) == FilesDeclaring(now, p, n) + [path];
      }
    }
    forall p, n
      ensures HasName(after, p, n) <==> HasName(index, p, n) || (p == package && n in names + {name})
    {
      assert HasName(now, p, n) <==> HasName(index, p, n) || (p == package && n in names);
    }
    forall p, x
      ensures HasFile(after, p, x) <==> HasFile(index, p, x) || (p == package && x == path)
    {
      assert FilesOf(after, p) == FilesOf(now, p);
      assert HasFile(now, p, x) <==> HasFile(index, p, x) || (p == package && x == path);
    }
    forall p, n, x
      ensures HasDeclaring(after, p, n, x)
         <==> HasDeclaring(index, p, n, x) || (p == package && n in names + {name} && x == path)
    {
      assert HasDeclaring(now, p, n, x) <==> HasDeclaring(index, p, n, x) || (p == package && n in names && x == path);
    }
  }

  /** Enters one file into the index. */
  method IndexFile(index: WorkspaceIndex, f: FileSkeleton, package: string) returns (after: WorkspaceIndex)
    requires f.package == Some(package)
    ensures Extends(index, after, package, f.path, set d | d in f.declarations :: d.name)
  {
    after := WithPackage(index, package, f.path);
    ghost var names: set<string> := {};
    WithPackageExtends(index, package, f.path);
    for k := 0 to |f.declarations|
      invariant names == set d | d in f.declarations[..k] :: d.name
      invariant Extends(index, after, package, f.path, names)
    {
      var name := f.declarations[k].name;
      assert f.declarations[..k + 1] == f.declarations[..k] + [f.declarations[k]];
      WithDeclarationExtends(index, after, package, f.path, names, name);
      names := names + {name};
      after := WithDeclaration(after, package, f.path, name);
    }
    assert f.declarations[..|f.declarations|] == f.declarations;
  }

  lemma IndexGrows(files: seq<FileSkeleton>, index: WorkspaceIndex, f: FileSkeleton, package: string,
                   after: WorkspaceIndex)
    requires Indexes(files, index) && f.package == Some(package)
    requires Extends(index, after, package, f.path, set d | d in f.declarations :: d.name)
    ensures Indexes(files + [f], after)
  {
    var more := files + [f];
    assert forall g :: g in more <==> g in files || g == f;
    forall p
      ensures p in after.packages <==> exists g :: g in more && g.package == Some(p)
    {
    }
    forall p, n
      ensures HasName(after, p, n) <==> exists g :: g in more && Declares(g, p, n)
    {
      assert HasName(index, p, n) <==> exists g :: g in files && Declares(g, p, n);
      assert (exists g :: g in more && Declares(g, p, n))
        <==> (exists g :: g in files && Declares(g, p, n)) || Declares(f, p, n);
      assert HasName(after, p, n) <==> HasName(index, p, n) || (p == package && n in set d | d in f.declarations :: d.name);
      assert Declares(f, p, n) <==> p == package && n in set d | d in f.declarations :: d.name;
    }
    forall p, x
      ensures HasFile(after, p, x) <==> exists g :: g in more && g.package == Some(p) && g.path == x
    {
    }
    forall p, n, x
      ensures HasDeclaring(after, p, n, x) <==> exists g :: g in more && Declares(g, p, n) && g.path == x
    {
      assert Declares(f, p, n) <==> p == package && n in set d | d in f.declarations :: d.name;
    }
  }

  lemma IndexSkips(files: seq<FileSkeleton>, index: WorkspaceIndex, f: FileSkeleton)
    requires Indexes(files, index) && f.package == None
    ensures Indexes(files + [f], index)
  {
    var more := files + [f];
    assert forall g :: g in more <==> g in files || g == f;
    forall p
      ensures p in index.packages <==> exists g :: g in more && g.package == Some(p)
    {
    }
    forall p, n
      ensures HasName(index, p, n) <==> exists g :: g in more && Declares(g, p, n)
    {
    }
    forall p, x
      ensures HasFile(index, p, x) <==> exists g :: g in more && g.package == Some(p) && g.path == x
    {
    }
    forall p, n, x
      ensures HasDeclaring(index, p, n, x) <==> exists g :: g in more && Declares(g, p, n) && g.path == x
    {
    }
  }

  function Tidy(paths: seq<string>): seq<string> {
    Dedup(Sort(paths, StringLe()))
  }

  lemma TidyContents(paths: seq<string>)
    ensures forall x :: x in Tidy(paths) <==> x in paths
  {
    SortContents(paths, StringLe());
    DedupContents(Sort(paths, StringLe()));
  }

  lemma TidyIsTidy(paths: seq<string>)
    ensures Sorted(Tidy(paths), StringLe()) && Distinct(Tidy(paths))
  {
    StringIsTotalOrder();
    SortSorted(paths, StringLe());
    DedupSorted(Sort(paths, StringLe()), StringLe());
  }

  /** Indexes the files that declare a package; the path lists end up sorted and without repetition. */
  method BuildIndex(files: seq<FileSkeleton>) returns (index: WorkspaceIndex)
    ensures Indexes(files, index)
    ensures forall p :: Sorted(FilesOf(index, p), StringLe()) && Distinct(FilesOf(index, p))
    ensures forall p, n :: Sorted(FilesDeclaring(index, p, n), StringLe()) && Distinct(FilesDeclaring(index, p, n))
  {
    index := EMPTY_INDEX;
    for k := 0 to |files|
      invariant Indexes(files[..k], index)
    {
      var f := files[k];
      assert files[..k + 1] == files[..k] + [f];
      match f.package {
        case None =>
          IndexSkips(files[..k], index, f);
        case Some(package) =>
          var after := IndexFile(index, f, package);
          IndexGrows(files[..k], index, f, package, after);
          index := after;
      }
    }
    assert files[..|files|] == files;
    ghost var loose := index;
    index := index.(
      filesByPackage := map p | p in index.filesByPackage :: Tidy(index.filesByPackage[p]),
      filesBySymbol := map s | s in index.filesBySymbol :: Tidy(index.filesBySymbol[s]));
    forall p, x
      ensures HasFile(index, p, x) <==> HasFile(loose, p, x)
    {
      TidyContents(FilesOf(loose, p));
    }
    forall p, n, x
      ensures HasDeclaring(index, p, n, x) <==> HasDeclaring(loose, p, n, x)
    {
      TidyContents(FilesDeclaring(loose, p, n));
    }
    forall p
      ensures Sorted(FilesOf(index, p), StringLe()) && Distinct(FilesOf(index, p))
    {
      TidyIsTidy(FilesOf(loose, p));
    }
    forall p, n
      ensures Sorted(FilesDeclaring(index, p, n), StringLe()) && Distinct(FilesDeclaring(index, p, n))
    {
      TidyIsTidy(FilesDeclaring(loose, p, n));
    }
    assert index.namesByPackage == loose.namesByPackage;
    assert forall p, n :: HasName(index, p, n) <==> HasName(loose, p, n);
  }

  // ----- resolution

  datatype Resolution = Internal(targets: seq<string>) | External

  function Resolve(index: WorkspaceIndex, text: string, level: Level): Resolution {
    match SplitAtLastDot(text)
    case None => External
    case Some((package, name)) =>
      var wildcard := name == "*";
      var internal := if wildcard then package in index.packages else name in NamesOf(index, package);
      if !internal then External
      else
        match level
        case PackageLevel => Internal([package])
        case FileLevel =>
          Internal(if wildcard then FilesOf(index, package) else FilesDeclaring(index, package, name))
  }

  /** The index resolves an import exactly as the workspace does. */
  lemma IndexProvides(files: seq<FileSkeleton>, index: WorkspaceIndex, package: string, name: string)
    requires Indexes(files, index)
    ensures (if name == "*" then package in index.packages else name in NamesOf(index, package))
       <==> exists f :: f in Elements(files) && Provides(f, package, name)
  {
    assert forall f :: f in files <==> f in Elements(files);
    assert HasName(index, package, name) <==> exists f :: f in files && Declares(f, package, name);
    if name != "*" {
      assert forall f :: Declares(f, package, name) <==> Provides(f, package, name);
    }
  }

  lemma IndexTargets(files: seq<FileSkeleton>, index: WorkspaceIndex, package: string, name: string, t: string)
    requires Indexes(files, index)
    ensures t in (if name == "*" then FilesOf(index, package) else FilesDeclaring(index, package, name))
       <==> IsTarget(Elements(files), package, name, FileLevel, t)
  {
    assert forall f :: f in files <==> f in Elements(files);
    assert HasFile(index, package, t) <==> exists f :: f in files && f.package == Some(package) && f.path == t;
    assert HasDeclaring(index, package, name, t) <==> exists f :: f in files && Declares(f, package, name) && f.path == t;
    if name != "*" {
      assert forall f :: Declares(f, package, name) <==> Provides(f, package, name);
    }
  }

  /** The index resolves an import exactly as the workspace does. */
  lemma ResolveIsExact(files: seq<FileSkeleton>, index: WorkspaceIndex, text: string, level: Level)
    requires Indexes(files, index)
    ensures Resolve(index, text, level).Internal? <==> Resolves(Elements(files), text)
    ensures Resolve(index, text, level).Internal? ==>
              forall t :: t in Resolve(index, text, level).targets <==> HasTarget(Elements(files), text, level, t)
  {
    match SplitAtLastDot(text)
    case None => NoSplit(text);
    case Some((package, name)) =>
      SplitDecides(Elements(files), text, package, name);
      IndexProvides(files, index, package, name);
      forall t
        ensures t in (if name == "*" then FilesOf(index, package) else FilesDeclaring(index, package, name))
           <==> IsTarget(Elements(files), package, name, FileLevel, t)
      {
        IndexTargets(files, index, package, name, t);
      }
  }

  // ----- the graph

  datatype ImportGraph = ImportGraph(
    level: Level,
    nodes: seq<string>,
    edges: seq<(string, string)>,
    external: seq<(string, string)>,
    cycles: seq<seq<string>>)

  /** What the walk over the files has gathered, as the source's ordered sets. */
  datatype Gathered = Gathered(nodes: set<string>, edges: set<(string, string)>, external: set<(string, string)>)

  /** The files in `seen` contribute their node, edges and external imports, resolved against all the files. */
  ghost predicate GatheredFrom(files: set<FileSkeleton>, seen: set<FileSkeleton>, level: Level, g: Gathered) {
    && (forall n :: n in g.nodes <==> exists f :: f in seen && SourceOf(f, level) == Some(n))
    && (forall s, t :: (s, t) in g.edges <==> exists f :: f in seen && GivesEdge(files, f, level, s, t))
    && (forall s, t :: (s, t) in g.external <==> exists f :: f in seen && GivesExternal(files, f, level, s, t))
  }

  ghost predicate GivesEdge(files: set<FileSkeleton>, f: FileSkeleton, level: Level, s: string, t: string) {
    s != t && SourceOf(f, level) == Some(s) && exists text :: text in f.imports && Leads(files, text, level, t)
  }

  ghost predicate Leads(files: set<FileSkeleton>, text: string, level: Level, t: string) {
    Resolves(files, text) && HasTarget(files, text, level, t)
  }

  ghost predicate GivesExternal(files: set<FileSkeleton>, f: FileSkeleton, level: Level, s: string, text: string) {
    SourceOf(f, level) == Some(s) && text in f.imports && !Resolves(files, text)
  }

  /** What one file adds, after the first `k` of its imports. */
  ghost predicate Added(files: set<FileSkeleton>, f: FileSkeleton, source: string, level: Level, k: nat,
                        before: Gathered,
                        after: Gathered)
    requires k <= |f.imports|
  {
    && after.nodes == before.nodes + {source}
    && (forall s, t :: (s, t) in after.edges
                       <==> (s, t) in before.edges
                            || (s == source && s != t && exists text :: text in f.imports[..k] && Leads(files, text, level, t)))
    && (forall s, t :: (s, t) in after.external
                       <==> (s, t) in before.external
                            || (s == source && t in f.imports[..k] && !Resolves(files, t)))
  }

  /** One import of one file: edges to its targets other than the file's own node, or an external import. */
  method GatherImport(index: WorkspaceIndex, source: string, text: string, level: Level, before: Gathered)
    returns (after: Gathered)
    ensures after.nodes == before.nodes
    ensures match Resolve(index, text, level)
            case External => after.edges == before.edges && after.external == before.external + {(source, text)}
            case Internal(targets) =>
              && after.external == before.external
              && forall s, t :: (s, t) in after.edges <==> (s, t) in before.edges || (s == source && t != s && t in targets)
  {
    after := before;
    match Resolve(index, text, level) {
      case Internal(targets) =>
        for j := 0 to |targets|
          invariant after.nodes == before.nodes && after.external == before.external
          invariant forall s, t ::
                      (s, t) in after.edges <==> (s, t) in before.edges || (s == source && t != s && t in targets[..j])
        {
          assert targets[..j + 1] == targets[..j] + [targets[j]];
          if targets[j] != source {
            after := after.(edges := after.edges + {(source, targets[j])});
          }
        }
        assert targets[..|targets|] == targets;
      case External =>
        after := after.(external := after.external + {(source, text)});
    }
  }

  lemma AddedOneMore(files: seq<FileSkeleton>, index: WorkspaceIndex, f: FileSkeleton, source: string, level: Level,
                     k: nat,
                     before: Gathered, now: Gathered, after: Gathered)
    requires Indexes(files, index) && k < |f.imports| && Added(Elements(files), f, source, level, k, before, now)
    requires after.nodes == now.nodes
    requires match Resolve(index, f.imports[k], level)
             case External => after.edges == now.edges && after.external == now.external + {(source, f.imports[k])}
             case Internal(targets) =>
               && after.external == now.external
               && forall s, t :: (s, t) in after.edges <==> (s, t) in now.edges || (s == source && t != s && t in targets)
    ensures Added(Elements(files), f, source, level, k + 1, before, after)
  {
    var all := Elements(files);
    var text := f.imports[k];
    ResolveIsExact(files, index, text, level);
    assert f.imports[..k + 1] == f.imports[..k] + [text];
    forall s, t
      ensures (s, t) in after.edges
         <==> (s, t) in before.edges
              || (s == source && s != t && exists x :: x in f.imports[..k + 1] && Leads(all, x, level, t))
    {
      assert (exists x :: x in f.imports[..k + 1] && Leads(all, x, level, t))
        <==> (exists x :: x in f.imports[..k] && Leads(all, x, level, t)) || Leads(all, text, level, t);
      assert (s, t) in now.edges
        <==> (s, t) in before.edges
             || (s == source && s != t && exists x :: x in f.imports[..k] && Leads(all, x, level, t));
    }
    forall s, t
      ensures (s, t) in after.external
         <==> (s, t) in before.external || (s == source && t in f.imports[..k + 1] && !Resolves(all, t))
    {
      assert (s, t) in now.external
        <==> (s, t) in before.external || (s == source && t in f.imports[..k] && !Resolves(all, t));
    }
  }

  lemma GatheredOneMore(files: set<FileSkeleton>, seen: set<FileSkeleton>, f: FileSkeleton, level: Level,
                        before: Gathered,
                        after: Gathered)
    requires GatheredFrom(files, seen, level, before)
    requires match SourceOf(f, level)
             case None => after == before
             case Some(source) => Added(files, f, source, level, |f.imports|, before, after)
    ensures GatheredFrom(files, seen + {f}, level, after)
  {
    assert f.imports[..|f.imports|] == f.imports;
    assert forall g :: g in seen + {f} <==> g in seen || g == f;
    forall s, t
      ensures (s, t) in after.edges <==> exists g :: g in seen + {f} && GivesEdge(files, g, level, s, t)
    {
      assert (exists g :: g in seen + {f} && GivesEdge(files, g, level, s, t))
        <==> (exists g :: g in seen && GivesEdge(files, g, level, s, t)) || GivesEdge(files, f, level, s, t);
      assert (s, t) in before.edges <==> exists g :: g in seen && GivesEdge(files, g, level, s, t);
    }
    forall s, t
      ensures (s, t) in after.external <==> exists g :: g in seen + {f} && GivesExternal(files, g, level, s, t)
    {
      assert (exists g :: g in seen + {f} && GivesExternal(files, g, level, s, t))
        <==> (exists g :: g in seen && GivesExternal(files, g, level, s, t)) || GivesExternal(files, f, level, s, t);
      assert (s, t) in before.external <==> exists g :: g in seen && GivesExternal(files, g, level, s, t);
    }
  }

  /** One file: its node, and what its imports give. */
  method GatherFile(ghost files: seq<FileSkeleton>, index: WorkspaceIndex, f: FileSkeleton, source: string, level: Level,
                    before: Gathered)
    returns (g: Gathered)
    requires Indexes(files, index)
    ensures Added(Elements(files), f, source, level, |f.imports|, before, g)
  {
    g := before.(nodes := before.nodes + {source});
    for k := 0 to |f.imports|
      invariant Added(Elements(files), f, source, level, k, before, g)
    {
      var after := GatherImport(index, source, f.imports[k], level, g);
      AddedOneMore(files, index, f, source, level, k, before, g, after);
      g := after;
    }
  }

  /** Walks the files once, gathering nodes, edges and external imports. */
  method Gather(files: seq<FileSkeleton>, level: Level) returns (g: Gathered)
    ensures GatheredFrom(Elements(files), Elements(files), level, g)
  {
    var index := BuildIndex(files);
    g := Gathered({}, {}, {});
    for i := 0 to |files|
      invariant GatheredFrom(Elements(files), Elements(files[..i]), level, g)
    {
      var f := files[i];
      ghost var before := g;
      match SourceOf(f, level) {
        case None =>
        case Some(source) =>
          g := GatherFile(files, index, f, source, level, g);
      }
      GatheredOneMore(Elements(files), Elements(files[..i]), f, level, before, g);
      assert Elements(files[..i + 1]) == Elements(files[..i]) + {f};
    }
    assert files[..|files|] == files;
  }

  /** The graph of a set of files: what its nodes, edges and external imports mean, and its cycles, all in order. */
  ghost predicate IsImportGraph(files: set<FileSkeleton>, level: Level, graph: ImportGraph) {
    graph.level == level
    && exists g :: GatheredFrom(files, files, level, g) && ShowsGathered(g, graph)
  }

  ghost predicate ShowsGathered(g: Gathered, graph: ImportGraph) {
    && ReadsOut(g.nodes, graph.nodes, StringLe())
    && ReadsOut(g.edges, graph.edges, PairLe())
    && ReadsOut(g.external, graph.external, PairLe())
    && CyclesOf(EndsOf(g.edges), g.edges, graph.cycles, StringLe())
  }

  ghost function EndsOf(edges: set<(string, string)>): set<string> {
    (set e | e in edges :: e.0) + (set e | e in edges :: e.1)
  }

  lemma LeadsToNode(files: set<FileSkeleton>, text: string, level: Level, t: string)
    requires Leads(files, text, level, t)
    ensures IsNode(files, level, t)
  {
    var package, name :| Splits(text, package, name) && IsTarget(files, package, name, level, t);
    SplitDecides(files, text, package, name);
    if level == PackageLevel {
      var h :| h in files && Provides(h, package, name);
      assert StandsFor(h, level, t);
    } else {
      var h :| h in files && h.path == t && Provides(h, package, name);
      assert StandsFor(h, level, t);
    }
  }

  /** Both ends of an edge are nodes: a target is the package or path of a file, too. */
  lemma EdgesJoinSources(files: set<FileSkeleton>, level: Level, g: Gathered)
    requires GatheredFrom(files, files, level, g)
    ensures EndsOf(g.edges) <= g.nodes
  {
    forall s, t | (s, t) in g.edges
      ensures s in g.nodes && t in g.nodes
    {
      var f :| f in files && GivesEdge(files, f, level, s, t);
      var text :| text in f.imports && Leads(files, text, level, t);
      LeadsToNode(files, text, level, t);
    }
    forall x | x in EndsOf(g.edges)
      ensures x in g.nodes
    {
      var e :| e in g.edges && (e.0 == x || e.1 == x);
      assert (e.0, e.1) in g.edges;
    }
  }

  /** There are no more nodes than files. */
  lemma {:induction false} FewNodes(files: seq<FileSkeleton>, level: Level, nodes: set<string>)
    requires forall n | n in nodes :: exists f :: f in files && SourceOf(f, level) == Some(n)
    ensures |nodes| <= |files|
  {
    if files == [] {
      assert nodes == {};
    } else {
      var last := files[|files| - 1];
      var rest := files[..|files| - 1];
      assert files == rest + [last];
      var own := SourceOf(last, level);
      var others := if own.Some? then nodes - {own.value} else nodes;
      FewNodes(rest, level, others);
      assert own.Some? ==> nodes <= others + {own.value};
      if own.Some? {
        CountSubset(nodes, others + {own.value});
      }
    }
  }

  lemma {:induction false} DistinctCount<T(!new)>(s: seq<T>)
    requires Distinct(s)
    ensures |Elements(s)| == |s|
  {
    if s != [] {
      var rest := s[..|s| - 1];
      DistinctCount(rest);
      assert s == rest + [s[|s| - 1]];
      assert Elements(s) == Elements(rest) + {s[|s| - 1]};
    }
  }

  /** Builds the import graph of the files at a level. */
  method BuildImportGraph(files: seq<FileSkeleton>, level: Level) returns (graph: ImportGraph)
    requires |files| < UNVISITED
    ensures IsImportGraph(Elements(files), level, graph)
  {
    var g := Gather(files, level);
    StringIsTotalOrder();
    PairIsTotalOrder();
    var nodes := ReadOut(g.nodes, StringLe());
    var edges := ReadOut(g.edges, PairLe());
    var external := ReadOut(g.external, PairLe());
    var simple := FromEdges(edges);
    assert EdgeSet(simple) == g.edges;
    assert NodeSet(simple) == EndsOf(g.edges) by {
      EndsAreNodes(edges, g.edges, simple.nodeIds);
    }
    EdgesJoinSources(Elements(files), level, g);
    DistinctCount(simple.nodeIds);
    CountSubset(NodeSet(simple), g.nodes);
    FewNodes(files, level, g.nodes);
    var cycles := Cycles(simple, StringLe());
    graph := ImportGraph(level, nodes, edges, external, cycles);
    assert ShowsGathered(g, graph);
  }

  lemma EndsAreNodes(edges: seq<(string, string)>, es: set<(string, string)>, nodeIds: seq<string>)
    requires forall e :: e in edges <==> e in es
    requires forall x :: x in nodeIds <==> exists e :: e in edges && (x == e.0 || x == e.1)
    ensures Elements(nodeIds) == EndsOf(es)
  {
    forall x
      ensures x in Elements(nodeIds) <==> x in EndsOf(es)
    {
      if x in nodeIds {
        var e :| e in edges && (x == e.0 || x == e.1);
        assert e in es;
      }
      if x in EndsOf(es) {
        var e :| e in es && (x == e.0 || x == e.1);
        assert e in edges;
      }
    }
  }

  lemma SamePairs(a: set<(string, string)>, b: set<(string, string)>, given: (string, string) -> bool)
    requires forall s, t :: (s, t) in a <==> given(s, t)
    requires forall s, t :: (s, t) in b <==> given(s, t)
    ensures a == b
  {
    forall e
      ensures e in a <==> e in b
    {
      assert e == (e.0, e.1);
    }
  }

  lemma GatheredUnique(files: set<FileSkeleton>, level: Level, g: Gathered, h: Gathered)
    requires GatheredFrom(files, files, level, g) && GatheredFrom(files, files, level, h)
    ensures g == h
  {
    assert g.nodes == h.nodes;
    SamePairs(g.edges, h.edges, (s, t) => exists f :: f in files && GivesEdge(files, f, level, s, t));
    SamePairs(g.external, h.external, (s, t) => exists f :: f in files && GivesExternal(files, f, level, s, t));
  }

  /** The graph is a function of the set of files: their order, and repetitions among them, do not matter. */
  lemma ImportGraphIgnoresOrder(files: seq<FileSkeleton>, shuffled: seq<FileSkeleton>, level: Level, a: ImportGraph,
                                b: ImportGraph)
    requires Elements(files) == Elements(shuffled)
    requires IsImportGraph(Elements(files), level, a) && IsImportGraph(Elements(shuffled), level, b)
    ensures a == b
  {
    var g :| GatheredFrom(Elements(files), Elements(files), level, g) && ShowsGathered(g, a);
    var h :| GatheredFrom(Elements(files), Elements(files), level, h) && ShowsGathered(h, b);
    GatheredUnique(Elements(files), level, g, h);
    StringIsTotalOrder();
    PairIsTotalOrder();
    ReadOutUnique(g.nodes, a.nodes, b.nodes, StringLe());
    ReadOutUnique(g.edges, a.edges, b.edges, PairLe());
    ReadOutUnique(g.external, a.external, b.external, PairLe());
    CyclesDetermined(EndsOf(g.edges), g.edges, a.cycles, b.cycles, StringLe());
  }

  lemma GivenEdgeIsEdge(files: set<FileSkeleton>, level: Level, s: string, t: string)
    ensures IsEdge(files, level, s, t) <==> exists f :: f in files && GivesEdge(files, f, level, s, t)
  {
    if exists f :: f in files && GivesEdge(files, f, level, s, t) {
      var f :| f in files && GivesEdge(files, f, level, s, t);
      var text :| text in f.imports && Leads(files, text, level, t);
      assert f in files && SourceOf(f, level) == Some(s) && text in f.imports && Resolves(files, text);
    }
    if IsEdge(files, level, s, t) {
      var f, text :| f in files && SourceOf(f, level) == Some(s) && text in f.imports
                     && Resolves(files, text) && HasTarget(files, text, level, t);
      assert Leads(files, text, level, t);
      assert GivesEdge(files, f, level, s, t);
    }
  }

  /** The listed nodes, edges and external imports are exactly those the files have, each listed once and in order. */
  lemma GraphShowsTheImports(files: set<FileSkeleton>, level: Level, graph: ImportGraph)
    requires IsImportGraph(files, level, graph)
    ensures forall n :: n in graph.nodes <==> IsNode(files, level, n)
    ensures forall s, t :: (s, t) in graph.edges <==> IsEdge(files, level, s, t)
    ensures forall s, t :: (s, t) in graph.external <==> IsExternal(files, level, s, t)
    ensures Distinct(graph.nodes) && Sorted(graph.nodes, StringLe())
    ensures Distinct(graph.edges) && Sorted(graph.edges, PairLe())
    ensures Distinct(graph.external) && Sorted(graph.external, PairLe())
  {
    var g :| GatheredFrom(files, files, level, g) && ShowsGathered(g, graph);
    forall s, t
      ensures (s, t) in graph.edges <==> IsEdge(files, level, s, t)
    {
      GivenEdgeIsEdge(files, level, s, t);
    }
    forall s, t
      ensures (s, t) in graph.external <==> IsExternal(files, level, s, t)
    {
      assert (s, t) in g.external <==> exists f :: f in files && GivesExternal(files, f, level, s, t);
    }
  }

  /** A file or package never depends on itself in the graph, so every reported cycle has two members at least. */
  lemma CyclesHaveTwoMembers(files: set<FileSkeleton>, level: Level, graph: ImportGraph, c: seq<string>)
    requires IsImportGraph(files, level, graph) && c in graph.cycles
    ensures |c| >= 2
    ensures forall x | x in c :: exists y :: y in c && y != x && IsEdge(files, level, x, y)
  {
    var g :| GatheredFrom(files, files, level, g) && ShowsGathered(g, graph);
    EveryMemberHasAnEdge(files, level, g, graph.cycles, c);
    TwoMembers(files, level, g, graph.cycles, c);
  }

  lemma EveryMemberHasAnEdge(files: set<FileSkeleton>, level: Level, g: Gathered, cycles: seq<seq<string>>,
                             c: seq<string>)
    requires GatheredFrom(files, files, level, g) && CyclesOf(EndsOf(g.edges), g.edges, cycles, StringLe())
    requires c in cycles
    ensures forall x | x in c :: exists y :: y in c && y != x && IsEdge(files, level, x, y)
  {
    forall x | x in c
      ensures exists y :: y in c && y != x && IsEdge(files, level, x, y)
    {
      var y := EdgeOnCycle(files, level, g, cycles, c, x);
    }
  }

  lemma TwoMembers(files: set<FileSkeleton>, level: Level, g: Gathered, cycles: seq<seq<string>>, c: seq<string>)
    requires GatheredFrom(files, files, level, g) && CyclesOf(EndsOf(g.edges), g.edges, cycles, StringLe())
    requires c in cycles
    ensures |c| >= 2
  {
    assert IsComponentOf(EndsOf(g.edges), g.edges, c);
    var y := EdgeOnCycle(files, level, g, cycles, c, c[0]);
  }

  lemma EdgeOnCycle(files: set<FileSkeleton>, level: Level, g: Gathered, cycles: seq<seq<string>>, c: seq<string>,
                    x: string)
    returns (y: string)
    requires GatheredFrom(files, files, level, g) && CyclesOf(EndsOf(g.edges), g.edges, cycles, StringLe())
    requires c in cycles && x in c
    ensures y in c && y != x && IsEdge(files, level, x, y)
  {
    y := NextOnCycle(EndsOf(g.edges), g.edges, cycles, c, x);
    GivenEdgeIsEdge(files, level, x, y);
    assert exists f :: f in files && GivesEdge(files, f, level, x, y);
  }

  lemma NextOnCycle(ns: set<string>, es: set<(string, string)>, cycles: seq<seq<string>>, c: seq<string>, x: string)
    returns (y: string)
    requires CyclesOf(ns, es, cycles, StringLe()) && c in cycles && x in c && (forall e | e in es :: e.0 in ns && e.1 in ns)
    ensures (x, y) in es && y in c
  {
    assert x in ns && OnCycle(es, x);
    OnCycleFirstEdge(es, x);
    y :| (x, y) in es && Reaches(es, y, x);
    ReachesEdge(es, x, y);
    assert IsComponentOf(ns, es, c);
  }
}
