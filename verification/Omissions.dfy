/** The directories of the files a map leaves out, and the line that names them. */
module Omissions {
  import opened Options
  import opened Ordering

  datatype OmittedDirectory = OmittedDirectory(path: string, files: nat)

  /** The part before the last slash. */
  function ParentDirectory(path: string): string {
    match BeforeLastSlash(path)
    case Some(parent) => parent
    case None => "."
  }

  function BeforeLastSlash(path: string): Option<string> {
    if path == "" then None
    else
      var last := |path| - 1;
      if path[last] == '/' then Some(path[..last]) else BeforeLastSlash(path[..last])
  }

  /** The path names something directly in the directory. */
  ghost predicate IsDirectlyIn(path: string, directory: string) {
    exists name :: path == directory + "/" + name && '/' !in name
  }

  /** The parent is the directory that the path names something directly in, or `.` for a path without a slash. */
  lemma ParentIsExact(path: string)
    ensures '/' in path ==> IsDirectlyIn(path, ParentDirectory(path))
    ensures '/' in path ==> forall directory | IsDirectlyIn(path, directory) :: directory == ParentDirectory(path)
    ensures '/' !in path ==> ParentDirectory(path) == "."
  {
    LastSlash(path);
    if '/' in path {
      var parent := ParentDirectory(path);
      forall directory | IsDirectlyIn(path, directory)
        ensures directory == parent
      {
        OneDirectory(path, parent, directory);
      }
    }
  }

  lemma {:induction false} LastSlash(path: string)
    ensures match BeforeLastSlash(path)
            case Some(parent) => IsDirectlyIn(path, parent) && '/' in path
            case None => '/' !in path
  {
    if path != "" {
      var rest, last := path[..|path| - 1], path[|path| - 1];
      LastSlash(rest);
      assert path == rest + [last];
      if last == '/' {
        assert path == rest + "/" + "";
      } else if BeforeLastSlash(rest).Some? {
        var name :| rest == BeforeLastSlash(rest).value + "/" + name && '/' !in name;
        assert path == BeforeLastSlash(rest).value + "/" + (name + [last]);
      }
    }
  }

  lemma SlashInside(shorter: string, name: string, longer: string, rest: string)
    requires shorter + "/" + name == longer + "/" + rest && |shorter| < |longer|
    ensures '/' in name
  {
    assert name[|longer| - |shorter| - 1] == (longer + "/" + rest)[|longer|];
  }

  lemma OneDirectory(path: string, a: string, b: string)
    requires IsDirectlyIn(path, a) && IsDirectlyIn(path, b)
    ensures a == b
  {
    var x :| path == a + "/" + x && '/' !in x;
    var y :| path == b + "/" + y && '/' !in y;
    if |a| < |b| {
      SlashInside(a, x, b, y);
    } else if |b| < |a| {
      SlashInside(b, y, a, x);
    } else {
      assert path[..|a|] == a == b;
    }
  }

  /** How many of the paths are in the directory. */
  ghost function FilesIn(paths: seq<string>, directory: string): nat {
    if paths == [] then 0
    else
      var last := paths[|paths| - 1];
      FilesIn(paths[..|paths| - 1], directory) + if ParentDirectory(last) == directory then 1 else 0
  }

  ghost function Parents(paths: seq<string>): set<string> {
    set path | path in paths :: ParentDirectory(path)
  }

  /** The directories of the paths, each with its number of files. */
  ghost function DirectoriesOf(paths: seq<string>): set<OmittedDirectory> {
    set directory | directory in Parents(paths) :: OmittedDirectory(directory, FilesIn(paths, directory))
  }

  /** Most files first, then by path. */
  function DirectoryLe(): ((OmittedDirectory, OmittedDirectory) -> bool) {
    (left: OmittedDirectory, right: OmittedDirectory) =>
      left.files > right.files || (left.files == right.files && StringLe()(left.path, right.path))
  }

  lemma DirectoryLeIsTotalOrder()
    ensures TotalOrder(DirectoryLe())
  {
    StringIsTotalOrder();
    var le := DirectoryLe();
    forall x, y, z | le(x, y) && le(y, z)
      ensures le(x, z)
    {
      if x.files == y.files == z.files {
        assert StringLe()(x.path, y.path) && StringLe()(y.path, z.path);
      }
    }
    forall x, y
      ensures le(x, y) || le(y, x)
      ensures le(x, y) && le(y, x) ==> x == y
    {
      assert StringLe()(x.path, y.path) || StringLe()(y.path, x.path);
    }
  }

  /** The grouping of the paths: exactly their directories, in order. */
  ghost predicate Groups(paths: seq<string>, directories: seq<OmittedDirectory>) {
    ReadsOut(DirectoriesOf(paths), directories, DirectoryLe())
  }

  lemma GroupsUnique(paths: seq<string>, a: seq<OmittedDirectory>, b: seq<OmittedDirectory>)
    requires Groups(paths, a) && Groups(paths, b)
    ensures a == b
  {
    DirectoryLeIsTotalOrder();
    ReadOutUnique(DirectoriesOf(paths), a, b, DirectoryLe());
  }

  lemma {:induction false} ParentsAreCounted(paths: seq<string>, directory: string)
    ensures directory in Parents(paths) <==> FilesIn(paths, directory) > 0
  {
    if paths != [] {
      ParentsAreCounted(paths[..|paths| - 1], directory);
      assert Parents(paths) == Parents(paths[..|paths| - 1]) + {ParentDirectory(paths[|paths| - 1])};
    }
  }

  /** The running tally of files by directory. */
  ghost predicate Tallies(paths: seq<string>, tally: map<string, nat>) {
    && tally.Keys == Parents(paths)
    && forall directory | directory in tally :: tally[directory] == FilesIn(paths, directory)
  }

  method Tally(paths: seq<string>) returns (tally: map<string, nat>)
    ensures Tallies(paths, tally)
  {
    tally := map[];
    for k := 0 to |paths|
      invariant Tallies(paths[..k], tally)
    {
      var directory := ParentDirectory(paths[k]);
      assert paths[..k + 1][..k] == paths[..k];
      assert Parents(paths[..k + 1]) == Parents(paths[..k]) + {directory};
      ParentsAreCounted(paths[..k], directory);
      tally := tally[directory := (if directory in tally then tally[directory] else 0) + 1];
    }
    assert paths[..|paths|] == paths;
  }

  /** Groups paths by directory, the busiest directory first. */
  method GroupOmitted(paths: seq<string>) returns (directories: seq<OmittedDirectory>)
    ensures Groups(paths, directories)
  {
    var tally := Tally(paths);
    StringIsTotalOrder();
    var keys := ReadOut(tally.Keys, StringLe());
    var pairs := seq(|keys|, i requires 0 <= i < |keys| =>
                       assert keys[i] in keys; OmittedDirectory(keys[i], tally[keys[i]]));
    directories := Sort(pairs, DirectoryLe());
    DirectoryLeIsTotalOrder();
    SortContents(pairs, DirectoryLe());
    SortSorted(pairs, DirectoryLe());
    PermutedDistinct(pairs, directories);
    PairsAreDirectories(paths, tally, keys, pairs);
  }

  lemma PairsAreDirectories(paths: seq<string>, tally: map<string, nat>, keys: seq<string>,
                            pairs: seq<OmittedDirectory>)
    requires Tallies(paths, tally) && |pairs| == |keys| && forall x :: x in keys <==> x in tally.Keys
    requires forall i | 0 <= i < |keys| :: keys[i] in tally && pairs[i] == OmittedDirectory(keys[i], tally[keys[i]])
    ensures forall d :: d in pairs <==> d in DirectoriesOf(paths)
  {
    forall d
      ensures d in pairs <==> d in DirectoriesOf(paths)
    {
      if d in DirectoriesOf(paths) {
        assert d.path in keys;
        var i :| 0 <= i < |keys| && keys[i] == d.path;
        assert pairs[i] == d;
      }
    }
  }

  // ----- the counts add up

  ghost function FilesNamed(directories: seq<OmittedDirectory>): nat {
    if directories == [] then 0 else FilesNamed(directories[..|directories| - 1]) + directories[|directories| - 1].files
  }

  ghost function FilesInAny(paths: seq<string>, directories: seq<OmittedDirectory>): nat {
    if directories == [] then 0
    else
      var last := directories[|directories| - 1];
      FilesInAny(paths, directories[..|directories| - 1]) + FilesIn(paths, last.path)
  }

  ghost function Times(directory: string, directories: seq<OmittedDirectory>): nat {
    if directories == [] then 0
    else
      Times(directory, directories[..|directories| - 1]) + if directories[|directories| - 1].path == directory then 1 else 0
  }

  lemma {:induction false} OneMorePath(paths: seq<string>, path: string, directories: seq<OmittedDirectory>)
    ensures FilesInAny(paths + [path], directories)
         == FilesInAny(paths, directories) + Times(ParentDirectory(path), directories)
  {
    if directories != [] {
      OneMorePath(paths, path, directories[..|directories| - 1]);
      assert (paths + [path])[..|paths|] == paths;
    }
  }

  ghost predicate DistinctDirectories(directories: seq<OmittedDirectory>) {
    forall i, j | 0 <= i < j < |directories| :: directories[i].path != directories[j].path
  }

  lemma {:induction false} NeverNamed(directory: string, directories: seq<OmittedDirectory>)
    requires forall i | 0 <= i < |directories| :: directories[i].path != directory
    ensures Times(directory, directories) == 0
  {
    if directories != [] {
      NeverNamed(directory, directories[..|directories| - 1]);
    }
  }

  lemma {:induction false} NamedAt(directories: seq<OmittedDirectory>, k: nat)
    requires DistinctDirectories(directories) && k < |directories|
    ensures Times(directories[k].path, directories) == 1
  {
    var rest := directories[..|directories| - 1];
    if k == |rest| {
      NeverNamed(directories[k].path, rest);
    } else {
      NamedAt(rest, k);
    }
  }

  lemma NamedOnce(directory: string, directories: seq<OmittedDirectory>)
    requires DistinctDirectories(directories)
    ensures Times(directory, directories) == if exists d :: d in directories && d.path == directory then 1 else 0
  {
    if k: nat :| k < |directories| && directories[k].path == directory {
      NamedAt(directories, k);
      assert directories[k] in directories;
    } else {
      NeverNamed(directory, directories);
    }
  }

  lemma {:induction false} EveryPathCounted(paths: seq<string>, directories: seq<OmittedDirectory>)
    requires DistinctDirectories(directories)
    requires forall path | path in paths :: exists d :: d in directories && d.path == ParentDirectory(path)
    ensures FilesInAny(paths, directories) == |paths|
  {
    if paths == [] {
      NothingToCount(directories);
    } else {
      var rest := paths[..|paths| - 1];
      var last := paths[|paths| - 1];
      assert paths == rest + [last] && last in paths;
      assert forall path | path in rest :: path in paths;
      EveryPathCounted(rest, directories);
      OneMorePath(rest, last, directories);
      NamedOnce(ParentDirectory(last), directories);
    }
  }

  lemma {:induction false} NothingToCount(directories: seq<OmittedDirectory>)
    ensures FilesInAny([], directories) == 0
  {
    if directories != [] {
      NothingToCount(directories[..|directories| - 1]);
    }
  }

  lemma {:induction false} NamedAreCounted(paths: seq<string>, directories: seq<OmittedDirectory>)
    requires forall d | d in directories :: d.files == FilesIn(paths, d.path)
    ensures FilesNamed(directories) == FilesInAny(paths, directories)
  {
    if directories != [] {
      NamedAreCounted(paths, directories[..|directories| - 1]);
      assert directories[|directories| - 1] in directories;
    }
  }

  /** The counts of the directories add up to the number of omitted files. */
  lemma GroupsAddUp(paths: seq<string>, directories: seq<OmittedDirectory>)
    requires Groups(paths, directories)
    ensures FilesNamed(directories) == |paths|
  {
    forall d | d in directories
      ensures d.files == FilesIn(paths, d.path)
    {
      assert d in DirectoriesOf(paths);
    }
    forall i, j | 0 <= i < j < |directories|
      ensures directories[i].path != directories[j].path
    {
      assert directories[i] in DirectoriesOf(paths) && directories[j] in DirectoriesOf(paths);
    }
    forall path | path in paths
      ensures exists d :: d in directories && d.path == ParentDirectory(path)
    {
      var parent := ParentDirectory(path);
      assert parent in Parents(paths);
      assert OmittedDirectory(parent, FilesIn(paths, parent)) in directories;
    }
    NamedAreCounted(paths, directories);
    EveryPathCounted(paths, directories);
  }

  // ----- the summary line

  function Decimal(n: nat): string {
    (if n < 10 then "" else Decimal(n / 10)) + [('0' as int + n % 10) as char]
  }

  ghost function ValueOf(digits: string): nat
    requires forall k | 0 <= k < |digits| :: '0' <= digits[k] <= '9'
  {
    if digits == "" then 0 else 10 * ValueOf(digits[..|digits| - 1]) + (digits[|digits| - 1] as nat - '0' as nat)
  }

  /** A number reads back, and is written without a leading zero. */
  lemma {:induction false} DecimalReadsBack(n: nat)
    ensures Decimal(n) != "" && forall k | 0 <= k < |Decimal(n)| :: '0' <= Decimal(n)[k] <= '9'
    ensures ValueOf(Decimal(n)) == n
    ensures n > 0 ==> Decimal(n)[0] != '0'
  {
    var last := ('0' as int + n % 10) as char;
    if n < 10 {
      assert Decimal(n) == [last];
      assert Decimal(n)[..0] == "";
    } else {
      DecimalReadsBack(n / 10);
      assert Decimal(n) == Decimal(n / 10) + [last];
      assert Decimal(n)[..|Decimal(n)| - 1] == Decimal(n / 10);
    }
  }

  function Named(directories: seq<OmittedDirectory>): string {
    if directories == [] then ""
    else
      var last := directories[|directories| - 1];
      Named(directories[..|directories| - 1]) + (if |directories| > 1 then ", " else "")
      + last.path + " (" + Decimal(last.files) + ")"
  }

  /** Each directory is named with its number of files, and set off from those before it. */
  lemma NamedOneMore(directories: seq<OmittedDirectory>, last: OmittedDirectory)
    ensures Named(directories + [last])
         == (if directories == [] then "" else Named(directories) + ", ") + last.path + " (" + Decimal(last.files) + ")"
  {
    assert (directories + [last])[..|directories|] == directories;
  }

  function OmittedLine(directories: seq<OmittedDirectory>, shown: nat): Option<string>
    requires shown <= |directories|
  {
    if directories == [] || shown == 0 then None
    else
      var remaining := |directories| - shown;
      Some("Omitted: " + Named(directories[..shown])
           + if remaining > 0 then ", and " + Decimal(remaining) + " more directories" else "")
  }

  function LineCost(directories: seq<OmittedDirectory>, shown: nat, estimate: string -> nat): nat
    requires shown <= |directories|
  {
    match OmittedLine(directories, shown)
    case Some(line) => estimate(line)
    case None => 0
  }

  function FitFrom(directories: seq<OmittedDirectory>, shown: nat, room: nat, estimate: string -> nat): (r: nat)
    requires shown <= |directories|
    ensures r <= shown && LineCost(directories, r, estimate) <= room
    ensures forall k | r < k <= shown :: LineCost(directories, k, estimate) > room
  {
    if shown == 0 then 0
    else if LineCost(directories, shown, estimate) <= room then shown
    else FitFrom(directories, shown - 1, room, estimate)
  }

  /** There is a line exactly when a directory is named, and it says how many more there are exactly when there are any. */
  lemma LineIsExact(directories: seq<OmittedDirectory>, shown: nat)
    requires shown <= |directories|
    ensures OmittedLine(directories, shown).Some? <==> shown > 0
    ensures 0 < shown == |directories| ==> OmittedLine(directories, shown) == Some("Omitted: " + Named(directories))
    ensures 0 < shown < |directories| ==>
              OmittedLine(directories, shown)
              == Some("Omitted: " + Named(directories[..shown])
                      + (", and " + Decimal(|directories| - shown) + " more directories"))
  {
    assert directories[..|directories|] == directories;
    assert "Omitted: " + Named(directories) + "" == "Omitted: " + Named(directories);
    assert shown > 0 ==>
        "Omitted: " + Named(directories[..shown]) + (", and " + Decimal(|directories| - shown) + " more directories")
        == "Omitted: " + Named(directories[..shown]) + ", and " + Decimal(|directories| - shown) + " more directories";
  }

  /** The directories come with the most files first, and by path when they have as many. */
  lemma BusiestFirst(paths: seq<string>, directories: seq<OmittedDirectory>, i: nat, j: nat)
    requires Groups(paths, directories) && i < j < |directories|
    ensures var x, y := directories[i], directories[j];
            x.files > y.files || (x.files == y.files && StringLe()(x.path, y.path))
  {
    assert DirectoryLe()(directories[i], directories[j]);
  }

  /** How many directories the line can name in the room there is: the most that fit, not the first that does not. */
  function FitDirectories(directories: seq<OmittedDirectory>, room: nat, estimate: string -> nat): (r: nat)
    ensures r <= |directories| && LineCost(directories, r, estimate) <= room
    ensures forall k | r < k <= |directories| :: LineCost(directories, k, estimate) > room
  {
    FitFrom(directories, |directories|, room, estimate)
  }
}
