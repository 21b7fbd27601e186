/** Which candidates a map leaves out, and when shown and omitted files add up to the candidates. */
module MapConservation {
  import opened MapUnits

  predicate ShowsPath(files: seq<MappedFile>, path: string) {
    exists f :: f in files && f.path == path
  }

  function Unshown(paths: seq<string>, files: seq<MappedFile>): seq<string> {
    if paths == [] then []
    else
      var last := paths[|paths| - 1];
      Unshown(paths[..|paths| - 1], files) + if ShowsPath(files, last) then [] else [last]
  }

  /** The candidates no shown file covers. */
  function OmittedFrom(paths: seq<string>, units: seq<Unit>): seq<string> {
    Unshown(paths, Regrouped(units))
  }

  lemma {:induction false} UnshownContents(paths: seq<string>, files: seq<MappedFile>)
    ensures |Unshown(paths, files)| <= |paths|
    ensures forall p :: p in Unshown(paths, files) <==> p in paths && !ShowsPath(files, p)
  {
    if paths != [] {
      UnshownContents(paths[..|paths| - 1], files);
      assert forall p :: p in paths <==> p in paths[..|paths| - 1] || p == paths[|paths| - 1];
    }
  }

  lemma {:induction false} UnshownAppends(a: seq<string>, b: seq<string>, files: seq<MappedFile>)
    ensures Unshown(a + b, files) == Unshown(a, files) + Unshown(b, files)
  {
    if b == [] {
      assert a + b == a;
    } else {
      UnshownAppends(a, b[..|b| - 1], files);
      assert (a + b)[..|a + b| - 1] == a + b[..|b| - 1];
    }
  }

  lemma {:induction false} NoneUnshown(paths: seq<string>, files: seq<MappedFile>)
    ensures Unshown(paths, files) == [] <==> forall p | p in paths :: ShowsPath(files, p)
  {
    UnshownContents(paths, files);
    if Unshown(paths, files) != [] {
      assert Unshown(paths, files)[0] in Unshown(paths, files);
    }
  }

  lemma {:induction false} AllUnshown(paths: seq<string>, files: seq<MappedFile>)
    ensures Unshown(paths, files) == paths <==> forall p | p in paths :: !ShowsPath(files, p)
  {
    UnshownContents(paths, files);
    if paths != [] {
      var n := |paths| - 1;
      AllUnshown(paths[..n], files);
      UnshownContents(paths[..n], files);
      assert paths == paths[..n] + [paths[n]];
      if forall p | p in paths :: !ShowsPath(files, p) {
        assert forall p | p in paths[..n] :: p in paths;
      }
    }
  }

  lemma {:induction false} ShownPaths(cs: seq<Candidate>, files: seq<MappedFile>, path: string)
    requires ShowsPrefix(cs, files)
    ensures ShowsPath(files, path) <==> exists i :: 0 <= i < |files| && TrimHeading(cs[i].path) == path
  {
    if ShowsPath(files, path) {
      var f :| f in files && f.path == path;
      var i :| 0 <= i < |files| && files[i] == f;
    }
    if exists i :: 0 <= i < |files| && TrimHeading(cs[i].path) == path {
      var i :| 0 <= i < |files| && TrimHeading(cs[i].path) == path;
      assert files[i] in files;
    }
  }

  /** No shown path loses a heading mark of its own, and no file left out shares a shown path. */
  ghost predicate PathsSurvive(cs: seq<Candidate>, shown: nat)
    requires shown <= |cs|
  {
    && (forall i | 0 <= i < shown :: !StartsLikeHeading(cs[i].path))
    && (forall i, j | 0 <= i < shown && shown <= j < |cs| :: TrimHeading(cs[i].path) != cs[j].path)
  }

  /** A path that starts like a heading is never read back, so its file counts as omitted although it is shown. */
  lemma {:induction false} HeadingPathIsUnshown(cs: seq<Candidate>, files: seq<MappedFile>, path: string)
    requires ShowsPrefix(cs, files) && StartsLikeHeading(path)
    ensures !ShowsPath(files, path)
  {
    ShownPaths(cs, files, path);
    forall i | 0 <= i < |files|
      ensures TrimHeading(cs[i].path) != path
    {
      TrimmedIsNoHeading(cs[i].path);
    }
  }

  lemma {:induction false} ShownCoverThemselves(cs: seq<Candidate>, files: seq<MappedFile>)
    requires ShowsPrefix(cs, files) && PathsSurvive(cs, |files|)
    ensures forall p | p in Paths(cs)[..|files|] :: ShowsPath(files, p)
    ensures forall p | p in Paths(cs)[|files|..] :: !ShowsPath(files, p)
  {
    forall p | p in Paths(cs)[..|files|]
      ensures ShowsPath(files, p)
    {
      var i :| 0 <= i < |files| && cs[i].path == p;
      TrimmedIsNoHeading(p);
      ShownPaths(cs, files, p);
    }
    forall p | p in Paths(cs)[|files|..]
      ensures !ShowsPath(files, p)
    {
      var k :| 0 <= k < |Paths(cs)[|files|..]| && Paths(cs)[|files|..][k] == p;
      assert cs[|files| + k].path == p;
      ShownPaths(cs, files, p);
    }
  }

  /** The files left out are exactly the candidates after the shown ones, if and only if the shown paths survive. */
  lemma {:induction false} OmittedAreTheRest(cs: seq<Candidate>, files: seq<MappedFile>)
    requires ShowsPrefix(cs, files)
    ensures Unshown(Paths(cs), files) == Paths(cs)[|files|..] <==> PathsSurvive(cs, |files|)
  {
    var n := |files|;
    var paths := Paths(cs);
    assert paths == paths[..n] + paths[n..];
    UnshownAppends(paths[..n], paths[n..], files);
    if PathsSurvive(cs, n) {
      ShownCoverThemselves(cs, files);
      NoneUnshown(paths[..n], files);
      AllUnshown(paths[n..], files);
    }
    if Unshown(paths, files) == paths[n..] {
      RestMeansSurvival(cs, files);
    }
  }

  /** Whatever number of files is shown, their paths survive. */
  ghost predicate AllSurvive(cs: seq<Candidate>) {
    && (forall c | c in cs :: !StartsLikeHeading(c.path))
    && (forall i, j | 0 <= i < j < |cs| :: cs[i].path != cs[j].path)
  }

  /**
   The files left out are the candidates after the shown ones, however many are shown, if and only if no path starts
   like a heading and all paths differ.
   */
  lemma OmittedAreAlwaysTheRest(cs: seq<Candidate>)
    requires forall c | c in cs :: c.signatures != []
    ensures (forall files | ShowsPrefix(cs, files) :: Unshown(Paths(cs), files) == Paths(cs)[|files|..]) <==> AllSurvive(cs)
  {
    if AllSurvive(cs) {
      forall files | ShowsPrefix(cs, files)
        ensures Unshown(Paths(cs), files) == Paths(cs)[|files|..]
      {
        ShownPlusOmitted(cs, files);
      }
    } else {
      var n := BadNumber(cs);
      var files := Whole(cs)[..n];
      assert forall i | 0 <= i < n :: cs[i] in cs;
      assert ShowsPrefix(cs, files);
      OmittedAreTheRest(cs, files);
    }
  }

  /** If a path starts like a heading or two are the same, the paths do not survive for some number of shown files. */
  lemma BadNumber(cs: seq<Candidate>) returns (n: nat)
    requires !AllSurvive(cs)
    ensures n <= |cs| && !PathsSurvive(cs, n)
  {
    if c :| c in cs && StartsLikeHeading(c.path) {
      var i :| 0 <= i < |cs| && cs[i] == c;
      n := |cs|;
    } else {
      var i, j :| 0 <= i < j < |cs| && cs[i].path == cs[j].path;
      TrimmedIsNoHeading(cs[i].path);
      assert cs[i] in cs;
      n := j;
    }
  }

  lemma {:induction false} RestMeansSurvival(cs: seq<Candidate>, files: seq<MappedFile>)
    requires ShowsPrefix(cs, files) && Unshown(Paths(cs), files) == Paths(cs)[|files|..]
    ensures PathsSurvive(cs, |files|)
  {
    var n := |files|;
    var paths := Paths(cs);
    UnshownContents(paths, files);
    forall i, j | 0 <= i < n && n <= j < |cs|
      ensures TrimHeading(cs[i].path) != cs[j].path
    {
      assert paths[j] == paths[n..][j - n];
      assert paths[j] in Unshown(paths, files);
      ShownPaths(cs, files, cs[j].path);
    }
    assert paths == paths[..n] + paths[n..];
    UnshownAppends(paths[..n], paths[n..], files);
    AllUnshown(paths[n..], files);
    forall p | p in paths[n..]
      ensures !ShowsPath(files, p)
    {
      assert p in Unshown(paths, files);
    }
    assert Unshown(paths[..n], files) == [];
    NoneUnshown(paths[..n], files);
    forall i | 0 <= i < n
      ensures !StartsLikeHeading(cs[i].path)
    {
      assert paths[..n][i] == cs[i].path;
      assert ShowsPath(files, cs[i].path);
      if StartsLikeHeading(cs[i].path) {
        HeadingPathIsUnshown(cs, files, cs[i].path);
        assert false;
      }
    }
  }

  /** With distinct paths of which none starts like a heading, nothing is lost and nothing is counted twice. */
  lemma {:induction false} ShownPlusOmitted(cs: seq<Candidate>, files: seq<MappedFile>)
    requires ShowsPrefix(cs, files)
    requires forall i, j | 0 <= i < j < |cs| :: cs[i].path != cs[j].path
    requires forall c | c in cs :: !StartsLikeHeading(c.path)
    ensures Unshown(Paths(cs), files) == Paths(cs)[|files|..]
    ensures |files| + |Unshown(Paths(cs), files)| == |cs|
    ensures forall i | 0 <= i < |files| :: files[i].path == cs[i].path
  {
    forall i | 0 <= i < |cs|
      ensures TrimHeading(cs[i].path) == cs[i].path
    {
      assert cs[i] in cs;
      TrimmedIsNoHeading(cs[i].path);
    }
    OmittedAreTheRest(cs, files);
  }

  /** One file whose path starts like a heading is shown under another name and counted as omitted as well. */
  lemma HeadingPathIsCountedTwice()
    ensures var cs := [Candidate("## A.kt", ["class A"])];
            Regrouped(UnitsOf(cs)) == [MappedFile("A.kt", ["class A"])]
            && OmittedFrom(Paths(cs), UnitsOf(cs)) == ["## A.kt"]
  {
    var path := "## A.kt";
    var cs := [Candidate(path, ["class A"])];
    assert path[3..] == "A.kt" && path[..3] == HEADING;
    var name := "A.kt";
    assert !StartsLikeHeading(name) by { assert name[..3][0] == 'A' && HEADING[0] == '#'; }
    assert TrimHeading(path) == TrimHeading(name) == name;
    EverythingShown(cs);
    var files := Regrouped(UnitsOf(cs));
    assert Whole(cs)[0] == MappedFile(name, ["class A"]);
    assert files == [MappedFile("A.kt", ["class A"])];
    assert !ShowsPath(files, path);
    assert Paths(cs) == [path] && [path][..0] == [];
    assert Unshown([path], files) == Unshown([path][..0], files) + [path];
  }
}
