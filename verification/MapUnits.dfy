/**
 The units a map is emitted in, one heading per file and one signature each, and how the emitted
 units are read back as files.
 */
module MapUnits {
  import opened FileRanking
  import opened Options
  import opened Skeleton

  datatype Unit = Unit(fileIndex: Option<nat>, text: string)

  datatype MappedFile = MappedFile(path: string, declarations: seq<string>)

  /** A file with something to list. */
  datatype Candidate = Candidate(path: string, signatures: seq<string>)

  const HEADING := "## "

  function Heading(path: string): Unit {
    Unit(None, HEADING + path)
  }

  /** Every leading heading mark is stripped, however many there are. */
  function TrimHeading(text: string): string {
    if |text| >= 3 && text[..3] == HEADING then TrimHeading(text[3..]) else text
  }

  predicate StartsLikeHeading(path: string) {
    |path| >= 3 && path[..3] == HEADING
  }

  lemma {:induction false} TrimmedIsNoHeading(text: string)
    ensures !StartsLikeHeading(TrimHeading(text))
    ensures TrimHeading(text) == text <==> !StartsLikeHeading(text)
  {
    if StartsLikeHeading(text) {
      TrimmedIsNoHeading(text[3..]);
    }
  }

  // ----- collecting

  ghost function Candidates(t: Toolkit, ranking: Ranking, ordered: seq<FileSkeleton>,
                            listing: Listing): (cs: seq<Candidate>)
    ensures forall c | c in cs :: c.signatures != []
    ensures |cs| <= |ordered|
  {
    if ordered == [] then []
    else
      var last := ordered[|ordered| - 1];
      var before := Candidates(t, ranking, ordered[..|ordered| - 1], listing);
      var signatures := Signatures(t, ranking, last, listing);
      if signatures == [] then before else before + [Candidate(last.path, signatures)]
  }

  function SignatureUnits(index: nat, signatures: seq<string>): seq<Unit> {
    seq(|signatures|, k requires 0 <= k < |signatures| => Unit(Some(index), signatures[k]))
  }

  function FileUnits(index: nat, c: Candidate): seq<Unit> {
    [Heading(c.path)] + SignatureUnits(index, c.signatures)
  }

  function UnitsOf(cs: seq<Candidate>): seq<Unit> {
    if cs == [] then [] else UnitsOf(cs[..|cs| - 1]) + FileUnits(|cs| - 1, cs[|cs| - 1])
  }

  ghost function Paths(cs: seq<Candidate>): seq<string> {
    seq(|cs|, i requires 0 <= i < |cs| => cs[i].path)
  }

  ghost function SignatureCount(cs: seq<Candidate>): nat {
    if cs == [] then 0 else SignatureCount(cs[..|cs| - 1]) + |cs[|cs| - 1].signatures|
  }

  /** What the walk over the files has collected so far. */
  datatype Collection = Collection(units: seq<Unit>, paths: seq<string>, signaturesSeen: nat, withoutAny: nat)

  ghost predicate Collects(cs: seq<Candidate>, all: Collection) {
    all.units == UnitsOf(cs) && all.paths == Paths(cs) && all.signaturesSeen == SignatureCount(cs)
  }

  /** Adds one file's heading and signatures, or counts it as having nothing to list. */
  method CollectFile(all: Collection, path: string, signatures: seq<string>, ghost cs: seq<Candidate>)
    returns (all': Collection)
    requires Collects(cs, all)
    ensures Collects(if signatures == [] then cs else cs + [Candidate(path, signatures)], all')
    ensures all'.withoutAny == all.withoutAny + if signatures == [] then 1 else 0
  {
    if signatures == [] {
      return all.(withoutAny := all.withoutAny + 1);
    }
    var index := |all.paths|;
    var units := all.units + [Heading(path)];
    for j := 0 to |signatures|
      invariant units == all.units + [Heading(path)] + SignatureUnits(index, signatures)[..j]
    {
      units := units + [Unit(Some(index), signatures[j])];
    }
    assert SignatureUnits(index, signatures)[..|signatures|] == SignatureUnits(index, signatures);
    assert (cs + [Candidate(path, signatures)])[..|cs|] == cs;
    all' := Collection(units, all.paths + [path], all.signaturesSeen + |signatures|, all.withoutAny);
  }

  lemma NextCandidate(t: Toolkit, ranking: Ranking, ordered: seq<FileSkeleton>, k: nat, listing: Listing)
    requires k < |ordered|
    ensures var before := Candidates(t, ranking, ordered[..k], listing);
            var signatures := Signatures(t, ranking, ordered[k], listing);
            Candidates(t, ranking, ordered[..k + 1], listing)
            == if signatures == [] then before else before + [Candidate(ordered[k].path, signatures)]
  {
    assert ordered[..k + 1][..k] == ordered[..k];
  }

  /** Collects the units of the files that list something, and counts those that do not. */
  method CollectUnits(t: Toolkit, ranking: Ranking, ordered: seq<FileSkeleton>,
                      listing: Listing) returns (all: Collection)
    ensures Collects(Candidates(t, ranking, ordered, listing), all)
    ensures all.withoutAny + |Candidates(t, ranking, ordered, listing)| == |ordered|
  {
    all := Collection([], [], 0, 0);
    for k := 0 to |ordered|
      invariant Collects(Candidates(t, ranking, ordered[..k], listing), all)
      invariant all.withoutAny + |Candidates(t, ranking, ordered[..k], listing)| == k
    {
      var signatures := Signatures(t, ranking, ordered[k], listing);
      NextCandidate(t, ranking, ordered, k, listing);
      all := CollectFile(all, ordered[k].path, signatures, Candidates(t, ranking, ordered[..k], listing));
    }
    assert ordered[..|ordered|] == ordered;
  }

  /** A focus has no more files with something to list than the map it belongs to. */
  lemma {:induction false} FocusHasFewerFiles(t: Toolkit, ranking: Ranking, ordered: seq<FileSkeleton>,
                                              matches: string -> bool, compact: bool)
    ensures |Candidates(t, ranking, ordered, Focused(matches))| <= |Candidates(t, ranking, ordered, Ranked(compact))|
  {
    if ordered != [] {
      FocusHasFewerFiles(t, ranking, ordered[..|ordered| - 1], matches, compact);
      FocusListsLess(t, ranking, ordered[|ordered| - 1], matches, compact);
    }
  }

  // ----- regrouping

  /** The files the units spell out, in order, with or without signatures. */
  function Grouped(units: seq<Unit>): seq<MappedFile> {
    if units == [] then []
    else
      var files := Grouped(units[..|units| - 1]);
      var unit := units[|units| - 1];
      if unit.fileIndex.None? then files + [MappedFile(TrimHeading(unit.text), [])]
      else if files == [] then files
      else
        var current := files[|files| - 1];
        files[|files| - 1 := current.(declarations := current.declarations + [unit.text])]
  }

  function WithDeclarations(files: seq<MappedFile>): seq<MappedFile> {
    if files == [] then []
    else
      var last := files[|files| - 1];
      WithDeclarations(files[..|files| - 1]) + if last.declarations == [] then [] else [last]
  }

  function Regrouped(units: seq<Unit>): seq<MappedFile> {
    WithDeclarations(Grouped(units))
  }

  /** Rebuilds files from the emitted units; a heading with nothing under it is dropped. */
  method Regroup(units: seq<Unit>) returns (files: seq<MappedFile>)
    ensures files == Regrouped(units)
  {
    files := [];
    for k := 0 to |units|
      invariant files == Grouped(units[..k])
    {
      assert units[..k + 1][..k] == units[..k];
      var unit := units[k];
      if unit.fileIndex.None? {
        files := files + [MappedFile(TrimHeading(unit.text), [])];
      } else if files != [] {
        var current := files[|files| - 1];
        files := files[|files| - 1 := current.(declarations := current.declarations + [unit.text])];
      }
    }
    assert units[..|units|] == units;
    files := WithDeclarations(files);
  }

  // ----- a prefix of the units is a prefix of the files

  /** The first `k` files whole, and the first `j` units of the next. */
  ghost predicate StopsAt(cs: seq<Candidate>, units: seq<Unit>, k: nat, j: nat) {
    && k <= |cs|
    && (k == |cs| ==> j == 0)
    && (k < |cs| ==> j < |FileUnits(k, cs[k])|)
    && units == UnitsOf(cs[..k]) + if k < |cs| then FileUnits(k, cs[k])[..j] else []
  }

  lemma {:induction false} WhereAPrefixStops(cs: seq<Candidate>, units: seq<Unit>) returns (k: nat, j: nat)
    requires units <= UnitsOf(cs)
    ensures StopsAt(cs, units, k, j)
  {
    if cs == [] {
      k, j := 0, 0;
    } else {
      var n := |cs| - 1;
      var before := UnitsOf(cs[..n]);
      var own := FileUnits(n, cs[n]);
      if |units| < |before| {
        assert units <= before;
        k, j := WhereAPrefixStops(cs[..n], units);
        assert cs[..n][..k] == cs[..k];
      } else if |units| == |before| + |own| {
        k, j := |cs|, 0;
        assert cs[..k] == cs && units == UnitsOf(cs);
      } else {
        k, j := n, |units| - |before|;
        assert units == before + own[..j];
      }
    }
  }

  ghost function Whole(cs: seq<Candidate>): seq<MappedFile> {
    seq(|cs|, i requires 0 <= i < |cs| => MappedFile(TrimHeading(cs[i].path), cs[i].signatures))
  }

  lemma TrimOwnHeading(path: string)
    ensures TrimHeading(HEADING + path) == TrimHeading(path)
  {
    assert (HEADING + path)[3..] == path;
  }

  lemma {:induction false} GroupedPart(units: seq<Unit>, index: nat, c: Candidate, j: nat)
    requires 0 < j <= |FileUnits(index, c)|
    ensures Grouped(units + FileUnits(index, c)[..j])
         == Grouped(units) + [MappedFile(TrimHeading(c.path), c.signatures[..j - 1])]
  {
    var all := units + FileUnits(index, c)[..j];
    var n := |all| - 1;
    assert all[..n] == units + FileUnits(index, c)[..j - 1];
    if j == 1 {
      assert all[..n] == units;
      TrimOwnHeading(c.path);
    } else {
      GroupedPart(units, index, c, j - 1);
      assert all[n] == Unit(Some(index), c.signatures[j - 2]);
      assert c.signatures[..j - 2] + [c.signatures[j - 2]] == c.signatures[..j - 1];
    }
  }

  lemma {:induction false} GroupedWhole(cs: seq<Candidate>)
    ensures Grouped(UnitsOf(cs)) == Whole(cs)
  {
    if cs != [] {
      var n := |cs| - 1;
      GroupedWhole(cs[..n]);
      GroupedPart(UnitsOf(cs[..n]), n, cs[n], |FileUnits(n, cs[n])|);
      assert FileUnits(n, cs[n])[..|FileUnits(n, cs[n])|] == FileUnits(n, cs[n]);
      assert cs[n].signatures[..|cs[n].signatures|] == cs[n].signatures;
      assert Whole(cs) == Whole(cs[..n]) + [MappedFile(TrimHeading(cs[n].path), cs[n].signatures)];
    }
  }

  lemma {:induction false} AllHaveDeclarations(files: seq<MappedFile>)
    requires forall f | f in files :: f.declarations != []
    ensures WithDeclarations(files) == files
  {
    if files != [] {
      var n := |files| - 1;
      assert files == files[..n] + [files[n]];
      assert forall f | f in files[..n] :: f in files;
      AllHaveDeclarations(files[..n]);
      assert files[n] in files;
    }
  }

  lemma LastWithDeclarations(files: seq<MappedFile>, last: MappedFile)
    ensures WithDeclarations(files + [last]) == WithDeclarations(files) + if last.declarations == [] then [] else [last]
  {
    assert (files + [last])[..|files|] == files;
  }

  /** What is read back from a prefix of the units: the whole files, and what there is of the next. */
  lemma RegroupedPrefix(cs: seq<Candidate>, units: seq<Unit>, k: nat, j: nat)
    requires StopsAt(cs, units, k, j) && forall c | c in cs :: c.signatures != []
    ensures Regrouped(units)
         == Whole(cs[..k]) + if j < 2 then [] else [MappedFile(TrimHeading(cs[k].path), cs[k].signatures[..j - 1])]
  {
    var whole := Whole(cs[..k]);
    GroupedWhole(cs[..k]);
    forall f | f in whole
      ensures f.declarations != []
    {
      var i :| 0 <= i < k && whole[i] == f;
      assert cs[i] in cs;
    }
    AllHaveDeclarations(whole);
    if j > 0 {
      GroupedPart(UnitsOf(cs[..k]), k, cs[k], j);
      LastWithDeclarations(whole, MappedFile(TrimHeading(cs[k].path), cs[k].signatures[..j - 1]));
    } else {
      assert units == UnitsOf(cs[..k]);
    }
  }

  /** The files shown are the first candidates, in order; all but the last carry every signature, the last a first few. */
  ghost predicate ShowsPrefix(cs: seq<Candidate>, files: seq<MappedFile>) {
    && |files| <= |cs|
    && (forall i | 0 <= i < |files| ::
          files[i].path == TrimHeading(cs[i].path) && files[i].declarations != [] && files[i].declarations <= cs[i].signatures)
    && (forall i | 0 <= i < |files| - 1 :: files[i].declarations == cs[i].signatures)
  }

  lemma WholeAndPartShowPrefix(cs: seq<Candidate>, k: nat, part: seq<string>, files: seq<MappedFile>)
    requires k <= |cs| && forall i | 0 <= i < k :: cs[i].signatures != []
    requires files == Whole(cs[..k])
             || (k < |cs| && [] < part <= cs[k].signatures
                 && files == Whole(cs[..k]) + [MappedFile(TrimHeading(cs[k].path), part)])
    ensures ShowsPrefix(cs, files)
  {
    assert forall i | 0 <= i < k :: Whole(cs[..k])[i] == MappedFile(TrimHeading(cs[i].path), cs[i].signatures);
  }

  lemma PrefixShowsPrefix(cs: seq<Candidate>, units: seq<Unit>)
    requires units <= UnitsOf(cs) && forall c | c in cs :: c.signatures != []
    ensures ShowsPrefix(cs, Regrouped(units))
  {
    var k, j := WhereAPrefixStops(cs, units);
    RegroupedPrefix(cs, units, k, j);
    var part := if j < 2 then [] else cs[k].signatures[..j - 1];
    assert forall i | 0 <= i < k :: cs[i] in cs;
    WholeAndPartShowPrefix(cs, k, part, Regrouped(units));
  }

  /** All the units read back are all the files. */
  lemma EverythingShown(cs: seq<Candidate>)
    requires forall c | c in cs :: c.signatures != []
    ensures Regrouped(UnitsOf(cs)) == Whole(cs)
  {
    assert cs[..|cs|] == cs;
    RegroupedPrefix(cs, UnitsOf(cs), |cs|, 0);
  }

  ghost function DeclarationCount(files: seq<MappedFile>): nat {
    if files == [] then 0 else DeclarationCount(files[..|files| - 1]) + |files[|files| - 1].declarations|
  }

  /** No more signatures are shown than there are. */
  lemma {:induction false} ShownSignatures(cs: seq<Candidate>, files: seq<MappedFile>)
    requires ShowsPrefix(cs, files)
    ensures DeclarationCount(files) <= SignatureCount(cs)
  {
    if |files| < |cs| {
      ShownSignatures(cs[..|cs| - 1], files);
    } else if files != [] {
      var n := |files| - 1;
      ShownSignatures(cs[..n], files[..n]);
      assert files[n].declarations <= cs[n].signatures;
    }
  }
}
