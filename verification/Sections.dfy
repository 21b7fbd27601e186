/**
 Units of different kinds in a fixed order of priority, and what the longest affordable prefix of them
 leaves of each kind.
 */
module Sections {
  import opened Callers
  import opened MatchedLines
  import opened Options

  datatype AnnotatedDeclaration = AnnotatedDeclaration(path: string, line: nat, fqn: string, keyword: string)

  datatype ForeignReference = ForeignReference(path: string, line: nat, enclosing: Option<string>, text: Option<string>)

  /** The content of a unit. A variant further up is offered earlier. */
  datatype Payload =
    | Declaration(signature: string)
    | SourceLine(candidate: SourceCandidate)
    | FileOutline(block: string)
    | Caller(caller: RelatedDeclaration)
    | Annotated(annotated: AnnotatedDeclaration)
    | JavaReference(javaReference: ForeignReference)
    | KotlinReference(kotlinReference: ForeignReference)
    | Implementor(implementor: RelatedDeclaration)

  datatype Unit = Unit(text: string, payload: Payload)

  function Rank(p: Payload): nat {
    match p
    case Declaration(_) => 0
    case SourceLine(_) => 1
    case FileOutline(_) => 2
    case Caller(_) => 3
    case Annotated(_) => 4
    case JavaReference(_) => 5
    case KotlinReference(_) => 6
    case Implementor(_) => 7
  }

  function AsDeclaration(p: Payload): Option<string> {
    match p case Declaration(x) => Some(x) case _ => None
  }

  function AsSourceLine(p: Payload): Option<SourceCandidate> {
    match p case SourceLine(x) => Some(x) case _ => None
  }

  function AsFileOutline(p: Payload): Option<string> {
    match p case FileOutline(x) => Some(x) case _ => None
  }

  function AsCaller(p: Payload): Option<RelatedDeclaration> {
    match p case Caller(x) => Some(x) case _ => None
  }

  function AsAnnotated(p: Payload): Option<AnnotatedDeclaration> {
    match p case Annotated(x) => Some(x) case _ => None
  }

  function AsJavaReference(p: Payload): Option<ForeignReference> {
    match p case JavaReference(x) => Some(x) case _ => None
  }

  function AsKotlinReference(p: Payload): Option<ForeignReference> {
    match p case KotlinReference(x) => Some(x) case _ => None
  }

  function AsImplementor(p: Payload): Option<RelatedDeclaration> {
    match p case Implementor(x) => Some(x) case _ => None
  }

  /** What the units of one kind carry, in order. */
  function Select<T>(units: seq<Unit>, pick: Payload -> Option<T>): seq<T> {
    if units == [] then []
    else
      var n := |units| - 1;
      Select(units[..n], pick) + match pick(units[n].payload) case Some(x) => [x] case None => []
  }

  lemma {:induction false} SelectAppends<T>(a: seq<Unit>, b: seq<Unit>, pick: Payload -> Option<T>)
    ensures Select(a + b, pick) == Select(a, pick) + Select(b, pick)
  {
    if b == [] {
      assert a + b == a;
    } else {
      SelectAppends(a, b[..|b| - 1], pick);
      assert (a + b)[..|a + b| - 1] == a + b[..|b| - 1];
    }
  }

  lemma {:induction false} SelectNone<T>(units: seq<Unit>, pick: Payload -> Option<T>)
    requires forall u | u in units :: pick(u.payload).None?
    ensures Select(units, pick) == []
  {
    if units != [] {
      var n := |units| - 1;
      assert units[n] in units && forall u | u in units[..n] :: u in units;
      SelectNone(units[..n], pick);
    }
  }

  ghost predicate Picks<T>(pick: Payload -> Option<T>, rank: nat) {
    forall p :: pick(p).Some? <==> Rank(p) == rank
  }

  // ----- segments

  function Flatten(segments: seq<seq<Unit>>): seq<Unit> {
    if segments == [] then [] else Flatten(segments[..|segments| - 1]) + segments[|segments| - 1]
  }

  ghost predicate ByRank(segments: seq<seq<Unit>>) {
    forall i, u | 0 <= i < |segments| && u in segments[i] :: Rank(u.payload) == i
  }

  ghost predicate RanksAscend(units: seq<Unit>) {
    forall i, j | 0 <= i < j < |units| :: Rank(units[i].payload) <= Rank(units[j].payload)
  }

  lemma {:induction false} FlattenAscends(segments: seq<seq<Unit>>)
    requires ByRank(segments)
    ensures RanksAscend(Flatten(segments))
    ensures forall u | u in Flatten(segments) :: Rank(u.payload) < |segments|
  {
    if segments != [] {
      var n := |segments| - 1;
      assert forall i | 0 <= i < n :: segments[..n][i] == segments[i];
      FlattenAscends(segments[..n]);
      var before, last := Flatten(segments[..n]), segments[n];
      var all := before + last;
      forall i, j | 0 <= i < j < |all|
        ensures Rank(all[i].payload) <= Rank(all[j].payload)
      {
        if j >= |before| {
          assert all[j] in last;
          if i < |before| {
            assert all[i] in before;
          } else {
            assert all[i] in last;
          }
        }
      }
    }
  }

  /** Picking one kind of all the units is picking it of its own segment. */
  lemma {:induction false} SelectSegment<T>(segments: seq<seq<Unit>>, pick: Payload -> Option<T>, k: nat)
    requires ByRank(segments) && Picks(pick, k)
    ensures Select(Flatten(segments), pick) == if k < |segments| then Select(segments[k], pick) else []
  {
    if segments != [] {
      var n := |segments| - 1;
      assert forall i | 0 <= i < n :: segments[..n][i] == segments[i];
      SelectSegment(segments[..n], pick, k);
      SelectAppends(Flatten(segments[..n]), segments[n], pick);
      if k != n {
        SelectNone(segments[n], pick);
      }
    }
  }

  /** The units of some items. */
  function Units<T>(items: seq<T>, unit: T -> Unit): seq<Unit> {
    seq(|items|, i requires 0 <= i < |items| => unit(items[i]))
  }

  lemma UnitsRanked<T(!new)>(items: seq<T>, unit: T -> Unit, rank: nat)
    requires forall x :: Rank(unit(x).payload) == rank
    ensures forall u | u in Units(items, unit) :: Rank(u.payload) == rank
  {
  }

  lemma {:induction false} SelectUnits<T(!new)>(items: seq<T>, unit: T -> Unit, pick: Payload -> Option<T>)
    requires forall x :: pick(unit(x).payload) == Some(x)
    ensures Select(Units(items, unit), pick) == items
  {
    if items != [] {
      var n := |items| - 1;
      SelectUnits(items[..n], unit, pick);
      assert Units(items, unit)[..n] == Units(items[..n], unit);
      assert items == items[..n] + [items[n]];
    }
  }

  // ----- what a prefix leaves of each kind

  datatype ContextSection<T> = ContextSection(items: seq<T>, omitted: nat)

  /** The section lists what was emitted of its kind and counts what was not. */
  ghost predicate IsSection<T>(section: ContextSection<T>, offered: seq<Unit>, emitted: seq<Unit>,
                               pick: Payload -> Option<T>) {
    section.items == Select(emitted, pick) && section.omitted + |section.items| == |Select(offered, pick)|
  }
}
