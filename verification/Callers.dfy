/** The sample of callers a bundle lists by default: the first few production and the first few test callers. */
module Callers {
  import opened Options

  datatype RelatedDeclaration = RelatedDeclaration(
    path: string, line: nat, qualifiedName: Option<string>, keyword: Option<string>, sites: nat, test: bool)

  datatype CallerCaps = CallerCaps(production: nat, test: nat)

  const DEFAULT_CAPS := CallerCaps(10, 3)

  function CapOf(caps: CallerCaps, test: bool): nat {
    if test then caps.test else caps.production
  }

  /** How many of the callers are of the kind. */
  ghost function OfKind(callers: seq<RelatedDeclaration>, test: bool): nat {
    if callers == [] then 0
    else OfKind(callers[..|callers| - 1], test) + if callers[|callers| - 1].test == test then 1 else 0
  }

  /** A caller is listed when fewer callers of its kind than the cap come before it. */
  ghost predicate IsSampled(callers: seq<RelatedDeclaration>, caps: CallerCaps, i: nat)
    requires i < |callers|
  {
    OfKind(callers[..i], callers[i].test) < CapOf(caps, callers[i].test)
  }

  /** The sampled callers, in order. */
  ghost function Sample(callers: seq<RelatedDeclaration>, caps: CallerCaps): seq<RelatedDeclaration> {
    if callers == [] then []
    else
      var n := |callers| - 1;
      Sample(callers[..n], caps) + if IsSampled(callers, caps, n) then [callers[n]] else []
  }

  function Min(a: nat, b: nat): nat {
    if a <= b then a else b
  }

  lemma OfKindAppends(callers: seq<RelatedDeclaration>, last: RelatedDeclaration, test: bool)
    ensures OfKind(callers + [last], test) == OfKind(callers, test) + if last.test == test then 1 else 0
  {
    assert (callers + [last])[..|callers|] == callers;
  }

  lemma SampleAppends(callers: seq<RelatedDeclaration>, caps: CallerCaps, last: RelatedDeclaration)
    ensures Sample(callers + [last], caps)
         == if OfKind(callers, last.test) < CapOf(caps, last.test) then Sample(callers, caps) + [last]
            else Sample(callers, caps)
  {
    assert (callers + [last])[..|callers|] == callers;
  }

  lemma SampleSizeAppends(rest: seq<RelatedDeclaration>, caps: CallerCaps, last: RelatedDeclaration, test: bool)
    requires OfKind(Sample(rest, caps), test) == Min(CapOf(caps, test), OfKind(rest, test))
    ensures OfKind(Sample(rest + [last], caps), test) == Min(CapOf(caps, test), OfKind(rest + [last], test))
  {
    SampleAppends(rest, caps, last);
    OfKindAppends(rest, last, test);
    OfKindAppends(Sample(rest, caps), last, test);
  }

  lemma {:induction false} SampleSizes(callers: seq<RelatedDeclaration>, caps: CallerCaps, test: bool)
    ensures OfKind(Sample(callers, caps), test) == Min(CapOf(caps, test), OfKind(callers, test))
  {
    if callers != [] {
      var rest, last := callers[..|callers| - 1], callers[|callers| - 1];
      SampleSizes(rest, caps, test);
      SampleSizeAppends(rest, caps, last, test);
      assert callers == rest + [last];
    }
  }

  lemma {:induction false} KindsAddUp(callers: seq<RelatedDeclaration>)
    ensures OfKind(callers, false) + OfKind(callers, true) == |callers|
  {
    if callers != [] {
      KindsAddUp(callers[..|callers| - 1]);
    }
  }

  /** The callers kept, and how many production and test callers were left out. */
  ghost predicate Caps(callers: seq<RelatedDeclaration>, caps: Option<CallerCaps>, kept: seq<RelatedDeclaration>,
                       productionOmitted: nat, testOmitted: nat) {
    match caps
    case None => kept == callers && productionOmitted == 0 && testOmitted == 0
    case Some(caps) =>
      && kept == Sample(callers, caps)
      && OfKind(kept, false) + productionOmitted == OfKind(callers, false)
      && OfKind(kept, true) + testOmitted == OfKind(callers, true)
  }

  lemma SampleOneMore(callers: seq<RelatedDeclaration>, caps: CallerCaps, i: nat, kept: seq<RelatedDeclaration>)
    requires i < |callers| && kept == Sample(callers[..i], caps)
    ensures Sample(callers[..i + 1], caps)
         == if OfKind(kept, callers[i].test) < CapOf(caps, callers[i].test) then kept + [callers[i]] else kept
    ensures forall test :: OfKind(callers[..i + 1], test)
              == OfKind(callers[..i], test) + if callers[i].test == test then 1 else 0
    ensures forall test :: OfKind(kept + [callers[i]], test) == OfKind(kept, test) + if callers[i].test == test then 1 else 0
  {
    assert callers[..i + 1][..i] == callers[..i];
    assert (kept + [callers[i]])[..|kept|] == kept;
    SampleSizes(callers[..i], caps, callers[i].test);
  }

  method CapCallers(callers: seq<RelatedDeclaration>, caps: Option<CallerCaps>)
    returns (kept: seq<RelatedDeclaration>, productionOmitted: nat, testOmitted: nat)
    ensures Caps(callers, caps, kept, productionOmitted, testOmitted)
  {
    if caps.None? {
      return callers, 0, 0;
    }
    var cap := caps.value;
    kept, productionOmitted, testOmitted := [], 0, 0;
    var productionKept, testKept := 0, 0;
    for i := 0 to |callers|
      invariant Caps(callers[..i], caps, kept, productionOmitted, testOmitted)
      invariant productionKept == OfKind(kept, false) && testKept == OfKind(kept, true)
    {
      SampleOneMore(callers, cap, i, kept);
      if callers[i].test {
        if testKept < cap.test {
          kept := kept + [callers[i]];
          testKept := testKept + 1;
        } else {
          testOmitted := testOmitted + 1;
        }
      } else if productionKept < cap.production {
        kept := kept + [callers[i]];
        productionKept := productionKept + 1;
      } else {
        productionOmitted := productionOmitted + 1;
      }
    }
    assert callers[..|callers|] == callers;
  }

  /** Every caller is listed or counted as left out; some of a kind are left out only when the cap of that kind is used up. */
  lemma CapsConserve(callers: seq<RelatedDeclaration>, caps: Option<CallerCaps>, kept: seq<RelatedDeclaration>,
                     productionOmitted: nat, testOmitted: nat)
    requires Caps(callers, caps, kept, productionOmitted, testOmitted)
    ensures |kept| + productionOmitted + testOmitted == |callers|
    ensures caps.Some? ==> OfKind(kept, false) == Min(caps.value.production, OfKind(callers, false))
    ensures caps.Some? ==> OfKind(kept, true) == Min(caps.value.test, OfKind(callers, true))
  {
    KindsAddUp(callers);
    KindsAddUp(kept);
    if caps.Some? {
      SampleSizes(callers, caps.value, false);
      SampleSizes(callers, caps.value, true);
    }
  }
}
