/** Values that may be absent, what is left when those are left out, and induction over steps. */
module Options {
  datatype Option<+T> = None | Some(value: T)

  function Appended<T>(ds: seq<T>, d: Option<T>): seq<T> {
    match d case Some(more) => ds + [more] case None => ds
  }

  /** What is found in the first `n` places, in order. */
  ghost function Collected<T>(found: nat -> Option<T>, n: nat): seq<T> {
    if n == 0 then [] else Appended(Collected(found, n - 1), found(n - 1))
  }

  /** Whatever holds of nothing, and stays when one more place is looked at, holds of all that is found. */
  lemma {:induction false} CollectedKeeps<T(!new)>(found: nat -> Option<T>, kept: (nat, seq<T>) -> bool, n: nat)
    requires kept(0, [])
    requires forall m: nat, ds | kept(m, ds) :: kept(m + 1, Appended(ds, found(m)))
    ensures kept(n, Collected(found, n))
  {
    if n > 0 {
      CollectedKeeps(found, kept, n - 1);
      assert kept(n - 1 + 1, Appended(Collected(found, n - 1), found(n - 1)));
    }
  }

  lemma {:induction false} CollectedExactly<T>(found: nat -> Option<T>, n: nat, d: T)
    ensures d in Collected(found, n) <==> exists m: nat :: m < n && found(m) == Some(d)
  {
    if n > 0 {
      CollectedExactly(found, n - 1, d);
    }
  }

  lemma SameAppended<T>(a: seq<T>, b: seq<T>, d: Option<T>)
    ensures Appended(a, d) == Appended(b, d) <==> a == b
  {
    if d.Some? && Appended(a, d) == Appended(b, d) {
      assert Appended(a, d)[..|a|] == a && Appended(b, d)[..|b|] == b;
    }
  }

  /** Leaving some out leaves the same exactly when nothing is left out. */
  lemma {:induction false} CollectedSameExactly<T>(found: nat -> Option<T>, some: nat -> Option<T>, n: nat)
    requires forall m: nat | m < n :: some(m) == found(m) || some(m) == None
    ensures |Collected(some, n)| <= |Collected(found, n)|
    ensures Collected(some, n) == Collected(found, n) <==> forall m: nat | m < n :: some(m) == found(m)
  {
    if n > 0 {
      CollectedSameExactly(found, some, n - 1);
      var all, part := Collected(found, n - 1), Collected(some, n - 1);
      if some(n - 1) == found(n - 1) {
        SameAppended(all, part, found(n - 1));
      } else {
        assert |Collected(some, n)| < |Collected(found, n)|;
      }
    }
  }

  /** What holds before the first step and stays with every step holds after any number of steps. */
  lemma {:induction false} StepByStep(holds: nat -> bool, n: nat)
    requires holds(0) && forall m: nat | holds(m) :: holds(m + 1)
    ensures holds(n)
  {
    if n > 0 {
      StepByStep(holds, n - 1);
      assert holds(n - 1 + 1);
    }
  }

  lemma {:induction false} CollectedAlike<T>(found: nat -> Option<T>, other: nat -> Option<T>, n: nat)
    requires forall m: nat | m < n :: found(m) == other(m)
    ensures Collected(found, n) == Collected(other, n)
  {
    if n > 0 {
      CollectedAlike(found, other, n - 1);
    }
  }

  lemma {:induction false} CollectedNothing<T>(found: nat -> Option<T>, n: nat)
    requires forall m: nat | m < n :: found(m) == None
    ensures Collected(found, n) == []
  {
    if n > 0 {
      CollectedNothing(found, n - 1);
    }
  }

  lemma CollectedOneMore<T>(found: nat -> Option<T>, other: nat -> Option<T>, n: nat)
    requires forall m: nat | m < n :: found(m) == other(m)
    ensures Collected(found, n + 1) == Appended(Collected(other, n), found(n))
  {
    CollectedAlike(found, other, n);
  }
}
