/**
 Walks in a finite directed relation, given as the set of its edges. Everything the graph engine
 promises (components, cycles) is stated with these notions, over node identities as well as over
 the node indices the algorithms work on.
 */
module Walks {

  /** A nonempty sequence of nodes, each joined to the next by an edge. */
  ghost predicate Walk<T(!new)>(es: set<(T, T)>, p: seq<T>) {
    |p| > 0 && forall k | 0 <= k < |p| - 1 :: (p[k], p[k + 1]) in es
  }

  ghost predicate WalkBetween<T(!new)>(es: set<(T, T)>, p: seq<T>, a: T, b: T) {
    Walk(es, p) && p[0] == a && p[|p| - 1] == b
  }

  /** `b` can be reached from `a`, by the empty walk when they are equal. */
  ghost predicate Reaches<T(!new)>(es: set<(T, T)>, a: T, b: T) {
    exists p :: WalkBetween(es, p, a, b)
  }

  /** The two nodes belong to one strongly connected component. */
  ghost predicate Mutual<T(!new)>(es: set<(T, T)>, a: T, b: T) {
    Reaches(es, a, b) && Reaches(es, b, a)
  }

  /** A walk of at least one edge leads from `a` back to `a`. */
  ghost predicate OnCycle<T(!new)>(es: set<(T, T)>, a: T) {
    exists p :: WalkBetween(es, p, a, a) && |p| >= 2
  }

  lemma ReachesSelf<T(!new)>(es: set<(T, T)>, a: T)
    ensures Reaches(es, a, a)
  {
    assert WalkBetween(es, [a], a, a);
  }

  lemma ReachesEdge<T(!new)>(es: set<(T, T)>, a: T, b: T)
    requires (a, b) in es
    ensures Reaches(es, a, b)
  {
    assert WalkBetween(es, [a, b], a, b);
  }

  lemma ConcatWalks<T(!new)>(es: set<(T, T)>, p: seq<T>, q: seq<T>, a: T, b: T, c: T)
    requires WalkBetween(es, p, a, b) && WalkBetween(es, q, b, c)
    ensures WalkBetween(es, p + q[1..], a, c)
  {
    var r := p + q[1..];
    forall k | 0 <= k < |r| - 1
      ensures (r[k], r[k + 1]) in es
    {
      if k < |p| - 1 {
        assert (p[k], p[k + 1]) in es;
      } else {
        var j := k - (|p| - 1);
        assert r[k] == q[j] && r[k + 1] == q[j + 1];
        assert (q[j], q[j + 1]) in es;
      }
    }
  }

  lemma ReachesTrans<T(!new)>(es: set<(T, T)>, a: T, b: T, c: T)
    requires Reaches(es, a, b) && Reaches(es, b, c)
    ensures Reaches(es, a, c)
  {
    var p :| WalkBetween(es, p, a, b);
    var q :| WalkBetween(es, q, b, c);
    ConcatWalks(es, p, q, a, b, c);
  }

  lemma MutualTrans<T(!new)>(es: set<(T, T)>, a: T, b: T, c: T)
    requires Mutual(es, a, b) && Mutual(es, b, c)
    ensures Mutual(es, a, c)
  {
    ReachesTrans(es, a, b, c);
    ReachesTrans(es, c, b, a);
  }

  /** A set that no edge leaves is never left by a walk either. */
  lemma {:induction false} ClosedUnderReach<T(!new)>(es: set<(T, T)>, inside: set<T>, a: T, b: T)
    requires forall x, y | (x, y) in es && x in inside :: y in inside
    requires a in inside && Reaches(es, a, b)
    ensures b in inside
  {
    var p :| WalkBetween(es, p, a, b);
    WalkStaysInside(es, inside, p);
  }

  lemma {:induction false} WalkStaysInside<T(!new)>(es: set<(T, T)>, inside: set<T>, p: seq<T>)
    requires forall x, y | (x, y) in es && x in inside :: y in inside
    requires Walk(es, p) && p[0] in inside
    ensures forall k | 0 <= k < |p| :: p[k] in inside
  {
    var n := 0;
    while n < |p| - 1
      invariant 0 <= n < |p|
      invariant forall k | 0 <= k <= n :: p[k] in inside
    {
      assert (p[n], p[n + 1]) in es;
      n := n + 1;
    }
  }

  /** A cycle is one edge followed by a way back. */
  lemma OnCycleFirstEdge<T(!new)>(es: set<(T, T)>, a: T)
    ensures OnCycle(es, a) <==> exists b :: (a, b) in es && Reaches(es, b, a)
  {
    if OnCycle(es, a) {
      var p :| WalkBetween(es, p, a, a) && |p| >= 2;
      assert (p[0], p[1]) in es;
      var rest := p[1..];
      forall k | 0 <= k < |rest| - 1
        ensures (rest[k], rest[k + 1]) in es
      {
        assert (p[k + 1], p[k + 1 + 1]) in es;
      }
      assert WalkBetween(es, rest, p[1], a);
    }
    if exists b :: (a, b) in es && Reaches(es, b, a) {
      var b :| (a, b) in es && Reaches(es, b, a);
      var q :| WalkBetween(es, q, b, a);
      assert WalkBetween(es, [a, b], a, b);
      ConcatWalks(es, [a, b], q, a, b, a);
    }
  }
}
