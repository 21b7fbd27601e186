/**
 The interned simple directed graph that ranking and cycle detection share: node identities are
 numbered by first appearance and parallel edges are collapsed.
 */
module Graphs {
  import opened Options
  import opened Ordering

  /** `outEdges[i]` lists the indices node `i` links to, ascending and without repetition. */
  datatype Graph<N> = Graph(nodeIds: seq<N>, outEdges: seq<seq<nat>>)

  ghost predicate Adjacency(adj: seq<seq<nat>>) {
    forall i, j | 0 <= i < |adj| && j in adj[i] :: j < |adj|
  }

  ghost predicate SimpleLists(adj: seq<seq<nat>>) {
    forall i | 0 <= i < |adj| :: Sorted(adj[i], NatLe()) && Distinct(adj[i])
  }

  ghost predicate WellFormed<N(!new)>(g: Graph<N>) {
    |g.outEdges| == |g.nodeIds| && Distinct(g.nodeIds) && Adjacency(g.outEdges) && SimpleLists(g.outEdges)
  }

  /** The edges between node indices. */
  ghost function IndexEdges(adj: seq<seq<nat>>): set<(nat, nat)> {
    set i: nat, j: nat | i < |adj| && j in adj[i] :: (i, j)
  }

  /** The edges between node identities, which is what a caller sees of the graph. */
  ghost function EdgeSet<N(!new)>(g: Graph<N>): set<(N, N)>
    requires WellFormed(g)
  {
    set i: nat, j: nat | i < |g.outEdges| && j in g.outEdges[i] :: (g.nodeIds[i], g.nodeIds[j])
  }

  ghost function NodeSet<N(!new)>(g: Graph<N>): set<N> {
    Elements(g.nodeIds)
  }

  /** The endpoints of a list of edges, in the order they are met. */
  function Endpoints<N>(edges: seq<(N, N)>): seq<N> {
    if edges == [] then []
    else Endpoints(edges[..|edges| - 1]) + [edges[|edges| - 1].0, edges[|edges| - 1].1]
  }

  /** `s` with every element that occurred before left out. */
  function FirstAppearances<N(==)>(s: seq<N>): seq<N> {
    if s == [] then []
    else
      var before := FirstAppearances(s[..|s| - 1]);
      if s[|s| - 1] in before then before else before + [s[|s| - 1]]
  }

  /** The interning table numbers exactly the nodes seen so far by their position. */
  ghost predicate Numbers<N(!new)>(lookup: map<N, nat>, nodeIds: seq<N>) {
    && Distinct(nodeIds)
    && (forall x :: x in lookup <==> x in nodeIds)
    && (forall x | x in lookup :: lookup[x] < |nodeIds| && nodeIds[lookup[x]] == x)
  }

  /** Returns the number of `node`, giving it the next free one the first time it is met. */
  method Intern<N(==, !new)>(lookup: map<N, nat>, nodeIds: seq<N>, node: N)
    returns (index: nat, lookup': map<N, nat>, nodeIds': seq<N>)
    requires Numbers(lookup, nodeIds)
    ensures Numbers(lookup', nodeIds')
    ensures nodeIds' == if node in nodeIds then nodeIds else nodeIds + [node]
    ensures index < |nodeIds'| && nodeIds'[index] == node
  {
    if node in lookup {
      return lookup[node], lookup, nodeIds;
    }
    index := |nodeIds|;
    nodeIds' := nodeIds + [node];
    lookup' := lookup[node := index];
  }

  /** The first pass over the edges: number every endpoint, in the order they are met. */
  method InternAll<N(==, !new)>(edges: seq<(N, N)>) returns (nodeIds: seq<N>, pairs: seq<(nat, nat)>)
    ensures nodeIds == FirstAppearances(Endpoints(edges))
    ensures Interned(edges, nodeIds, pairs)
  {
    var lookup: map<N, nat> := map[];
    nodeIds := [];
    pairs := [];
    for k := 0 to |edges|
      invariant Numbers(lookup, nodeIds)
      invariant nodeIds == FirstAppearances(Endpoints(edges[..k]))
      invariant Interned(edges[..k], nodeIds, pairs)
    {
      var (from, to) := edges[k];
      EndpointsGrow(edges, k);
      ghost var before := nodeIds;
      var fromIdx, toIdx;
      fromIdx, lookup, nodeIds := Intern(lookup, nodeIds, from);
      ghost var between := nodeIds;
      toIdx, lookup, nodeIds := Intern(lookup, nodeIds, to);
      pairs := pairs + [(fromIdx, toIdx)];
      InternedGrows(edges, k, before, between, nodeIds, pairs);
    }
    assert edges[..|edges|] == edges;
  }

  /** The second pass: one adjacency list per node, then each list sorted and stripped of repetitions. */
  method Adjacencies(n: nat, pairs: seq<(nat, nat)>) returns (outEdges: seq<seq<nat>>)
    requires forall k | 0 <= k < |pairs| :: pairs[k].0 < n && pairs[k].1 < n
    ensures |outEdges| == n && SimpleLists(outEdges) && Lists(outEdges, pairs)
  {
    outEdges := seq(n, i => []);
    for k := 0 to |pairs|
      invariant |outEdges| == n
      invariant Lists(outEdges, pairs[..k])
    {
      var (from, to) := pairs[k];
      ListsGrow(outEdges, pairs, k);
      outEdges := outEdges[from := outEdges[from] + [to]];
    }
    assert pairs[..|pairs|] == pairs;
    for k := 0 to n
      invariant |outEdges| == n
      invariant Lists(outEdges, pairs)
      invariant SimpleLists(outEdges[..k])
    {
      ListsNormalized(outEdges, pairs, k);
      outEdges := outEdges[k := Dedup(Sort(outEdges[k], NatLe()))];
    }
    assert outEdges[..n] == outEdges;
  }

  /** Builds a graph whose edges are exactly the given ones, whatever order or multiplicity they come in. */
  method FromEdges<N(==, !new)>(edges: seq<(N, N)>) returns (g: Graph<N>)
    ensures WellFormed(g)
    ensures EdgeSet(g) == set e | e in edges
    ensures g.nodeIds == FirstAppearances(Endpoints(edges))
    ensures forall x :: x in g.nodeIds <==> exists e :: e in edges && (x == e.0 || x == e.1)
  {
    var nodeIds, pairs := InternAll(edges);
    var outEdges := Adjacencies(|nodeIds|, pairs);
    g := Graph(nodeIds, outEdges);
    FirstAppearancesContents(Endpoints(edges));
    EndpointsContents(edges);
    EdgesSurvive(edges, g, pairs);
  }

  /** What building a graph from a list of edges yields. */
  ghost predicate IsGraphOf<N(!new)>(edges: seq<(N, N)>, g: Graph<N>) {
    WellFormed(g) && EdgeSet(g) == (set e | e in edges) && g.nodeIds == FirstAppearances(Endpoints(edges))
  }

  /** Two lists of numbers that join the same nodes, both ascending, are the same list. */
  lemma SameTargets<N(!new)>(a: Graph<N>, b: Graph<N>, i: nat)
    requires WellFormed(a) && WellFormed(b) && a.nodeIds == b.nodeIds && EdgeSet(a) == EdgeSet(b) && i < |a.outEdges|
    ensures a.outEdges[i] == b.outEdges[i]
  {
    forall j
      ensures j in a.outEdges[i] <==> j in b.outEdges[i]
    {
      if j in a.outEdges[i] {
        assert (a.nodeIds[i], a.nodeIds[j]) in EdgeSet(b);
      }
      if j in b.outEdges[i] {
        assert (b.nodeIds[i], b.nodeIds[j]) in EdgeSet(a);
      }
    }
    SortedDistinctUnique(a.outEdges[i], b.outEdges[i], NatLe());
  }

  /** The graph is a function of the list of edges. */
  lemma GraphDetermined<N(!new)>(edges: seq<(N, N)>, a: Graph<N>, b: Graph<N>)
    requires IsGraphOf(edges, a) && IsGraphOf(edges, b)
    ensures a == b
  {
    forall i | 0 <= i < |a.outEdges|
      ensures a.outEdges[i] == b.outEdges[i]
    {
      SameTargets(a, b, i);
    }
  }

  /** `pairs` are the edges with each endpoint replaced by its number. */
  ghost predicate Interned<N(!new)>(edges: seq<(N, N)>, nodeIds: seq<N>, pairs: seq<(nat, nat)>) {
    && |pairs| == |edges|
    && forall i | 0 <= i < |pairs| ::
         pairs[i].0 < |nodeIds| && pairs[i].1 < |nodeIds| && edges[i] == (nodeIds[pairs[i].0], nodeIds[pairs[i].1])
  }

  /** The adjacency lists hold exactly the numbered edges. */
  ghost predicate Lists(outEdges: seq<seq<nat>>, pairs: seq<(nat, nat)>) {
    forall i: nat, j: nat | i < |outEdges| :: j in outEdges[i] <==> (i, j) in pairs
  }

  lemma InternedGrows<N(!new)>(edges: seq<(N, N)>, k: nat, before: seq<N>, between: seq<N>, after: seq<N>,
                               pairs: seq<(nat, nat)>)
    requires k < |edges| && |pairs| == k + 1
    requires before <= between <= after
    requires Interned(edges[..k], before, pairs[..k])
    requires pairs[k].0 < |between| && between[pairs[k].0] == edges[k].0
    requires pairs[k].1 < |after| && after[pairs[k].1] == edges[k].1
    ensures Interned(edges[..k + 1], after, pairs)
  {
    forall i | 0 <= i < |pairs|
      ensures pairs[i].0 < |after| && pairs[i].1 < |after|
      ensures edges[..k + 1][i] == (after[pairs[i].0], after[pairs[i].1])
    {
      if i < k {
        assert pairs[..k][i] == pairs[i] && edges[..k][i] == edges[i];
      }
    }
  }

  lemma NormalizedList(list: seq<nat>)
    ensures Sorted(Dedup(Sort(list, NatLe())), NatLe()) && Distinct(Dedup(Sort(list, NatLe())))
    ensures forall j :: j in Dedup(Sort(list, NatLe())) <==> j in list
  {
    NatIsTotalOrder();
    SortContents(list, NatLe());
    SortSorted(list, NatLe());
    DedupContents(Sort(list, NatLe()));
    DedupSorted(Sort(list, NatLe()), NatLe());
  }

  lemma ListsGrow(outEdges: seq<seq<nat>>, pairs: seq<(nat, nat)>, k: nat)
    requires k < |pairs| && pairs[k].0 < |outEdges| && Lists(outEdges, pairs[..k])
    ensures Lists(outEdges[pairs[k].0 := outEdges[pairs[k].0] + [pairs[k].1]], pairs[..k + 1])
  {
    assert pairs[..k + 1] == pairs[..k] + [pairs[k]];
  }

  lemma ListsNormalized(outEdges: seq<seq<nat>>, pairs: seq<(nat, nat)>, k: nat)
    requires k < |outEdges| && Lists(outEdges, pairs) && SimpleLists(outEdges[..k])
    ensures var now := outEdges[k := Dedup(Sort(outEdges[k], NatLe()))];
            Lists(now, pairs) && SimpleLists(now[..k + 1])
  {
    NormalizedList(outEdges[k]);
    var now := outEdges[k := Dedup(Sort(outEdges[k], NatLe()))];
    assert now[..k] == outEdges[..k] && now[..k + 1] == now[..k] + [now[k]];
  }

  lemma EdgesSurvive<N(!new)>(edges: seq<(N, N)>, g: Graph<N>, pairs: seq<(nat, nat)>)
    requires |g.outEdges| == |g.nodeIds| && Distinct(g.nodeIds) && SimpleLists(g.outEdges)
    requires Interned(edges, g.nodeIds, pairs) && Lists(g.outEdges, pairs)
    ensures WellFormed(g) && EdgeSet(g) == set e | e in edges
  {
    forall i: nat, j | i < |g.outEdges| && j in g.outEdges[i]
      ensures j < |g.outEdges|
    {
      assert (i, j) in pairs;
    }
    forall e
      ensures e in EdgeSet(g) <==> e in edges
    {
      if e in EdgeSet(g) {
        var i: nat, j: nat :| i < |g.outEdges| && j in g.outEdges[i] && e == (g.nodeIds[i], g.nodeIds[j]);
        assert (i, j) in pairs;
        var k :| 0 <= k < |pairs| && pairs[k] == (i, j);
        assert edges[k] == e;
      }
      if e in edges {
        var k :| 0 <= k < |edges| && edges[k] == e;
        assert pairs[k] in pairs && pairs[k].1 in g.outEdges[pairs[k].0];
      }
    }
  }

  lemma {:induction false} FirstAppearancesContents<N(!new)>(s: seq<N>)
    ensures Distinct(FirstAppearances(s))
    ensures forall x :: x in FirstAppearances(s) <==> x in s
  {
    if s != [] {
      FirstAppearancesContents(s[..|s| - 1]);
      assert s == s[..|s| - 1] + [s[|s| - 1]];
    }
  }

  lemma {:induction false} EndpointsContents<N(!new)>(edges: seq<(N, N)>)
    ensures forall x :: x in Endpoints(edges) <==> exists e :: e in edges && (x == e.0 || x == e.1)
  {
    if edges != [] {
      var last := edges[|edges| - 1];
      EndpointsContents(edges[..|edges| - 1]);
      assert edges == edges[..|edges| - 1] + [last];
    }
  }

  lemma EndpointsGrow<N>(edges: seq<(N, N)>, k: nat)
    requires k < |edges|
    ensures var seen := FirstAppearances(Endpoints(edges[..k]));
            var first := if edges[k].0 in seen then seen else seen + [edges[k].0];
            FirstAppearances(Endpoints(edges[..k + 1])) == if edges[k].1 in first then first else first + [edges[k].1]
  {
    var now := edges[..k + 1];
    assert now[..|now| - 1] == edges[..k];
    var met := Endpoints(edges[..k]);
    var ends := Endpoints(now);
    assert ends == met + [edges[k].0, edges[k].1];
    var middle := ends[..|ends| - 1];
    assert middle == met + [edges[k].0];
    assert middle[..|middle| - 1] == met;
  }

  /** Every edge as a pair of identities, source by source. */
  function Edges<N>(g: Graph<N>): seq<(N, N)>
    requires |g.outEdges| == |g.nodeIds| && Adjacency(g.outEdges)
  {
    EdgesUpTo(g, |g.outEdges|)
  }

  function EdgesUpTo<N>(g: Graph<N>, n: nat): seq<(N, N)>
    requires |g.outEdges| == |g.nodeIds| && Adjacency(g.outEdges) && n <= |g.outEdges|
  {
    if n == 0 then []
    else
      var targets := g.outEdges[n - 1];
      EdgesUpTo(g, n - 1)
      + seq(|targets|, k requires 0 <= k < |targets| =>
              assert targets[k] in g.outEdges[n - 1]; (g.nodeIds[n - 1], g.nodeIds[targets[k]]))
  }

  lemma {:induction false} EdgesUpToContents<N(!new)>(g: Graph<N>, n: nat)
    requires WellFormed(g) && n <= |g.outEdges|
    ensures forall e :: e in EdgesUpTo(g, n)
              <==> exists i: nat, j: nat :: i < n && j in g.outEdges[i] && e == (g.nodeIds[i], g.nodeIds[j])
  {
    if n > 0 {
      EdgesUpToContents(g, n - 1);
      var targets := g.outEdges[n - 1];
      var own := seq(|targets|, k requires 0 <= k < |targets| =>
                           assert targets[k] in g.outEdges[n - 1]; (g.nodeIds[n - 1], g.nodeIds[targets[k]]));
      assert EdgesUpTo(g, n) == EdgesUpTo(g, n - 1) + own;
      forall e
        ensures e in own <==> exists j: nat :: j in targets && e == (g.nodeIds[n - 1], g.nodeIds[j])
      {
        if e in own {
          var k :| 0 <= k < |own| && own[k] == e;
          assert targets[k] in targets;
        }
        if exists j: nat :: j in targets && e == (g.nodeIds[n - 1], g.nodeIds[j]) {
          var j: nat :| j in targets && e == (g.nodeIds[n - 1], g.nodeIds[j]);
          var k :| 0 <= k < |targets| && targets[k] == j;
          assert own[k] == e;
        }
      }
    }
  }

  lemma EdgesAreTheEdgeSet<N(!new)>(g: Graph<N>)
    requires WellFormed(g)
    ensures forall e :: e in Edges(g) <==> e in EdgeSet(g)
  {
    EdgesUpToContents(g, |g.outEdges|);
  }

  function Position<N(==)>(nodes: seq<N>, node: N): (r: Option<nat>)
    ensures r.Some? ==> r.value < |nodes| && nodes[r.value] == node
    ensures r.None? <==> node !in nodes
  {
    if nodes == [] then None
    else if nodes[0] == node then Some(0)
    else
      match Position(nodes[1..], node)
      case Some(i) => Some(i + 1)
      case None => None
  }

  /** Whether the graph holds the edge; the binary search of an ascending list is a membership test. */
  predicate ContainsEdge<N(==)>(g: Graph<N>, from: N, to: N)
    requires |g.outEdges| == |g.nodeIds|
  {
    match (Position(g.nodeIds, from), Position(g.nodeIds, to))
    case (Some(i), Some(j)) => j in g.outEdges[i]
    case _ => false
  }

  lemma ContainsEdgeIsExact<N(!new)>(g: Graph<N>, from: N, to: N)
    requires WellFormed(g)
    ensures ContainsEdge(g, from, to) <==> (from, to) in EdgeSet(g)
  {
    if (from, to) in EdgeSet(g) {
      var i: nat, j: nat :| i < |g.outEdges| && j in g.outEdges[i] && (from, to) == (g.nodeIds[i], g.nodeIds[j]);
      assert from in g.nodeIds && to in g.nodeIds;
      assert Position(g.nodeIds, from).value == i && Position(g.nodeIds, to).value == j;
    }
  }
}
