/**
 Strongly connected components by Tarjan's algorithm with an explicit work stack, and the cycles a
 dependency report reads from them.
 */
module Scc {
  import opened Graphs
  import opened Ordering
  import opened TarjanInvariant
  import opened Walks

  class Tarjan<N(==, !new)> {
    const nodes: seq<N>
    const adjacency: seq<seq<nat>>
    var discovery: seq<nat>
    var lowlink: seq<nat>
    var onStack: seq<bool>
    var componentStack: seq<nat>
    var nextIndex: nat
    var components: seq<seq<N>>
    /** The components as node indices, in the order they were closed. */
    ghost var groups: seq<seq<nat>>

    ghost function Fields(): View
      reads this
    {
      View(discovery, lowlink, onStack, componentStack, nextIndex, groups)
    }

    /** Every field has one slot per node, and the components name the nodes of the groups. */
    ghost predicate Valid()
      reads this
    {
      && |nodes| == |adjacency|
      && Shaped(adjacency, Fields())
      && InRange(groups, |nodes|)
      && components == NamedGroups(nodes, groups)
    }

    /** No visit is under way. */
    ghost predicate AtRest()
      reads this
    {
      Valid() && Invariant(adjacency, Fields(), [])
    }

    constructor (graph: Graph<N>)
      requires WellFormed(graph) && |graph.nodeIds| < UNVISITED
      ensures AtRest()
      ensures nodes == graph.nodeIds && components == []
      ensures Matches(nodes, EdgeSet(graph), adjacency)
    {
      var lists := IndexedEdges(graph);
      nodes := graph.nodeIds;
      adjacency := lists;
      discovery := seq(|graph.nodeIds|, _ => UNVISITED);
      lowlink := seq(|graph.nodeIds|, _ => 0);
      onStack := seq(|graph.nodeIds|, _ => false);
      componentStack := [];
      nextIndex := 0;
      components := [];
      groups := [];
      new;
      NothingSeenYet(adjacency, Fields());
    }

    /** Gives `node` the next discovery index and pushes it on the component stack. */
    method Enter(node: nat)
      requires Valid() && node < |adjacency|
      modifies this
      ensures Valid() && Fields() == Entered(old(Fields()), node)
    {
      discovery := discovery[node := nextIndex];
      lowlink := lowlink[node := nextIndex];
      nextIndex := nextIndex + 1;
      componentStack := componentStack + [node];
      onStack := onStack[node := true];
    }

    /** Lowers the lowlink of `node` to the bound, if it is not below it. */
    method Lower(node: nat, bound: nat)
      requires Valid() && node < |adjacency|
      modifies `lowlink
      ensures Valid() && Fields() == Lowered(old(Fields()), node, bound)
    {
      lowlink := lowlink[node := Min(lowlink[node], bound)];
    }

    /** Pops the component stack down to and including `root`, naming the nodes it pops. */
    method PopDownTo(root: nat) returns (component: seq<N>, ghost popped: seq<nat>)
      requires root in componentStack && Distinct(componentStack) && |onStack| == |nodes|
      requires forall k | 0 <= k < |componentStack| :: componentStack[k] < |nodes|
      modifies `componentStack, `onStack
      ensures var at := Position(old(componentStack), root).value;
              && componentStack == old(componentStack)[..at]
              && popped == Reversed(old(componentStack)[at..])
              && FlagsCleared(old(onStack), onStack, old(componentStack)[at..])
      ensures forall k | 0 <= k < |popped| :: popped[k] < |nodes|
      ensures component == Names(nodes, popped)
    {
      ghost var stack := componentStack;
      ghost var at := Position(stack, root).value;
      popped := [];
      component := [];
      while true
        invariant at < |componentStack|
        invariant PoppedSoFar(stack, componentStack, old(onStack), onStack, popped)
        invariant forall k | 0 <= k < |popped| :: popped[k] < |nodes|
        invariant component == Names(nodes, popped)
        decreases |componentStack|
      {
        var last := |componentStack| - 1;
        var node := componentStack[last];
        PopOne(stack, componentStack, old(onStack), onStack, popped);
        NamesAppend(nodes, popped, node);
        componentStack := componentStack[..last];
        onStack := onStack[node := false];
        component := component + [nodes[node]];
        popped := popped + [node];
        if node == root {
          assert last == at;
          break;
        }
      }
    }

    /** Everything on the component stack from `root` upwards is one component. */
    method CloseComponent(root: nat)
      requires Valid() && root in componentStack && Distinct(componentStack)
      requires forall k | 0 <= k < |componentStack| :: componentStack[k] < |nodes|
      modifies `componentStack, `onStack, `components, `groups
      ensures Valid() && Fields() == Popped(old(Fields()), root)
    {
      ghost var popped;
      ghost var before := Fields();
      var component;
      component, popped := PopDownTo(root);
      NamedGroupsAppend(nodes, groups, popped);
      components := components + [component];
      groups := groups + [popped];
      PoppedIs(before, Fields(), root);
    }

    /** A visit is under way, suspended in the given frames. */
    ghost predicate Visiting(callStack: seq<Frame>)
      reads this
    {
      Valid() && Invariant(adjacency, Fields(), callStack)
    }

    /** One iteration on a frame with children left: looks at the next one, and enters it if it is new. */
    method LookAtChild(callStack: seq<Frame>) returns (callStack': seq<Frame>)
      requires Visiting(callStack) && callStack != []
      requires var top := callStack[|callStack| - 1];
               top.node < |adjacency| && top.nextChild < |adjacency[top.node]|
      modifies this
      ensures Visiting(callStack')
      ensures forall x: nat | Seen(old(Fields()), x) :: Seen(Fields(), x)
      ensures Unvisited(discovery) < Unvisited(old(discovery))
              || (discovery == old(discovery) && callStack' == Advanced(callStack))
    {
      var last := |callStack| - 1;
      var Frame(node, nextChild) := callStack[last];
      ghost var before := Fields();
      callStack' := callStack[last := Frame(node, nextChild + 1)];
      assert callStack' == Advanced(callStack);
      var child := adjacency[node][nextChild];
      assert child in adjacency[node];
      assert child < |adjacency|;
      if discovery[child] == UNVISITED {
        Enter(child);
        callStack' := callStack' + [Frame(child, 0)];
        EnterKeeps(adjacency, before, Fields(), callStack, callStack', child);
      } else {
        if onStack[child] {
          Lower(node, discovery[child]);
        }
        AdvanceKeeps(adjacency, before, Fields(), callStack, callStack', child);
      }
    }

    /** One iteration on a frame whose children were all looked at: closes its component, or joins its parent's. */
    method Leave(callStack: seq<Frame>) returns (callStack': seq<Frame>)
      requires Visiting(callStack) && callStack != []
      requires var top := callStack[|callStack| - 1];
               top.node < |adjacency| && top.nextChild == |adjacency[top.node]|
      modifies this
      ensures Visiting(callStack') && callStack' == callStack[..|callStack| - 1]
      ensures discovery == old(discovery)
    {
      var last := |callStack| - 1;
      var node := callStack[last].node;
      ghost var before := Fields();
      if lowlink[node] == discovery[node] {
        StackDistinct(adjacency, before, 0);
        CloseComponent(node);
        CloseKeeps(adjacency, before, Fields(), callStack, callStack[..last]);
      } else {
        FinishedReachesParent(adjacency, before, callStack);
      }
      ghost var closed := Fields();
      callStack' := callStack[..last];
      if callStack' != [] {
        var parent := callStack'[last - 1].node;
        Lower(parent, lowlink[node]);
        assert Fields() == Lowered(closed, parent, before.lowlink[node]);
      }
      if before.lowlink[node] != before.discovery[node] {
        LeaveKeeps(adjacency, before, Fields(), callStack, callStack');
      }
    }

    /** Visits everything reachable from `start` that was not seen before. */
    method Walk(start: nat)
      requires AtRest() && start < |adjacency| && !Seen(Fields(), start)
      modifies this
      ensures AtRest() && Seen(Fields(), start)
      ensures forall x: nat | Seen(old(Fields()), x) :: Seen(Fields(), x)
    {
      ghost var before := Fields();
      Enter(start);
      StartKeeps(adjacency, before, Fields(), start);
      var callStack := [Frame(start, 0)];
      while callStack != []
        invariant Visiting(callStack)
        invariant Seen(Fields(), start)
        invariant forall x: nat | Seen(old(Fields()), x) :: Seen(Fields(), x)
        decreases Unvisited(discovery), |callStack|,
                  if callStack == [] then 0
                  else |adjacency[callStack[|callStack| - 1].node]| - callStack[|callStack| - 1].nextChild
      {
        var top := callStack[|callStack| - 1];
        if top.nextChild < |adjacency[top.node]| {
          callStack := LookAtChild(callStack);
        } else {
          callStack := Leave(callStack);
        }
      }
    }

    /** Visits every node; what was closed on the way are the components. */
    method Run(le: (N, N) -> bool) returns (sorted: seq<seq<N>>)
      requires AtRest() && Distinct(nodes) && TotalOrder(le)
      modifies this
      ensures AtRest()
      ensures Complete(adjacency, Fields())
      ensures sorted == Sort(SortEach(NamedGroups(nodes, Fields().groups), le), LexLe(le))
    {
      for start := 0 to |nodes|
        invariant AtRest()
        invariant SeenUpTo(Fields(), start)
      {
        if discovery[start] == UNVISITED {
          Walk(start);
        }
        assert SeenUpTo(Fields(), start + 1);
      }
      CompleteAtRest(adjacency, Fields());
      assert components == NamedGroups(nodes, Fields().groups);
      sorted := Sort(SortEach(components, le), LexLe(le));
    }
  }

  /** Where each node stands. */
  function IndexMap<N(!new)>(ids: seq<N>): (indexOf: map<N, nat>)
    requires Distinct(ids)
    ensures forall x :: x in indexOf <==> x in ids
    ensures forall x | x in indexOf :: indexOf[x] < |ids| && ids[indexOf[x]] == x
  {
    map i: nat | i < |ids| :: ids[i] := i
  }

  /** The edges, by where their ends stand. */
  function PairsOf<N>(edges: seq<(N, N)>, indexOf: map<N, nat>): (pairs: seq<(nat, nat)>)
    requires forall k | 0 <= k < |edges| :: edges[k].0 in indexOf && edges[k].1 in indexOf
    ensures |pairs| == |edges|
    ensures forall k | 0 <= k < |edges| :: pairs[k] == (indexOf[edges[k].0], indexOf[edges[k].1])
  {
    seq(|edges|, k requires 0 <= k < |edges| => (indexOf[edges[k].0], indexOf[edges[k].1]))
  }

  /** The adjacency lists of the graph over the indices of its nodes, rebuilt from its edges. */
  method IndexedEdges<N(==, !new)>(graph: Graph<N>) returns (lists: seq<seq<nat>>)
    requires WellFormed(graph)
    ensures Matches(graph.nodeIds, EdgeSet(graph), lists) && Adjacency(lists)
  {
    var ids := graph.nodeIds;
    var indexOf := IndexMap(ids);
    var edges := Edges(graph);
    EdgesAreTheEdgeSet(graph);
    EdgesJoinNodes(graph);
    assert forall k | 0 <= k < |edges| :: edges[k] in edges && edges[k].0 in ids && edges[k].1 in ids;
    var pairs := PairsOf(edges, indexOf);
    lists := Adjacencies(|ids|, pairs);
    ListsMatchEdges(graph, edges, pairs, lists);
  }

  /** Popping one more node: it comes off the stack, loses its flag, and joins the popped ones. */
  /** The flags of the nodes cut off are down, all others as before. */
  ghost predicate FlagsCleared(before: seq<bool>, now: seq<bool>, cut: seq<nat>) {
    |now| == |before| && forall x | 0 <= x < |now| :: now[x] == (before[x] && x !in cut)
  }

  /** What was on the stack and is not in the rest of it has been popped, from the top down. */
  ghost predicate PoppedSoFar(stack: seq<nat>, rest: seq<nat>, before: seq<bool>, now: seq<bool>, popped: seq<nat>) {
    && rest <= stack && popped == Reversed(stack[|rest|..])
    && FlagsCleared(before, now, stack[|rest|..])
  }

  lemma PopOne(stack: seq<nat>, rest: seq<nat>, before: seq<bool>, now: seq<bool>, popped: seq<nat>)
    requires PoppedSoFar(stack, rest, before, now, popped) && rest != [] && rest[|rest| - 1] < |now|
    ensures var node := rest[|rest| - 1];
            PoppedSoFar(stack, rest[..|rest| - 1], before, now[node := false], popped + [node])
  {
    var last := |rest| - 1;
    assert stack[last..] == [stack[last]] + stack[last + 1..];
  }

  lemma NamesAppend<N>(nodes: seq<N>, group: seq<nat>, x: nat)
    requires x < |nodes| && forall k | 0 <= k < |group| :: group[k] < |nodes|
    ensures Names(nodes, group + [x]) == Names(nodes, group) + [nodes[x]]
  {
    assert (group + [x])[..|group|] == group;
  }

  lemma PoppedIs(v: View, now: View, root: nat)
    requires root in v.stack && now == v.(onStack := now.onStack, stack := now.stack, groups := now.groups)
    requires var at := Position(v.stack, root).value;
             && FlagsCleared(v.onStack, now.onStack, v.stack[at..])
             && now.stack == v.stack[..at] && now.groups == v.groups + [Reversed(v.stack[at..])]
    ensures now == Popped(v, root)
  {
    assert now.onStack == Popped(v, root).onStack;
  }

  lemma NothingSeenYet(adj: seq<seq<nat>>, v: View)
    requires Adjacency(adj) && Shaped(adj, v) && |adj| < UNVISITED
    requires forall x: nat :: !Seen(v, x) && !Stacked(v, x)
    requires v.stack == [] && v.nextIndex == 0 && v.groups == []
    ensures Invariant(adj, v, [])
  {
    assert SeenSet(v) == {};
  }

  function Min(x: nat, y: nat): nat {
    if y < x then y else x
  }

  ghost predicate InRange(groups: seq<seq<nat>>, n: nat) {
    forall g, k | 0 <= g < |groups| && 0 <= k < |groups[g]| :: groups[g][k] < n
  }

  function Names<N>(nodes: seq<N>, group: seq<nat>): (names: seq<N>)
    requires forall k | 0 <= k < |group| :: group[k] < |nodes|
    ensures |names| == |group| && forall k | 0 <= k < |group| :: names[k] == nodes[group[k]]
  {
    if group == [] then [] else Names(nodes, group[..|group| - 1]) + [nodes[group[|group| - 1]]]
  }

  function NamedGroups<N>(nodes: seq<N>, groups: seq<seq<nat>>): (named: seq<seq<N>>)
    requires InRange(groups, |nodes|)
    ensures |named| == |groups| && forall g | 0 <= g < |groups| :: named[g] == Names(nodes, groups[g])
  {
    if groups == [] then []
    else NamedGroups(nodes, groups[..|groups| - 1]) + [Names(nodes, groups[|groups| - 1])]
  }

  lemma NamedGroupsAppend<N>(nodes: seq<N>, groups: seq<seq<nat>>, group: seq<nat>)
    requires InRange(groups, |nodes|) && forall k | 0 <= k < |group| :: group[k] < |nodes|
    ensures InRange(groups + [group], |nodes|)
    ensures NamedGroups(nodes, groups + [group]) == NamedGroups(nodes, groups) + [Names(nodes, group)]
  {
    assert (groups + [group])[..|groups|] == groups;
  }

  function SortEach<N>(components: seq<seq<N>>, le: (N, N) -> bool): (sorted: seq<seq<N>>)
    ensures |sorted| == |components| && forall g | 0 <= g < |sorted| :: sorted[g] == Sort(components[g], le)
  {
    if components == [] then []
    else SortEach(components[..|components| - 1], le) + [Sort(components[|components| - 1], le)]
  }

  lemma EdgesJoinNodes<N(!new)>(g: Graph<N>)
    requires WellFormed(g)
    ensures forall e | e in EdgeSet(g) :: e.0 in g.nodeIds && e.1 in g.nodeIds
  {
    forall e | e in EdgeSet(g)
      ensures e.0 in g.nodeIds && e.1 in g.nodeIds
    {
      var i: nat, j: nat :| i < |g.outEdges| && j in g.outEdges[i] && e == (g.nodeIds[i], g.nodeIds[j]);
      assert j < |g.nodeIds|;
    }
  }

  lemma ListsMatchEdges<N(!new)>(g: Graph<N>, edges: seq<(N, N)>, pairs: seq<(nat, nat)>, lists: seq<seq<nat>>)
    requires WellFormed(g) && Interned(edges, g.nodeIds, pairs)
    requires |lists| == |g.nodeIds| && Lists(lists, pairs)
    requires forall e :: e in edges <==> e in EdgeSet(g)
    ensures Matches(g.nodeIds, EdgeSet(g), lists)
  {
    var ids := g.nodeIds;
    forall i: nat, j: nat | i < |ids|
      ensures j in lists[i] <==> Joined(ids, EdgeSet(g), i, j)
    {
      if j in lists[i] {
        var k :| 0 <= k < |pairs| && pairs[k] == (i, j);
        assert edges[k] == (ids[i], ids[j]);
      }
      if j < |ids| && (ids[i], ids[j]) in EdgeSet(g) {
        var k :| 0 <= k < |edges| && edges[k] == (ids[i], ids[j]);
        assert pairs[k] in pairs && pairs[k] == (i, j);
      }
    }
  }

  /** The adjacency lists are the edges between the numbered nodes. */
  ghost predicate Matches<N(!new)>(nodes: seq<N>, es: set<(N, N)>, adj: seq<seq<nat>>) {
    && |adj| == |nodes|
    && forall i: nat, j: nat | i < |nodes| :: j in adj[i] <==> Joined(nodes, es, i, j)
  }

  ghost predicate Joined<N(!new)>(nodes: seq<N>, es: set<(N, N)>, i: nat, j: nat) {
    i < |nodes| && j < |nodes| && (nodes[i], nodes[j]) in es
  }

  /** `nodes` numbers the endpoints of `es`, and `adj` is the same relation between the numbers. */
  ghost predicate Numbering<N(!new)>(nodes: seq<N>, es: set<(N, N)>, adj: seq<seq<nat>>) {
    && Distinct(nodes)
    && Matches(nodes, es, adj)
    && forall e | e in es :: e.0 in nodes && e.1 in nodes
  }

  /** The traversal is over: every node lies in exactly one group, and each group is a component. */
  ghost predicate Complete(adj: seq<seq<nat>>, v: View) {
    && (forall x: nat | x < |adj| :: InSomeGroup(v, x))
    && (forall g | 0 <= g < |v.groups| :: IsComponent(adj, v, v.groups[g]))
    && (forall g, h | 0 <= g < h < |v.groups| :: Disjoint(v.groups[g], v.groups[h]))
  }

  ghost predicate SeenUpTo(v: View, n: nat) {
    forall x: nat | x < n :: Seen(v, x)
  }

  ghost predicate InSomeGroup(v: View, x: nat) {
    exists g :: 0 <= g < |v.groups| && x in v.groups[g]
  }

  lemma CompleteAtRest(adj: seq<seq<nat>>, v: View)
    requires Invariant(adj, v, []) && SeenUpTo(v, |adj|)
    ensures Complete(adj, v)
  {
    assert v.stack == [];
    forall x: nat | x < |adj|
      ensures InSomeGroup(v, x)
    {
      assert Closed(v, x);
    }
  }

  // ----- from node indices to node identities

  lemma WalkInRange(adj: seq<seq<nat>>, p: seq<nat>)
    requires Adjacency(adj) && Walk(IndexEdges(adj), p) && p[0] < |adj|
    ensures forall k | 0 <= k < |p| :: p[k] < |adj|
  {
    forall k | 0 <= k < |p|
      ensures p[k] < |adj|
    {
      if k > 0 {
        assert (p[k - 1], p[k - 1 + 1]) in IndexEdges(adj);
        assert p[k] in adj[p[k - 1]];
      }
    }
  }

  lemma {:induction false} WalkNamed<N(!new)>(nodes: seq<N>, es: set<(N, N)>, adj: seq<seq<nat>>, p: seq<nat>)
    requires Numbering(nodes, es, adj) && Walk(IndexEdges(adj), p)
    requires p[0] < |nodes|
    ensures forall k | 0 <= k < |p| :: p[k] < |nodes|
    ensures Walk(es, Names(nodes, p))
  {
    assert forall i, j | 0 <= i < |adj| && j in adj[i] :: Joined(nodes, es, i, j);
    WalkInRange(adj, p);
    var names := Names(nodes, p);
    forall k | 0 <= k < |names| - 1
      ensures (names[k], names[k + 1]) in es
    {
      assert (p[k], p[k + 1]) in IndexEdges(adj);
    }
  }

  function Indices<N(==)>(nodes: seq<N>, names: seq<N>): (p: seq<nat>)
    requires forall k | 0 <= k < |names| :: names[k] in nodes
    ensures |p| == |names| && forall k | 0 <= k < |p| :: p[k] < |nodes| && nodes[p[k]] == names[k]
  {
    if names == [] then []
    else
      assert names[|names| - 1] in nodes;
      Indices(nodes, names[..|names| - 1]) + [Position(nodes, names[|names| - 1]).value]
  }

  /** Reachability between indices is reachability between the nodes they number. */
  lemma ReachesNamed<N(!new)>(nodes: seq<N>, es: set<(N, N)>, adj: seq<seq<nat>>, i: nat, j: nat)
    requires Numbering(nodes, es, adj) && i < |nodes| && j < |nodes|
    ensures Reaches(IndexEdges(adj), i, j) <==> Reaches(es, nodes[i], nodes[j])
  {
    if Reaches(IndexEdges(adj), i, j) {
      var p :| WalkBetween(IndexEdges(adj), p, i, j);
      WalkNamed(nodes, es, adj, p);
      assert WalkBetween(es, Names(nodes, p), nodes[i], nodes[j]);
    }
    if Reaches(es, nodes[i], nodes[j]) {
      var q :| WalkBetween(es, q, nodes[i], nodes[j]);
      forall k | 0 <= k < |q|
        ensures q[k] in nodes
      {
        if k > 0 {
          assert (q[k - 1], q[k - 1 + 1]) in es;
        }
      }
      var p := Indices(nodes, q);
      forall k | 0 <= k < |p| - 1
        ensures (p[k], p[k + 1]) in IndexEdges(adj)
      {
        assert (q[k], q[k + 1]) in es;
        assert p[k + 1] in adj[p[k]];
      }
      assert WalkBetween(IndexEdges(adj), p, i, j);
    }
  }

  // ----- what the components are

  /** One component: all the nodes mutually reachable with any of its members, each listed once, in order. */
  ghost predicate IsComponentOf<N(!new)>(ns: set<N>, es: set<(N, N)>, component: seq<N>) {
    && component != [] && Distinct(component)
    && (forall x | x in component :: x in ns)
    && (forall x, y | x in component && y in ns :: y in component <==> Mutual(es, x, y))
  }

  /** The strongly connected components of a graph, each with its members sorted, themselves sorted. */
  ghost predicate ComponentsOf<N(!new)>(ns: set<N>, es: set<(N, N)>, components: seq<seq<N>>, le: (N, N) -> bool) {
    && (forall c | c in components :: IsComponentOf(ns, es, c) && Sorted(c, le))
    && (forall x | x in ns :: exists c :: c in components && x in c)
    && Distinct(components)
    && Sorted(components, LexLe(le))
  }

  /** Every node is in exactly one component, and shares it with exactly the nodes it is on a round trip with. */
  lemma ComponentsPartition<N(!new)>(ns: set<N>, es: set<(N, N)>, components: seq<seq<N>>, le: (N, N) -> bool,
                                     x: N, y: N)
    requires TotalOrder(le) && ComponentsOf(ns, es, components, le) && x in ns && y in ns
    ensures exists g :: 0 <= g < |components| && x in components[g]
    ensures forall g, h | 0 <= g < h < |components| :: !(x in components[g] && x in components[h])
    ensures (exists g :: 0 <= g < |components| && x in components[g] && y in components[g]) <==> Mutual(es, x, y)
  {
    var c :| c in components && x in c;
    var k :| 0 <= k < |components| && components[k] == c;
    assert x in components[k];
    forall g, h | 0 <= g < h < |components| && x in components[g] && x in components[h]
      ensures false
    {
      SameComponent(ns, es, components[g], components[h], le, x);
    }
    if Mutual(es, x, y) {
      assert IsComponentOf(ns, es, components[k]);
      assert y in components[k];
    }
    if exists g :: 0 <= g < |components| && x in components[g] && y in components[g] {
      var g :| 0 <= g < |components| && x in components[g] && y in components[g];
      assert IsComponentOf(ns, es, components[g]);
    }
  }

  lemma SameComponent<N(!new)>(ns: set<N>, es: set<(N, N)>, c: seq<N>, d: seq<N>, le: (N, N) -> bool, x: N)
    requires TotalOrder(le) && Sorted(c, le) && Sorted(d, le)
    requires IsComponentOf(ns, es, c) && IsComponentOf(ns, es, d) && x in c && x in d
    ensures c == d
  {
    forall y
      ensures y in c <==> y in d
    {
      if y in ns {
        assert y in c <==> Mutual(es, x, y);
        assert y in d <==> Mutual(es, x, y);
      }
    }
    SortedDistinctUnique(c, d, le);
  }

  /** The nodes and the edge relation alone determine the answer, down to its order. */
  lemma ComponentsDetermined<N(!new)>(ns: set<N>, es: set<(N, N)>, a: seq<seq<N>>, b: seq<seq<N>>, le: (N, N) -> bool)
    requires TotalOrder(le) && ComponentsOf(ns, es, a, le) && ComponentsOf(ns, es, b, le)
    ensures a == b
  {
    forall c
      ensures c in a <==> c in b
    {
      if c in a {
        ComponentAmong(ns, es, c, b, le);
      }
      if c in b {
        ComponentAmong(ns, es, c, a, le);
      }
    }
    LexIsTotalOrder(le);
    SortedDistinctUnique(a, b, LexLe(le));
  }

  lemma ComponentAmong<N(!new)>(ns: set<N>, es: set<(N, N)>, c: seq<N>, b: seq<seq<N>>, le: (N, N) -> bool)
    requires TotalOrder(le) && IsComponentOf(ns, es, c) && Sorted(c, le) && ComponentsOf(ns, es, b, le)
    ensures c in b
  {
    var x := c[0];
    assert x in ns;
    var d :| d in b && x in d;
    SameComponent(ns, es, c, d, le, x);
  }

  lemma NamesMember<N(!new)>(nodes: seq<N>, group: seq<nat>, i: nat)
    requires Distinct(nodes) && i < |nodes| && forall k | 0 <= k < |group| :: group[k] < |nodes|
    ensures nodes[i] in Names(nodes, group) <==> i in group
  {
    var names := Names(nodes, group);
    if nodes[i] in names {
      var k :| 0 <= k < |names| && names[k] == nodes[i];
      assert group[k] == i;
    }
    if i in group {
      var k :| 0 <= k < |group| && group[k] == i;
      assert names[k] == nodes[i];
    }
  }

  lemma NamesDistinct<N(!new)>(nodes: seq<N>, group: seq<nat>)
    requires Distinct(nodes) && (forall k | 0 <= k < |group| :: group[k] < |nodes|) && Distinct(group)
    ensures Distinct(Names(nodes, group))
  {
  }

  lemma NamesContents<N(!new)>(nodes: seq<N>, group: seq<nat>)
    requires Distinct(nodes) && forall k | 0 <= k < |group| :: group[k] < |nodes|
    ensures Distinct(group) ==> Distinct(Names(nodes, group))
    ensures forall i: nat | i < |nodes| :: nodes[i] in Names(nodes, group) <==> i in group
    ensures forall x | x in Names(nodes, group) :: x in nodes
  {
    if Distinct(group) {
      NamesDistinct(nodes, group);
    }
    forall i: nat | i < |nodes|
      ensures nodes[i] in Names(nodes, group) <==> i in group
    {
      NamesMember(nodes, group, i);
    }
  }

  lemma NamedComponent<N(!new)>(nodes: seq<N>, es: set<(N, N)>, adj: seq<seq<nat>>, v: View, group: seq<nat>)
    requires Numbering(nodes, es, adj) && IsComponent(adj, v, group)
    requires forall k | 0 <= k < |group| :: group[k] < |nodes|
    ensures IsComponentOf(Elements(nodes), es, Names(nodes, group))
  {
    NamesContents(nodes, group);
    forall x, y | x in Names(nodes, group) && y in nodes
      ensures y in Names(nodes, group) <==> Mutual(es, x, y)
    {
      NamedMutual(nodes, es, adj, v, group, x, y);
    }
  }

  lemma NamedMutual<N(!new)>(nodes: seq<N>, es: set<(N, N)>, adj: seq<seq<nat>>, v: View, group: seq<nat>, x: N, y: N)
    requires Numbering(nodes, es, adj) && IsComponent(adj, v, group)
    requires forall k | 0 <= k < |group| :: group[k] < |nodes|
    requires x in Names(nodes, group) && x in nodes && y in nodes
    ensures y in Names(nodes, group) <==> Mutual(es, x, y)
  {
    NamesContents(nodes, group);
    var i, j := Position(nodes, x).value, Position(nodes, y).value;
    MutualNamed(nodes, es, adj, i, j);
    assert nodes[i] in Names(nodes, group) && i in group;
    assert j in group <==> Mutual(IndexEdges(adj), i, j);
    assert nodes[j] in Names(nodes, group) <==> j in group;
  }

  lemma MutualNamed<N(!new)>(nodes: seq<N>, es: set<(N, N)>, adj: seq<seq<nat>>, i: nat, j: nat)
    requires Numbering(nodes, es, adj) && i < |nodes| && j < |nodes|
    ensures Mutual(IndexEdges(adj), i, j) <==> Mutual(es, nodes[i], nodes[j])
  {
    ReachesNamed(nodes, es, adj, i, j);
    ReachesNamed(nodes, es, adj, j, i);
  }

  lemma SortedComponent<N(!new)>(ns: set<N>, es: set<(N, N)>, c: seq<N>, le: (N, N) -> bool)
    requires TotalOrder(le) && IsComponentOf(ns, es, c)
    ensures IsComponentOf(ns, es, Sort(c, le)) && Sorted(Sort(c, le), le)
  {
    SortContents(c, le);
    SortSorted(c, le);
    PermutedDistinct(c, Sort(c, le));
  }

  /** The closed groups, named and sorted, are the components of the graph. */
  lemma ReportIsComponents<N(!new)>(nodes: seq<N>, es: set<(N, N)>, adj: seq<seq<nat>>, v: View, le: (N, N) -> bool)
    requires Numbering(nodes, es, adj) && TotalOrder(le)
    requires InRange(v.groups, |nodes|) && Complete(adj, v)
    ensures ComponentsOf(Elements(nodes), es, Sort(SortEach(NamedGroups(nodes, v.groups), le), LexLe(le)), le)
  {
    var ns := Elements(nodes);
    var each := SortEach(NamedGroups(nodes, v.groups), le);
    forall c | c in each
      ensures IsComponentOf(ns, es, c) && Sorted(c, le)
    {
      var g :| 0 <= g < |each| && each[g] == c;
      ReportedGroup(nodes, es, adj, v, le, g);
    }
    forall x | x in ns
      ensures exists c :: c in each && x in c
    {
      ReportCovers(nodes, es, adj, v, le, x);
    }
    forall g, h | 0 <= g < h < |each|
      ensures each[g] != each[h]
    {
      ReportDiffers(nodes, es, adj, v, le, g, h);
    }
    SortedReport(ns, es, each, le);
  }

  lemma ReportCovers<N(!new)>(nodes: seq<N>, es: set<(N, N)>, adj: seq<seq<nat>>, v: View, le: (N, N) -> bool, x: N)
    requires Numbering(nodes, es, adj) && TotalOrder(le)
    requires InRange(v.groups, |nodes|) && Complete(adj, v) && x in nodes
    ensures exists c :: c in SortEach(NamedGroups(nodes, v.groups), le) && x in c
  {
    var i := Position(nodes, x).value;
    assert InSomeGroup(v, i);
    var g :| 0 <= g < |v.groups| && i in v.groups[g];
    ReportedGroup(nodes, es, adj, v, le, g);
    assert nodes[i] in SortEach(NamedGroups(nodes, v.groups), le)[g];
  }

  lemma ReportDiffers<N(!new)>(nodes: seq<N>, es: set<(N, N)>, adj: seq<seq<nat>>, v: View, le: (N, N) -> bool,
                               g: nat, h: nat)
    requires Numbering(nodes, es, adj) && TotalOrder(le)
    requires InRange(v.groups, |nodes|) && Complete(adj, v) && g < h < |v.groups|
    ensures SortEach(NamedGroups(nodes, v.groups), le)[g] != SortEach(NamedGroups(nodes, v.groups), le)[h]
  {
    ReportedGroup(nodes, es, adj, v, le, g);
    ReportedGroup(nodes, es, adj, v, le, h);
    var i := v.groups[g][0];
    assert Disjoint(v.groups[g], v.groups[h]);
    var each := SortEach(NamedGroups(nodes, v.groups), le);
    assert nodes[i] in each[g] && nodes[i] !in each[h];
  }

  lemma ReportedGroup<N(!new)>(nodes: seq<N>, es: set<(N, N)>, adj: seq<seq<nat>>, v: View, le: (N, N) -> bool, g: nat)
    requires Numbering(nodes, es, adj) && TotalOrder(le)
    requires InRange(v.groups, |nodes|) && g < |v.groups| && IsComponent(adj, v, v.groups[g])
    ensures var c := SortEach(NamedGroups(nodes, v.groups), le)[g];
            IsComponentOf(Elements(nodes), es, c) && Sorted(c, le)
              && forall i: nat | i < |nodes| :: nodes[i] in c <==> i in v.groups[g]
  {
    var named := Names(nodes, v.groups[g]);
    NamedComponent(nodes, es, adj, v, v.groups[g]);
    NamesContents(nodes, v.groups[g]);
    SortedComponent(Elements(nodes), es, named, le);
    SortContents(named, le);
  }

  lemma SortedReport<N(!new)>(ns: set<N>, es: set<(N, N)>, each: seq<seq<N>>, le: (N, N) -> bool)
    requires TotalOrder(le) && Distinct(each)
    requires forall c | c in each :: IsComponentOf(ns, es, c) && Sorted(c, le)
    requires forall x | x in ns :: exists c :: c in each && x in c
    ensures ComponentsOf(ns, es, Sort(each, LexLe(le)), le)
  {
    LexIsTotalOrder(le);
    SortContents(each, LexLe(le));
    SortSorted(each, LexLe(le));
    PermutedDistinct(each, Sort(each, LexLe(le)));
    forall x | x in ns
      ensures exists c :: c in Sort(each, LexLe(le)) && x in c
    {
      var c :| c in each && x in c;
      assert c in Sort(each, LexLe(le));
    }
  }

  /** The strongly connected components of a graph. */
  method StronglyConnectedComponents<N(==, !new)>(graph: Graph<N>, le: (N, N) -> bool) returns (components: seq<seq<N>>)
    requires WellFormed(graph) && |graph.nodeIds| < UNVISITED && TotalOrder(le)
    ensures ComponentsOf(NodeSet(graph), EdgeSet(graph), components, le)
  {
    var tarjan := new Tarjan(graph);
    EdgesJoinNodes(graph);
    components := tarjan.Run(le);
    ReportIsComponents(graph.nodeIds, EdgeSet(graph), tarjan.adjacency, tarjan.Fields(), le);
  }

  // ----- cycles

  /** The components a dependency report lists as cycles. */
  function CyclesAmong<N(==)>(graph: Graph<N>, components: seq<seq<N>>): seq<seq<N>>
    requires |graph.outEdges| == |graph.nodeIds|
  {
    if components == [] then []
    else
      var c := components[|components| - 1];
      CyclesAmong(graph, components[..|components| - 1])
      + (if |c| != 1 || ContainsEdge(graph, c[0], c[0]) then [c] else [])
  }

  /** The cycles of a graph: its components of two or more nodes, and the nodes linked to themselves. */
  method Cycles<N(==, !new)>(graph: Graph<N>, le: (N, N) -> bool) returns (cycles: seq<seq<N>>)
    requires WellFormed(graph) && |graph.nodeIds| < UNVISITED && TotalOrder(le)
    ensures CyclesOf(NodeSet(graph), EdgeSet(graph), cycles, le)
  {
    var components := StronglyConnectedComponents(graph, le);
    cycles := CyclesAmong(graph, components);
    CyclesAmongExact(graph, components, le);
  }

  /** Exactly the components that carry a cycle, in order. */
  ghost predicate CyclesOf<N(!new)>(ns: set<N>, es: set<(N, N)>, cycles: seq<seq<N>>, le: (N, N) -> bool) {
    && (forall c | c in cycles :: IsComponentOf(ns, es, c) && Sorted(c, le))
    && (forall x | x in ns :: (exists c :: c in cycles && x in c) <==> OnCycle(es, x))
    && Distinct(cycles)
    && Sorted(cycles, LexLe(le))
  }

  /** A component carries a cycle through each of its members, or through none. */
  lemma ComponentCarriesCycle<N(!new)>(ns: set<N>, es: set<(N, N)>, c: seq<N>, x: N)
    requires IsComponentOf(ns, es, c) && x in c
    requires forall e | e in es :: e.0 in ns && e.1 in ns
    ensures OnCycle(es, x) <==> |c| != 1 || (c[0], c[0]) in es
  {
    OnCycleFirstEdge(es, x);
    if OnCycle(es, x) {
      var b :| (x, b) in es && Reaches(es, b, x);
      ReachesEdge(es, x, b);
      assert b in ns && b in c;
    }
    if |c| != 1 {
      var y :| y in c && y != x by {
        if c[0] == x {
          assert c[1] in c && c[1] != c[0];
        } else {
          assert c[0] in c;
        }
      }
      assert Mutual(es, x, y);
      var p :| WalkBetween(es, p, x, y);
      var q :| WalkBetween(es, q, y, x);
      ConcatWalks(es, p, q, x, y, x);
      assert |p| >= 2 && |q| >= 2;
      assert WalkBetween(es, p + q[1..], x, x) && |p + q[1..]| >= 2;
    } else if (c[0], c[0]) in es {
      ReachesSelf(es, x);
    }
  }

  lemma {:induction false} CyclesAmongContents<N(!new)>(graph: Graph<N>, components: seq<seq<N>>)
    requires |graph.outEdges| == |graph.nodeIds|
    ensures forall c :: c in CyclesAmong(graph, components)
              <==> c in components && (|c| != 1 || ContainsEdge(graph, c[0], c[0]))
  {
    if components != [] {
      var rest := components[..|components| - 1];
      CyclesAmongContents(graph, rest);
      assert components == rest + [components[|components| - 1]];
    }
  }

  lemma {:induction false} CyclesAmongKept<N(!new)>(graph: Graph<N>, components: seq<seq<N>>, le: (seq<N>, seq<N>) -> bool)
    requires |graph.outEdges| == |graph.nodeIds|
    ensures Distinct(components) ==> Distinct(CyclesAmong(graph, components))
    ensures Sorted(components, le) ==> Sorted(CyclesAmong(graph, components), le)
  {
    if components != [] {
      var rest := components[..|components| - 1];
      var last := components[|components| - 1];
      CyclesAmongKept(graph, rest, le);
      CyclesAmongContents(graph, rest);
      forall c | c in CyclesAmong(graph, rest)
        ensures Distinct(components) ==> c != last
        ensures Sorted(components, le) ==> le(c, last)
      {
        var k :| 0 <= k < |rest| && rest[k] == c;
        assert components[k] == c && components[|components| - 1] == last;
      }
    }
  }

  lemma CyclesAmongExact<N(!new)>(graph: Graph<N>, components: seq<seq<N>>, le: (N, N) -> bool)
    requires WellFormed(graph) && TotalOrder(le)
    requires ComponentsOf(NodeSet(graph), EdgeSet(graph), components, le)
    ensures CyclesOf(NodeSet(graph), EdgeSet(graph), CyclesAmong(graph, components), le)
  {
    var ns, es := NodeSet(graph), EdgeSet(graph);
    var cycles := CyclesAmong(graph, components);
    CyclesAmongContents(graph, components);
    CyclesAmongKept(graph, components, LexLe(le));
    EdgesJoinNodes(graph);
    forall c, x | c in components && x in c
      ensures OnCycle(es, x) <==> c in cycles
    {
      ComponentCarriesCycle(ns, es, c, x);
      ContainsEdgeIsExact(graph, c[0], c[0]);
    }
    forall x | x in ns
      ensures (exists c :: c in cycles && x in c) <==> OnCycle(es, x)
    {
      var c :| c in components && x in c;
    }
  }

  /** The reported cycles, too, depend on the nodes and the edge relation alone. */
  lemma CyclesDetermined<N(!new)>(ns: set<N>, es: set<(N, N)>, a: seq<seq<N>>, b: seq<seq<N>>, le: (N, N) -> bool)
    requires TotalOrder(le) && CyclesOf(ns, es, a, le) && CyclesOf(ns, es, b, le)
    ensures a == b
  {
    forall c
      ensures c in a <==> c in b
    {
      if c in a {
        CycleAmong(ns, es, c, a, b, le);
      }
      if c in b {
        CycleAmong(ns, es, c, b, a, le);
      }
    }
    LexIsTotalOrder(le);
    SortedDistinctUnique(a, b, LexLe(le));
  }

  lemma CycleAmong<N(!new)>(ns: set<N>, es: set<(N, N)>, c: seq<N>, a: seq<seq<N>>, b: seq<seq<N>>, le: (N, N) -> bool)
    requires TotalOrder(le) && CyclesOf(ns, es, a, le) && CyclesOf(ns, es, b, le) && c in a
    ensures c in b
  {
    var x := c[0];
    assert x in ns && OnCycle(es, x);
    var d :| d in b && x in d;
    SameComponent(ns, es, c, d, le, x);
  }
}
