/**
 The transitive subtypes of a Java type, matched by simple name: a breadth-first walk over names,
 bounded in depth, that lists each declaration once and notes the parent it was reached through.
 */
module Implementors {
  import opened Options
  import opened Ordering

  const DEPTH_CAP: nat := 8

  datatype TypeNode = TypeNode(fqn: string, simpleName: string, path: string, line: nat, supertypes: seq<string>)

  datatype Implementor = Implementor(fqn: string, path: string, line: nat, via: Option<string>)

  type Location = (string, nat)

  function LocationOf(node: TypeNode): Location {
    (node.path, node.line)
  }

  // ----- what a subtype is

  /** Each node of the chain names the one before it among its supertypes, the first one the target. */
  ghost predicate Chain(target: string, nodes: seq<TypeNode>, c: seq<nat>) {
    && |c| > 0 && (forall k | 0 <= k < |c| :: c[k] < |nodes|)
    && target in nodes[c[0]].supertypes
    && forall k | 0 <= k < |c| - 1 :: nodes[c[k]].simpleName in nodes[c[k + 1]].supertypes
  }

  ghost predicate ChainTo(target: string, nodes: seq<TypeNode>, c: seq<nat>, i: nat, length: nat) {
    Chain(target, nodes, c) && c[|c| - 1] == i && |c| == length
  }

  /** Some chain of at most `length` steps leads to the node. */
  ghost predicate Subtype(target: string, nodes: seq<TypeNode>, i: nat, length: nat) {
    exists c, n: nat :: ChainTo(target, nodes, c, i, n) && n <= length
  }

  /** The shortest chain to the node has `length` steps. */
  ghost predicate Shortest(target: string, nodes: seq<TypeNode>, i: nat, length: nat) {
    length > 0 && Subtype(target, nodes, i, length) && !Subtype(target, nodes, i, length - 1)
  }

  // ----- the same by levels of names

  ghost predicate Hit(nodes: seq<TypeNode>, i: nat, names: set<string>) {
    i < |nodes| && exists s :: s in nodes[i].supertypes && s in names
  }

  /** The names at most `k` steps below the target. */
  ghost function Within(target: string, nodes: seq<TypeNode>, k: nat): set<string> {
    if k == 0 then {target}
    else
      var above := Within(target, nodes, k - 1);
      above + set i: nat | i < |nodes| && Hit(nodes, i, above) :: nodes[i].simpleName
  }

  lemma {:induction false} WithinGrows(target: string, nodes: seq<TypeNode>, j: nat, k: nat)
    requires j <= k
    ensures Within(target, nodes, j) <= Within(target, nodes, k)
  {
    if j < k {
      WithinGrows(target, nodes, j, k - 1);
    }
  }

  lemma ChainExtends(target: string, nodes: seq<TypeNode>, c: seq<nat>, j: nat, n: nat, i: nat)
    requires ChainTo(target, nodes, c, j, n) && i < |nodes| && nodes[j].simpleName in nodes[i].supertypes
    ensures ChainTo(target, nodes, c + [i], i, n + 1)
  {
  }

  lemma {:induction false} HitIsSubtype(target: string, nodes: seq<TypeNode>, i: nat, k: nat)
    requires Hit(nodes, i, Within(target, nodes, k))
    ensures Subtype(target, nodes, i, k + 1)
    decreases k
  {
    var s :| s in nodes[i].supertypes && s in Within(target, nodes, k);
    if s == target {
      assert ChainTo(target, nodes, [i], i, 1);
    } else if s in Within(target, nodes, k - 1) {
      HitIsSubtype(target, nodes, i, k - 1);
      var c, n: nat :| ChainTo(target, nodes, c, i, n) && n <= k;
      assert ChainTo(target, nodes, c, i, n);
    } else {
      var j: nat :| j < |nodes| && Hit(nodes, j, Within(target, nodes, k - 1)) && nodes[j].simpleName == s;
      HitIsSubtype(target, nodes, j, k - 1);
      var c, n: nat :| ChainTo(target, nodes, c, j, n) && n <= k;
      ChainExtends(target, nodes, c, j, n, i);
    }
  }

  lemma {:induction false} ChainHits(target: string, nodes: seq<TypeNode>, c: seq<nat>, k: nat)
    requires Chain(target, nodes, c) && |c| <= k + 1
    ensures Hit(nodes, c[|c| - 1], Within(target, nodes, k))
    decreases |c|
  {
    if |c| == 1 {
      WithinGrows(target, nodes, 0, k);
      assert target in Within(target, nodes, 0);
    } else {
      var before := c[..|c| - 1];
      ChainHits(target, nodes, before, k - 1);
      var j := before[|before| - 1];
      assert nodes[c[|c| - 2]].simpleName in nodes[c[|c| - 2 + 1]].supertypes;
      assert nodes[j].simpleName in Within(target, nodes, k);
    }
  }

  /** Levels of names and chains of nodes are the same thing. */
  lemma HitIffSubtype(target: string, nodes: seq<TypeNode>, i: nat, k: nat)
    ensures Hit(nodes, i, Within(target, nodes, k)) <==> Subtype(target, nodes, i, k + 1)
  {
    if Hit(nodes, i, Within(target, nodes, k)) {
      HitIsSubtype(target, nodes, i, k);
    }
    if Subtype(target, nodes, i, k + 1) {
      var c, n: nat :| ChainTo(target, nodes, c, i, n) && n <= k + 1;
      ChainHits(target, nodes, c, k);
    }
  }

  lemma NoSubtypeInNoSteps(target: string, nodes: seq<TypeNode>, i: nat)
    ensures !Subtype(target, nodes, i, 0)
  {
  }

  ghost predicate AtLevel(target: string, nodes: seq<TypeNode>, i: nat, d: nat) {
    && d > 0 && Hit(nodes, i, Within(target, nodes, d - 1))
    && (d > 1 ==> !Hit(nodes, i, Within(target, nodes, d - 2)))
  }

  lemma LevelIsShortest(target: string, nodes: seq<TypeNode>, i: nat, d: nat)
    ensures AtLevel(target, nodes, i, d) <==> Shortest(target, nodes, i, d)
  {
    if d > 0 {
      HitIffSubtype(target, nodes, i, d - 1);
      if d > 1 {
        HitIffSubtype(target, nodes, i, d - 2);
      } else {
        NoSubtypeInNoSteps(target, nodes, i);
      }
    }
  }

  // ----- the order of the children of one name

  predicate LocationLe(a: TypeNode, b: TypeNode) {
    if a.path == b.path then a.line <= b.line else LexPrecedes(a.path, b.path, CharLe())
  }

  /** Indices by the location of their nodes. */
  function ByLocation(nodes: seq<TypeNode>): ((nat, nat) -> bool) {
    (i: nat, j: nat) => j >= |nodes| || (i < |nodes| && LocationLe(nodes[i], nodes[j]))
  }

  lemma LocationLeIsPreorder(a: TypeNode, b: TypeNode, c: TypeNode)
    ensures LocationLe(a, b) || LocationLe(b, a)
    ensures LocationLe(a, b) && LocationLe(b, c) ==> LocationLe(a, c)
  {
    LexTotal(a.path, b.path, CharLe());
    LexTotal(b.path, c.path, CharLe());
    LexTotal(a.path, c.path, CharLe());
    if LexPrecedes(a.path, b.path, CharLe()) && LexPrecedes(b.path, c.path, CharLe()) {
      LexTrans(a.path, b.path, c.path, CharLe());
    }
  }

  lemma ByLocationIsPreorder(nodes: seq<TypeNode>)
    ensures TotalPreorder(ByLocation(nodes))
  {
    var le := ByLocation(nodes);
    forall i: nat, j: nat
      ensures le(i, j) || le(j, i)
    {
      if i < |nodes| && j < |nodes| {
        LocationLeIsPreorder(nodes[i], nodes[j], nodes[j]);
      }
    }
    forall i: nat, j: nat, k: nat | le(i, j) && le(j, k)
      ensures le(i, k)
    {
      if k < |nodes| {
        LocationLeIsPreorder(nodes[i], nodes[j], nodes[k]);
      }
    }
  }

  // ----- the walk

  function Get(children: map<string, seq<nat>>, name: string): seq<nat> {
    if name in children then children[name] else []
  }

  predicate Lists(children: map<string, seq<nat>>, name: string, i: nat) {
    i in Get(children, name)
  }

  /** Every name lists the nodes among the first `n` that name it as a supertype. */
  ghost predicate ChildrenUpTo(nodes: seq<TypeNode>, children: map<string, seq<nat>>, n: nat)
    requires n <= |nodes|
  {
    forall s, i: nat :: Lists(children, s, i) <==> i < n && s in nodes[i].supertypes
  }

  lemma ListOneMore(children: map<string, seq<nat>>, name: string, index: nat)
    ensures var more := children[name := Get(children, name) + [index]];
            forall s, i: nat :: Lists(more, s, i) <==> Lists(children, s, i) || (s == name && i == index)
  {
  }

  /** Every name with the nodes that name it as a supertype. */
  method BuildChildren(nodes: seq<TypeNode>) returns (children: map<string, seq<nat>>)
    ensures ChildrenUpTo(nodes, children, |nodes|)
  {
    children := map[];
    assert forall s, i: nat :: !Lists(children, s, i);
    for index := 0 to |nodes|
      invariant ChildrenUpTo(nodes, children, index)
    {
      var supertypes := nodes[index].supertypes;
      for k := 0 to |supertypes|
        invariant forall s, i: nat ::
                    Lists(children, s, i)
                    <==> (i < index && s in nodes[i].supertypes) || (i == index && s in supertypes[..k])
      {
        var s := supertypes[k];
        assert supertypes[..k + 1] == supertypes[..k] + [s];
        ListOneMore(children, s, index);
        children := children[s := Get(children, s) + [index]];
      }
      assert supertypes[..|supertypes|] == supertypes;
    }
  }

  function Row(target: string, node: TypeNode, parent: string): Implementor {
    Implementor(node.fqn, node.path, node.line, if parent != target then Some(parent) else None)
  }

  /** What was listed so far: which node each row shows, at which level, reached through which name. */
  datatype Listing = Listing(indices: seq<nat>, levels: seq<nat>, parents: seq<string>)

  ghost predicate RowsShow(target: string, nodes: seq<TypeNode>, rows: seq<Implementor>, l: Listing) {
    && |rows| == |l.indices| == |l.levels| == |l.parents|
    && Distinct(l.indices)
    && (forall k | 0 <= k < |rows| :: l.indices[k] < |nodes| && rows[k] == Row(target, nodes[l.indices[k]], l.parents[k]))
  }

  /** The levels are the shortest distances, in order, and each parent is one step nearer. */
  ghost predicate LevelsShow(target: string, nodes: seq<TypeNode>, l: Listing) {
    && |l.indices| == |l.levels| == |l.parents|
    && (forall k | 0 <= k < |l.indices| ::
          && AtLevel(target, nodes, l.indices[k], l.levels[k])
          && l.levels[k] <= DEPTH_CAP
          && l.indices[k] < |nodes|
          && l.parents[k] in nodes[l.indices[k]].supertypes
          && l.parents[k] in Within(target, nodes, l.levels[k] - 1))
    && (forall k, m | 0 <= k < m < |l.indices| :: l.levels[k] <= l.levels[m])
  }

  /** Siblings, the rows reached through one name, are in order of location. */
  ghost predicate SiblingsInOrder(nodes: seq<TypeNode>, l: Listing) {
    && |l.indices| == |l.parents|
    && forall k, m | 0 <= k < m < |l.indices| && l.parents[k] == l.parents[m] ::
         ByLocation(nodes)(l.indices[k], l.indices[m])
  }

  /** The subtypes within the depth cap are declared on different lines. */
  ghost predicate SubtypesApart(target: string, nodes: seq<TypeNode>) {
    forall i: nat, j: nat | i < j && j < |nodes|
                            && Hit(nodes, i, Within(target, nodes, DEPTH_CAP - 1))
                            && Hit(nodes, j, Within(target, nodes, DEPTH_CAP - 1)) ::
      LocationOf(nodes[i]) != LocationOf(nodes[j])
  }

  // ----- what the walk keeps true

  type Queue = seq<(string, nat)>

  /** The queue holds names of one level, then names of the next, each within its level. */
  ghost predicate Queued(target: string, nodes: seq<TypeNode>, depth: nat, queue: Queue) {
    && depth <= DEPTH_CAP
    && (forall k | 0 <= k < |queue| ::
          depth <= queue[k].1 <= depth + 1 && queue[k].1 <= DEPTH_CAP && queue[k].0 in Within(target, nodes, queue[k].1))
    && (forall k, m | 0 <= k < m < |queue| :: queue[k].1 <= queue[m].1)
  }

  ghost predicate Waiting(queue: Queue, name: string) {
    exists q :: q in queue && q.0 == name
  }

  /** The expanded names: everything above the current level, and nothing below it or the cap. */
  ghost predicate ExpandedTo(target: string, nodes: seq<TypeNode>, depth: nat, expanded: set<string>) {
    && expanded <= Within(target, nodes, depth)
    && expanded <= Within(target, nodes, DEPTH_CAP - 1)
    && (depth > 0 ==> Within(target, nodes, depth - 1) <= expanded)
  }

  /** Above the cap, no name is forgotten: it is expanded or still waits. */
  ghost predicate NothingForgotten(target: string, nodes: seq<TypeNode>, depth: nat, queue: Queue,
                                   expanded: set<string>,
                                   l: Listing)
  {
    depth < DEPTH_CAP ==>
      && (forall n | n in Within(target, nodes, depth) :: n in expanded || (n, depth) in queue)
      && (forall i | i in l.indices :: i < |nodes| && (nodes[i].simpleName in expanded || Waiting(queue, nodes[i].simpleName)))
  }

  /** The rows are exactly the nodes with an expanded name among their supertypes. */
  ghost predicate ListsHits(nodes: seq<TypeNode>, expanded: set<string>, l: Listing) {
    forall i: nat :: i in l.indices <==> Hit(nodes, i, expanded)
  }

  ghost predicate Listed(target: string, nodes: seq<TypeNode>, depth: nat, expanded: set<string>, l: Listing) {
    && LevelsShow(target, nodes, l)
    && SiblingsInOrder(nodes, l)
    && Distinct(l.indices)
    && (forall k | 0 <= k < |l.parents| :: l.parents[k] in expanded)
    && (forall k | 0 <= k < |l.levels| :: l.levels[k] <= depth + 1)
  }

  ghost predicate Bfs(target: string, nodes: seq<TypeNode>, depth: nat, queue: Queue, expanded: set<string>,
                      l: Listing) {
    && Queued(target, nodes, depth, queue)
    && ExpandedTo(target, nodes, depth, expanded)
    && NothingForgotten(target, nodes, depth, queue, expanded, l)
    && ListsHits(nodes, expanded, l)
    && Listed(target, nodes, depth, expanded, l)
  }

  lemma BeginKeeps(target: string, nodes: seq<TypeNode>)
    ensures Bfs(target, nodes, 0, [(target, 0)], {}, Listing([], [], []))
  {
    var queue: Queue := [(target, 0)];
    assert (target, 0) in queue;
    WithinGrows(target, nodes, 0, DEPTH_CAP - 1);
  }

  /** What the next level brings was listed when its supertypes were expanded, and waits in the queue if not expanded. */
  lemma NextLevelWaits(target: string, nodes: seq<TypeNode>, depth: nat, queue: Queue, expanded: set<string>,
                       l: Listing, n: string)
    requires NothingForgotten(target, nodes, depth, queue, expanded, l) && ListsHits(nodes, expanded, l)
    requires Within(target, nodes, depth) <= expanded && depth < DEPTH_CAP
    requires forall q | q in queue :: q.1 == depth + 1
    requires n in Within(target, nodes, depth + 1)
    ensures n in expanded || (n, depth + 1) in queue
  {
    if n !in Within(target, nodes, depth) {
      var i: nat :| i < |nodes| && Hit(nodes, i, Within(target, nodes, depth)) && nodes[i].simpleName == n;
      HitGrows(nodes, i, Within(target, nodes, depth), expanded);
      assert i in l.indices;
      if n !in expanded {
        var q :| q in queue && q.0 == n;
        assert q == (n, depth + 1);
      }
    }
  }

  lemma LevelIsExpanded(target: string, nodes: seq<TypeNode>, depth: nat, queue: Queue, expanded: set<string>,
                        l: Listing)
    requires Queued(target, nodes, depth, queue) && NothingForgotten(target, nodes, depth, queue, expanded, l)
    requires queue != [] && queue[0].1 == depth + 1
    ensures forall q | q in queue :: q.1 == depth + 1
    ensures depth < DEPTH_CAP && Within(target, nodes, depth) <= expanded
  {
    assert forall k | 0 <= k < |queue| :: queue[k].1 == depth + 1;
  }

  /** When the queue has moved on to the next level, everything on the level before is expanded. */
  lemma NextLevel(target: string, nodes: seq<TypeNode>, depth: nat, queue: Queue, expanded: set<string>, l: Listing)
    requires Bfs(target, nodes, depth, queue, expanded, l)
    requires queue != [] && queue[0].1 == depth + 1
    ensures Bfs(target, nodes, depth + 1, queue, expanded, l)
  {
    LevelIsExpanded(target, nodes, depth, queue, expanded, l);
    WithinGrows(target, nodes, depth, depth + 1);
    forall n | n in Within(target, nodes, depth + 1)
      ensures n in expanded || (n, depth + 1) in queue
    {
      NextLevelWaits(target, nodes, depth, queue, expanded, l, n);
    }
  }

  /** A name that is at the cap, or was expanded before, is dropped from the queue without loss. */
  lemma RestQueued(target: string, nodes: seq<TypeNode>, depth: nat, queue: Queue)
    requires Queued(target, nodes, depth, queue) && queue != []
    ensures Queued(target, nodes, depth, queue[1..])
  {
    assert forall k | 0 <= k < |queue| - 1 :: queue[1..][k] == queue[k + 1];
  }

  lemma DropKeeps(target: string, nodes: seq<TypeNode>, depth: nat, queue: Queue, expanded: set<string>, l: Listing)
    requires Bfs(target, nodes, depth, queue, expanded, l)
    requires queue != [] && queue[0].1 == depth
    requires depth >= DEPTH_CAP || queue[0].0 in expanded
    ensures Bfs(target, nodes, depth, queue[1..], expanded, l)
  {
    assert queue == [queue[0]] + queue[1..];
    RestQueued(target, nodes, depth, queue);
    forall name | Waiting(queue, name) && name != queue[0].0
      ensures Waiting(queue[1..], name)
    {
      var q :| q in queue && q.0 == name;
      assert q in queue[1..];
    }
  }

  // ----- expanding one name

  /** The rows are the nodes that were listed before, and the children looked at. */
  ghost predicate IndexedUpTo(nodes: seq<TypeNode>, expanded: set<string>, list: seq<nat>, m: nat, l: Listing)
    requires m <= |list|
  {
    Distinct(l.indices) && forall i: nat :: i in l.indices <==> Hit(nodes, i, expanded) || i in list[..m]
  }

  /** The children looked at come after everything listed before, one level below `parent`. */
  ghost predicate TailUpTo(depth: nat, expanded: set<string>, parent: string, list: seq<nat>, m: nat, base: nat,
                           l: Listing)
    requires m <= |list|
  {
    && |l.indices| == |l.levels| == |l.parents|
    && base <= |l.indices|
    && (forall k | 0 <= k < base :: l.parents[k] in expanded)
    && (forall k | 0 <= k < |l.levels| :: l.levels[k] <= depth + 1)
    && (forall k | base <= k < |l.indices| ::
          l.parents[k] == parent && l.levels[k] == depth + 1 && l.indices[k] in list[..m])
  }

  /** Part way through the children of `parent`. */
  ghost predicate Expanding(target: string, nodes: seq<TypeNode>, depth: nat, expanded: set<string>, parent: string,
                            list: seq<nat>, m: nat, base: nat, l: Listing)
    requires m <= |list|
  {
    && LevelsShow(target, nodes, l)
    && SiblingsInOrder(nodes, l)
    && IndexedUpTo(nodes, expanded, list, m, l)
    && TailUpTo(depth, expanded, parent, list, m, base, l)
  }

  function Appended(l: Listing, i: nat, level: nat, parent: string): Listing {
    Listing(l.indices + [i], l.levels + [level], l.parents + [parent])
  }

  /** The children of a name on the current level, in order of location. */
  ghost predicate ChildrenOf(nodes: seq<TypeNode>, parent: string, list: seq<nat>) {
    && Sorted(list, ByLocation(nodes))
    && (forall i: nat :: i in list <==> i < |nodes| && parent in nodes[i].supertypes)
  }

  lemma NewChildLevel(target: string, nodes: seq<TypeNode>, depth: nat, expanded: set<string>, parent: string, i: nat)
    requires ExpandedTo(target, nodes, depth, expanded) && depth < DEPTH_CAP
    requires parent in Within(target, nodes, depth)
    requires i < |nodes| && parent in nodes[i].supertypes && !Hit(nodes, i, expanded)
    ensures AtLevel(target, nodes, i, depth + 1)
  {
    assert Hit(nodes, i, Within(target, nodes, depth));
    if depth > 0 {
      HitGrows(nodes, i, Within(target, nodes, depth - 1), expanded);
    }
  }

  lemma HitGrows(nodes: seq<TypeNode>, i: nat, few: set<string>, many: set<string>)
    requires few <= many
    ensures Hit(nodes, i, few) ==> Hit(nodes, i, many)
  {
  }

  /** A child that is listed already is passed over. */
  lemma PassOverKeeps(target: string, nodes: seq<TypeNode>, depth: nat, expanded: set<string>, parent: string,
                      list: seq<nat>, m: nat, base: nat, l: Listing)
    requires m < |list| && Expanding(target, nodes, depth, expanded, parent, list, m, base, l)
    requires list[m] in l.indices
    ensures Expanding(target, nodes, depth, expanded, parent, list, m + 1, base, l)
  {
    assert list[..m + 1] == list[..m] + [list[m]];
  }

  /** A new child is listed after the others. */
  lemma EmitKeeps(target: string, nodes: seq<TypeNode>, depth: nat, expanded: set<string>, parent: string,
                  list: seq<nat>,
                  m: nat, base: nat, l: Listing)
    requires m < |list| && Expanding(target, nodes, depth, expanded, parent, list, m, base, l)
    requires ExpandedTo(target, nodes, depth, expanded) && depth < DEPTH_CAP && parent !in expanded
    requires parent in Within(target, nodes, depth) && ChildrenOf(nodes, parent, list)
    requires list[m] !in l.indices
    ensures Expanding(target, nodes, depth, expanded, parent, list, m + 1, base, Appended(l, list[m], depth + 1, parent))
  {
    var i := list[m];
    assert i in list;
    NewChildLevel(target, nodes, depth, expanded, parent, i);
    AppendLevels(target, nodes, l, i, depth + 1, parent);
    AppendSibling(nodes, expanded, parent, list, m, base, l, depth);
    AppendIndex(nodes, expanded, list, m, l, Appended(l, i, depth + 1, parent));
    AppendTail(depth, expanded, parent, list, m, base, l, Appended(l, i, depth + 1, parent));
  }

  lemma AppendIndex(nodes: seq<TypeNode>, expanded: set<string>, list: seq<nat>, m: nat, l: Listing, now: Listing)
    requires m < |list| && list[m] !in l.indices && now.indices == l.indices + [list[m]]
    requires IndexedUpTo(nodes, expanded, list, m, l)
    ensures IndexedUpTo(nodes, expanded, list, m + 1, now)
  {
    assert list[..m + 1] == list[..m] + [list[m]];
  }

  lemma AppendTail(depth: nat, expanded: set<string>, parent: string, list: seq<nat>, m: nat, base: nat, l: Listing,
                   now: Listing)
    requires m < |list| && TailUpTo(depth, expanded, parent, list, m, base, l)
    requires now == Appended(l, list[m], depth + 1, parent)
    ensures TailUpTo(depth, expanded, parent, list, m + 1, base, now)
  {
    assert list[..m + 1] == list[..m] + [list[m]];
  }

  lemma AppendLevels(target: string, nodes: seq<TypeNode>, l: Listing, i: nat, level: nat, parent: string)
    requires LevelsShow(target, nodes, l) && AtLevel(target, nodes, i, level) && level <= DEPTH_CAP && i < |nodes|
    requires parent in nodes[i].supertypes && parent in Within(target, nodes, level - 1)
    requires forall k | 0 <= k < |l.levels| :: l.levels[k] <= level
    ensures LevelsShow(target, nodes, Appended(l, i, level, parent))
  {
    var now := Appended(l, i, level, parent);
    var last := |l.indices|;
    assert forall k | 0 <= k < last ::
        now.indices[k] == l.indices[k] && now.levels[k] == l.levels[k] && now.parents[k] == l.parents[k];
    assert now.indices[last] == i && now.levels[last] == level && now.parents[last] == parent;
    AppendedLevelsAscend(l, i, level, parent);
  }

  lemma AppendedLevelsAscend(l: Listing, i: nat, level: nat, parent: string)
    requires |l.indices| == |l.levels| == |l.parents| && forall k, m | 0 <= k < m < |l.levels| :: l.levels[k] <= l.levels[m]
    requires forall k | 0 <= k < |l.levels| :: l.levels[k] <= level
    ensures var now := Appended(l, i, level, parent);
            forall k, m | 0 <= k < m < |now.levels| :: now.levels[k] <= now.levels[m]
  {
  }

  lemma AppendSibling(nodes: seq<TypeNode>, expanded: set<string>, parent: string, list: seq<nat>, m: nat, base: nat,
                      l: Listing, depth: nat)
    requires SiblingsInOrder(nodes, l) && m < |list| && Sorted(list, ByLocation(nodes))
    requires TailUpTo(depth, expanded, parent, list, m, base, l) && parent !in expanded
    ensures SiblingsInOrder(nodes, Appended(l, list[m], depth + 1, parent))
  {
    forall k | 0 <= k < |l.indices| && l.parents[k] == parent
      ensures ByLocation(nodes)(l.indices[k], list[m])
    {
      assert l.indices[k] in list[..m];
      var p :| 0 <= p < m && list[p] == l.indices[k];
    }
  }

  /** The names of the rows from `base` on, which go to the back of the queue one level further down. */
  ghost function NewNames(nodes: seq<TypeNode>, l: Listing, base: nat, level: nat): Queue
    requires base <= |l.indices| && forall k | 0 <= k < |l.indices| :: l.indices[k] < |nodes|
    decreases |l.indices|
  {
    seq(|l.indices| - base, k requires 0 <= k < |l.indices| - base => (nodes[l.indices[base + k]].simpleName, level))
  }

  lemma ExpandKeeps(target: string, nodes: seq<TypeNode>, depth: nat, queue: Queue, expanded: set<string>,
                    before: Listing,
                    list: seq<nat>, l: Listing, after: Queue)
    requires Bfs(target, nodes, depth, queue, expanded, before)
    requires queue != [] && queue[0].1 == depth < DEPTH_CAP && queue[0].0 !in expanded
    requires ChildrenOf(nodes, queue[0].0, list)
    requires Expanding(target, nodes, depth, expanded, queue[0].0, list, |list|, |before.indices|, l)
    requires |before.indices| <= |l.indices| && l.indices[..|before.indices|] == before.indices
    requires after == queue[1..] + NewNames(nodes, l, |before.indices|, depth + 1)
    ensures Bfs(target, nodes, depth, after, expanded + {queue[0].0}, l)
  {
    var parent := queue[0].0;
    assert list[..|list|] == list;
    forall i: nat
      ensures i in l.indices <==> Hit(nodes, i, expanded + {parent})
    {
    }
    WithinGrows(target, nodes, depth, DEPTH_CAP - 1);
    ExpandQueued(target, nodes, depth, queue, before, l, after);
    ExpandForgetsNothing(target, nodes, depth, queue, expanded, before, l, after);
  }

  lemma ExpandQueued(target: string, nodes: seq<TypeNode>, depth: nat, queue: Queue, before: Listing, l: Listing,
                     after: Queue)
    requires Queued(target, nodes, depth, queue) && queue != [] && depth < DEPTH_CAP
    requires LevelsShow(target, nodes, l) && |before.indices| <= |l.indices|
    requires forall k | |before.indices| <= k < |l.indices| :: l.levels[k] == depth + 1
    requires after == queue[1..] + NewNames(nodes, l, |before.indices|, depth + 1)
    ensures Queued(target, nodes, depth, after)
  {
    forall k | 0 <= k < |after|
      ensures depth <= after[k].1 <= depth + 1 && after[k].0 in Within(target, nodes, after[k].1)
    {
      if k >= |queue| - 1 {
        var j := |before.indices| + (k - (|queue| - 1));
        NewNameIsWithin(target, nodes, l, j);
        assert after[k].0 == nodes[l.indices[j]].simpleName;
      } else {
        assert after[k] == queue[k + 1];
      }
    }
  }

  lemma NewNameIsWithin(target: string, nodes: seq<TypeNode>, l: Listing, j: nat)
    requires LevelsShow(target, nodes, l) && j < |l.indices|
    ensures l.indices[j] < |nodes| && nodes[l.indices[j]].simpleName in Within(target, nodes, l.levels[j])
  {
    assert AtLevel(target, nodes, l.indices[j], l.levels[j]);
  }

  lemma ExpandForgetsNothing(target: string, nodes: seq<TypeNode>, depth: nat, queue: Queue, expanded: set<string>,
                             before: Listing, l: Listing, after: Queue)
    requires NothingForgotten(target, nodes, depth, queue, expanded, before) && queue != [] && depth < DEPTH_CAP
    requires |before.indices| <= |l.indices| && l.indices[..|before.indices|] == before.indices
    requires forall k | 0 <= k < |l.indices| :: l.indices[k] < |nodes|
    requires after == queue[1..] + NewNames(nodes, l, |before.indices|, depth + 1)
    ensures NothingForgotten(target, nodes, depth, after, expanded + {queue[0].0}, l)
  {
    assert queue == [queue[0]] + queue[1..];
    forall i | i in l.indices
      ensures nodes[i].simpleName in expanded + {queue[0].0} || Waiting(after, nodes[i].simpleName)
    {
      var name := nodes[i].simpleName;
      var k :| 0 <= k < |l.indices| && l.indices[k] == i;
      if k < |before.indices| {
        assert i in before.indices by {
          assert before.indices[k] == i;
        }
        if name !in expanded + {queue[0].0} {
          var q :| q in queue && q.0 == name;
          assert q in after;
        }
      } else {
        assert after[|queue| - 1 + (k - |before.indices|)] == (name, depth + 1);
        assert (name, depth + 1) in after;
      }
    }
  }

  /** When the queue runs dry, everything within the cap was expanded. */
  lemma DryQueueMeansDone(target: string, nodes: seq<TypeNode>, depth: nat, expanded: set<string>, l: Listing)
    requires Bfs(target, nodes, depth, [], expanded, l)
    ensures forall i: nat :: i in l.indices <==> Hit(nodes, i, Within(target, nodes, DEPTH_CAP - 1))
  {
    if depth < DEPTH_CAP {
      ClosedUnderNames(target, nodes, depth, expanded, l, DEPTH_CAP - 1);
    }
    assert Within(target, nodes, DEPTH_CAP - 1) == expanded;
  }

  lemma {:induction false} ClosedUnderNames(target: string, nodes: seq<TypeNode>, depth: nat, expanded: set<string>,
                                           l: Listing, k: nat)
    requires depth < DEPTH_CAP && NothingForgotten(target, nodes, depth, [], expanded, l) && ListsHits(nodes, expanded, l)
    ensures Within(target, nodes, k) <= expanded
  {
    if k <= depth {
      WithinGrows(target, nodes, k, depth);
    } else {
      ClosedUnderNames(target, nodes, depth, expanded, l, k - 1);
      forall i: nat | i < |nodes| && Hit(nodes, i, Within(target, nodes, k - 1))
        ensures nodes[i].simpleName in expanded
      {
        assert Hit(nodes, i, expanded);
        assert i in l.indices;
      }
    }
  }

  // ----- the walk itself

  ghost predicate RowsApart(rows: seq<Implementor>) {
    forall k, m | 0 <= k < m < |rows| :: (rows[k].path, rows[k].line) != (rows[m].path, rows[m].line)
  }

  /** The locations of the rows, as the walk remembers them. */
  ghost predicate Remembers(rows: seq<Implementor>, emitted: set<Location>) {
    && (forall k | 0 <= k < |rows| :: (rows[k].path, rows[k].line) in emitted)
    && (forall x | x in emitted :: exists k :: 0 <= k < |rows| && (rows[k].path, rows[k].line) == x)
  }

  ghost function Locations(nodes: seq<TypeNode>): set<Location> {
    set i | 0 <= i < |nodes| :: LocationOf(nodes[i])
  }

  /** When the subtypes are apart, a location stands for the one subtype declared there. */
  lemma LocationTellsNode(target: string, nodes: seq<TypeNode>, rows: seq<Implementor>, emitted: set<Location>,
                          l: Listing,
                          i: nat)
    requires SubtypesApart(target, nodes) && RowsShow(target, nodes, rows, l) && Remembers(rows, emitted)
    requires forall k | 0 <= k < |l.indices| :: Hit(nodes, l.indices[k], Within(target, nodes, DEPTH_CAP - 1))
    requires i < |nodes| && Hit(nodes, i, Within(target, nodes, DEPTH_CAP - 1))
    ensures LocationOf(nodes[i]) in emitted <==> i in l.indices
  {
    if i in l.indices {
      var k :| 0 <= k < |l.indices| && l.indices[k] == i;
      assert (rows[k].path, rows[k].line) in emitted;
    }
    if LocationOf(nodes[i]) in emitted {
      var k :| 0 <= k < |rows| && (rows[k].path, rows[k].line) == LocationOf(nodes[i]);
      assert l.indices[k] == i;
    }
  }

  lemma RowsGrow(rows: seq<Implementor>, emitted: set<Location>, row: Implementor)
    requires RowsApart(rows) && Remembers(rows, emitted) && (row.path, row.line) !in emitted
    ensures RowsApart(rows + [row]) && Remembers(rows + [row], emitted + {(row.path, row.line)})
  {
    var more := rows + [row];
    forall x | x in emitted + {(row.path, row.line)}
      ensures exists k :: 0 <= k < |more| && (more[k].path, more[k].line) == x
    {
      if x in emitted {
        var k :| 0 <= k < |rows| && (rows[k].path, rows[k].line) == x;
        assert (more[k].path, more[k].line) == x;
      } else {
        assert (more[|rows|].path, more[|rows|].line) == x;
      }
    }
  }

  /** The children of one name, in the order they are listed. */
  method SortedChildren(nodes: seq<TypeNode>, children: map<string, seq<nat>>, parent: string) returns (list: seq<nat>)
    requires ChildrenUpTo(nodes, children, |nodes|)
    ensures ChildrenOf(nodes, parent, list)
  {
    list := Sort(Get(children, parent), ByLocation(nodes));
    ByLocationIsPreorder(nodes);
    SortSorted(Get(children, parent), ByLocation(nodes));
    SortContents(Get(children, parent), ByLocation(nodes));
    assert forall i: nat :: i in list <==> Lists(children, parent, i);
  }

  /** Where the listing of one name's children stands, when the subtypes are apart. */
  ghost predicate Underway(target: string, nodes: seq<TypeNode>, depth: nat, expanded: set<string>, parent: string,
                           list: seq<nat>, m: nat, before: Listing, waiting: Queue,
                           rows: seq<Implementor>, l: Listing, queue: Queue)
    requires m <= |list|
  {
    && RowsShow(target, nodes, rows, l)
    && Expanding(target, nodes, depth, expanded, parent, list, m, |before.indices|, l)
    && before.indices <= l.indices
    && queue == waiting + NewNames(nodes, l, |before.indices|, depth + 1)
  }

  /** One child: passed over when its location is known, listed when it is not. */
  lemma UnderwayKeeps(target: string, nodes: seq<TypeNode>, depth: nat, expanded: set<string>, parent: string,
                      list: seq<nat>, m: nat, before: Listing, waiting: Queue,
                      rows: seq<Implementor>, l: Listing, queue: Queue, emitted: set<Location>)
    requires m < |list| && list[m] < |nodes|
    requires Underway(target, nodes, depth, expanded, parent, list, m, before, waiting, rows, l, queue)
    requires SubtypesApart(target, nodes) && Remembers(rows, emitted) && ChildrenOf(nodes, parent, list)
    requires ExpandedTo(target, nodes, depth, expanded) && depth < DEPTH_CAP && parent !in expanded
    requires parent in Within(target, nodes, depth)
    ensures var node := nodes[list[m]];
            if LocationOf(node) in emitted
            then Underway(target, nodes, depth, expanded, parent, list, m + 1, before, waiting, rows, l, queue)
            else Underway(target, nodes, depth, expanded, parent, list, m + 1, before, waiting,
                          rows + [Row(target, node, parent)],
                          Appended(l, list[m], depth + 1, parent), queue + [(node.simpleName, depth + 1)])
  {
    var index := list[m];
    assert index in list;
    WithinGrows(target, nodes, depth, DEPTH_CAP - 1);
    assert Hit(nodes, index, Within(target, nodes, DEPTH_CAP - 1));
    ListedAreHits(target, nodes, l);
    LocationTellsNode(target, nodes, rows, emitted, l, index);
    if LocationOf(nodes[index]) in emitted {
      PassOverKeeps(target, nodes, depth, expanded, parent, list, m, |before.indices|, l);
    } else {
      EmitKeeps(target, nodes, depth, expanded, parent, list, m, |before.indices|, l);
      ShowOneMore(target, nodes, rows, l, index, depth + 1, parent);
      NewNamesGrow(nodes, l, |before.indices|, depth + 1, index, parent);
    }
  }

  /** The same for the walk in general, of which nothing is claimed when subtypes share a line. */
  lemma UnderwayKeepsIfApart(target: string, nodes: seq<TypeNode>, depth: nat, expanded: set<string>, parent: string,
                             list: seq<nat>, m: nat, before: Listing, waiting: Queue,
                             rows: seq<Implementor>, l: Listing, queue: Queue, emitted: set<Location>)
    requires m < |list| && list[m] < |nodes| && Remembers(rows, emitted) && ChildrenOf(nodes, parent, list) && depth < DEPTH_CAP
    requires !SubtypesApart(target, nodes)
             || (Underway(target, nodes, depth, expanded, parent, list, m, before, waiting, rows, l, queue)
                 && ExpandedTo(target, nodes, depth, expanded) && parent !in expanded
                 && parent in Within(target, nodes, depth))
    ensures var node := nodes[list[m]];
            !SubtypesApart(target, nodes)
            || (if LocationOf(node) in emitted
                then Underway(target, nodes, depth, expanded, parent, list, m + 1, before, waiting, rows, l, queue)
                else Underway(target, nodes, depth, expanded, parent, list, m + 1, before, waiting,
                              rows + [Row(target, node, parent)], Appended(l, list[m], depth + 1, parent),
                              queue + [(node.simpleName, depth + 1)]))
  {
    if SubtypesApart(target, nodes) {
      UnderwayKeeps(target, nodes, depth, expanded, parent, list, m, before, waiting, rows, l, queue, emitted);
    }
  }

  lemma ShowOneMore(target: string, nodes: seq<TypeNode>, rows: seq<Implementor>, l: Listing, i: nat, level: nat,
                    parent: string)
    requires RowsShow(target, nodes, rows, l) && i < |nodes| && i !in l.indices
    ensures RowsShow(target, nodes, rows + [Row(target, nodes[i], parent)], Appended(l, i, level, parent))
  {
  }

  lemma NewNamesGrow(nodes: seq<TypeNode>, l: Listing, base: nat, level: nat, i: nat, parent: string)
    requires base <= |l.indices| && i < |nodes| && forall k | 0 <= k < |l.indices| :: l.indices[k] < |nodes|
    ensures NewNames(nodes, Appended(l, i, level, parent), base, level)
         == NewNames(nodes, l, base, level) + [(nodes[i].simpleName, level)]
  {
  }

  /** Lists one child if its location is not known yet, and queues its name one level further down. */
  method ListChild(target: string, nodes: seq<TypeNode>, parent: string, depth: nat, list: seq<nat>, m: nat,
                   rows: seq<Implementor>, emitted: set<Location>, queue: Queue, ghost expanded: set<string>,
                   ghost before: Listing, ghost waiting: Queue, ghost l: Listing)
    returns (rows': seq<Implementor>, emitted': set<Location>, queue': Queue, ghost l': Listing)
    requires ChildrenOf(nodes, parent, list) && depth < DEPTH_CAP && m < |list| && list[m] < |nodes|
    requires RowsApart(rows) && Remembers(rows, emitted) && emitted <= Locations(nodes)
    requires !SubtypesApart(target, nodes)
             || (Underway(target, nodes, depth, expanded, parent, list, m, before, waiting, rows, l, queue)
                 && ExpandedTo(target, nodes, depth, expanded) && parent !in expanded
                 && parent in Within(target, nodes, depth))
    ensures RowsApart(rows') && Remembers(rows', emitted') && emitted <= emitted' <= Locations(nodes)
    ensures emitted' == emitted ==> queue' == queue
    ensures !SubtypesApart(target, nodes)
            || Underway(target, nodes, depth, expanded, parent, list, m + 1, before, waiting, rows', l', queue')
  {
    rows', emitted', queue', l' := rows, emitted, queue, l;
    var node := nodes[list[m]];
    UnderwayKeepsIfApart(target, nodes, depth, expanded, parent, list, m, before, waiting, rows, l, queue, emitted);
    if (node.path, node.line) !in emitted {
      RowsGrow(rows, emitted, Row(target, node, parent));
      assert LocationOf(node) in Locations(nodes);
      emitted' := emitted + {(node.path, node.line)};
      rows' := rows + [Row(target, node, parent)];
      queue' := queue + [(node.simpleName, depth + 1)];
      l' := Appended(l, list[m], depth + 1, parent);
    }
  }

  /** Lists the children of one name that are not listed yet, and queues their names one level further down. */
  method Expand(target: string, nodes: seq<TypeNode>, parent: string, depth: nat, list: seq<nat>,
                rows: seq<Implementor>, emitted: set<Location>, queue: Queue, ghost expanded: set<string>, ghost l: Listing)
    returns (rows': seq<Implementor>, emitted': set<Location>, queue': Queue, ghost l': Listing)
    requires ChildrenOf(nodes, parent, list) && depth < DEPTH_CAP
    requires RowsApart(rows) && Remembers(rows, emitted) && emitted <= Locations(nodes)
    requires !SubtypesApart(target, nodes)
             || (Underway(target, nodes, depth, expanded, parent, list, 0, l, queue, rows, l, queue)
                 && ExpandedTo(target, nodes, depth, expanded) && parent !in expanded
                 && parent in Within(target, nodes, depth))
    ensures RowsApart(rows') && Remembers(rows', emitted') && emitted <= emitted' <= Locations(nodes)
    ensures emitted' == emitted ==> queue' == queue
    ensures !SubtypesApart(target, nodes)
            || Underway(target, nodes, depth, expanded, parent, list, |list|, l, queue, rows', l', queue')
  {
    rows', emitted', queue', l' := rows, emitted, queue, l;
    for m := 0 to |list|
      invariant RowsApart(rows') && Remembers(rows', emitted') && emitted <= emitted' <= Locations(nodes)
      invariant emitted' == emitted ==> queue' == queue
      invariant !SubtypesApart(target, nodes)
                || Underway(target, nodes, depth, expanded, parent, list, m, l, queue, rows', l', queue')
    {
      assert list[m] in list;
      rows', emitted', queue', l' :=
        ListChild(target, nodes, parent, depth, list, m, rows', emitted', queue', expanded, l, queue, l');
    }
  }

  lemma ListedAreHits(target: string, nodes: seq<TypeNode>, l: Listing)
    requires LevelsShow(target, nodes, l)
    ensures forall k | 0 <= k < |l.indices| :: Hit(nodes, l.indices[k], Within(target, nodes, DEPTH_CAP - 1))
  {
    forall k | 0 <= k < |l.indices|
      ensures Hit(nodes, l.indices[k], Within(target, nodes, DEPTH_CAP - 1))
    {
      assert AtLevel(target, nodes, l.indices[k], l.levels[k]);
      WithinGrows(target, nodes, l.levels[k] - 1, DEPTH_CAP - 1);
      HitGrows(nodes, l.indices[k], Within(target, nodes, l.levels[k] - 1), Within(target, nodes, DEPTH_CAP - 1));
    }
  }

  /** The rows list each subtype within the cap once, nearest first, each through a parent one step nearer. */
  ghost predicate Exact(target: string, nodes: seq<TypeNode>, rows: seq<Implementor>, l: Listing) {
    && RowsShow(target, nodes, rows, l)
    && RowsRead(nodes, rows, l)
    && SiblingsInOrder(nodes, l)
    && (forall i: nat :: i in l.indices <==> i < |nodes| && Subtype(target, nodes, i, DEPTH_CAP))
    && (forall k | 0 <= k < |rows| :: Shortest(target, nodes, l.indices[k], l.levels[k]) && Through(target, nodes, rows, l, k))
    && (forall k, m | 0 <= k < m < |rows| :: l.levels[k] <= l.levels[m])
  }

  /** Each row shows its type's own name, path and line, and those reached through one name come by path, then by line. */
  ghost predicate RowsRead(nodes: seq<TypeNode>, rows: seq<Implementor>, l: Listing) {
    && |l.indices| == |rows| && (forall k | 0 <= k < |rows| :: l.indices[k] < |nodes| && Shows(rows[k], nodes[l.indices[k]]))
    && (forall k, m | 0 <= k < m < |rows| && rows[k].via == rows[m].via ::
          if rows[k].path == rows[m].path then rows[k].line <= rows[m].line else StringLe()(rows[k].path, rows[m].path))
  }

  ghost predicate Shows(row: Implementor, node: TypeNode) {
    row.fqn == node.fqn && row.path == node.path && row.line == node.line
  }

  lemma RowsAreRead(target: string, nodes: seq<TypeNode>, rows: seq<Implementor>, l: Listing)
    requires RowsShow(target, nodes, rows, l) && SiblingsInOrder(nodes, l)
    ensures RowsRead(nodes, rows, l)
  {
    forall k, m | 0 <= k < m < |rows| && rows[k].via == rows[m].via
      ensures if rows[k].path == rows[m].path then rows[k].line <= rows[m].line else StringLe()(rows[k].path, rows[m].path)
    {
      assert l.parents[k] == l.parents[m];
      assert ByLocation(nodes)(l.indices[k], l.indices[m]);
    }
  }

  /** No `via` exactly on the direct subtypes; on the others it names a type that is one step nearer. */
  ghost predicate Through(target: string, nodes: seq<TypeNode>, rows: seq<Implementor>, l: Listing, k: nat) {
    && k < |rows| && k < |l.indices| && k < |l.levels| && l.indices[k] < |nodes|
    && l.levels[k] > 0
    && (rows[k].via.None? <==> l.levels[k] == 1)
    && (rows[k].via.Some? ==>
          && rows[k].via.value in nodes[l.indices[k]].supertypes
          && exists j: nat :: j < |nodes| && nodes[j].simpleName == rows[k].via.value
                              && Shortest(target, nodes, j, l.levels[k] - 1))
  }

  lemma HitNames(target: string, nodes: seq<TypeNode>, i: nat, k: nat)
    requires i < |nodes|
    ensures Hit(nodes, i, Within(target, nodes, k)) ==> nodes[i].simpleName in Within(target, nodes, k + 1)
  {
  }

  lemma ParentIsNearer(target: string, nodes: seq<TypeNode>, rows: seq<Implementor>, l: Listing, k: nat)
    requires RowsShow(target, nodes, rows, l) && LevelsShow(target, nodes, l) && k < |rows|
    ensures Shortest(target, nodes, l.indices[k], l.levels[k]) && Through(target, nodes, rows, l, k)
  {
    var i, d, parent := l.indices[k], l.levels[k], l.parents[k];
    assert AtLevel(target, nodes, i, d);
    LevelIsShortest(target, nodes, i, d);
    if d > 1 {
      WithinGrows(target, nodes, 0, d - 2);
      assert parent != target && parent !in Within(target, nodes, d - 2);
      var j: nat :| j < |nodes| && Hit(nodes, j, Within(target, nodes, d - 2)) && nodes[j].simpleName == parent;
      if d > 2 {
        HitNames(target, nodes, j, d - 3);
      }
      assert AtLevel(target, nodes, j, d - 1);
      LevelIsShortest(target, nodes, j, d - 1);
    }
  }

  lemma WalkIsExact(target: string, nodes: seq<TypeNode>, depth: nat, expanded: set<string>, rows: seq<Implementor>,
                    l: Listing)
    requires Bfs(target, nodes, depth, [], expanded, l) && RowsShow(target, nodes, rows, l)
    ensures Exact(target, nodes, rows, l)
  {
    DryQueueMeansDone(target, nodes, depth, expanded, l);
    RowsAreRead(target, nodes, rows, l);
    forall i: nat
      ensures i in l.indices <==> i < |nodes| && Subtype(target, nodes, i, DEPTH_CAP)
    {
      HitIffSubtype(target, nodes, i, DEPTH_CAP - 1);
    }
    forall k | 0 <= k < |rows|
      ensures Shortest(target, nodes, l.indices[k], l.levels[k]) && Through(target, nodes, rows, l, k)
    {
      ParentIsNearer(target, nodes, rows, l, k);
    }
  }

  /** Where the whole walk stands, when the subtypes are apart. */
  ghost predicate WalkAt(target: string, nodes: seq<TypeNode>, level: nat, queue: Queue, expanded: set<string>,
                         rows: seq<Implementor>, l: Listing)
  {
    Bfs(target, nodes, level, queue, expanded, l) && RowsShow(target, nodes, rows, l)
  }

  /** The next name to look at is on the current level, or begins the next. */
  lemma LevelOfNext(target: string, nodes: seq<TypeNode>, level: nat, queue: Queue, expanded: set<string>,
                    rows: seq<Implementor>, l: Listing)
    requires WalkAt(target, nodes, level, queue, expanded, rows, l) && queue != []
    ensures WalkAt(target, nodes, queue[0].1, queue, expanded, rows, l)
  {
    if queue[0].1 != level {
      NextLevel(target, nodes, level, queue, expanded, l);
    }
  }

  lemma DropName(target: string, nodes: seq<TypeNode>, queue: Queue, expanded: set<string>, rows: seq<Implementor>,
                 l: Listing)
    requires queue != [] && WalkAt(target, nodes, queue[0].1, queue, expanded, rows, l)
    requires queue[0].1 >= DEPTH_CAP || queue[0].0 in expanded
    ensures WalkAt(target, nodes, queue[0].1, queue[1..], expanded, rows, l)
  {
    DropKeeps(target, nodes, queue[0].1, queue, expanded, l);
  }

  lemma BeginExpanding(target: string, nodes: seq<TypeNode>, queue: Queue, expanded: set<string>,
                       rows: seq<Implementor>,
                       l: Listing, list: seq<nat>)
    requires queue != [] && WalkAt(target, nodes, queue[0].1, queue, expanded, rows, l)
    requires queue[0].1 < DEPTH_CAP && queue[0].0 !in expanded
    ensures Underway(target, nodes, queue[0].1, expanded, queue[0].0, list, 0, l, queue[1..], rows, l, queue[1..])
    ensures ExpandedTo(target, nodes, queue[0].1, expanded) && queue[0].0 in Within(target, nodes, queue[0].1)
  {
    assert list[..0] == [];
    assert NewNames(nodes, l, |l.indices|, queue[0].1 + 1) == [];
  }

  lemma EndExpanding(target: string, nodes: seq<TypeNode>, queue: Queue, expanded: set<string>, rows: seq<Implementor>,
                     l: Listing, list: seq<nat>, rows': seq<Implementor>, l': Listing, queue': Queue)
    requires queue != [] && WalkAt(target, nodes, queue[0].1, queue, expanded, rows, l)
    requires queue[0].1 < DEPTH_CAP && queue[0].0 !in expanded && ChildrenOf(nodes, queue[0].0, list)
    requires Underway(target, nodes, queue[0].1, expanded, queue[0].0, list, |list|, l, queue[1..], rows', l', queue')
    ensures WalkAt(target, nodes, queue[0].1, queue', expanded + {queue[0].0}, rows', l')
  {
    ExpandKeeps(target, nodes, queue[0].1, queue, expanded, l, list, l', queue');
  }

  /**
   The subtypes of `target`. No location is ever listed twice, and the list is exact precisely when the
   subtypes are declared on different lines.
   */
  method ResolveSupertypeImplementors(target: string, nodes: seq<TypeNode>)
    returns (rows: seq<Implementor>, ghost listing: Listing)
    ensures RowsApart(rows)
    ensures SubtypesApart(target, nodes) ==> Exact(target, nodes, rows, listing)
  {
    var children := BuildChildren(nodes);
    rows := [];
    var emitted: set<Location> := {};
    var expanded: set<string> := {};
    var queue: Queue := [(target, 0)];
    listing := Listing([], [], []);
    ghost var level: nat := 0;
    ghost var apart := SubtypesApart(target, nodes);
    BeginKeeps(target, nodes);
    while queue != []
      invariant RowsApart(rows) && Remembers(rows, emitted) && emitted <= Locations(nodes)
      invariant !apart || WalkAt(target, nodes, level, queue, expanded, rows, listing)
      decreases Locations(nodes) - emitted, |queue|
    {
      var (parent, depth) := queue[0];
      ghost var waiting := queue;
      if apart {
        LevelOfNext(target, nodes, level, queue, expanded, rows, listing);
      }
      level := depth;
      queue := queue[1..];
      if depth >= DEPTH_CAP || parent in expanded {
        if apart {
          DropName(target, nodes, waiting, expanded, rows, listing);
        }
      } else {
        var list := SortedChildren(nodes, children, parent);
        ghost var before, known, shown := listing, emitted, rows;
        if apart {
          BeginExpanding(target, nodes, waiting, expanded, rows, listing, list);
        }
        rows, emitted, queue, listing := Expand(target, nodes, parent, depth, list, rows, emitted, queue, expanded, listing);
        if apart {
          EndExpanding(target, nodes, waiting, expanded, shown, before, list, rows, listing, queue);
        }
        expanded := expanded + {parent};
        assert emitted == known || Locations(nodes) - emitted < Locations(nodes) - known;
      }
    }
    if apart {
      WalkIsExact(target, nodes, level, expanded, rows, listing);
    }
  }

  /** The other direction: a list without a repeated location that is exact tells all subtypes apart by line. */
  lemma ExactOnlyWhenApart(target: string, nodes: seq<TypeNode>, rows: seq<Implementor>, l: Listing)
    requires RowsApart(rows) && Exact(target, nodes, rows, l)
    ensures SubtypesApart(target, nodes)
  {
    forall i: nat, j: nat | i < j && j < |nodes|
                            && Hit(nodes, i, Within(target, nodes, DEPTH_CAP - 1))
                            && Hit(nodes, j, Within(target, nodes, DEPTH_CAP - 1))
      ensures LocationOf(nodes[i]) != LocationOf(nodes[j])
    {
      HitIffSubtype(target, nodes, i, DEPTH_CAP - 1);
      HitIffSubtype(target, nodes, j, DEPTH_CAP - 1);
      assert i in l.indices && j in l.indices;
      var k :| 0 <= k < |l.indices| && l.indices[k] == i;
      var m :| 0 <= m < |l.indices| && l.indices[m] == j;
      assert rows[k] == Row(target, nodes[i], l.parents[k]) && rows[m] == Row(target, nodes[j], l.parents[m]);
    }
  }

  /** `class A extends Base {} class B extends Base {}`, on one line. */
  const ONE_LINE_PAIR := [TypeNode("p.A", "A", "a.java", 1, ["Base"]), TypeNode("p.B", "B", "a.java", 1, ["Base"])]

  lemma OneLinePairNotApart()
    ensures !SubtypesApart("Base", ONE_LINE_PAIR)
  {
    var nodes := ONE_LINE_PAIR;
    WithinGrows("Base", nodes, 0, DEPTH_CAP - 1);
    assert "Base" in Within("Base", nodes, 0);
    assert "Base" in nodes[0].supertypes && "Base" in nodes[1].supertypes;
    assert Hit(nodes, 0, Within("Base", nodes, DEPTH_CAP - 1)) && Hit(nodes, 1, Within("Base", nodes, DEPTH_CAP - 1));
    assert LocationOf(nodes[0]) == LocationOf(nodes[1]);
  }

  /** Two subtypes declared on one line: one of them is missing from any list without a repeated location. */
  lemma OneLinePairIsNeverExact(rows: seq<Implementor>, l: Listing)
    requires RowsApart(rows)
    ensures !Exact("Base", ONE_LINE_PAIR, rows, l)
  {
    OneLinePairNotApart();
    if Exact("Base", ONE_LINE_PAIR, rows, l) {
      ExactOnlyWhenApart("Base", ONE_LINE_PAIR, rows, l);
    }
  }
}
