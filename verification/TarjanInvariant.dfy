/**
 What the explicit-stack traversal keeps true from one loop iteration to the next, stated on the
 values of its fields, and the proof that each kind of iteration keeps it.

 The component stack is cut into segments: a stacked node belongs to the last call frame discovered
 no later than the node. Each segment is strongly connected with its frame, the frames form a path,
 and the lowlink of a frame is a lower bound for every stacked target of an explored edge that
 leaves its segment. When the lowlink of a finished frame is its own discovery index, nothing
 leaves the segment except towards closed nodes, so the segment is a whole component.
 */
module TarjanInvariant {
  import opened Graphs
  import opened Ordering
  import opened Walks

  const UNVISITED: nat := 0xFFFF_FFFF_FFFF_FFFF

  /** The values of the traversal's fields; `groups` are the closed components, as node indices. */
  datatype View = View(
    discovery: seq<nat>,
    lowlink: seq<nat>,
    onStack: seq<bool>,
    stack: seq<nat>,
    nextIndex: nat,
    groups: seq<seq<nat>>)

  /** A suspended visit: a node, and how many of its children have been looked at. */
  datatype Frame = Frame(node: nat, nextChild: nat)

  predicate Seen(v: View, x: nat) {
    x < |v.discovery| && v.discovery[x] != UNVISITED
  }

  predicate Stacked(v: View, x: nat) {
    x < |v.onStack| && v.onStack[x]
  }

  predicate Closed(v: View, x: nat) {
    Seen(v, x) && !Stacked(v, x)
  }

  ghost function Unvisited(discovery: seq<nat>): set<nat> {
    set x: nat | x < |discovery| && discovery[x] == UNVISITED
  }

  ghost function SeenSet(v: View): set<nat> {
    set x: nat | x < |v.discovery| && Seen(v, x)
  }

  ghost predicate Shaped(adj: seq<seq<nat>>, v: View) {
    |v.discovery| == |adj| && |v.lowlink| == |adj| && |v.onStack| == |adj|
  }

  /** Discovery indices number the seen nodes, without a gap or a repetition. */
  ghost predicate Counted(adj: seq<seq<nat>>, v: View) {
    && |adj| < UNVISITED
    && v.nextIndex == |SeenSet(v)|
    && (forall x: nat | Seen(v, x) :: v.discovery[x] < v.nextIndex)
    && (forall x: nat, y: nat | Seen(v, x) && Seen(v, y) && v.discovery[x] == v.discovery[y] :: x == y)
  }

  /** The component stack holds the nodes flagged as stacked, ascending in discovery. */
  ghost predicate Piled(adj: seq<seq<nat>>, v: View) {
    && (forall x: nat | x < |adj| :: Stacked(v, x) <==> x in v.stack)
    && (forall k | 0 <= k < |v.stack| :: v.stack[k] < |adj| && Seen(v, v.stack[k]))
    && (forall k, l | 0 <= k < l < |v.stack| :: v.discovery[v.stack[k]] < v.discovery[v.stack[l]])
  }

  ghost predicate Numbered(adj: seq<seq<nat>>, v: View) {
    Shaped(adj, v) && Counted(adj, v) && Piled(adj, v)
  }

  /** The call stack is a path of tree edges through stacked nodes, starting at the bottom of the component stack. */
  ghost predicate Framed(adj: seq<seq<nat>>, v: View, frames: seq<Frame>)
    requires Shaped(adj, v)
  {
    && (forall i | 0 <= i < |frames| ::
          Seen(v, frames[i].node) && frames[i].node in v.stack && frames[i].nextChild <= |adj[frames[i].node]|)
    && (forall i, j | 0 <= i < j < |frames| :: v.discovery[frames[i].node] < v.discovery[frames[j].node])
    && (forall i | 0 <= i < |frames| - 1 ::
          frames[i].nextChild > 0 && adj[frames[i].node][frames[i].nextChild - 1] == frames[i + 1].node)
    && (v.stack != [] ==> frames != [] && v.stack[0] == frames[0].node)
  }

  /** `x` lies in the segment of frame `i`. */
  ghost predicate Owns(v: View, frames: seq<Frame>, i: nat, x: nat) {
    && i < |frames|
    && Seen(v, x) && Seen(v, frames[i].node)
    && v.discovery[frames[i].node] <= v.discovery[x]
    && (i + 1 < |frames| ==> Seen(v, frames[i + 1].node) && v.discovery[x] < v.discovery[frames[i + 1].node])
  }

  ghost predicate Segmented(adj: seq<seq<nat>>, v: View, frames: seq<Frame>) {
    forall i: nat, x: nat | Owns(v, frames, i, x) && x in v.stack :: Mutual(IndexEdges(adj), frames[i].node, x)
  }

  /** The edge to child `c` of `x`, a node in the segment of frame `i`, has been looked at. */
  ghost predicate Looked(adj: seq<seq<nat>>, frames: seq<Frame>, i: nat, x: nat, c: nat) {
    && i < |frames| && x < |adj| && c < |adj[x]|
    && (frames[i].node == x ==> c < frames[i].nextChild)
  }

  ghost predicate BoundedAt(v: View, f: nat, w: nat) {
    && Seen(v, w) && f < |v.lowlink|
    && (w in v.stack ==> v.lowlink[f] <= v.discovery[w])
  }

  ghost predicate LowWitness(adj: seq<seq<nat>>, v: View, x: nat, u: nat) {
    && Seen(v, x) && x < |v.lowlink| && Seen(v, u) && u in v.stack
    && v.discovery[u] == v.lowlink[x] && Reaches(IndexEdges(adj), x, u)
  }

  /** A frame's lowlink is the index of a stacked node it reaches, not above its own. */
  ghost predicate LowSound(adj: seq<seq<nat>>, v: View, frames: seq<Frame>)
  {
    forall i | 0 <= i < |frames| :: LowSoundAt(adj, v, frames[i].node)
  }

  ghost predicate LowSoundAt(adj: seq<seq<nat>>, v: View, x: nat) {
    && x < |v.lowlink| && x < |v.discovery| && v.lowlink[x] <= v.discovery[x]
    && exists u :: LowWitness(adj, v, x, u)
  }

  /** Explored edges lead to seen nodes, and to stacked ones only at or above the segment's lowlink. */
  ghost predicate LowBound(adj: seq<seq<nat>>, v: View, frames: seq<Frame>) {
    forall i: nat, x: nat, c: nat | Owns(v, frames, i, x) && x in v.stack && Looked(adj, frames, i, x, c) ::
      BoundedAt(v, frames[i].node, adj[x][c])
  }

  /** The same, but for the edges to a node about to be entered. */
  ghost predicate LowBoundBut(adj: seq<seq<nat>>, v: View, frames: seq<Frame>, node: nat) {
    forall i: nat, x: nat, c: nat | Owns(v, frames, i, x) && x in v.stack && Looked(adj, frames, i, x, c) ::
      adj[x][c] == node || BoundedAt(v, frames[i].node, adj[x][c])
  }

  /** The closed nodes are the members of the reported groups, no edge leaves them, and each group is a component. */
  ghost predicate Grouped(adj: seq<seq<nat>>, v: View)
    requires Shaped(adj, v)
  {
    && (forall x: nat, w: nat | Closed(v, x) && w in adj[x] :: Closed(v, w))
    && (forall x: nat | Closed(v, x) :: exists g :: 0 <= g < |v.groups| && x in v.groups[g])
    && (forall g | 0 <= g < |v.groups| :: IsComponent(adj, v, v.groups[g]))
    && (forall g, h | 0 <= g < h < |v.groups| :: Disjoint(v.groups[g], v.groups[h]))
  }

  ghost predicate IsComponent(adj: seq<seq<nat>>, v: View, group: seq<nat>) {
    && group != [] && Distinct(group)
    && (forall x: nat | x in group :: Closed(v, x))
    && (forall x: nat, y: nat | x in group && y < |adj| :: y in group <==> Mutual(IndexEdges(adj), x, y))
  }

  ghost predicate Disjoint(s: seq<nat>, t: seq<nat>) {
    forall x :: x in s ==> x !in t
  }

  ghost predicate Invariant(adj: seq<seq<nat>>, v: View, frames: seq<Frame>) {
    && Adjacency(adj)
    && Numbered(adj, v)
    && Framed(adj, v, frames)
    && Segmented(adj, v, frames)
    && LowSound(adj, v, frames)
    && LowBound(adj, v, frames)
    && Grouped(adj, v)
  }

  // ----- the effects of the traversal's operations on the fields

  /** `enter`: the next discovery index, and a place on the component stack. */
  function Entered(v: View, node: nat): View
    requires node < |v.discovery| == |v.lowlink| == |v.onStack|
  {
    v.(discovery := v.discovery[node := v.nextIndex],
       lowlink := v.lowlink[node := v.nextIndex],
       onStack := v.onStack[node := true],
       stack := v.stack + [node],
       nextIndex := v.nextIndex + 1)
  }

  function Reversed(s: seq<nat>): seq<nat> {
    if s == [] then [] else Reversed(s[1..]) + [s[0]]
  }

  /** `close_component`: everything from `root` upwards leaves the stack as one group, last in first out. */
  function Popped(v: View, root: nat): View
    requires root in v.stack
  {
    var at := Position(v.stack, root).value;
    v.(onStack := seq(|v.onStack|, x requires 0 <= x < |v.onStack| => v.onStack[x] && x !in v.stack[at..]),
       stack := v.stack[..at],
       groups := v.groups + [Reversed(v.stack[at..])])
  }

  function Lowered(v: View, node: nat, bound: nat): View
    requires node < |v.lowlink|
  {
    v.(lowlink := v.lowlink[node := if bound < v.lowlink[node] then bound else v.lowlink[node]])
  }

  function Advanced(frames: seq<Frame>): seq<Frame>
    requires frames != []
  {
    var top := frames[|frames| - 1];
    frames[|frames| - 1 := top.(nextChild := top.nextChild + 1)]
  }

  // ----- counting the seen nodes

  ghost function Indices(n: nat): set<nat> {
    if n == 0 then {} else Indices(n - 1) + {n - 1}
  }

  lemma {:induction false} IndicesCount(n: nat)
    ensures |Indices(n)| == n
    ensures forall x: nat :: x in Indices(n) <==> x < n
  {
    if n > 0 {
      IndicesCount(n - 1);
    }
  }

  lemma {:induction false} CountSubset<T>(s: set<T>, t: set<T>)
    requires s <= t
    ensures |s| <= |t|
  {
    if s != {} {
      var x :| x in s;
      CountSubset(s - {x}, t - {x});
    }
  }

  lemma SeenSetBounded(adj: seq<seq<nat>>, v: View, node: nat)
    requires Shaped(adj, v) && node < |adj| && !Seen(v, node)
    ensures |SeenSet(v)| < |adj|
  {
    IndicesCount(|adj|);
    assert SeenSet(v) <= Indices(|adj|) - {node};
    CountSubset(SeenSet(v), Indices(|adj|) - {node});
  }

  // ----- entering a node

  /** What entering `node` does, in the terms the invariant is stated in. */
  ghost predicate EntersAs(adj: seq<seq<nat>>, v: View, now: View, node: nat) {
    && Shaped(adj, v) && Shaped(adj, now) && node < |adj| && !Seen(v, node)
    && (forall x: nat :: Seen(now, x) <==> Seen(v, x) || x == node)
    && (forall x: nat | Seen(v, x) :: now.discovery[x] == v.discovery[x] < now.discovery[node])
    && (forall x: nat | Seen(v, x) :: now.lowlink[x] == v.lowlink[x])
    && now.lowlink[node] == now.discovery[node]
    && now.stack == v.stack + [node]
    && (forall x: nat :: x in now.stack <==> x in v.stack || x == node)
    && (forall x: nat :: Closed(now, x) <==> Closed(v, x))
    && now.groups == v.groups
  }

  lemma EnterEffect(adj: seq<seq<nat>>, v: View, node: nat)
    requires Numbered(adj, v) && node < |adj| && !Seen(v, node)
    ensures EntersAs(adj, v, Entered(v, node), node)
    ensures Counted(adj, Entered(v, node))
  {
    SeenSetBounded(adj, v, node);
    var now := Entered(v, node);
    assert SeenSet(now) == SeenSet(v) + {node};
    forall x: nat
      ensures Closed(now, x) <==> Closed(v, x)
    {
      if x == node {
        assert Stacked(now, node);
      }
    }
  }

  lemma EnterPiled(adj: seq<seq<nat>>, v: View, now: View, node: nat)
    requires EntersAs(adj, v, now, node) && Piled(adj, v)
    requires forall x: nat :: Stacked(now, x) <==> Stacked(v, x) || x == node
    ensures Piled(adj, now)
  {
  }

  lemma EnterGrouped(adj: seq<seq<nat>>, v: View, now: View, node: nat)
    requires EntersAs(adj, v, now, node) && Grouped(adj, v)
    ensures Grouped(adj, now)
  {
    forall g | 0 <= g < |now.groups|
      ensures IsComponent(adj, now, now.groups[g])
    {
      assert IsComponent(adj, v, v.groups[g]);
    }
  }

  lemma EnterFramed(adj: seq<seq<nat>>, v: View, now: View, frames: seq<Frame>, node: nat)
    requires EntersAs(adj, v, now, node) && Framed(adj, v, frames)
    requires frames == [] || (frames[|frames| - 1].nextChild > 0
               && adj[frames[|frames| - 1].node][frames[|frames| - 1].nextChild - 1] == node)
    ensures Framed(adj, now, frames + [Frame(node, 0)])
  {
    var grown := frames + [Frame(node, 0)];
    forall i | 0 <= i < |grown|
      ensures Seen(now, grown[i].node) && grown[i].node in now.stack && grown[i].nextChild <= |adj[grown[i].node]|
    {
      if i < |frames| {
        assert grown[i] == frames[i];
      }
    }
    forall i | 0 <= i < |grown| - 1
      ensures grown[i].nextChild > 0 && adj[grown[i].node][grown[i].nextChild - 1] == grown[i + 1].node
    {
      if i < |frames| - 1 {
        assert grown[i] == frames[i] && grown[i + 1] == frames[i + 1];
      }
    }
    forall i, j | 0 <= i < j < |grown|
      ensures now.discovery[grown[i].node] < now.discovery[grown[j].node]
    {
      assert grown[i] == frames[i];
      if j < |frames| {
        assert grown[j] == frames[j];
      }
    }
    if frames != [] {
      assert frames[0].node in v.stack;
    }
  }

  /** The new node is above everything, so it is a segment of its own and the others are as they were. */
  lemma EnterOwns(adj: seq<seq<nat>>, v: View, now: View, frames: seq<Frame>, node: nat, i: nat, x: nat)
    requires EntersAs(adj, v, now, node) && Framed(adj, v, frames)
    requires Owns(now, frames + [Frame(node, 0)], i, x)
    ensures x == node <==> i == |frames|
    ensures i < |frames| ==> Owns(v, frames, i, x)
  {
    var grown := frames + [Frame(node, 0)];
    if i < |frames| {
      assert grown[i] == frames[i];
      if i + 1 < |frames| {
        assert grown[i + 1] == frames[i + 1];
      }
    }
  }

  lemma EnterSegmented(adj: seq<seq<nat>>, v: View, now: View, frames: seq<Frame>, node: nat)
    requires EntersAs(adj, v, now, node) && Framed(adj, v, frames) && Segmented(adj, v, frames)
    ensures Segmented(adj, now, frames + [Frame(node, 0)])
  {
    var grown := frames + [Frame(node, 0)];
    forall i: nat, x: nat | Owns(now, grown, i, x) && x in now.stack
      ensures Mutual(IndexEdges(adj), grown[i].node, x)
    {
      EnterOwns(adj, v, now, frames, node, i, x);
      ReachesSelf(IndexEdges(adj), node);
    }
  }

  lemma EnterLowSound(adj: seq<seq<nat>>, v: View, now: View, frames: seq<Frame>, node: nat)
    requires EntersAs(adj, v, now, node) && LowSound(adj, v, frames)
    ensures LowSound(adj, now, frames + [Frame(node, 0)])
  {
    var grown := frames + [Frame(node, 0)];
    forall i | 0 <= i < |grown|
      ensures LowSoundAt(adj, now, grown[i].node)
    {
      if i < |frames| {
        assert LowSoundAt(adj, v, frames[i].node);
        var u :| LowWitness(adj, v, frames[i].node, u);
        assert LowWitness(adj, now, grown[i].node, u);
      } else {
        ReachesSelf(IndexEdges(adj), node);
        assert LowWitness(adj, now, node, node);
      }
    }
  }

  lemma EnterLowBound(adj: seq<seq<nat>>, v: View, now: View, frames: seq<Frame>, node: nat)
    requires EntersAs(adj, v, now, node) && Framed(adj, v, frames) && Framed(adj, now, frames + [Frame(node, 0)])
    requires LowBoundBut(adj, v, frames, node) && LowSound(adj, v, frames)
    ensures LowBound(adj, now, frames + [Frame(node, 0)])
  {
    var grown := frames + [Frame(node, 0)];
    forall i: nat, x: nat, c: nat | Owns(now, grown, i, x) && x in now.stack && Looked(adj, grown, i, x, c)
      ensures BoundedAt(now, grown[i].node, adj[x][c])
    {
      EnterOwns(adj, v, now, frames, node, i, x);
      if i < |frames| {
        assert grown[i] == frames[i];
        assert Looked(adj, frames, i, x, c);
        assert adj[x][c] == node || BoundedAt(v, frames[i].node, adj[x][c]);
        assert LowSoundAt(adj, v, frames[i].node);
      }
    }
  }

  lemma EnterKeepsAs(adj: seq<seq<nat>>, v: View, frames: seq<Frame>, node: nat)
    requires Adjacency(adj) && Numbered(adj, v) && Framed(adj, v, frames) && Grouped(adj, v)
    requires Segmented(adj, v, frames) && LowSound(adj, v, frames) && LowBoundBut(adj, v, frames, node)
    requires node < |adj| && !Seen(v, node)
    requires frames == [] || (frames[|frames| - 1].nextChild > 0
               && adj[frames[|frames| - 1].node][frames[|frames| - 1].nextChild - 1] == node)
    ensures Invariant(adj, Entered(v, node), frames + [Frame(node, 0)])
    ensures Unvisited(Entered(v, node).discovery) == Unvisited(v.discovery) - {node}
  {
    var now := Entered(v, node);
    EnterEffect(adj, v, node);
    assert Unvisited(now.discovery) == Unvisited(v.discovery) - {node};
    EnterPiled(adj, v, now, node);
    EnterGrouped(adj, v, now, node);
    EnterFramed(adj, v, now, frames, node);
    EnterSegmented(adj, v, now, frames, node);
    EnterLowSound(adj, v, now, frames, node);
    EnterLowBound(adj, v, now, frames, node);
  }

  /** A walk begins on an undiscovered node, with nothing else under way. */
  lemma StartKeeps(adj: seq<seq<nat>>, v: View, now: View, node: nat)
    requires Invariant(adj, v, []) && node < |adj| && !Seen(v, node)
    requires now == Entered(v, node)
    ensures Invariant(adj, now, [Frame(node, 0)])
  {
    EnterKeepsAs(adj, v, [], node);
    assert [] + [Frame(node, 0)] == [Frame(node, 0)];
  }

  lemma LookKeeps(adj: seq<seq<nat>>, v: View, frames: seq<Frame>, moved: seq<Frame>, child: nat)
    requires Invariant(adj, v, frames) && frames != [] && moved == Advanced(frames)
    requires var top := frames[|frames| - 1]; top.nextChild < |adj[top.node]| && child == adj[top.node][top.nextChild]
    ensures Framed(adj, v, moved) && Segmented(adj, v, moved) && LowSound(adj, v, moved)
    ensures LowBoundBut(adj, v, moved, child)
    ensures moved != [] && moved[|moved| - 1].nextChild > 0
    ensures adj[moved[|moved| - 1].node][moved[|moved| - 1].nextChild - 1] == child
  {
    AdvanceFramed(adj, v, v, frames);
    SameNodesSound(adj, v, frames, moved);
    LookBound(adj, v, frames);
  }

  /** Looking at an undiscovered child opens a frame for it on top of the one that looked. */
  lemma EnterKeeps(adj: seq<seq<nat>>, v: View, now: View, frames: seq<Frame>, after: seq<Frame>, child: nat)
    requires Invariant(adj, v, frames) && frames != []
    requires var top := frames[|frames| - 1]; top.nextChild < |adj[top.node]| && child == adj[top.node][top.nextChild]
    requires child < |adj| && !Seen(v, child)
    requires now == Entered(v, child) && after == Advanced(frames) + [Frame(child, 0)]
    ensures Invariant(adj, now, after)
    ensures Unvisited(now.discovery) == Unvisited(v.discovery) - {child} && child in Unvisited(v.discovery)
    ensures forall x: nat | Seen(v, x) :: Seen(now, x)
  {
    var moved := Advanced(frames);
    LookKeeps(adj, v, frames, moved, child);
    EnterKeepsAs(adj, v, moved, child);
  }

  lemma LookBound(adj: seq<seq<nat>>, v: View, frames: seq<Frame>)
    requires Shaped(adj, v) && Framed(adj, v, frames) && frames != [] && LowBound(adj, v, frames)
    requires var top := frames[|frames| - 1]; top.nextChild < |adj[top.node]|
    requires forall i: nat, x: nat :: Owns(v, Advanced(frames), i, x) <==> Owns(v, frames, i, x)
    ensures var top := frames[|frames| - 1]; LowBoundBut(adj, v, Advanced(frames), adj[top.node][top.nextChild])
  {
    var last := |frames| - 1;
    var moved := Advanced(frames);
    var child := adj[frames[last].node][frames[last].nextChild];
    forall i: nat, x: nat, c: nat | Owns(v, moved, i, x) && x in v.stack && Looked(adj, moved, i, x, c)
      ensures adj[x][c] == child || BoundedAt(v, moved[i].node, adj[x][c])
    {
      assert Owns(v, frames, i, x);
      if Looked(adj, frames, i, x, c) {
        assert BoundedAt(v, frames[i].node, adj[x][c]);
      } else {
        assert i == last && x == frames[last].node && adj[x][c] == child;
      }
    }
  }

  // ----- looking at a child that was seen before

  /** Nothing but the frame's own lowlink may have changed, and that only downwards. */
  ghost predicate LowersAs(v: View, now: View, node: nat) {
    && |v.lowlink| == |now.lowlink|
    && now == v.(lowlink := now.lowlink)
    && (forall x: nat | x < |v.lowlink| && x != node :: now.lowlink[x] == v.lowlink[x])
    && (node < |v.lowlink| ==> now.lowlink[node] <= v.lowlink[node])
  }

  lemma LowerKeepsPlaces(adj: seq<seq<nat>>, v: View, now: View, node: nat)
    requires LowersAs(v, now, node) && Numbered(adj, v) && Grouped(adj, v)
    ensures Numbered(adj, now) && Grouped(adj, now)
    ensures forall x: nat :: (Seen(now, x) <==> Seen(v, x)) && (Stacked(now, x) <==> Stacked(v, x))
  {
    assert SeenSet(now) == SeenSet(v);
    assert forall x: nat :: Closed(now, x) <==> Closed(v, x);
    forall g | 0 <= g < |now.groups|
      ensures IsComponent(adj, now, now.groups[g])
    {
      assert IsComponent(adj, v, v.groups[g]);
    }
  }

  lemma AdvanceFramed(adj: seq<seq<nat>>, v: View, now: View, frames: seq<Frame>)
    requires Shaped(adj, v) && Framed(adj, v, frames) && frames != [] && Segmented(adj, v, frames)
    requires frames[|frames| - 1].nextChild < |adj[frames[|frames| - 1].node]|
    requires LowersAs(v, now, frames[|frames| - 1].node)
    ensures Framed(adj, now, Advanced(frames)) && Segmented(adj, now, Advanced(frames))
    ensures forall i: nat, x: nat :: Owns(now, Advanced(frames), i, x) <==> Owns(v, frames, i, x)
  {
    var moved := Advanced(frames);
    assert forall i | 0 <= i < |frames| :: moved[i].node == frames[i].node;
    assert forall i | 0 <= i < |frames| - 1 :: moved[i] == frames[i];
    assert forall i: nat, x: nat :: Owns(now, moved, i, x) <==> Owns(v, frames, i, x);
  }

  /** What looking at `child` does to the lowlink of the frame that looks. */
  ghost predicate LowersTowards(v: View, now: View, node: nat, child: nat) {
    && LowersAs(v, now, node) && node < |v.lowlink|
    && Seen(v, child)
    && (child in v.stack ==> now.lowlink[node] <= v.discovery[child])
    && (now.lowlink[node] == v.lowlink[node] || (child in v.stack && now.lowlink[node] == v.discovery[child]))
  }

  lemma LoweredSound(adj: seq<seq<nat>>, v: View, now: View, frames: seq<Frame>, node: nat, child: nat)
    requires LowSound(adj, v, frames) && LowersTowards(v, now, node, child)
    requires Reaches(IndexEdges(adj), node, child)
    ensures LowSound(adj, now, frames)
  {
    forall i | 0 <= i < |frames|
      ensures LowSoundAt(adj, now, frames[i].node)
    {
      assert LowSoundAt(adj, v, frames[i].node);
      var u :| LowWitness(adj, v, frames[i].node, u);
      if frames[i].node == node && now.lowlink[node] != v.lowlink[node] {
        assert LowWitness(adj, now, node, child);
      } else {
        assert LowWitness(adj, now, frames[i].node, u);
      }
    }
  }

  lemma AdvanceBound(adj: seq<seq<nat>>, v: View, now: View, frames: seq<Frame>, child: nat)
    requires Shaped(adj, v) && Framed(adj, v, frames) && frames != [] && LowBound(adj, v, frames)
    requires frames[|frames| - 1].nextChild < |adj[frames[|frames| - 1].node]|
    requires child == adj[frames[|frames| - 1].node][frames[|frames| - 1].nextChild]
    requires LowersTowards(v, now, frames[|frames| - 1].node, child)
    requires Framed(adj, now, Advanced(frames))
    requires forall i: nat, x: nat :: Owns(now, Advanced(frames), i, x) <==> Owns(v, frames, i, x)
    ensures LowBound(adj, now, Advanced(frames))
  {
    var last := |frames| - 1;
    var moved := Advanced(frames);
    forall i: nat, x: nat, c: nat | Owns(now, moved, i, x) && x in now.stack && Looked(adj, moved, i, x, c)
      ensures BoundedAt(now, moved[i].node, adj[x][c])
    {
      assert Owns(v, frames, i, x);
      if Looked(adj, frames, i, x, c) {
        assert BoundedAt(v, frames[i].node, adj[x][c]);
      } else {
        assert i == last && x == frames[last].node && adj[x][c] == child;
      }
    }
  }

  lemma AdvanceSound(adj: seq<seq<nat>>, v: View, now: View, frames: seq<Frame>, child: nat)
    requires LowSound(adj, v, frames) && frames != [] && frames[|frames| - 1].node < |adj|
    requires frames[|frames| - 1].nextChild < |adj[frames[|frames| - 1].node]|
    requires child == adj[frames[|frames| - 1].node][frames[|frames| - 1].nextChild]
    requires LowersTowards(v, now, frames[|frames| - 1].node, child)
    ensures LowSound(adj, now, Advanced(frames))
  {
    var top := frames[|frames| - 1];
    EdgeReaches(adj, top.node, top.nextChild);
    LoweredSound(adj, v, now, frames, top.node, child);
    SameNodesSound(adj, now, frames, Advanced(frames));
  }

  lemma AdvanceKeepsAs(adj: seq<seq<nat>>, v: View, now: View, frames: seq<Frame>, child: nat)
    requires Invariant(adj, v, frames) && frames != []
    requires frames[|frames| - 1].nextChild < |adj[frames[|frames| - 1].node]|
    requires child == adj[frames[|frames| - 1].node][frames[|frames| - 1].nextChild]
    requires LowersTowards(v, now, frames[|frames| - 1].node, child)
    ensures Invariant(adj, now, Advanced(frames))
  {
    var top := frames[|frames| - 1];
    LowerKeepsPlaces(adj, v, now, top.node);
    AdvanceFramed(adj, v, now, frames);
    AdvanceSound(adj, v, now, frames, child);
    AdvanceBound(adj, v, now, frames, child);
  }

  lemma EdgeReaches(adj: seq<seq<nat>>, x: nat, c: nat)
    requires x < |adj| && c < |adj[x]|
    ensures Reaches(IndexEdges(adj), x, adj[x][c])
  {
    assert (x, adj[x][c]) in IndexEdges(adj);
    ReachesEdge(IndexEdges(adj), x, adj[x][c]);
  }

  lemma SameNodesSound(adj: seq<seq<nat>>, v: View, frames: seq<Frame>, moved: seq<Frame>)
    requires LowSound(adj, v, frames) && |moved| == |frames|
    requires forall i | 0 <= i < |frames| :: moved[i].node == frames[i].node
    ensures LowSound(adj, v, moved)
  {
    forall i | 0 <= i < |moved|
      ensures LowSoundAt(adj, v, moved[i].node)
    {
      assert LowSoundAt(adj, v, frames[i].node);
    }
  }

  /** A child that is already closed changes nothing; one still stacked bounds the lowlink. */
  lemma AdvanceKeeps(adj: seq<seq<nat>>, v: View, now: View, frames: seq<Frame>, after: seq<Frame>, child: nat)
    requires Invariant(adj, v, frames) && frames != []
    requires var top := frames[|frames| - 1]; top.nextChild < |adj[top.node]| && child == adj[top.node][top.nextChild]
    requires Seen(v, child) && after == Advanced(frames)
    requires now == if Stacked(v, child) then Lowered(v, frames[|frames| - 1].node, v.discovery[child]) else v
    ensures Invariant(adj, now, after)
  {
    assert LowersTowards(v, now, frames[|frames| - 1].node, child);
    AdvanceKeepsAs(adj, v, now, frames, child);
  }

  // ----- facts about the frames and their segments

  lemma {:induction false} FramesReach(adj: seq<seq<nat>>, v: View, frames: seq<Frame>, i: nat, j: nat)
    requires Shaped(adj, v) && Framed(adj, v, frames) && i <= j < |frames|
    ensures Reaches(IndexEdges(adj), frames[i].node, frames[j].node)
    decreases j - i
  {
    if i == j {
      ReachesSelf(IndexEdges(adj), frames[i].node);
    } else {
      FramesReach(adj, v, frames, i, j - 1);
      EdgeReaches(adj, frames[j - 1].node, frames[j - 1].nextChild - 1);
      ReachesTrans(IndexEdges(adj), frames[i].node, frames[j - 1].node, frames[j].node);
    }
  }

  lemma BottomIsLowest(adj: seq<seq<nat>>, v: View, frames: seq<Frame>, x: nat)
    requires Numbered(adj, v) && Framed(adj, v, frames) && x in v.stack
    ensures frames != [] && v.discovery[frames[0].node] <= v.discovery[x]
  {
    var k :| 0 <= k < |v.stack| && v.stack[k] == x;
    assert v.stack[0] == frames[0].node;
    if k > 0 {
      assert v.discovery[v.stack[0]] < v.discovery[v.stack[k]];
    }
  }

  /** Every stacked node lies in some segment: the last one that is not above it. */
  lemma OwnerOf(adj: seq<seq<nat>>, v: View, frames: seq<Frame>, x: nat, j: nat) returns (i: nat)
    requires Numbered(adj, v) && Framed(adj, v, frames)
    requires x in v.stack && j < |frames|
    requires j + 1 < |frames| ==> v.discovery[x] < v.discovery[frames[j + 1].node]
    ensures i <= j && Owns(v, frames, i, x)
  {
    BottomIsLowest(adj, v, frames, x);
    i := j;
    while v.discovery[x] < v.discovery[frames[i].node]
      invariant i <= j
      invariant i + 1 < |frames| ==> v.discovery[x] < v.discovery[frames[i + 1].node]
      decreases i
    {
      i := i - 1;
    }
  }

  /** From anywhere on the component stack the traversal's current path can be rejoined and followed. */
  lemma StackedReaches(adj: seq<seq<nat>>, v: View, frames: seq<Frame>, x: nat, j: nat)
    requires Numbered(adj, v) && Framed(adj, v, frames) && Segmented(adj, v, frames)
    requires x in v.stack && j < |frames|
    requires j + 1 < |frames| ==> v.discovery[x] < v.discovery[frames[j + 1].node]
    ensures Reaches(IndexEdges(adj), x, frames[j].node)
  {
    var i := OwnerOf(adj, v, frames, x, j);
    FramesReach(adj, v, frames, i, j);
    ReachesTrans(IndexEdges(adj), x, frames[i].node, frames[j].node);
  }

  // ----- leaving a node whose segment is not yet a component

  /** The frame below takes over the segment of the frame that ends. */
  lemma MergedOwns(v: View, now: View, frames: seq<Frame>, i: nat, x: nat)
    requires |frames| >= 2 && now.discovery == v.discovery
    requires Owns(now, frames[..|frames| - 1], i, x)
    requires Seen(v, frames[|frames| - 1].node)
    ensures Owns(v, frames, i, x) || (i == |frames| - 2 && Owns(v, frames, |frames| - 1, x))
  {
  }

  lemma RestFramed(adj: seq<seq<nat>>, v: View, now: View, frames: seq<Frame>)
    requires Shaped(adj, v) && Framed(adj, v, frames) && |frames| >= 2
    requires LowersAs(v, now, frames[|frames| - 2].node)
    ensures Framed(adj, now, frames[..|frames| - 1])
  {
    var rest := frames[..|frames| - 1];
    assert forall i | 0 <= i < |rest| :: rest[i] == frames[i];
  }

  lemma FinishedReachesParent(adj: seq<seq<nat>>, v: View, frames: seq<Frame>)
    requires Invariant(adj, v, frames) && frames != []
    requires v.lowlink[frames[|frames| - 1].node] != v.discovery[frames[|frames| - 1].node]
    ensures |frames| >= 2
    ensures Mutual(IndexEdges(adj), frames[|frames| - 2].node, frames[|frames| - 1].node)
  {
    var last := |frames| - 1;
    var c := frames[last].node;
    assert LowSoundAt(adj, v, c);
    var u :| LowWitness(adj, v, c, u);
    BottomIsLowest(adj, v, frames, u);
    StackedReaches(adj, v, frames, u, last - 1);
    ReachesTrans(IndexEdges(adj), c, u, frames[last - 1].node);
    FramesReach(adj, v, frames, last - 1, last);
  }

  lemma MergedSegmented(adj: seq<seq<nat>>, v: View, now: View, frames: seq<Frame>)
    requires |frames| >= 2 && now.discovery == v.discovery && now.stack == v.stack
    requires Segmented(adj, v, frames) && Seen(v, frames[|frames| - 1].node)
    requires Mutual(IndexEdges(adj), frames[|frames| - 2].node, frames[|frames| - 1].node)
    ensures Segmented(adj, now, frames[..|frames| - 1])
  {
    var rest := frames[..|frames| - 1];
    forall i: nat, x: nat | Owns(now, rest, i, x) && x in now.stack
      ensures Mutual(IndexEdges(adj), rest[i].node, x)
    {
      MergedOwns(v, now, frames, i, x);
      if !Owns(v, frames, i, x) {
        MutualTrans(IndexEdges(adj), rest[i].node, frames[|frames| - 1].node, x);
      }
    }
  }

  /** The lowlink the frame below is left with: the smaller of the two. */
  ghost predicate TakesLower(v: View, now: View, parent: nat, child: nat) {
    && LowersAs(v, now, parent) && parent < |v.lowlink| && child < |v.lowlink|
    && now.lowlink[parent] == if v.lowlink[child] < v.lowlink[parent] then v.lowlink[child] else v.lowlink[parent]
  }

  lemma MergedSound(adj: seq<seq<nat>>, v: View, now: View, frames: seq<Frame>)
    requires |frames| >= 2 && LowSound(adj, v, frames)
    requires TakesLower(v, now, frames[|frames| - 2].node, frames[|frames| - 1].node)
    requires Reaches(IndexEdges(adj), frames[|frames| - 2].node, frames[|frames| - 1].node)
    ensures LowSound(adj, now, frames[..|frames| - 1])
  {
    var rest := frames[..|frames| - 1];
    var parent := frames[|frames| - 2].node;
    var child := frames[|frames| - 1].node;
    forall i | 0 <= i < |rest|
      ensures LowSoundAt(adj, now, rest[i].node)
    {
      assert LowSoundAt(adj, v, frames[i].node) && LowSoundAt(adj, v, child);
      var u :| LowWitness(adj, v, frames[i].node, u);
      if rest[i].node == parent && v.lowlink[child] < v.lowlink[parent] {
        var w :| LowWitness(adj, v, child, w);
        ReachesTrans(IndexEdges(adj), parent, child, w);
        assert LowWitness(adj, now, parent, w);
      } else {
        assert LowWitness(adj, now, rest[i].node, u);
      }
    }
  }

  lemma MergedBound(adj: seq<seq<nat>>, v: View, now: View, frames: seq<Frame>)
    requires |frames| >= 2 && LowBound(adj, v, frames) && Seen(v, frames[|frames| - 1].node)
    requires TakesLower(v, now, frames[|frames| - 2].node, frames[|frames| - 1].node)
    requires var top := frames[|frames| - 1]; top.node < |adj| && top.nextChild == |adj[top.node]|
    ensures LowBound(adj, now, frames[..|frames| - 1])
  {
    var rest := frames[..|frames| - 1];
    forall i: nat, x: nat, c: nat | Owns(now, rest, i, x) && x in now.stack && Looked(adj, rest, i, x, c)
      ensures BoundedAt(now, rest[i].node, adj[x][c])
    {
      MergedOwns(v, now, frames, i, x);
      if Owns(v, frames, i, x) {
        assert Looked(adj, frames, i, x, c);
        assert BoundedAt(v, frames[i].node, adj[x][c]);
      } else {
        assert Looked(adj, frames, |frames| - 1, x, c);
        assert BoundedAt(v, frames[|frames| - 1].node, adj[x][c]);
      }
    }
  }

  /** A finished node that reaches below itself joins the segment of its parent. */
  lemma LeaveKeeps(adj: seq<seq<nat>>, v: View, now: View, frames: seq<Frame>, after: seq<Frame>)
    requires Invariant(adj, v, frames) && |frames| >= 2 && after == frames[..|frames| - 1]
    requires frames[|frames| - 1].nextChild == |adj[frames[|frames| - 1].node]|
    requires v.lowlink[frames[|frames| - 1].node] != v.discovery[frames[|frames| - 1].node]
    requires now == Lowered(v, frames[|frames| - 2].node, v.lowlink[frames[|frames| - 1].node])
    ensures Invariant(adj, now, after)
  {
    FinishedReachesParent(adj, v, frames);
    LeaveKeepsAs(adj, v, now, frames);
  }

  lemma LeaveKeepsAs(adj: seq<seq<nat>>, v: View, now: View, frames: seq<Frame>)
    requires Invariant(adj, v, frames) && |frames| >= 2
    requires frames[|frames| - 1].nextChild == |adj[frames[|frames| - 1].node]|
    requires Mutual(IndexEdges(adj), frames[|frames| - 2].node, frames[|frames| - 1].node)
    requires TakesLower(v, now, frames[|frames| - 2].node, frames[|frames| - 1].node)
    ensures Invariant(adj, now, frames[..|frames| - 1])
  {
    LowerKeepsPlaces(adj, v, now, frames[|frames| - 2].node);
    RestFramed(adj, v, now, frames);
    MergedSegmented(adj, v, now, frames);
    MergedSound(adj, v, now, frames);
    MergedBound(adj, v, now, frames);
  }

  // ----- closing a component

  /** What closing the component of `c` does, in the terms the invariant is stated in. */
  ghost predicate ClosesAs(adj: seq<seq<nat>>, v: View, now: View, c: nat, group: seq<nat>) {
    && Shaped(adj, v) && Shaped(adj, now) && Seen(v, c)
    && now.discovery == v.discovery && now.lowlink == v.lowlink && now.nextIndex == v.nextIndex
    && now.groups == v.groups + [group]
    && group != [] && Distinct(group)
    && now.stack <= v.stack
    && (forall x: nat :: x in group <==> x in v.stack && Seen(v, x) && v.discovery[c] <= v.discovery[x])
    && (forall x: nat :: x in now.stack <==> x in v.stack && x !in group)
    && (forall x: nat :: Stacked(now, x) <==> Stacked(v, x) && x !in group)
  }

  lemma {:induction false} ReversedContents(s: seq<nat>)
    ensures |Reversed(s)| == |s|
    ensures forall x :: x in Reversed(s) <==> x in s
  {
    if s != [] {
      ReversedContents(s[1..]);
      assert s == [s[0]] + s[1..];
    }
  }

  lemma {:induction false} ReversedDistinct(s: seq<nat>)
    requires Distinct(s)
    ensures Distinct(Reversed(s))
  {
    if s != [] {
      ReversedDistinct(s[1..]);
      ReversedContents(s[1..]);
      assert s[0] !in s[1..];
    }
  }

  lemma StackDistinct(adj: seq<seq<nat>>, v: View, at: nat)
    requires Numbered(adj, v) && at <= |v.stack|
    ensures Distinct(v.stack) && Distinct(v.stack[at..])
  {
    forall k, l | 0 <= k < l < |v.stack|
      ensures v.stack[k] != v.stack[l]
    {
      assert v.discovery[v.stack[k]] < v.discovery[v.stack[l]];
    }
  }

  lemma PoppedEffect(adj: seq<seq<nat>>, v: View, c: nat)
    requires Numbered(adj, v) && c in v.stack
    ensures ClosesAs(adj, v, Popped(v, c), c, Popped(v, c).groups[|v.groups|])
  {
    var at := Position(v.stack, c).value;
    var cut := v.stack[at..];
    var now := Popped(v, c);
    StackDistinct(adj, v, at);
    ReversedContents(cut);
    ReversedDistinct(cut);
    CutAt(adj, v, at);
    assert now.stack == v.stack[..at] && now.groups[|v.groups|] == Reversed(cut);
    assert forall x: nat :: Stacked(now, x) <==> Stacked(v, x) && x !in cut;
  }

  /** The stack from `at` upwards holds exactly the stacked nodes discovered from there on. */
  lemma CutAt(adj: seq<seq<nat>>, v: View, at: nat)
    requires Numbered(adj, v) && at < |v.stack|
    ensures forall x: nat ::
              x in v.stack[at..] <==> x in v.stack && Seen(v, x) && v.discovery[v.stack[at]] <= v.discovery[x]
    ensures forall x: nat :: x in v.stack[..at] <==> x in v.stack && x !in v.stack[at..]
  {
    forall k | 0 <= k < at
      ensures v.discovery[v.stack[..at][k]] < v.discovery[v.stack[at]]
    {
      assert v.discovery[v.stack[k]] < v.discovery[v.stack[at]];
    }
    forall k | 0 <= k < |v.stack[at..]|
      ensures v.discovery[v.stack[at]] <= v.discovery[v.stack[at..][k]]
    {
      if k > 0 {
        assert v.discovery[v.stack[at]] < v.discovery[v.stack[at + k]];
      }
    }
    assert v.stack == v.stack[..at] + v.stack[at..];
  }

  lemma ClosedNumbered(adj: seq<seq<nat>>, v: View, now: View, c: nat, group: seq<nat>)
    requires ClosesAs(adj, v, now, c, group) && Numbered(adj, v)
    ensures Numbered(adj, now)
  {
    assert SeenSet(now) == SeenSet(v);
    assert forall k | 0 <= k < |now.stack| :: now.stack[k] == v.stack[k];
  }

  lemma RestStillFramed(adj: seq<seq<nat>>, v: View, now: View, frames: seq<Frame>, group: seq<nat>)
    requires Numbered(adj, v) && Framed(adj, v, frames) && frames != []
    requires ClosesAs(adj, v, now, frames[|frames| - 1].node, group)
    ensures Framed(adj, now, frames[..|frames| - 1])
  {
    var rest := frames[..|frames| - 1];
    assert forall i | 0 <= i < |rest| :: rest[i] == frames[i];
    forall i | 0 <= i < |rest|
      ensures rest[i].node in now.stack
    {
      assert v.discovery[frames[i].node] < v.discovery[frames[|frames| - 1].node];
    }
    if now.stack != [] {
      assert now.stack[0] == v.stack[0] == frames[0].node;
      assert v.stack[0] in now.stack;
    }
  }

  /** What is left on the stack lies below the closed component, in the segments it was in. */
  lemma ClosedOwns(v: View, now: View, frames: seq<Frame>, i: nat, x: nat)
    requires frames != [] && now.discovery == v.discovery
    requires Owns(now, frames[..|frames| - 1], i, x)
    requires Seen(v, frames[|frames| - 1].node) && v.discovery[x] < v.discovery[frames[|frames| - 1].node]
    ensures Owns(v, frames, i, x)
  {
  }

  lemma ClosedSegmentsAndLow(adj: seq<seq<nat>>, v: View, now: View, frames: seq<Frame>, group: seq<nat>)
    requires Invariant(adj, v, frames) && frames != []
    requires ClosesAs(adj, v, now, frames[|frames| - 1].node, group)
    ensures Segmented(adj, now, frames[..|frames| - 1])
    ensures LowBound(adj, now, frames[..|frames| - 1])
  {
    var rest := frames[..|frames| - 1];
    forall i: nat, x: nat | Owns(now, rest, i, x) && x in now.stack
      ensures Mutual(IndexEdges(adj), rest[i].node, x)
      ensures forall c: nat | Looked(adj, rest, i, x, c) :: BoundedAt(now, rest[i].node, adj[x][c])
    {
      ClosedOwns(v, now, frames, i, x);
      forall c: nat | Looked(adj, rest, i, x, c)
        ensures BoundedAt(now, rest[i].node, adj[x][c])
      {
        assert Looked(adj, frames, i, x, c);
        assert BoundedAt(v, frames[i].node, adj[x][c]);
      }
    }
  }

  lemma ClosedSound(adj: seq<seq<nat>>, v: View, now: View, frames: seq<Frame>, group: seq<nat>)
    requires Invariant(adj, v, frames) && frames != []
    requires ClosesAs(adj, v, now, frames[|frames| - 1].node, group)
    ensures LowSound(adj, now, frames[..|frames| - 1])
  {
    var rest := frames[..|frames| - 1];
    forall i | 0 <= i < |rest|
      ensures LowSoundAt(adj, now, rest[i].node)
    {
      assert LowSoundAt(adj, v, frames[i].node);
      var u :| LowWitness(adj, v, frames[i].node, u);
      assert v.discovery[frames[i].node] < v.discovery[frames[|frames| - 1].node];
      assert LowWitness(adj, now, rest[i].node, u);
    }
  }

  /** No edge leaves a finished segment whose lowlink is its own discovery index, except to closed nodes. */
  lemma SegmentIsClosed(adj: seq<seq<nat>>, v: View, frames: seq<Frame>, x: nat, w: nat)
    requires Invariant(adj, v, frames) && frames != []
    requires frames[|frames| - 1].nextChild == |adj[frames[|frames| - 1].node]|
    requires v.lowlink[frames[|frames| - 1].node] == v.discovery[frames[|frames| - 1].node]
    requires x in v.stack && v.discovery[frames[|frames| - 1].node] <= v.discovery[x]
    requires w in adj[x]
    ensures Seen(v, w)
    ensures w in v.stack ==> v.discovery[frames[|frames| - 1].node] <= v.discovery[w]
  {
    var last := |frames| - 1;
    var c :| 0 <= c < |adj[x]| && adj[x][c] == w;
    assert Owns(v, frames, last, x);
    assert Looked(adj, frames, last, x, c);
    assert BoundedAt(v, frames[last].node, adj[x][c]);
  }

  lemma ClosedMembers(adj: seq<seq<nat>>, v: View, now: View, c: nat, group: seq<nat>)
    requires ClosesAs(adj, v, now, c, group) && Numbered(adj, v)
    ensures forall x: nat :: Closed(now, x) <==> Closed(v, x) || x in group
    ensures forall x: nat | x in group :: !Closed(v, x)
  {
  }

  /** Once the segment is closed, no edge at all leaves the closed nodes. */
  lemma ClosedSealed(adj: seq<seq<nat>>, v: View, now: View, frames: seq<Frame>, group: seq<nat>, x: nat, w: nat)
    requires Invariant(adj, v, frames) && frames != []
    requires ClosesAs(adj, v, now, frames[|frames| - 1].node, group)
    requires frames[|frames| - 1].nextChild == |adj[frames[|frames| - 1].node]|
    requires v.lowlink[frames[|frames| - 1].node] == v.discovery[frames[|frames| - 1].node]
    requires Closed(now, x) && w in adj[x]
    ensures Closed(now, w)
  {
    ClosedMembers(adj, v, now, frames[|frames| - 1].node, group);
    if x in group {
      SegmentIsClosed(adj, v, frames, x, w);
    }
  }

  lemma GroupIsComponent(adj: seq<seq<nat>>, v: View, now: View, frames: seq<Frame>, group: seq<nat>)
    requires Invariant(adj, v, frames) && frames != []
    requires ClosesAs(adj, v, now, frames[|frames| - 1].node, group)
    requires forall x: nat :: Closed(now, x) <==> Closed(v, x) || x in group
    requires forall x: nat, w: nat | Closed(now, x) && w in adj[x] :: Closed(now, w)
    ensures IsComponent(adj, now, group)
  {
    var es := IndexEdges(adj);
    var last := |frames| - 1;
    forall x: nat, y: nat | x in group && y < |adj|
      ensures y in group <==> Mutual(es, x, y)
    {
      assert Owns(v, frames, last, x);
      if y in group {
        assert Owns(v, frames, last, y);
        MutualTrans(es, x, frames[last].node, y);
      }
      if Mutual(es, x, y) {
        var sealed := set z: nat | z < |adj| && Closed(now, z);
        ClosedUnderReach(es, sealed, x, y);
        if Closed(v, y) {
          var before := set z: nat | z < |adj| && Closed(v, z);
          ClosedUnderReach(es, before, y, x);
        }
      }
    }
  }

  lemma OldGroupsStand(adj: seq<seq<nat>>, v: View, now: View, c: nat, group: seq<nat>)
    requires ClosesAs(adj, v, now, c, group) && Grouped(adj, v) && Numbered(adj, v)
    requires forall x: nat :: Closed(now, x) <==> Closed(v, x) || x in group
    requires forall x: nat | x in group :: !Closed(v, x)
    requires IsComponent(adj, now, group)
    ensures forall g | 0 <= g < |now.groups| :: IsComponent(adj, now, now.groups[g])
    ensures forall g, h | 0 <= g < h < |now.groups| :: Disjoint(now.groups[g], now.groups[h])
    ensures forall x: nat | Closed(now, x) :: exists g :: 0 <= g < |now.groups| && x in now.groups[g]
  {
    forall g | 0 <= g < |v.groups|
      ensures IsComponent(adj, now, now.groups[g]) && Disjoint(now.groups[g], group)
    {
      assert IsComponent(adj, v, v.groups[g]);
    }
    forall g, h | 0 <= g < h < |now.groups|
      ensures Disjoint(now.groups[g], now.groups[h])
    {
      if h < |v.groups| {
        assert Disjoint(v.groups[g], v.groups[h]);
      }
    }
    forall x: nat | Closed(now, x)
      ensures exists g :: 0 <= g < |now.groups| && x in now.groups[g]
    {
      if x in group {
        assert x in now.groups[|v.groups|];
      } else {
        var g :| 0 <= g < |v.groups| && x in v.groups[g];
        assert x in now.groups[g];
      }
    }
  }

  lemma CloseKeepsAs(adj: seq<seq<nat>>, v: View, now: View, frames: seq<Frame>, group: seq<nat>)
    requires Invariant(adj, v, frames) && frames != []
    requires ClosesAs(adj, v, now, frames[|frames| - 1].node, group)
    requires frames[|frames| - 1].nextChild == |adj[frames[|frames| - 1].node]|
    requires v.lowlink[frames[|frames| - 1].node] == v.discovery[frames[|frames| - 1].node]
    ensures Invariant(adj, now, frames[..|frames| - 1])
  {
    ClosedNumbered(adj, v, now, frames[|frames| - 1].node, group);
    RestStillFramed(adj, v, now, frames, group);
    ClosedSegmentsAndLow(adj, v, now, frames, group);
    ClosedSound(adj, v, now, frames, group);
    ClosedMembers(adj, v, now, frames[|frames| - 1].node, group);
    forall x: nat, w: nat | Closed(now, x) && w in adj[x]
      ensures Closed(now, w)
    {
      ClosedSealed(adj, v, now, frames, group, x, w);
    }
    GroupIsComponent(adj, v, now, frames, group);
    OldGroupsStand(adj, v, now, frames[|frames| - 1].node, group);
  }

  /**
   A finished node that reaches nothing below itself closes its segment as a component. Its lowlink is
   still folded into its parent's afterwards, which changes nothing: the parent's is already smaller.
   */
  lemma CloseKeeps(adj: seq<seq<nat>>, v: View, now: View, frames: seq<Frame>, after: seq<Frame>)
    requires Invariant(adj, v, frames) && frames != [] && after == frames[..|frames| - 1]
    requires frames[|frames| - 1].nextChild == |adj[frames[|frames| - 1].node]|
    requires v.lowlink[frames[|frames| - 1].node] == v.discovery[frames[|frames| - 1].node]
    requires now == Popped(v, frames[|frames| - 1].node)
    ensures Invariant(adj, now, after)
    ensures |frames| >= 2 ==> Lowered(now, frames[|frames| - 2].node, v.lowlink[frames[|frames| - 1].node]) == now
  {
    var c := frames[|frames| - 1].node;
    PoppedEffect(adj, v, c);
    CloseKeepsAs(adj, v, now, frames, now.groups[|v.groups|]);
    if |frames| >= 2 {
      FoldingClosedIsHarmless(adj, v, now, frames);
    }
  }

  lemma FoldingClosedIsHarmless(adj: seq<seq<nat>>, v: View, now: View, frames: seq<Frame>)
    requires Shaped(adj, v) && Framed(adj, v, frames) && LowSound(adj, v, frames) && |frames| >= 2
    requires v.lowlink[frames[|frames| - 1].node] == v.discovery[frames[|frames| - 1].node]
    requires now.lowlink == v.lowlink
    ensures Lowered(now, frames[|frames| - 2].node, v.lowlink[frames[|frames| - 1].node]) == now
  {
    assert LowSoundAt(adj, v, frames[|frames| - 2].node);
  }
}
