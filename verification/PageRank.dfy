/**
 PageRank by power iteration, over exact reals. Each round pushes a node's damped score along its
 edges and spreads the score of dangling nodes evenly, so that no score is ever lost.
 */
module PageRank {
  import opened Graphs
  import opened Ordering

  datatype RankedNode<N> = RankedNode(node: N, score: real)

  ghost function Sum(s: seq<real>): real {
    if s == [] then 0.0 else Sum(s[..|s| - 1]) + s[|s| - 1]
  }

  // ----- the defining equation: what a node receives in one round

  /** The score held by the nodes without an outgoing edge, among the first `m`. */
  ghost function Dangling(out: seq<seq<nat>>, scores: seq<real>, m: nat): real
    requires |scores| == |out| && m <= |out|
  {
    if m == 0 then 0.0
    else Dangling(out, scores, m - 1) + (if out[m - 1] == [] then scores[m - 1] else 0.0)
  }

  /** What every node receives regardless of its incoming edges. */
  ghost function Floor(out: seq<seq<nat>>, damping: real, scores: seq<real>): real
    requires |scores| == |out| > 0
  {
    (1.0 - damping) / |out| as real + damping * Dangling(out, scores, |out|) / |out| as real
  }

  /** The part of a source's score that goes along each of its edges. */
  ghost function Share(out: seq<seq<nat>>, damping: real, scores: seq<real>, source: nat): real
    requires |scores| == |out| && source < |out| && out[source] != []
  {
    damping * scores[source] / |out[source]| as real
  }

  /** What `target` receives along edges from the first `m` nodes. */
  ghost function Inflow(out: seq<seq<nat>>, damping: real, scores: seq<real>, target: nat, m: nat): real
    requires |scores| == |out| && m <= |out|
  {
    if m == 0 then 0.0
    else
      Inflow(out, damping, scores, target, m - 1)
      + (if target in out[m - 1] then Share(out, damping, scores, m - 1) else 0.0)
  }

  /** One round: every node's new score is the floor plus what its predecessors share with it. */
  ghost predicate Round(out: seq<seq<nat>>, damping: real, scores: seq<real>, next: seq<real>) {
    && |scores| == |out| == |next| && |out| > 0
    && forall t: nat | t < |out| :: next[t] == Floor(out, damping, scores) + Inflow(out, damping, scores, t, |out|)
  }

  /** `scores` is the uniform distribution after `rounds` rounds. */
  ghost predicate After(out: seq<seq<nat>>, damping: real, rounds: nat, scores: seq<real>)
  {
    && |scores| == |out| > 0
    && if rounds == 0 then forall t | 0 <= t < |scores| :: scores[t] == 1.0 / |out| as real
       else exists before :: After(out, damping, rounds - 1, before) && Round(out, damping, before, scores)
  }

  // ----- sums

  lemma {:induction false} SumUpdate(s: seq<real>, i: nat, x: real)
    requires i < |s|
    ensures Sum(s[i := x]) == Sum(s) - s[i] + x
  {
    var t := s[i := x];
    if i < |s| - 1 {
      SumUpdate(s[..|s| - 1], i, x);
      assert t[..|t| - 1] == s[..|s| - 1][i := x];
    } else {
      assert t[..|t| - 1] == s[..|s| - 1];
    }
  }

  lemma {:induction false} SumConstant(s: seq<real>, c: real)
    requires forall i | 0 <= i < |s| :: s[i] == c
    ensures Sum(s) == |s| as real * c
  {
    if s != [] {
      SumConstant(s[..|s| - 1], c);
      assert |s| as real == (|s| - 1) as real + 1.0;
    }
  }

  lemma TimesQuotient(n: real, x: real)
    requires n != 0.0
    ensures n * (x / n) == x
  {
  }

  /** The floors of a round add up to the teleported mass and the damped dangling mass. */
  lemma FloorMass(out: seq<seq<nat>>, damping: real, scores: seq<real>)
    requires |scores| == |out| > 0
    ensures |out| as real * Floor(out, damping, scores) == 1.0 - damping + damping * Dangling(out, scores, |out|)
  {
    var n := |out| as real;
    TimesQuotient(n, 1.0 - damping);
    TimesQuotient(n, damping * Dangling(out, scores, |out|));
  }

  /** Damped score that leaves the first `m` nodes along edges. */
  ghost function Pushed(out: seq<seq<nat>>, damping: real, scores: seq<real>, m: nat): real
    requires |scores| == |out| && m <= |out|
  {
    if m == 0 then 0.0
    else Pushed(out, damping, scores, m - 1) + (if out[m - 1] == [] then 0.0 else damping * scores[m - 1])
  }

  lemma {:induction false} PushedOrDangling(out: seq<seq<nat>>, damping: real, scores: seq<real>, m: nat)
    requires |scores| == |out| && m <= |out|
    ensures Pushed(out, damping, scores, m) + damping * Dangling(out, scores, m) == damping * Sum(scores[..m])
  {
    if m > 0 {
      PushedOrDangling(out, damping, scores, m - 1);
      assert scores[..m][..m - 1] == scores[..m - 1];
      var s, d, x := Sum(scores[..m - 1]), Dangling(out, scores, m - 1), scores[m - 1];
      assert damping * (s + x) == damping * s + damping * x;
      assert damping * (d + x) == damping * d + damping * x;
    }
  }

  /** What a round starts with, and what is pushed along edges, are what it took in. */
  lemma MassIsKept(out: seq<seq<nat>>, damping: real, scores: seq<real>)
    requires |scores| == |out|
    ensures 1.0 - damping + damping * Dangling(out, scores, |out|) + Pushed(out, damping, scores, |out|)
         == 1.0 - damping + damping * Sum(scores)
  {
    PushedOrDangling(out, damping, scores, |out|);
    assert scores[..|out|] == scores;
  }

  // ----- the power iteration

  /** The dangling mass of one round. */
  method DanglingMass(out: seq<seq<nat>>, scores: seq<real>) returns (mass: real)
    requires |scores| == |out|
    ensures mass == Dangling(out, scores, |out|)
  {
    mass := 0.0;
    for node := 0 to |out|
      invariant mass == Dangling(out, scores, node)
    {
      if |out[node]| == 0 {
        mass := mass + scores[node];
      }
    }
  }

  /** `x` added up `n` times. */
  ghost function Repeated(n: nat, x: real): real {
    if n == 0 then 0.0 else Repeated(n - 1, x) + x
  }

  lemma {:induction false} RepeatedIsProduct(n: nat, x: real)
    ensures Repeated(n, x) == n as real * x
  {
    if n > 0 {
      RepeatedIsProduct(n - 1, x);
      var m := (n - 1) as real;
      assert n as real == m + 1.0;
      assert (m + 1.0) * x == m * x + x;
    }
  }

  /** `after` is `before` with `share` added for each of the targets. */
  ghost predicate Shared(before: seq<real>, after: seq<real>, targets: seq<nat>, share: real) {
    && |after| == |before|
    && forall t: nat | t < |before| :: after[t] == before[t] + (if t in targets then share else 0.0)
  }

  lemma ShareOnce(before: seq<real>, now: seq<real>, targets: seq<nat>, j: nat, share: real)
    requires Distinct(targets) && j < |targets| && targets[j] < |before|
    requires Shared(before, now, targets[..j], share)
    ensures Shared(before, now[targets[j] := now[targets[j]] + share], targets[..j + 1], share)
    ensures Sum(now[targets[j] := now[targets[j]] + share]) == Sum(now) + share
  {
    assert targets[..j + 1] == targets[..j] + [targets[j]];
    SumUpdate(now, targets[j], now[targets[j]] + share);
  }

  /** Pushes `share` along each edge of one source. */
  method PushAlong(next: seq<real>, targets: seq<nat>, share: real) returns (next': seq<real>)
    requires Distinct(targets) && forall j | 0 <= j < |targets| :: targets[j] < |next|
    ensures Shared(next, next', targets, share)
    ensures Sum(next') == Sum(next) + Repeated(|targets|, share)
  {
    next' := next;
    for j := 0 to |targets|
      invariant Shared(next, next', targets[..j], share)
      invariant Sum(next') == Sum(next) + Repeated(j, share)
    {
      ShareOnce(next, next', targets, j, share);
      var target := targets[j];
      next' := next'[target := next'[target] + share];
    }
    assert targets[..|targets|] == targets;
  }

  /** What every node starts a round with. */
  method RoundFloor(out: seq<seq<nat>>, damping: real, scores: seq<real>) returns (next: seq<real>)
    requires |scores| == |out| > 0
    ensures |next| == |out| && forall t | 0 <= t < |out| :: next[t] == Floor(out, damping, scores)
    ensures Sum(next) == 1.0 - damping + damping * Dangling(out, scores, |out|)
  {
    var population := |out| as real;
    var danglingMass := DanglingMass(out, scores);
    var floor := (1.0 - damping) / population + damping * danglingMass / population;
    next := seq(|out|, _ => floor);
    SumConstant(next, floor);
    FloorMass(out, damping, scores);
  }

  lemma PushedGrows(out: seq<seq<nat>>, damping: real, scores: seq<real>, source: nat)
    requires |scores| == |out| && source < |out|
    ensures out[source] == [] ==> Pushed(out, damping, scores, source + 1) == Pushed(out, damping, scores, source)
    ensures out[source] != [] ==>
              Pushed(out, damping, scores, source + 1)
              == Pushed(out, damping, scores, source) + Repeated(|out[source]|, Share(out, damping, scores, source))
  {
    if out[source] != [] {
      RepeatedIsProduct(|out[source]|, Share(out, damping, scores, source));
      TimesQuotient(|out[source]| as real, damping * scores[source]);
    }
  }

  /** The first `m` sources have shared what they have. */
  ghost predicate FlowedIn(out: seq<seq<nat>>, damping: real, scores: seq<real>, next: seq<real>, m: nat)
    requires |scores| == |out| > 0 && m <= |out|
  {
    && |next| == |out|
    && forall t: nat | t < |out| :: next[t] == Floor(out, damping, scores) + Inflow(out, damping, scores, t, m)
  }

  lemma FlowOnce(out: seq<seq<nat>>, damping: real, scores: seq<real>, now: seq<real>, next: seq<real>, m: nat)
    requires |scores| == |out| && m < |out| && FlowedIn(out, damping, scores, now, m)
    requires if out[m] == [] then next == now else Shared(now, next, out[m], Share(out, damping, scores, m))
    ensures FlowedIn(out, damping, scores, next, m + 1)
  {
  }

  /** One source's turn: a node with out-edges shares its score along them, a dangling one has already been shared. */
  method PushSource(out: seq<seq<nat>>, damping: real, scores: seq<real>, now: seq<real>,
                    source: nat) returns (next: seq<real>)
    requires Adjacency(out) && SimpleLists(out) && |scores| == |out| && source < |out|
    requires FlowedIn(out, damping, scores, now, source)
    ensures FlowedIn(out, damping, scores, next, source + 1)
    ensures Sum(next) - Pushed(out, damping, scores, source + 1) == Sum(now) - Pushed(out, damping, scores, source)
  {
    next := now;
    PushedGrows(out, damping, scores, source);
    if |out[source]| != 0 {
      var share := damping * scores[source] / |out[source]| as real;
      assert forall j | 0 <= j < |out[source]| :: out[source][j] in out[source];
      next := PushAlong(now, out[source], share);
    }
    FlowOnce(out, damping, scores, now, next, source);
  }

  /** One round of the iteration: it computes the defining equation, and what it hands out is what it took in. */
  method Iterate(out: seq<seq<nat>>, damping: real, scores: seq<real>) returns (next: seq<real>)
    requires Adjacency(out) && SimpleLists(out) && |scores| == |out| > 0
    ensures Round(out, damping, scores, next)
    ensures Sum(next) == 1.0 - damping + damping * Sum(scores)
  {
    next := RoundFloor(out, damping, scores);
    ghost var mass := Sum(next);
    MassIsKept(out, damping, scores);
    for source := 0 to |out|
      invariant FlowedIn(out, damping, scores, next, source)
      invariant Sum(next) == mass + Pushed(out, damping, scores, source)
    {
      next := PushSource(out, damping, scores, next, source);
    }
  }

  /** The order of the answer: higher score first, ties by identity. */
  function Outranks<N>(le: (N, N) -> bool): ((RankedNode<N>, RankedNode<N>) -> bool) {
    (left: RankedNode<N>, right: RankedNode<N>) =>
      left.score > right.score || (left.score == right.score && le(left.node, right.node))
  }

  lemma OutranksIsTotalOrder<N(!new)>(le: (N, N) -> bool)
    requires TotalOrder(le)
    ensures TotalOrder(Outranks(le))
  {
    var better := Outranks(le);
    forall x, y
      ensures better(x, y) || better(y, x)
      ensures better(x, y) && better(y, x) ==> x == y
    {
      assert le(x.node, y.node) || le(y.node, x.node);
    }
    forall x, y, z | better(x, y) && better(y, z)
      ensures better(x, z)
    {
      assert x.score == y.score == z.score ==> le(x.node, y.node) && le(y.node, z.node);
    }
  }

  function Pair<N>(nodes: seq<N>, scores: seq<real>): (paired: seq<RankedNode<N>>)
    requires |nodes| == |scores|
    ensures |paired| == |nodes|
    ensures forall i | 0 <= i < |nodes| :: paired[i] == RankedNode(nodes[i], scores[i])
  {
    seq(|nodes|, i requires 0 <= i < |nodes| => RankedNode(nodes[i], scores[i]))
  }

  ghost function TotalScore<N>(ranked: seq<RankedNode<N>>): real {
    if ranked == [] then 0.0 else ranked[0].score + TotalScore(ranked[1..])
  }

  lemma {:induction false} TotalOfSum<N>(nodes: seq<N>, scores: seq<real>)
    requires |nodes| == |scores|
    ensures TotalScore(Pair(nodes, scores)) == Sum(scores)
  {
    TotalOfTail(nodes, scores, 0);
    assert Pair(nodes, scores)[0..] == Pair(nodes, scores);
    assert scores[..|scores|] == scores;
  }

  lemma {:induction false} TotalOfTail<N>(nodes: seq<N>, scores: seq<real>, k: nat)
    requires |nodes| == |scores| && k <= |scores|
    ensures TotalScore(Pair(nodes, scores)[k..]) == Sum(scores) - Sum(scores[..k])
    decreases |scores| - k
  {
    var paired := Pair(nodes, scores);
    if k == |scores| {
      assert scores[..k] == scores;
    } else {
      TotalOfTail(nodes, scores, k + 1);
      assert paired[k..][1..] == paired[k + 1..];
      assert scores[..k + 1][..k] == scores[..k];
    }
  }

  lemma {:induction false} InsertTotal<N>(x: RankedNode<N>, s: seq<RankedNode<N>>,
                                          le: (RankedNode<N>, RankedNode<N>) -> bool)
    ensures TotalScore(Insert(x, s, le)) == x.score + TotalScore(s)
  {
    if s != [] && !le(x, s[0]) {
      InsertTotal(x, s[1..], le);
      assert ([s[0]] + Insert(x, s[1..], le))[1..] == Insert(x, s[1..], le);
    } else {
      assert ([x] + s)[1..] == s;
    }
  }

  lemma {:induction false} SortTotal<N>(s: seq<RankedNode<N>>, le: (RankedNode<N>, RankedNode<N>) -> bool)
    ensures TotalScore(Sort(s, le)) == TotalScore(s)
  {
    if s != [] {
      SortTotal(s[1..], le);
      InsertTotal(s[0], Sort(s[1..], le), le);
    }
  }

  /** Every node with its score, best first. */
  ghost predicate RankingOf<N(!new)>(nodes: seq<N>, scores: seq<real>, ranked: seq<RankedNode<N>>, le: (N, N) -> bool) {
    && |nodes| == |scores|
    && multiset(ranked) == multiset(Pair(nodes, scores))
    && Sorted(ranked, Outranks(le))
  }

  /** A node with a higher score comes first; with equal scores, the one that is less. */
  lemma BestFirst<N(!new)>(nodes: seq<N>, scores: seq<real>, ranked: seq<RankedNode<N>>, le: (N, N) -> bool, i: nat, j: nat)
    requires RankingOf(nodes, scores, ranked, le) && i < j < |ranked|
    ensures ranked[i].score > ranked[j].score || (ranked[i].score == ranked[j].score && le(ranked[i].node, ranked[j].node))
  {
    assert Outranks(le)(ranked[i], ranked[j]);
  }

  /** Every node has one row. */
  lemma RankedNodesApart<N(!new)>(nodes: seq<N>, scores: seq<real>, ranked: seq<RankedNode<N>>, le: (N, N) -> bool)
    requires RankingOf(nodes, scores, ranked, le) && Distinct(nodes)
    ensures forall i, j | 0 <= i < j < |ranked| :: ranked[i].node != ranked[j].node
  {
    var paired := Pair(nodes, scores);
    SameContents(paired, ranked);
    assert Distinct(paired);
    PermutedDistinct(paired, ranked);
    forall i, j | 0 <= i < j < |ranked|
      ensures ranked[i].node != ranked[j].node
    {
      assert ranked[i] in paired && ranked[j] in paired;
      var a :| 0 <= a < |paired| && paired[a] == ranked[i];
      var b :| 0 <= b < |paired| && paired[b] == ranked[j];
    }
  }

  /** Ranks every node of the graph; whatever its shape, the scores add up to one. */
  method Rank<N(==, !new)>(graph: Graph<N>, damping: real, iterations: nat, le: (N, N) -> bool)
    returns (ranked: seq<RankedNode<N>>)
    requires WellFormed(graph) && TotalOrder(le)
    ensures graph.nodeIds == [] ==> ranked == []
    ensures graph.nodeIds != [] ==>
              exists scores :: After(graph.outEdges, damping, iterations, scores)
                                 && RankingOf(graph.nodeIds, scores, ranked, le)
    ensures graph.nodeIds != [] ==> TotalScore(ranked) == 1.0
  {
    var count := |graph.nodeIds|;
    if count == 0 {
      return [];
    }
    var population := count as real;
    var scores := seq(count, _ => 1.0 / population);
    SumConstant(scores, 1.0 / population);
    TimesQuotient(population, 1.0);
    for round := 0 to iterations
      invariant After(graph.outEdges, damping, round, scores)
      invariant Sum(scores) == 1.0
    {
      var next := Iterate(graph.outEdges, damping, scores);
      scores := next;
    }
    var paired := Pair(graph.nodeIds, scores);
    ranked := Sort(paired, Outranks(le));
    OutranksIsTotalOrder(le);
    SortContents(paired, Outranks(le));
    SortSorted(paired, Outranks(le));
    SortTotal(paired, Outranks(le));
    TotalOfSum(graph.nodeIds, scores);
    assert RankingOf(graph.nodeIds, scores, ranked, le);
  }

  // ----- what the equation implies

  lemma {:induction false} DanglingNonNegative(out: seq<seq<nat>>, scores: seq<real>, m: nat)
    requires |scores| == |out| && m <= |out| && forall i | 0 <= i < |scores| :: scores[i] >= 0.0
    ensures Dangling(out, scores, m) >= 0.0
  {
    if m > 0 {
      DanglingNonNegative(out, scores, m - 1);
    }
  }

  lemma QuotientNonNegative(x: real, n: real)
    requires x >= 0.0 && n > 0.0
    ensures x / n >= 0.0
  {
  }

  lemma {:induction false} InflowNonNegative(out: seq<seq<nat>>, damping: real, scores: seq<real>, target: nat, m: nat)
    requires |scores| == |out| && m <= |out| && damping >= 0.0 && forall i | 0 <= i < |scores| :: scores[i] >= 0.0
    ensures Inflow(out, damping, scores, target, m) >= 0.0
  {
    if m > 0 {
      InflowNonNegative(out, damping, scores, target, m - 1);
      if target in out[m - 1] {
        assert damping * scores[m - 1] >= 0.0;
        QuotientNonNegative(damping * scores[m - 1], |out[m - 1]| as real);
      }
    }
  }

  /** With a damping in the unit interval no score ever drops below the teleport share. */
  lemma {:induction false} ScoresStayAboveTeleport(out: seq<seq<nat>>, damping: real, rounds: nat, scores: seq<real>)
    requires 0.0 <= damping <= 1.0 && After(out, damping, rounds, scores)
    ensures forall t | 0 <= t < |scores| :: scores[t] >= (1.0 - damping) / |out| as real >= 0.0
  {
    var n := |out| as real;
    QuotientNonNegative(1.0 - damping, n);
    if rounds == 0 {
      QuotientNonNegative(damping, n);
      assert 1.0 / n == (1.0 - damping) / n + damping / n;
    } else {
      var before :| After(out, damping, rounds - 1, before) && Round(out, damping, before, scores);
      ScoresStayAboveTeleport(out, damping, rounds - 1, before);
      DanglingNonNegative(out, before, |out|);
      assert damping * Dangling(out, before, |out|) >= 0.0;
      QuotientNonNegative(damping * Dangling(out, before, |out|), n);
      forall t: nat | t < |scores|
        ensures scores[t] >= (1.0 - damping) / n
      {
        InflowNonNegative(out, damping, before, t, |out|);
      }
    }
  }

  /** The iteration is deterministic: the scores after a number of rounds are a function of the graph. */
  lemma {:induction false} ScoresDetermined(out: seq<seq<nat>>, damping: real, rounds: nat, a: seq<real>, b: seq<real>)
    requires After(out, damping, rounds, a) && After(out, damping, rounds, b)
    ensures a == b
  {
    if rounds > 0 {
      var beforeA :| After(out, damping, rounds - 1, beforeA) && Round(out, damping, beforeA, a);
      var beforeB :| After(out, damping, rounds - 1, beforeB) && Round(out, damping, beforeB, b);
      ScoresDetermined(out, damping, rounds - 1, beforeA, beforeB);
    }
  }

  /** What ranking a graph yields. */
  ghost predicate IsRanking<N(!new)>(graph: Graph<N>, damping: real, iterations: nat, le: (N, N) -> bool,
                                           ranked: seq<RankedNode<N>>)
  {
    if graph.nodeIds == [] then ranked == []
    else exists scores :: After(graph.outEdges, damping, iterations, scores) && RankingOf(graph.nodeIds, scores, ranked, le)
  }

  /** The ranking is a function of the graph. */
  lemma RankingDetermined<N(!new)>(graph: Graph<N>, damping: real, iterations: nat, le: (N, N) -> bool,
                                   a: seq<RankedNode<N>>, b: seq<RankedNode<N>>)
    requires TotalOrder(le) && IsRanking(graph, damping, iterations, le, a) && IsRanking(graph, damping, iterations, le, b)
    ensures a == b
  {
    if graph.nodeIds != [] {
      var x :| After(graph.outEdges, damping, iterations, x) && RankingOf(graph.nodeIds, x, a, le);
      var y :| After(graph.outEdges, damping, iterations, y) && RankingOf(graph.nodeIds, y, b, le);
      ScoresDetermined(graph.outEdges, damping, iterations, x, y);
      OutranksIsTotalOrder(le);
      SortedUnique(a, b, Outranks(le));
    }
  }
}
