/** The depth-limited, level-by-level traversal of src/causal/fused.rs. */
module BoundedBfs {
  import opened Walks
  import opened Bfs
  import opened Sorting
  import opened Layers
  import opened CausalGraph
  import opened CausalEngine

  /** `result` lists the discovered nodes other than the seed, nearest first. */
  ghost predicate Listed(result: seq<Node>, dist: map<Node, nat>, seed: Node) {
    && Distinct(result)
    && (forall n :: n in result <==> n in dist && n != seed)
    && (forall i, j :: 0 <= i < j < |result| ==> dist[result[i]] <= dist[result[j]])
  }

  lemma ListOneMore(result: seq<Node>, dist: map<Node, nat>, seed: Node, n: Node, d: nat)
    requires Listed(result, dist, seed) && n !in dist && n != seed
    requires forall m :: m in dist ==> dist[m] <= d
    ensures Listed(result + [n], dist[n := d], seed)
  {
    DistinctAppend(result, n);
    var longer, further := result + [n], dist[n := d];
    forall i, j | 0 <= i < j < |longer|
      ensures further[longer[i]] <= further[longer[j]]
    {
      assert result[i] in dist && longer[i] == result[i];
      if j < |result| { assert result[j] in dist && longer[j] == result[j]; }
    }
  }

  /** The queue while one level is expanded: `left` nodes of level `k`, then nodes of level `k + 1`. */
  ghost predicate LevelQueue(queue: seq<Node>, dist: map<Node, nat>, left: nat, k: nat) {
    && left <= |queue|
    && forall i :: 0 <= i < |queue| ==> queue[i] in dist && dist[queue[i]] == if i < left then k else k + 1
  }

  method AdjacencyOfAll(edges: seq<Edge>) returns (adj: map<Node, seq<Node>>)
    ensures Represents(adj, AllArcs(edges))
  {
    adj := map[];
    for i := 0 to |edges|
      invariant Represents(adj, AllArcs(edges[..i]))
    {
      var e := edges[i];
      assert edges[..i + 1] == edges[..i] + [e];
      OneMoreArc(adj, AllArcs(edges[..i]), e.source, e.target);
      assert AllArcs(edges[..i + 1]) == AllArcs(edges[..i]) + {(e.source, e.target)};
      adj := adj[e.source := (if e.source in adj then adj[e.source] else []) + [e.target]];
    }
    assert edges[..|edges|] == edges;
  }

  /** What the search knows after `depth` levels is exactly the ball of that radius. */
  lemma BallIsComplete(g: Arcs, seed: Node, queue: seq<Node>, dist: map<Node, nat>, done: set<Node>, result: seq<Node>, depth: nat)
    requires Layered(g, seed, dist, done) && Front(queue, dist, done, depth) && Listed(result, dist, seed)
    requires forall n :: n in dist ==> dist[n] <= depth
    ensures forall n :: n in result <==> exists k :: 1 <= k <= depth && Distance(g, seed, n, k)
    ensures forall i, j, k, l :: 0 <= i < j < |result| && Distance(g, seed, result[i], k) && Distance(g, seed, result[j], l) ==> k <= l
  {
    FrontBound(queue, dist, done, depth);
    forall n | n in dist
      ensures Distance(g, seed, n, dist[n]) && (dist[n] == 0 ==> n == seed)
    {
      RecordedIsExact(g, seed, dist, done, depth, n);
    }
    forall n, k: nat | Distance(g, seed, n, k) && k <= depth
      ensures n in dist && dist[n] == k
    {
      var p :| WalkBetween(g, seed, n, p) && |p| == k + 1;
      if n !in dist {
        UndiscoveredIsFar(g, seed, dist, done, depth, p);
      }
    }
    forall i, j, k, l | 0 <= i < j < |result| && Distance(g, seed, result[i], k) && Distance(g, seed, result[j], l)
      ensures k <= l
    {
      DistanceIsUnique(g, seed, result[i], k, dist[result[i]]);
      DistanceIsUnique(g, seed, result[j], l, dist[result[j]]);
    }
  }

  lemma WalkLeaves(g: Arcs, p: seq<Node>)
    requires IsWalk(g, p) && |p| >= 2
    ensures HasArc(g, p[0], p[1])
  {
    assert HasArc(g, p[0], p[0 + 1]);
  }

  lemma NoArcsNoBall(g: Arcs, seed: Node)
    requires forall n :: !HasArc(g, seed, n)
    ensures forall n, k: nat :: 1 <= k ==> !Distance(g, seed, n, k)
  {
    forall n, k: nat | 1 <= k && Distance(g, seed, n, k)
      ensures false
    {
      var p :| WalkBetween(g, seed, n, p) && |p| == k + 1;
      WalkLeaves(g, p);
    }
  }

  /**
   Exactly the nodes whose shortest distance from the seed is between 1 and `depth`, each once, nearest first.
   Popping never meets an empty queue: the sequence selection `queue[0]` below needs that.
   */
  method BfsFrom(seed: Node, edges: seq<Edge>, depth: nat) returns (result: seq<Node>)
    ensures Distinct(result) && seed !in result
    ensures forall n :: n in result <==> exists k :: 1 <= k <= depth && Distance(AllArcs(edges), seed, n, k)
    ensures forall i, j, k, l :: 0 <= i < j < |result| ==>
              Distance(AllArcs(edges), seed, result[i], k) && Distance(AllArcs(edges), seed, result[j], l) ==> k <= l
  {
    hide HasArc, Layered, Front, Listed, Distance, Represents, AllArcs;
    ghost var g := AllArcs(edges);
    var adj := AdjacencyOfAll(edges);
    NeighborsAreArcs(adj, g, seed);
    if seed !in adj {
      NoArcsNoBall(g, seed);
      return [];
    }
    var visited, queue := {seed}, [seed];
    ghost var dist: map<Node, nat> := map[seed := 0];
    ghost var done: set<Node> := {};
    FrontStart(g, seed);
    result := [];
    ListStart(seed);
    for level := 0 to depth
      invariant visited == dist.Keys && LevelQueue(queue, dist, |queue|, level) && seed in dist
      invariant Layered(g, seed, dist, done) && Front(queue, dist, done, level) && Listed(result, dist, seed)
      invariant forall n :: n in dist ==> dist[n] <= level
    {
      var levelLen := |queue|;
      for i := 0 to levelLen
        invariant visited == dist.Keys && LevelQueue(queue, dist, levelLen - i, level) && seed in dist
        invariant Layered(g, seed, dist, done) && Front(queue, dist, done, level) && Listed(result, dist, seed)
      {
        FrontPop(queue, dist, done, level);
        var current := queue[0];
        queue := queue[1..];
        done := done + {current};
        NeighborsAreArcs(adj, g, current);
        LayeredWithout(g, seed, dist, done, current);
        if current in adj {
          var neighbors := adj[current];
          for j := 0 to |neighbors|
            invariant visited == dist.Keys && LevelQueue(queue, dist, levelLen - i - 1, level) && seed in dist
            invariant current in dist && dist[current] == level
            invariant Layered(g, seed, dist, done - {current}) && Front(queue, dist, done, level) && Listed(result, dist, seed)
            invariant forall h :: 0 <= h < j ==> neighbors[h] in dist
          {
            var n := neighbors[j];
            if n !in visited {
              FrontBound(queue, dist, done, level);
              ListOneMore(result, dist, seed, n, level + 1);
              FrontPush(g, seed, queue, dist, done, current, n);
              dist := dist[n := level + 1];
              visited := visited + {n};
              queue := queue + [n];
              result := result + [n];
            }
          }
        }
        FrontBound(queue, dist, done, level);
        FrontVisited(queue, dist, done, level);
        LayerExpand(g, seed, dist, done, current);
      }
      FrontNextLevel(queue, dist, done, level);
    }
    BallIsComplete(g, seed, queue, dist, done, result, depth);
    SeedNotListed(result, dist, seed);
  }

  lemma ListStart(seed: Node)
    ensures Listed([], map[seed := 0], seed)
  {
  }

  lemma SeedNotListed(result: seq<Node>, dist: map<Node, nat>, seed: Node)
    requires Listed(result, dist, seed)
    ensures Distinct(result) && seed !in result
  {
  }

  lemma LayeredWithout(g: Arcs, root: Node, dist: map<Node, nat>, done: set<Node>, n: Node)
    requires Layered(g, root, dist, done - {n}) || Layered(g, root, dist, done)
    ensures Layered(g, root, dist, done - {n})
  {
  }

  lemma FrontNextLevel(queue: seq<Node>, dist: map<Node, nat>, done: set<Node>, d: nat)
    requires Front(queue, dist, done, d) && LevelQueue(queue, dist, 0, d)
    ensures Front(queue, dist, done, d + 1) && LevelQueue(queue, dist, |queue|, d + 1)
    ensures forall n :: n in dist ==> dist[n] <= d + 1
  {
    FrontBound(queue, dist, done, d);
  }
}
