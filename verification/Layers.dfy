/** Breadth-first search by layers: distances from a root, and a queue that holds the current layer and part of the next. */
module Layers {
  import opened Walks
  import opened Bfs

  ghost predicate WalkOfLength(g: Arcs, a: Node, b: Node, k: nat) {
    exists p :: WalkBetween(g, a, b, p) && |p| == k + 1
  }

  /** `k` is the number of hops on a shortest walk from `a` to `b`. */
  ghost predicate Distance(g: Arcs, a: Node, b: Node, k: nat) {
    WalkOfLength(g, a, b, k) && forall p :: WalkBetween(g, a, b, p) ==> k + 1 <= |p|
  }

  lemma DistanceIsUnique(g: Arcs, a: Node, b: Node, j: nat, k: nat)
    requires Distance(g, a, b, j) && Distance(g, a, b, k)
    ensures j == k
  {
  }

  /** Every recorded distance is the length of some walk, and expanded nodes have passed it on. */
  ghost predicate Layered(g: Arcs, root: Node, dist: map<Node, nat>, done: set<Node>) {
    && root in dist && dist[root] == 0
    && Expanded(g, dist, done)
    && dist.Keys <= {root} + Targets(g)
    && forall n :: n in dist ==> WalkOfLength(g, root, n, dist[n])
  }

  /** The queue holds the unexpanded nodes, nearest first, all at distance `d` or `d + 1`; expanded ones are no further than `d`. */
  ghost predicate Front(queue: seq<Node>, dist: map<Node, nat>, done: set<Node>, d: nat) {
    && Pending(queue, dist.Keys, done)
    && (forall n :: n in done ==> dist[n] <= d)
    && (forall i :: 0 <= i < |queue| ==> d <= dist[queue[i]] <= d + 1)
    && (forall i, j :: 0 <= i < j < |queue| ==> dist[queue[i]] <= dist[queue[j]])
  }

  lemma FrontStart(g: Arcs, root: Node)
    ensures Layered(g, root, map[root := 0], {}) && Front([root], map[root := 0], {}, 0)
  {
    assert WalkBetween(g, root, root, [root]);
    assert WalkOfLength(g, root, root, 0);
  }

  lemma FrontPop(queue: seq<Node>, dist: map<Node, nat>, done: set<Node>, d: nat)
    requires Front(queue, dist, done, d) && queue != []
    ensures queue[0] in dist && queue[0] !in done && d <= dist[queue[0]]
    ensures Front(queue[1..], dist, done + {queue[0]}, dist[queue[0]])
  {
    PendingPop(queue, dist.Keys, done);
  }

  lemma FrontBound(queue: seq<Node>, dist: map<Node, nat>, done: set<Node>, d: nat)
    requires Front(queue, dist, done, d)
    ensures forall n :: n in dist ==> dist[n] <= d + 1
    ensures forall n :: n in dist && n !in done ==> d <= dist[n]
  {
    forall n | n in dist && n !in done
      ensures d <= dist[n] <= d + 1
    {
      assert n in queue;
    }
  }

  lemma FrontVisited(queue: seq<Node>, dist: map<Node, nat>, done: set<Node>, d: nat)
    requires Front(queue, dist, done, d)
    ensures done <= dist.Keys && (queue == [] ==> done == dist.Keys)
  {
    if queue == [] {
      PendingEmpty(dist.Keys, done);
    }
  }

  lemma FrontPush(g: Arcs, root: Node, queue: seq<Node>, dist: map<Node, nat>, done: set<Node>, n: Node, m: Node)
    requires n in dist && m !in dist && HasArc(g, n, m)
    requires Layered(g, root, dist, done - {n}) && Front(queue, dist, done, dist[n])
    ensures Layered(g, root, dist[m := dist[n] + 1], done - {n})
    ensures Front(queue + [m], dist[m := dist[n] + 1], done, dist[n])
  {
    hide WalkOfLength, Pending;
    var longer := dist[m := dist[n] + 1];
    assert longer.Keys == dist.Keys + {m};
    PendingPush(queue, dist.Keys, done, m);
    PendingMember(queue, dist.Keys, done);
    ArcEndsInTargets(g, n, m);
    WalkOneFurther(g, root, n, m, dist[n]);
  }

  lemma PendingMember(queue: seq<Node>, visited: set<Node>, done: set<Node>)
    requires Pending(queue, visited, done)
    ensures done <= visited && forall i :: 0 <= i < |queue| ==> queue[i] in visited
  {
  }

  lemma WalkOneFurther(g: Arcs, root: Node, n: Node, m: Node, k: nat)
    requires WalkOfLength(g, root, n, k) && HasArc(g, n, m)
    ensures WalkOfLength(g, root, m, k + 1)
  {
    var p :| WalkBetween(g, root, n, p) && |p| == k + 1;
    assert WalkBetween(g, n, m, [n, m]);
    WalkConcat(g, root, n, m, p, [n, m]);
  }

  lemma LayerExpand(g: Arcs, root: Node, dist: map<Node, nat>, done: set<Node>, n: Node)
    requires n in dist && n in done && Layered(g, root, dist, done - {n}) && done <= dist.Keys
    requires forall m :: HasArc(g, n, m) ==> m in dist && dist[m] <= dist[n] + 1
    ensures Layered(g, root, dist, done)
  {
  }

  /** Where the frontier is at distance `d` or more, an undiscovered node is at least `d + 1` hops away. */
  lemma UndiscoveredIsFar(g: Arcs, root: Node, dist: map<Node, nat>, done: set<Node>, d: nat, p: seq<Node>)
    requires Layered(g, root, dist, done) && IsWalk(g, p) && p[0] == root && p[|p| - 1] !in dist
    requires forall n :: n in dist && n !in done ==> d <= dist[n]
    ensures d + 2 <= |p|
  {
    var i := FrontierCutsWalk(g, dist, done, p);
  }

  /** ... and recorded distances up to `d` are exact. */
  lemma RecordedIsExact(g: Arcs, root: Node, dist: map<Node, nat>, done: set<Node>, d: nat, n: Node)
    requires Layered(g, root, dist, done) && n in dist && dist[n] <= d
    requires forall m :: m in dist && m !in done ==> d <= dist[m]
    ensures Distance(g, root, n, dist[n])
  {
    forall p | WalkBetween(g, root, n, p)
      ensures dist[n] + 1 <= |p|
    {
      var i := FrontierCutsWalk(g, dist, done, p);
    }
  }

  lemma ExhaustedMeansUnreachable(g: Arcs, root: Node, dist: map<Node, nat>, n: Node)
    requires Layered(g, root, dist, dist.Keys) && n !in dist
    ensures !Reachable(g, root, n)
  {
    if Reachable(g, root, n) {
      var p :| WalkBetween(g, root, n, p);
      var i := FrontierCutsWalk(g, dist, dist.Keys, p);
      assert false;
    }
  }
}
