/** What every breadth-first search over arcs relies on: the frontier cuts each walk that leaves the explored part. */
module Bfs {
  import opened Walks
  import opened Sorting

  /** Every successor of an expanded node has been discovered, at most one hop further. */
  ghost predicate Expanded(g: Arcs, dist: map<Node, nat>, done: set<Node>) {
    done <= dist.Keys && forall u, v :: u in done && HasArc(g, u, v) ==> v in dist && dist[v] <= dist[u] + 1
  }

  /** The nodes at which arcs end. */
  ghost function Targets(g: Arcs): set<Node> {
    set e | e in g :: e.1
  }

  lemma ArcEndsInTargets(g: Arcs, a: Node, b: Node)
    requires HasArc(g, a, b)
    ensures b in Targets(g)
  {
    assert (a, b) in g;
  }

  /** A walk from a root either stays within known distances or meets a discovered, unexpanded node on its way. */
  lemma {:induction false} FrontierCutsWalk(g: Arcs, dist: map<Node, nat>, done: set<Node>, p: seq<Node>) returns (i: nat)
    requires Expanded(g, dist, done) && IsWalk(g, p) && p[0] in dist && dist[p[0]] == 0
    ensures i < |p| && p[i] in dist && dist[p[i]] <= i && (i == |p| - 1 || p[i] !in done)
  {
    i := 0;
    while i < |p| - 1 && p[i] in done
      invariant i < |p| && p[i] in dist && dist[p[i]] <= i
    {
      assert HasArc(g, p[i], p[i + 1]);
      i := i + 1;
    }
  }

  // ---------- plain reachability from a set of roots ----------

  ghost predicate ReachedFrom(g: Arcs, roots: set<Node>, n: Node) {
    exists r :: r in roots && Reachable(g, r, n)
  }

  lemma RootIsReached(g: Arcs, roots: set<Node>, n: Node)
    requires n in roots
    ensures ReachedFrom(g, roots, n)
  {
    assert WalkBetween(g, n, n, [n]);
  }

  lemma ReachOneMore(g: Arcs, roots: set<Node>, n: Node, m: Node)
    requires ReachedFrom(g, roots, n) && HasArc(g, n, m)
    ensures ReachedFrom(g, roots, m)
  {
    var r :| r in roots && Reachable(g, r, n);
    var p :| WalkBetween(g, r, n, p);
    assert WalkBetween(g, n, m, [n, m]);
    WalkConcat(g, r, n, m, p, [n, m]);
  }

  /** The queue holds exactly the discovered nodes still to be expanded, each once. */
  ghost predicate Pending(queue: seq<Node>, visited: set<Node>, done: set<Node>) {
    Distinct(queue) && done <= visited && forall n :: n in queue <==> n in visited && n !in done
  }

  lemma DistinctAppend(s: seq<Node>, n: Node)
    requires Distinct(s) && n !in s
    ensures Distinct(s + [n])
  {
  }

  lemma PendingPop(queue: seq<Node>, visited: set<Node>, done: set<Node>)
    requires Pending(queue, visited, done) && queue != []
    ensures queue[0] in visited && queue[0] !in done && Pending(queue[1..], visited, done + {queue[0]})
  {
    assert queue == [queue[0]] + queue[1..];
  }

  lemma PendingPush(queue: seq<Node>, visited: set<Node>, done: set<Node>, n: Node)
    requires Pending(queue, visited, done) && n !in visited
    ensures Pending(queue + [n], visited + {n}, done)
  {
    DistinctAppend(queue, n);
  }

  lemma PendingEmpty(visited: set<Node>, done: set<Node>)
    requires Pending([], visited, done)
    ensures visited == done
  {
  }

  ghost predicate ClosedUnder(g: Arcs, done: set<Node>, visited: set<Node>) {
    forall u, v :: u in done && HasArc(g, u, v) ==> v in visited
  }

  /** Everything visited is reachable from a root, and the successors of expanded nodes are visited. */
  ghost predicate Explored(g: Arcs, roots: set<Node>, visited: set<Node>, done: set<Node>) {
    && roots <= visited <= roots + Targets(g)
    && ClosedUnder(g, done, visited)
    && forall n :: n in visited ==> ReachedFrom(g, roots, n)
  }

  lemma ExploredBound(g: Arcs, roots: set<Node>, visited: set<Node>, done: set<Node>, n: Node)
    requires Explored(g, roots, visited, done) && n in visited && n !in done
    ensures n in roots + Targets(g) - done
  {
  }

  lemma RootsExplored(g: Arcs, roots: set<Node>)
    ensures Explored(g, roots, roots, {})
  {
    forall n | n in roots ensures ReachedFrom(g, roots, n) { RootIsReached(g, roots, n); }
  }

  lemma Discover(g: Arcs, roots: set<Node>, visited: set<Node>, done: set<Node>, n: Node, m: Node)
    requires Explored(g, roots, visited, done) && n in visited && HasArc(g, n, m)
    ensures Explored(g, roots, visited + {m}, done)
  {
    ArcEndsInTargets(g, n, m);
    ReachOneMore(g, roots, n, m);
  }

  lemma Expand(g: Arcs, roots: set<Node>, visited: set<Node>, done: set<Node>, n: Node)
    requires Explored(g, roots, visited, done) && forall m :: HasArc(g, n, m) ==> m in visited
    ensures Explored(g, roots, visited, done + {n})
  {
  }

  /** Once nothing is pending, everything reachable has been visited, and nothing else. */
  lemma NothingPending(g: Arcs, roots: set<Node>, visited: set<Node>)
    requires Explored(g, roots, visited, visited)
    ensures forall n :: ReachedFrom(g, roots, n) <==> n in visited
  {
    var dist := map n | n in visited :: 0;
    forall n | ReachedFrom(g, roots, n)
      ensures n in visited
    {
      var r :| r in roots && Reachable(g, r, n);
      var p :| WalkBetween(g, r, n, p);
      var i := FrontierCutsWalk(g, dist, visited, p);
    }
  }
}
