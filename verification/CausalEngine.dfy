/** The root cause engine (src/causal/engine.rs): its searches, loop by loop, against the specification in CausalGraph. */
module CausalEngine {
  import opened Wrappers
  import opened Walks
  import opened BestPath
  import opened Bfs
  import opened Layers
  import opened CausalStore
  import opened CausalGraph
  import opened HopChains
  import opened RootCauseRanking
  import opened Sorting

  ghost predicate Represents(adj: map<Node, seq<Node>>, g: Arcs) {
    forall a, b :: HasArc(g, a, b) <==> a in adj && b in adj[a]
  }

  lemma NeighborsAreArcs(adj: map<Node, seq<Node>>, g: Arcs, a: Node)
    requires Represents(adj, g)
    ensures forall n :: HasArc(g, a, n) <==> a in adj && n in adj[a]
  {
  }

  method AdjacencyOf(edges: seq<Edge>, types: set<string>) returns (adj: map<Node, seq<Node>>)
    ensures Represents(adj, ArcsOfType(edges, types))
  {
    adj := map[];
    for i := 0 to |edges|
      invariant Represents(adj, ArcsOfType(edges[..i], types))
    {
      var e := edges[i];
      ghost var g, before := ArcsOfType(edges[..i], types), adj;
      ArcsOfLonger(edges, i, types);
      if e.edgeType in types {
        adj := adj[e.source := (if e.source in adj then adj[e.source] else []) + [e.target]];
        OneMoreArc(before, g, e.source, e.target);
      } else {
        assert ArcsOfType(edges[..i + 1], types) == g;
      }
    }
    assert edges[..|edges|] == edges;
  }

  lemma OneMoreArc(adj: map<Node, seq<Node>>, g: Arcs, source: Node, target: Node)
    requires Represents(adj, g)
    ensures Represents(adj[source := (if source in adj then adj[source] else []) + [target]], g + {(source, target)})
  {
    var longer := adj[source := (if source in adj then adj[source] else []) + [target]];
    forall a, b
      ensures HasArc(g + {(source, target)}, a, b) <==> a in longer && b in longer[a]
    {
      assert HasArc(g, a, b) <==> a in adj && b in adj[a];
      assert HasArc(g + {(source, target)}, a, b) <==> HasArc(g, a, b) || (a == source && b == target);
    }
  }

  lemma ArcsOfLonger(edges: seq<Edge>, i: nat, types: set<string>)
    requires i < |edges|
    ensures edges[i].edgeType in types ==>
              ArcsOfType(edges[..i + 1], types) == ArcsOfType(edges[..i], types) + {(edges[i].source, edges[i].target)}
    ensures edges[i].edgeType !in types ==> ArcsOfType(edges[..i + 1], types) == ArcsOfType(edges[..i], types)
  {
    assert edges[..i + 1] == edges[..i] + [edges[i]];
  }

  /** A simple path to `target` that starts with the nodes walked so far. */
  ghost predicate Completes(g: Arcs, trail: seq<Node>, target: Node, q: seq<Node>) {
    IsWalk(g, q) && Distinct(q) && q[|q| - 1] == target && trail <= q
  }

  /** ... and goes on to one of the nodes of `first`. */
  ghost predicate CompletesVia(g: Arcs, trail: seq<Node>, target: Node, first: set<Node>, q: seq<Node>) {
    Completes(g, trail, target, q) && |trail| < |q| && q[|trail|] in first
  }

  /** `trail` is a simple walk to `current`, and `visited` holds its other nodes. */
  ghost predicate OnTrail(g: Arcs, trail: seq<Node>, current: Node, visited: set<Node>) {
    IsWalk(g, trail) && Distinct(trail) && trail[|trail| - 1] == current && visited == NodesOf(trail[..|trail| - 1])
  }

  lemma PruningIsSafe(g: Arcs, w: (Node, Node) -> real, trail: seq<Node>, current: Node, visited: set<Node>, target: Node)
    requires ProperWeights(w) && OnTrail(g, trail, current, visited)
    ensures forall q :: Completes(g, trail, target, q) ==> Product(w, q) <= Product(w, trail)
  {
    forall q | Completes(g, trail, target, q)
      ensures Product(w, q) <= Product(w, trail)
    {
      assert q[..|trail|] == trail;
      ProductShrinks(w, q, |trail| - 1);
    }
  }

  lemma AtTarget(g: Arcs, trail: seq<Node>, target: Node, visited: set<Node>)
    requires OnTrail(g, trail, target, visited)
    ensures forall q :: Completes(g, trail, target, q) <==> q == trail
  {
    forall q | Completes(g, trail, target, q)
      ensures q == trail
    {
      assert q[|trail| - 1] == q[|q| - 1];
    }
  }

  lemma ProductAlong(g: Arcs, w: (Node, Node) -> real, trail: seq<Node>, current: Node, visited: set<Node>, n: Node)
    requires OnTrail(g, trail, current, visited)
    ensures Product(w, trail + [n]) == Product(w, trail) * w(current, n)
  {
    ProductSnoc(w, trail, n);
  }

  lemma NextOnTrail(g: Arcs, trail: seq<Node>, target: Node, q: seq<Node>)
    requires |trail| > 0 && trail[|trail| - 1] != target && Completes(g, trail, target, q)
    ensures |trail| < |q| && HasArc(g, trail[|trail| - 1], q[|trail|]) && q[|trail|] !in trail
    ensures trail + [q[|trail|]] <= q
  {
    assert HasArc(g, q[|trail| - 1], q[|trail| - 1 + 1]);
  }

  /** Extending the trail by `n`: what completes it, and what the longer trail then looks like. */
  lemma ThroughNext(g: Arcs, trail: seq<Node>, current: Node, visited: set<Node>, target: Node, first: set<Node>, n: Node)
    requires OnTrail(g, trail, current, visited) && current != target && HasArc(g, current, n)
    ensures current !in visited
    ensures n !in visited + {current} ==> OnTrail(g, trail + [n], n, visited + {current})
    ensures forall q :: CompletesVia(g, trail, target, first + {n}, q) ==>
              CompletesVia(g, trail, target, first, q) || (n !in visited + {current} && Completes(g, trail + [n], target, q))
    ensures forall q :: Completes(g, trail + [n], target, q) ==> Completes(g, trail, target, q)
  {
    assert (trail + [n])[..|trail|] == trail == trail[..|trail| - 1] + [current];
    forall q | CompletesVia(g, trail, target, first + {n}, q) && q[|trail|] !in first
      ensures n !in trail && Completes(g, trail + [n], target, q)
    {
      NextOnTrail(g, trail, target, q);
    }
  }

  lemma ThroughSomeNext(g: Arcs, trail: seq<Node>, current: Node, visited: set<Node>, target: Node, first: set<Node>)
    requires OnTrail(g, trail, current, visited) && current != target
    requires forall n :: HasArc(g, current, n) ==> n in first
    ensures current !in visited
    ensures forall q :: Completes(g, trail, target, q) ==> CompletesVia(g, trail, target, first, q)
  {
    forall q | Completes(g, trail, target, q)
      ensures CompletesVia(g, trail, target, first, q)
    {
      NextOnTrail(g, trail, target, q);
    }
  }

  lemma CandidateIsReached(graph: Graph, observed: set<Node>, n: Node)
    ensures IsCandidate(graph, observed, n) <==> n !in observed && ReachedFrom(DependencyArcs(graph), observed, n)
  {
  }

  class CausalEngine {
    const store: CausalModelStore
    const backend: Graph

    constructor (store: CausalModelStore, backend: Graph)
      ensures this.store == store && this.backend == backend
    {
      this.store, this.backend := store, backend;
    }

    /**
     Branch and bound. `trail` is the path walked so far, `pathProb` its product, `visited` its nodes but the last.
     Afterwards `best` is the larger of what it was and the best simple path that completes the trail, although
     pruned branches were never entered; `visited` is as it was.
     */
    method DfsPropagate(current: Node, target: Node, adj: map<Node, seq<Node>>, visited: set<Node>, pathProb: real, best: real,
                        ghost g: Arcs, ghost trail: seq<Node>)
      returns (visited': set<Node>, best': real)
      requires store.Valid() && Represents(adj, g)
      requires OnTrail(g, trail, current, visited) && pathProb == Product(Effective(store.edges), trail)
      ensures visited' == visited && best <= best'
      ensures forall q :: Completes(g, trail, target, q) ==> Product(Effective(store.edges), q) <= best'
      ensures best' == best || exists q :: Completes(g, trail, target, q) && Product(Effective(store.edges), q) == best'
      decreases adj.Keys - visited
    {
      hide IsWalk, Distinct, Product, NodesOf, Completes, OnTrail, Probability;
      ghost var w := Effective(store.edges);
      EffectiveIsProper(store.edges);
      if pathProb <= best {
        PruningIsSafe(g, w, trail, current, visited, target);
        return visited, best;
      }
      if current == target {
        AtTarget(g, trail, target, visited);
        return visited, pathProb;
      }
      visited', best' := visited + {current}, best;
      ghost var first: set<Node> := {};
      if current in adj {
        var neighbors := adj[current];
        for i := 0 to |neighbors|
          invariant visited' == visited + {current} && best <= best'
          invariant forall q :: CompletesVia(g, trail, target, first, q) ==> Product(w, q) <= best'
          invariant best' == best || exists q :: Completes(g, trail, target, q) && Product(w, q) == best'
          invariant forall j :: 0 <= j < i ==> neighbors[j] in first
        {
          var next := neighbors[i];
          assert HasArc(g, current, next);
          ghost var longer := trail + [next];
          ThroughNext(g, trail, current, visited, target, first, next);
          if next !in visited' {
            var edgeProb := store.PropagationProbability(current, next);
            var effectiveProb := if edgeProb == 0.0 then 0.5 else edgeProb;
            ProductAlong(g, w, trail, current, visited, next);
            assert adj.Keys - visited' < adj.Keys - visited;
            visited', best' := DfsPropagate(next, target, adj, visited', pathProb * effectiveProb, best', g, longer);
          }
          first := first + {next};
        }
      }
      ThroughSomeNext(g, trail, current, visited, target, first);
      visited' := visited' - {current};
    }

    method MaxPropagationProbability(from: Node, to: Node) returns (p: real)
      requires store.Valid()
      ensures p == MaxPropagation(backend, store.edges, from, to)
    {
      if from == to {
        return 1.0;
      }
      if from !in backend.nodes || to !in backend.nodes {
        return 0.0;
      }
      EffectiveIsProper(store.edges);
      var adj := AdjacencyOf(backend.edges, PROPAGATION_TYPES);
      var visited: set<Node>;
      visited, p := DfsPropagate(from, to, adj, {}, 1.0, 0.0, PropagationArcs(backend), [from]);
      forall q
        ensures Completes(PropagationArcs(backend), [from], to, q) <==> PathAvoiding(PropagationArcs(backend), from, to, {}, q)
      {
      }
      BestIsUnique(PropagationArcs(backend), Effective(store.edges), from, to, {}, p, MaxPropagation(backend, store.edges, from, to));
    }

    /** Everything the observed skills depend on, in no particular order, without the observed skills. */
    method ExtractCandidates(observed: seq<Node>) returns (result: seq<Node>)
      ensures Distinct(result)
      ensures forall n :: n in result <==> IsCandidate(backend, NodesOf(observed), n)
    {
      hide HasArc, ReachedFrom, Pending, Distinct, Explored, IsCandidate, Represents;
      ghost var g, roots := DependencyArcs(backend), NodesOf(observed);
      var adj := AdjacencyOf(backend.edges, DEPENDENCY_TYPES);
      var candidates: set<Node> := {};
      var queue, visited := SeedQueue(observed);
      RootsExplored(g, roots);
      ghost var done: set<Node> := {};
      while queue != []
        invariant Explored(g, roots, visited, done) && Pending(queue, visited, done) && roots <= visited && candidates == visited - roots
        decreases roots + Targets(g) - done
      {
        PendingPop(queue, visited, done);
        var current := queue[0];
        queue := queue[1..];
        ghost var before := done;
        done := done + {current};
        NeighborsAreArcs(adj, g, current);
        if current in adj {
          var deps := adj[current];
          for i := 0 to |deps|
            invariant Explored(g, roots, visited, before) && Pending(queue, visited, done) && roots <= visited && candidates == visited - roots
            invariant current in visited && forall j :: 0 <= j < i ==> deps[j] in visited
          {
            var dep := deps[i];
            Discover(g, roots, visited, before, current, dep);
            if dep !in visited {
              PendingPush(queue, visited, done, dep);
              visited := visited + {dep};
              candidates := candidates + {dep};
              queue := queue + [dep];
            }
          }
        }
        Expand(g, roots, visited, before, current);
        assert roots + Targets(g) - done < roots + Targets(g) - before by { ExploredBound(g, roots, visited, before, current); }
      }
      PendingEmpty(visited, done);
      NothingPending(g, roots, visited);
      forall n
        ensures IsCandidate(backend, roots, n) <==> n !in roots && ReachedFrom(g, roots, n)
      {
        CandidateIsReached(backend, roots, n);
      }
      result := SetToSeq(candidates);
    }

    /** A shortest hop chain over all edges, or none exactly when `to` is unreachable. */
    method BfsShortestPath(from: Node, to: Node, adj: map<Node, seq<(Node, LinkType)>>) returns (path: Option<seq<Hop>>)
      requires RepresentsLinks(adj, backend.edges)
      ensures path.None? <==> !Reachable(AllArcs(backend.edges), from, to)
      ensures path.Some? ==> ShortestHops(backend.edges, store.edges, from, to, path.value)
    {
      hide HasArc, Layered, Front, RepresentsLinks, AllArcs, HopChain, ShortestHops, Reachable, LinkIn, Probability;
      ghost var g := AllArcs(backend.edges);
      if from == to {
        NoHops(backend.edges, store.edges, from);
        return Some([]);
      }
      var visited: set<Node> := {from};
      var queue: seq<(Node, seq<Hop>)> := [(from, [])];
      ghost var dist: map<Node, nat> := map[from := 0];
      ghost var done: set<Node> := {};
      ghost var d := 0;
      FrontStart(g, from);
      NoHops(backend.edges, store.edges, from);
      assert QueueNodes(queue) == [from];
      while queue != []
        invariant visited == dist.Keys && to !in visited
        invariant Layered(g, from, dist, done) && Front(QueueNodes(queue), dist, done, d)
        invariant Carried(backend.edges, store.edges, from, queue, dist)
        decreases {from} + Targets(g) - done
      {
        FrontPop(QueueNodes(queue), dist, done, d);
        var (current, hops) := queue[0];
        assert QueueNodes(queue)[1..] == QueueNodes(queue[1..]);
        queue := queue[1..];
        d := dist[current];
        ghost var before := done;
        done := done + {current};
        assert done - {current} == before;
        LayeredBound(g, from, dist, before);
        LinksAreArcs(adj, backend.edges, current);
        if current in adj {
          var neighbors := adj[current];
          for i := 0 to |neighbors|
            invariant visited == dist.Keys && to !in visited && current in dist && dist[current] == d
            invariant Layered(g, from, dist, done - {current}) && Front(QueueNodes(queue), dist, done, d)
            invariant Carried(backend.edges, store.edges, from, queue, dist)
            invariant forall j :: 0 <= j < i ==> neighbors[j].0 in dist
          {
            var (next, linkType) := neighbors[i];
            if next !in visited {
              var prob := store.PropagationProbability(current, next);
              var newHops := hops + [Hop(next, linkType, if prob == 0.0 then 0.5 else prob)];
              OneMoreHop(backend.edges, store.edges, from, current, hops, newHops[|hops|]);
              if next == to {
                FrontBound(QueueNodes(queue), dist, done, d);
                FirstFoundIsShortest(backend.edges, store.edges, from, to, dist, done - {current}, d, newHops);
                return Some(newHops);
              }
              FrontPush(g, from, QueueNodes(queue), dist, done, current, next);
              CarryOneMore(backend.edges, store.edges, from, queue, dist, next, newHops);
              dist := dist[next := d + 1];
              visited := visited + {next};
              queue := queue + [(next, newHops)];
            }
          }
        }
        FrontBound(QueueNodes(queue), dist, done, d);
        FrontVisited(QueueNodes(queue), dist, done, d);
        LayerExpand(g, from, dist, done, current);
      }
      FrontVisited([], dist, done, d);
      ExhaustedMeansUnreachable(g, from, dist, to);
      path := None;
    }

    method ReconstructPaths(candidate: Node, observations: seq<Observation>) returns (paths: seq<PropagationPath>)
      ensures PathsExplain(backend.edges, store.edges, candidate, observations, paths)
    {
      hide AllArcs, HopChain, Reachable, Probability, RepresentsLinks, Product, NodesAlong, Effective;
      var adj := LinksOf(backend.edges);
      paths := [];
      for i := 0 to |observations|
        invariant PathsExplain(backend.edges, store.edges, candidate, observations[..i], paths)
      {
        var obs := observations[i];
        ReachedOneMore(backend.edges, candidate, observations, i);
        if obs.skillIri != candidate {
          var path := BfsShortestPath(candidate, obs.skillIri, adj);
          if path.Some? {
            var confidence := PathConfidence(candidate, obs.skillIri, path.value);
            paths := paths + [PropagationPath(path.value, obs, confidence)];
          }
        }
      }
      assert observations[..|observations|] == observations;
    }

    method PathConfidence(candidate: Node, target: Node, hops: seq<Hop>) returns (c: real)
      requires HopChain(backend.edges, store.edges, candidate, target, hops)
      ensures c == Product(Effective(store.edges), NodesAlong(candidate, hops))
    {
      hide Product, Probability, WalkBetween, AllArcs;
      ghost var w, p := Effective(store.edges), NodesAlong(candidate, hops);
      c := 1.0;
      assert Product(w, p[..1]) == 1.0 by { ProductOfOne(w, p[..1]); }
      for i := 0 to |hops|
        invariant c == Product(w, p[..i + 1])
      {
        ProductSnoc(w, p[..i + 1], p[i + 1]);
        assert p[..i + 1] + [p[i + 1]] == p[..i + 1 + 1];
        c := c * hops[i].probability;
      }
      assert p[..|hops| + 1] == p;
    }

    method ComputePosterior(candidate: Node, observedSet: set<Node>, observations: seq<Observation>) returns (p: real)
      requires store.Valid() && observedSet == ObservedSkills(observations)
      ensures p == Posterior(backend, store.edges, store.priors, candidate, observations)
    {
      hide MaxPropagation;
      var prior := store.Prior(candidate);
      var likelihood := 1.0;
      for i := 0 to |observations|
        invariant likelihood == Likelihood(backend, store.edges, candidate, observations[..i])
      {
        var target := observations[i].skillIri;
        assert observations[..i + 1][..i] == observations[..i];
        if target != candidate && target in observedSet {
          var pathProb := MaxPropagationProbability(candidate, target);
          if pathProb > 0.0 {
            likelihood := likelihood * pathProb;
          } else {
            likelihood := likelihood * 0.01;
          }
        }
      }
      assert observations[..|observations|] == observations;
      p := prior * likelihood;
    }

    /**
     The `topK` most probable candidates, each once, most probable first, with its posterior and its paths;
     a candidate left out is no more probable than any returned.
     */
    method InferRootCause(observations: seq<Observation>, topK: nat) returns (results: seq<Inference>)
      requires store.Valid()
      ensures IsRanking(backend, store.edges, store.priors, observations, results)
      ensures forall n :: IsCandidate(backend, ObservedSkills(observations), n) && n !in Roots(results) ==>
                |results| == topK && NoBetterThan(backend, store.edges, store.priors, observations, n, results)
      ensures |results| <= topK
    {
      hide IsCandidate, Posterior, PathsExplain;
      if observations == [] {
        NoCandidates(backend);
        return [];
      }
      var observedSkills: seq<Node> := seq(|observations|, i requires 0 <= i < |observations| => observations[i].skillIri);
      var observedSet := ObservedSkills(observations);
      assert NodesOf(observedSkills) == observedSet by { SkillsOf(observations, observedSkills); }
      var candidates := ExtractCandidates(observedSkills);
      var scored: seq<Inference> := [];
      for i := 0 to |candidates|
        invariant Roots(scored) == candidates[..i]
        invariant forall j :: 0 <= j < i ==> Scored(backend, store.edges, store.priors, observations, scored[j])
      {
        var posterior := ComputePosterior(candidates[i], observedSet, observations);
        PosteriorIsPositive(backend, store.edges, store.priors, candidates[i], observations);
        if posterior > 0.0 {
          var paths := ReconstructPaths(candidates[i], observations);
          scored := scored + [Inference(candidates[i], posterior, paths)];
        }
      }
      var sorted := Sorted(ByConfidence(), scored);
      SortedProperties(ByConfidence(), scored);
      var k := if topK < |sorted| then topK else |sorted|;
      results := sorted[..k];
      TopOfSorted(backend, store.edges, store.priors, observations, candidates, scored, k);
    }
  }

  method SeedQueue(observed: seq<Node>) returns (queue: seq<Node>, visited: set<Node>)
    ensures visited == NodesOf(observed) && Pending(queue, visited, {})
  {
    queue, visited := [], {};
    for i := 0 to |observed|
      invariant visited == NodesOf(observed[..i]) && Pending(queue, visited, {})
    {
      assert observed[..i + 1] == observed[..i] + [observed[i]];
      if observed[i] !in visited {
        PendingPush(queue, visited, {}, observed[i]);
        visited := visited + {observed[i]};
        queue := queue + [observed[i]];
      }
    }
    assert observed[..|observed|] == observed;
  }

  /** Collecting a hash set into a list: some order, each element once. */
  method SetToSeq(s: set<Node>) returns (r: seq<Node>)
    ensures Distinct(r) && |r| == |s| && forall n :: n in r <==> n in s
  {
    r := [];
    var rest := s;
    while rest != {}
      invariant Distinct(r) && rest <= s && |r| + |rest| == |s| && forall n :: n in r <==> n in s - rest
      decreases rest
    {
      var n :| n in rest;
      DistinctAppend(r, n);
      r := r + [n];
      rest := rest - {n};
    }
  }
}
