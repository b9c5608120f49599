/** Hop chains and the adjacency lists the shortest path search runs on. */
module HopChains {
  import opened Walks
  import opened Bfs
  import opened Layers
  import opened CausalStore
  import opened CausalGraph
  import opened Sorting

  predicate HasLink(adj: map<Node, seq<(Node, LinkType)>>, a: Node, b: Node, link: LinkType) {
    a in adj && (b, link) in adj[a]
  }

  ghost predicate RepresentsLinks(adj: map<Node, seq<(Node, LinkType)>>, edges: seq<Edge>) {
    forall a, b, link :: HasLink(adj, a, b, link) <==> LinkIn(edges, a, b, link)
  }

  method LinksOf(edges: seq<Edge>) returns (adj: map<Node, seq<(Node, LinkType)>>)
    ensures RepresentsLinks(adj, edges)
  {
    adj := map[];
    for i := 0 to |edges|
      invariant forall a, b, link :: HasLink(adj, a, b, link) <==> LinkIn(edges[..i], a, b, link)
    {
      var e := edges[i];
      ghost var before := adj;
      adj := adj[e.source := (if e.source in adj then adj[e.source] else []) + [(e.target, ParseLinkType(e.edgeType))]];
      assert edges[..i + 1] == edges[..i] + [e];
      forall a, b, link
        ensures HasLink(adj, a, b, link) <==> LinkIn(edges[..i + 1], a, b, link)
      {
        assert HasLink(adj, a, b, link) <==> HasLink(before, a, b, link) || (e.source == a && e.target == b && ParseLinkType(e.edgeType) == link);
        assert LinkIn(edges[..i + 1], a, b, link) <==> LinkIn(edges[..i], a, b, link) || (e.source == a && e.target == b && ParseLinkType(e.edgeType) == link);
      }
    }
    assert edges[..|edges|] == edges;
  }

  lemma LinkIsArc(edges: seq<Edge>, a: Node, b: Node)
    ensures HasArc(AllArcs(edges), a, b) <==> exists link :: LinkIn(edges, a, b, link)
  {
    if HasArc(AllArcs(edges), a, b) {
      var e :| e in edges && (e.source, e.target) == (a, b);
      assert LinkIn(edges, a, b, ParseLinkType(e.edgeType));
    }
  }

  function QueueNodes(queue: seq<(Node, seq<Hop>)>): (r: seq<Node>) {
    seq(|queue|, i requires 0 <= i < |queue| => queue[i].0)
  }

  /** Each queued node carries a hop chain whose length is its distance. */
  ghost predicate Carried(edges: seq<Edge>, counts: EdgeCounts, from: Node, queue: seq<(Node, seq<Hop>)>, dist: map<Node, nat>) {
    forall i :: 0 <= i < |queue| ==>
      HopChain(edges, counts, from, queue[i].0, queue[i].1) && queue[i].0 in dist && |queue[i].1| == dist[queue[i].0]
  }

  lemma NoHops(edges: seq<Edge>, counts: EdgeCounts, a: Node)
    ensures HopChain(edges, counts, a, a, []) && ShortestHops(edges, counts, a, a, []) && Reachable(AllArcs(edges), a, a)
  {
    assert WalkBetween(AllArcs(edges), a, a, [a]);
  }

  lemma OneMoreHop(edges: seq<Edge>, counts: EdgeCounts, a: Node, b: Node, hops: seq<Hop>, hop: Hop)
    requires HopChain(edges, counts, a, b, hops)
    requires LinkIn(edges, b, hop.skillIri, hop.linkType) && hop.probability == EffectiveProbability(counts, b, hop.skillIri)
    ensures HopChain(edges, counts, a, hop.skillIri, hops + [hop])
  {
    hide HopFits, WalkBetween, AllArcs;
    assert HopFits(edges, counts, b, hop.skillIri, hop) by { HopFitsByDefinition(edges, counts, b, hop); }
    var p, q := NodesAlong(a, hops), NodesAlong(a, hops + [hop]);
    assert q == p + [hop.skillIri];
    OneMoreStep(edges, a, b, p, hop);
    assert forall i :: 0 <= i < |p| ==> q[i] == p[i];
    assert q[|hops|] == b by { ChainEnds(edges, counts, a, b, hops); }
  }

  lemma HopFitsByDefinition(edges: seq<Edge>, counts: EdgeCounts, b: Node, hop: Hop)
    requires LinkIn(edges, b, hop.skillIri, hop.linkType) && hop.probability == EffectiveProbability(counts, b, hop.skillIri)
    ensures HopFits(edges, counts, b, hop.skillIri, hop)
  {
  }

  lemma ChainEnds(edges: seq<Edge>, counts: EdgeCounts, a: Node, b: Node, hops: seq<Hop>)
    requires HopChain(edges, counts, a, b, hops)
    ensures NodesAlong(a, hops)[|hops|] == b
  {
  }

  lemma OneMoreStep(edges: seq<Edge>, a: Node, b: Node, p: seq<Node>, hop: Hop)
    requires WalkBetween(AllArcs(edges), a, b, p) && LinkIn(edges, b, hop.skillIri, hop.linkType)
    ensures WalkBetween(AllArcs(edges), a, hop.skillIri, p + [hop.skillIri])
  {
    var step := [b, hop.skillIri];
    LinkIsArc(edges, b, hop.skillIri);
    assert WalkBetween(AllArcs(edges), b, hop.skillIri, step);
    WalkConcat(AllArcs(edges), a, b, hop.skillIri, p, step);
    assert step[1..] == [hop.skillIri];
  }

  lemma CarryOneMore(edges: seq<Edge>, counts: EdgeCounts, from: Node, queue: seq<(Node, seq<Hop>)>, dist: map<Node, nat>, n: Node, hops: seq<Hop>)
    requires Carried(edges, counts, from, queue, dist) && n !in dist && HopChain(edges, counts, from, n, hops)
    ensures Carried(edges, counts, from, queue + [(n, hops)], dist[n := |hops|])
    ensures QueueNodes(queue + [(n, hops)]) == QueueNodes(queue) + [n]
  {
    hide HopChain;
  }

  lemma LinksAreArcs(adj: map<Node, seq<(Node, LinkType)>>, edges: seq<Edge>, a: Node)
    requires RepresentsLinks(adj, edges)
    ensures forall n :: HasArc(AllArcs(edges), a, n) ==> a in adj && exists i :: 0 <= i < |adj[a]| && adj[a][i].0 == n
    ensures a in adj ==> forall i :: 0 <= i < |adj[a]| ==>
              LinkIn(edges, a, adj[a][i].0, adj[a][i].1) && HasArc(AllArcs(edges), a, adj[a][i].0)
  {
    hide LinkIn, AllArcs;
    forall n | HasArc(AllArcs(edges), a, n)
      ensures a in adj && exists i :: 0 <= i < |adj[a]| && adj[a][i].0 == n
    {
      LinkIsArc(edges, a, n);
      var link :| LinkIn(edges, a, n, link);
      assert HasLink(adj, a, n, link);
      var i :| 0 <= i < |adj[a]| && adj[a][i] == (n, link);
    }
    if a in adj {
      forall i | 0 <= i < |adj[a]|
        ensures LinkIn(edges, a, adj[a][i].0, adj[a][i].1) && HasArc(AllArcs(edges), a, adj[a][i].0)
      {
        assert HasLink(adj, a, adj[a][i].0, adj[a][i].1);
        LinkIsArc(edges, a, adj[a][i].0);
      }
    }
  }

  /** The first chain that reaches the target is shortest, hence also simple. */
  lemma FirstFoundIsShortest(edges: seq<Edge>, counts: EdgeCounts, from: Node, to: Node, dist: map<Node, nat>, done: set<Node>, d: nat, hops: seq<Hop>)
    requires Layered(AllArcs(edges), from, dist, done) && to !in dist && |hops| == d + 1
    requires forall n :: n in dist && n !in done ==> d <= dist[n]
    requires HopChain(edges, counts, from, to, hops)
    ensures ShortestHops(edges, counts, from, to, hops) && Reachable(AllArcs(edges), from, to)
  {
    hide AllArcs, Layered, HopFits, IsWalk, Distinct;
    var g, p := AllArcs(edges), NodesAlong(from, hops);
    forall q | WalkBetween(g, from, to, q)
      ensures |hops| + 1 <= |q|
    {
      UndiscoveredIsFar(g, from, dist, done, d, q);
    }
    ShortestIsSimple(g, from, to, p);
  }

  lemma ShortestIsSimple(g: Arcs, a: Node, b: Node, p: seq<Node>)
    requires WalkBetween(g, a, b, p) && forall q :: WalkBetween(g, a, b, q) ==> |p| <= |q|
    ensures Distinct(p)
  {
    if !Distinct(p) {
      var i, j :| 0 <= i < j < |p| && p[i] == p[j];
      var w := (x: Node, y: Node) => 1.0;
      var q := CutOneCycle(g, w, a, b, p, i, j);
    }
  }

  lemma LayeredBound(g: Arcs, root: Node, dist: map<Node, nat>, done: set<Node>)
    requires Layered(g, root, dist, done)
    ensures dist.Keys <= {root} + Targets(g)
  {
  }

  lemma ProductOfOne(w: (Node, Node) -> real, p: seq<Node>)
    requires |p| == 1
    ensures Product(w, p) == 1.0
  {
  }

  lemma ReachedOneMore(edges: seq<Edge>, candidate: Node, observations: seq<Observation>, i: nat)
    requires i < |observations|
    ensures ReachedObservations(edges, candidate, observations[..i + 1]) ==
            ReachedObservations(edges, candidate, observations[..i]) +
            if observations[i].skillIri != candidate && Reachable(AllArcs(edges), candidate, observations[i].skillIri) then [observations[i]] else []
  {
    hide Reachable, AllArcs;
    var p := (o: Observation) => o.skillIri != candidate && Reachable(AllArcs(edges), candidate, o.skillIri);
    assert observations[..i + 1] == observations[..i] + [observations[i]];
    FilteredConcat(p, observations[..i], [observations[i]]);
  }
}
