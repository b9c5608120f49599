/**
 What the engine's numbers are in terms of the recorded counts and the typed edges of the graph
 (src/causal/engine.rs): weights, walks and candidates spelled out, and the posterior observation by observation.
 */
module CausalAnswers {
  import opened Sums
  import opened Walks
  import opened BestPath
  import opened CausalStore
  import opened CausalGraph
  import opened Sorting

  /** A walk along edges of the given types, from source to target. */
  ghost predicate EdgeWalk(edges: seq<Edge>, types: set<string>, a: Node, b: Node, p: seq<Node>) {
    |p| > 0 && p[0] == a && p[|p| - 1] == b &&
    forall i :: 0 <= i < |p| - 1 ==> EdgeBetween(edges, types, p[i], p[i + 1])
  }

  ghost predicate EdgeBetween(edges: seq<Edge>, types: set<string>, a: Node, b: Node) {
    exists e :: e in edges && e.source == a && e.target == b && e.edgeType in types
  }

  /** The recorded share of the counts out of `x`, or one half where nothing was recorded. */
  ghost predicate WeighsByCounts(counts: EdgeCounts, w: (Node, Node) -> real) {
    forall x, y :: w(x, y) == if (x, y) in counts && TotalOut(counts, x) > 0 then counts[(x, y)] as real / TotalOut(counts, x) as real else 0.5
  }

  lemma EdgeWalksAreWalks(edges: seq<Edge>, types: set<string>, a: Node, b: Node, p: seq<Node>)
    ensures EdgeWalk(edges, types, a, b, p) <==> WalkBetween(ArcsOfType(edges, types), a, b, p)
  {
    forall x, y
      ensures EdgeBetween(edges, types, x, y) <==> HasArc(ArcsOfType(edges, types), x, y)
    {
    }
  }

  lemma RecordedWeight(counts: EdgeCounts, x: Node, y: Node)
    requires ValidEdges(counts)
    ensures (x, y) in counts ==> TotalOut(counts, x) > 0
    ensures Effective(counts)(x, y) == if (x, y) in counts then counts[(x, y)] as real / TotalOut(counts, x) as real else 0.5
  {
    ProbabilityBounds(counts, x, y);
    if (x, y) in counts {
      SumIsPositive(counts, OutKeys(counts, x), (x, y));
    }
  }

  lemma {:induction false} SameProduct(w: (Node, Node) -> real, v: (Node, Node) -> real, p: seq<Node>)
    requires forall x, y :: w(x, y) == v(x, y)
    ensures Product(w, p) == Product(v, p)
  {
    if |p| > 1 {
      SameProduct(w, v, p[1..]);
    }
  }

  lemma WeightedWalks(counts: EdgeCounts, w: (Node, Node) -> real)
    requires ValidEdges(counts) && WeighsByCounts(counts, w)
    ensures forall p :: Product(Effective(counts), p) == Product(w, p)
    ensures forall x, y :: Effective(counts)(x, y) == w(x, y)
  {
    hide Product;
    forall x, y
      ensures Effective(counts)(x, y) == w(x, y)
    {
      RecordedWeight(counts, x, y);
    }
    forall p
      ensures Product(Effective(counts), p) == Product(w, p)
    {
      SameProduct(Effective(counts), w, p);
    }
  }

  // ---------- propagation ----------

  /**
   Between registered nodes the propagation probability is the attained maximum of the products of recorded weights
   over all walks along the four propagating edge types, and 0 if there is no such walk. From a node to itself it is 1,
   and to or from an unregistered one 0.
   */
  lemma PropagationIsBestWalk(graph: Graph, counts: EdgeCounts, w: (Node, Node) -> real, a: Node, b: Node)
    requires ValidEdges(counts) && WeighsByCounts(counts, w)
    ensures a == b ==> MaxPropagation(graph, counts, a, b) == 1.0
    ensures a != b && !(a in graph.nodes && b in graph.nodes) ==> MaxPropagation(graph, counts, a, b) == 0.0
    ensures a in graph.nodes && b in graph.nodes ==>
            var types := {"Prerequisite", "Composition", "Extends", "Related"};
            (forall p :: EdgeWalk(graph.edges, types, a, b, p) ==> Product(w, p) <= MaxPropagation(graph, counts, a, b)) &&
            ((exists p :: EdgeWalk(graph.edges, types, a, b, p)) ==>
              exists p :: EdgeWalk(graph.edges, types, a, b, p) && Product(w, p) == MaxPropagation(graph, counts, a, b)) &&
            ((forall p :: !EdgeWalk(graph.edges, types, a, b, p)) ==> MaxPropagation(graph, counts, a, b) == 0.0)
  {
    var types := {"Prerequisite", "Composition", "Extends", "Related"};
    assert PropagationArcs(graph) == ArcsOfType(graph.edges, types);
    assert a == b ==> MaxPropagation(graph, counts, a, b) == 1.0;
    assert a != b && !(a in graph.nodes && b in graph.nodes) ==> MaxPropagation(graph, counts, a, b) == 0.0;
    hide MaxPropagation, Product, WalkBetween, EdgeWalk, Effective, ArcsOfType, PropagationArcs, ValidEdges, WeighsByCounts;
    WeightedWalks(counts, w);
    if a in graph.nodes && b in graph.nodes {
      MaxPropagationIsOptimal(graph, counts, a, b);
    }
    forall p
      ensures EdgeWalk(graph.edges, types, a, b, p) <==> WalkBetween(ArcsOfType(graph.edges, types), a, b, p)
    {
      EdgeWalksAreWalks(graph.edges, types, a, b, p);
    }
    if a == b {
      StandingStill(graph.edges, types, a);
    }
  }

  lemma StandingStill(edges: seq<Edge>, types: set<string>, a: Node)
    ensures EdgeWalk(edges, types, a, a, [a])
  {
  }

  // ---------- hop chains ----------

  /** The hop from `a` to `b` has the type of a real edge between them, and its recorded weight. */
  ghost predicate RecordedHop(edges: seq<Edge>, w: (Node, Node) -> real, a: Node, b: Node, hop: Hop) {
    hop.probability == w(a, b) && exists e :: e in edges && e.source == a && e.target == b && hop.linkType == ParseLinkType(e.edgeType)
  }

  /** A returned chain follows real edges to its end. */
  lemma HopsCarryRecordedWeights(edges: seq<Edge>, counts: EdgeCounts, w: (Node, Node) -> real, a: Node, b: Node, hops: seq<Hop>)
    requires ValidEdges(counts) && WeighsByCounts(counts, w) && HopChain(edges, counts, a, b, hops)
    ensures var p := [a] + HopNodes(hops);
            p[|p| - 1] == b && forall i :: 0 <= i < |hops| ==> RecordedHop(edges, w, p[i], p[i + 1], hops[i])
  {
    hide HopFits, WeighsByCounts, ValidEdges, WalkBetween, RecordedHop, AllArcs;
    var p := NodesAlong(a, hops);
    ChainEnds(edges, counts, a, b, hops);
    forall i | 0 <= i < |hops|
      ensures RecordedHop(edges, w, p[i], p[i + 1], hops[i])
    {
      HopCarriesRecordedWeight(edges, counts, w, p[i], p[i + 1], hops[i]);
    }
  }

  lemma ChainEnds(edges: seq<Edge>, counts: EdgeCounts, a: Node, b: Node, hops: seq<Hop>)
    requires HopChain(edges, counts, a, b, hops)
    ensures NodesAlong(a, hops)[|NodesAlong(a, hops)| - 1] == b
  {
  }

  lemma HopCarriesRecordedWeight(edges: seq<Edge>, counts: EdgeCounts, w: (Node, Node) -> real, a: Node, b: Node, hop: Hop)
    requires ValidEdges(counts) && WeighsByCounts(counts, w) && HopFits(edges, counts, a, b, hop)
    ensures RecordedHop(edges, w, a, b, hop)
  {
    RecordedWeight(counts, a, b);
  }

  /** The confidence of an explaining path is the product of the recorded weights along it. */
  lemma ConfidenceIsProduct(edges: seq<Edge>, counts: EdgeCounts, w: (Node, Node) -> real, candidate: Node, observations: seq<Observation>,
                            paths: seq<PropagationPath>, i: nat)
    requires ValidEdges(counts) && WeighsByCounts(counts, w) && PathsExplain(edges, counts, candidate, observations, paths) && i < |paths|
    ensures paths[i].confidence == Product(w, [candidate] + HopNodes(paths[i].hops))
    ensures paths[i].terminal in observations && paths[i].terminal.skillIri != candidate
  {
    hide Product, ShortestHops;
    WeightedWalks(counts, w);
    FilteredHas((o: Observation) => o.skillIri != candidate && Reachable(AllArcs(edges), candidate, o.skillIri), observations, paths[i].terminal);
    assert paths[i].terminal in ReachedObservations(edges, candidate, observations);
  }

  function LinkName(link: LinkType): string {
    match link
    case Prerequisite => "Prerequisite"
    case Composition => "Composition"
    case Related => "Related"
    case Alternative => "Alternative"
    case Extends => "Extends"
    case Generalization => "Generalization"
  }

  /** A link type is read from its name, and anything else reads as related. */
  lemma LinkTypesByName(s: string, link: LinkType)
    ensures ParseLinkType(s) == link <==> s == LinkName(link) || (link == Related && forall other :: s != LinkName(other))
  {
    if ParseLinkType(s) == link && s != LinkName(link) {
      forall other
        ensures s != LinkName(other)
      {
      }
    }
    assert ParseLinkType(LinkName(link)) == link;
    if forall other :: s != LinkName(other) {
      assert s != LinkName(Prerequisite) && s != LinkName(Composition) && s != LinkName(Alternative) && s != LinkName(Extends) && s != LinkName(Generalization);
    }
  }

  // ---------- candidates ----------

  /** The candidates: what an observed skill leads to along dependencies, from source to target, itself not observed. */
  lemma CandidatesAlongDependencies(graph: Graph, observations: seq<Observation>, n: Node)
    ensures var types := {"Prerequisite", "Extends", "Generalization"};
            IsCandidate(graph, ObservedSkills(observations), n) <==>
            (forall o :: o in observations ==> o.skillIri != n) &&
            exists o, p :: o in observations && EdgeWalk(graph.edges, types, o.skillIri, n, p)
  {
    var types := {"Prerequisite", "Extends", "Generalization"};
    hide EdgeWalk, WalkBetween, ArcsOfType;
    assert DependencyArcs(graph) == ArcsOfType(graph.edges, types);
    forall a, p
      ensures EdgeWalk(graph.edges, types, a, n, p) <==> WalkBetween(ArcsOfType(graph.edges, types), a, n, p)
    {
      EdgeWalksAreWalks(graph.edges, types, a, n, p);
    }
    if IsCandidate(graph, ObservedSkills(observations), n) {
      var skill :| skill in ObservedSkills(observations) && Reachable(DependencyArcs(graph), skill, n);
      var o :| o in observations && o.skillIri == skill;
      var p :| WalkBetween(ArcsOfType(graph.edges, types), skill, n, p);
      assert EdgeWalk(graph.edges, types, o.skillIri, n, p);
    }
    if exists o, p :: o in observations && EdgeWalk(graph.edges, types, o.skillIri, n, p) {
      var o, p :| o in observations && EdgeWalk(graph.edges, types, o.skillIri, n, p);
      assert o.skillIri in ObservedSkills(observations) && Reachable(DependencyArcs(graph), o.skillIri, n);
    }
  }

  // ---------- the posterior ----------

  lemma PosteriorOfNothing(graph: Graph, counts: EdgeCounts, priors: map<Iri, real>, candidate: Node)
    requires ValidEdges(counts)
    ensures Posterior(graph, counts, priors, candidate, []) == if candidate in priors then priors[candidate] else 0.001
  {
  }

  /**
   One more observation: of the candidate itself, it changes nothing; of a skill no propagation walk from the candidate
   leads to, or with an unregistered end, it divides the posterior by 100; otherwise it multiplies it by the largest
   product of recorded weights over the walks from the candidate to the observed skill.
   */
  lemma PosteriorOneMore(graph: Graph, counts: EdgeCounts, w: (Node, Node) -> real, priors: map<Iri, real>, candidate: Node,
                         observations: seq<Observation>, o: Observation)
    requires ValidEdges(counts) && WeighsByCounts(counts, w)
    ensures var types := {"Prerequisite", "Composition", "Extends", "Related"};
            var before := Posterior(graph, counts, priors, candidate, observations);
            var after := Posterior(graph, counts, priors, candidate, observations + [o]);
            var registered := candidate in graph.nodes && o.skillIri in graph.nodes;
            if o.skillIri == candidate then after == before
            else if !registered || forall p :: !EdgeWalk(graph.edges, types, candidate, o.skillIri, p) then after == before / 100.0
            else exists p :: EdgeWalk(graph.edges, types, candidate, o.skillIri, p) && after == before * Product(w, p) &&
                   forall q :: EdgeWalk(graph.edges, types, candidate, o.skillIri, q) ==> Product(w, q) <= Product(w, p)
  {
    hide *;
    PosteriorStep(graph, counts, priors, candidate, observations, o);
    FactorByWalks(graph, counts, w, candidate, o);
    var types := {"Prerequisite", "Composition", "Extends", "Related"};
    var before, x := Posterior(graph, counts, priors, candidate, observations), Factor(graph, counts, candidate, o);
    if o.skillIri != candidate && x != 0.01 {
      var p :| EdgeWalk(graph.edges, types, candidate, o.skillIri, p) && x == Product(w, p);
      assert before * x == before * Product(w, p);
    }
  }

  lemma FactorByWalks(graph: Graph, counts: EdgeCounts, w: (Node, Node) -> real, candidate: Node, o: Observation)
    requires ValidEdges(counts) && WeighsByCounts(counts, w)
    ensures var types := {"Prerequisite", "Composition", "Extends", "Related"};
            var x := Factor(graph, counts, candidate, o);
            var registered := candidate in graph.nodes && o.skillIri in graph.nodes;
            if o.skillIri == candidate then x == 1.0
            else if !registered || forall p :: !EdgeWalk(graph.edges, types, candidate, o.skillIri, p) then x == 0.01
            else exists p :: EdgeWalk(graph.edges, types, candidate, o.skillIri, p) && x == Product(w, p) &&
                   forall q :: EdgeWalk(graph.edges, types, candidate, o.skillIri, q) ==> Product(w, q) <= Product(w, p)
  {
    var types := {"Prerequisite", "Composition", "Extends", "Related"};
    hide Product, EdgeWalk, WeighsByCounts, ValidEdges, MaxPropagation;
    PropagationIsBestWalk(graph, counts, w, candidate, o.skillIri);
    WalksArePositive(counts, w);
  }

  lemma PosteriorStep(graph: Graph, counts: EdgeCounts, priors: map<Iri, real>, candidate: Node, observations: seq<Observation>, o: Observation)
    requires ValidEdges(counts)
    ensures Posterior(graph, counts, priors, candidate, observations + [o]) ==
            Posterior(graph, counts, priors, candidate, observations) * Factor(graph, counts, candidate, o)
  {
    hide Factor, ValidEdges, PriorOf;
    var longer := observations + [o];
    assert longer[..|longer| - 1] == observations && longer[|longer| - 1] == o;
    var l := Likelihood(graph, counts, candidate, observations);
    assert Likelihood(graph, counts, candidate, longer) == l * Factor(graph, counts, candidate, o);
    hide Likelihood;
    Associated(PriorOf(priors, candidate), l, Factor(graph, counts, candidate, o));
  }

  lemma WalksArePositive(counts: EdgeCounts, w: (Node, Node) -> real)
    requires ValidEdges(counts) && WeighsByCounts(counts, w)
    ensures forall p :: Product(w, p) > 0.0
  {
    hide Product, WeighsByCounts, Effective;
    WeightedWalks(counts, w);
    EffectiveIsProper(counts);
    forall p
      ensures Product(w, p) > 0.0
    {
      ProductBounds(Effective(counts), p);
      assert Product(Effective(counts), p) == Product(w, p);
    }
  }

  lemma Associated(x: real, y: real, z: real)
    ensures x * (y * z) == x * y * z
  {
  }
}
