/** The skill graph as the causal engine sees it, and the specification of its queries (src/causal/engine.rs). */
module CausalGraph {
  import opened Walks
  import opened BestPath
  import opened CausalStore
  import opened Sorting

  datatype Edge = Edge(source: Node, target: Node, edgeType: string)

  /** What the graph backend answers: its node list and its edge list. */
  datatype Graph = Graph(nodes: seq<Node>, edges: seq<Edge>)

  datatype LinkType = Prerequisite | Composition | Related | Alternative | Extends | Generalization

  datatype Hop = Hop(skillIri: Node, linkType: LinkType, probability: real)

  datatype PropagationPath = PropagationPath(hops: seq<Hop>, terminal: Observation, confidence: real)

  datatype Inference = Inference(rootCause: Node, confidence: real, paths: seq<PropagationPath>)

  const PROPAGATION_TYPES: set<string> := {"Prerequisite", "Composition", "Extends", "Related"}
  const DEPENDENCY_TYPES: set<string> := {"Prerequisite", "Extends", "Generalization"}
  const DEFAULT_PROBABILITY := 0.5
  const UNREACHED_FACTOR := 0.01

  function ParseLinkType(s: string): LinkType {
    match s
    case "Prerequisite" => Prerequisite
    case "Composition" => Composition
    case "Related" => Related
    case "Alternative" => Alternative
    case "Extends" => Extends
    case "Generalization" => Generalization
    case _ => Related
  }

  ghost function ArcsOfType(edges: seq<Edge>, types: set<string>): Arcs {
    set e | e in edges && e.edgeType in types :: (e.source, e.target)
  }

  ghost function AllArcs(edges: seq<Edge>): Arcs {
    set e | e in edges :: (e.source, e.target)
  }

  ghost function PropagationArcs(graph: Graph): Arcs {
    ArcsOfType(graph.edges, PROPAGATION_TYPES)
  }

  ghost function DependencyArcs(graph: Graph): Arcs {
    ArcsOfType(graph.edges, DEPENDENCY_TYPES)
  }

  // ---------- propagation probability ----------

  /** The recorded probability of an arc, or one half when nothing was recorded for it. */
  ghost function EffectiveProbability(counts: EdgeCounts, a: Node, b: Node): real {
    var p := Probability(counts, a, b);
    if p == 0.0 then DEFAULT_PROBABILITY else p
  }

  ghost function Effective(counts: EdgeCounts): (Node, Node) -> real {
    (a, b) => EffectiveProbability(counts, a, b)
  }

  lemma EffectiveIsProper(counts: EdgeCounts)
    requires ValidEdges(counts)
    ensures ProperWeights(Effective(counts))
  {
    forall a, b
      ensures 0.0 < Effective(counts)(a, b) <= 1.0
    {
      ProbabilityBounds(counts, a, b);
    }
  }

  ghost function MaxPropagation(graph: Graph, counts: EdgeCounts, a: Node, b: Node): (r: real)
    requires ValidEdges(counts)
    ensures 0.0 <= r <= 1.0
  {
    EffectiveIsProper(counts);
    if a == b then 1.0
    else if a !in graph.nodes || b !in graph.nodes then 0.0
    else Best(PropagationArcs(graph), Effective(counts), a, b, {})
  }

  /**
   Between registered nodes the propagation probability is the largest product over all walks, cyclic ones
   included; it is attained by a simple path, and it is 0 exactly when there is no walk.
   */
  lemma MaxPropagationIsOptimal(graph: Graph, counts: EdgeCounts, a: Node, b: Node)
    requires ValidEdges(counts) && a in graph.nodes && b in graph.nodes
    ensures forall p :: WalkBetween(PropagationArcs(graph), a, b, p) ==> Product(Effective(counts), p) <= MaxPropagation(graph, counts, a, b)
    ensures Reachable(PropagationArcs(graph), a, b) ==>
              exists p :: WalkBetween(PropagationArcs(graph), a, b, p) && Distinct(p) && Product(Effective(counts), p) == MaxPropagation(graph, counts, a, b)
    ensures a != b ==> (MaxPropagation(graph, counts, a, b) > 0.0 <==> Reachable(PropagationArcs(graph), a, b))
  {
    var g, w := PropagationArcs(graph), Effective(counts);
    EffectiveIsProper(counts);
    BestBeatsEveryWalk(g, w, a, b);
    if a == b {
      BestAtTarget(g, w, a, {});
      BestIsUnique(g, w, a, a, {}, 1.0, Best(g, w, a, a, {}));
    }
    if Reachable(g, a, b) {
      var p :| PathAvoiding(g, a, b, {}, p) && Product(w, p) == Best(g, w, a, b, {});
    }
  }

  /** A detour never beats the optimum, registered or not. */
  lemma PropagationTriangle(graph: Graph, counts: EdgeCounts, a: Node, b: Node, c: Node)
    requires ValidEdges(counts)
    ensures MaxPropagation(graph, counts, a, b) * MaxPropagation(graph, counts, b, c) <= MaxPropagation(graph, counts, a, c)
  {
    hide *;
    var x, y, z := MaxPropagation(graph, counts, a, b), MaxPropagation(graph, counts, b, c), MaxPropagation(graph, counts, a, c);
    if Registered(graph, a, b) && Registered(graph, b, c) && Registered(graph, a, c) {
      MaxIsBest(graph, counts, a, b);
      MaxIsBest(graph, counts, b, c);
      MaxIsBest(graph, counts, a, c);
      BestTriangle(PropagationArcs(graph), Effective(counts), a, b, c);
    } else {
      DegenerateTriangle(graph, counts, a, b, c);
      ProductAtMost(x, y, z);
    }
  }

  /** Two different nodes of the graph. */
  predicate Registered(graph: Graph, a: Node, b: Node) {
    a != b && a in graph.nodes && b in graph.nodes
  }

  lemma MaxIsBest(graph: Graph, counts: EdgeCounts, a: Node, b: Node)
    requires ValidEdges(counts) && Registered(graph, a, b)
    ensures ProperWeights(Effective(counts)) && MaxPropagation(graph, counts, a, b) == Best(PropagationArcs(graph), Effective(counts), a, b, {})
  {
    EffectiveIsProper(counts);
  }

  lemma DegenerateTriangle(graph: Graph, counts: EdgeCounts, a: Node, b: Node, c: Node)
    requires ValidEdges(counts) && !(Registered(graph, a, b) && Registered(graph, b, c) && Registered(graph, a, c))
    ensures var x, y, z := MaxPropagation(graph, counts, a, b), MaxPropagation(graph, counts, b, c), MaxPropagation(graph, counts, a, c);
            (x == 1.0 && y == z) || (y == 1.0 && x == z) || x == 0.0 || y == 0.0 || z == 1.0
  {
  }

  lemma ProductAtMost(x: real, y: real, z: real)
    requires 0.0 <= x <= 1.0 && 0.0 <= y <= 1.0 && 0.0 <= z
    requires (x == 1.0 && y == z) || (y == 1.0 && x == z) || x == 0.0 || y == 0.0 || z == 1.0
    ensures x * y <= z
  {
    UnitScale(x, y);
  }

  // ---------- shortest hop paths ----------

  ghost predicate LinkIn(edges: seq<Edge>, a: Node, b: Node, link: LinkType) {
    exists e :: e in edges && e.source == a && e.target == b && ParseLinkType(e.edgeType) == link
  }

  function HopNodes(hops: seq<Hop>): (nodes: seq<Node>) {
    seq(|hops|, i requires 0 <= i < |hops| => hops[i].skillIri)
  }

  function NodesAlong(start: Node, hops: seq<Hop>): seq<Node> {
    [start] + HopNodes(hops)
  }

  ghost predicate HopFits(edges: seq<Edge>, counts: EdgeCounts, a: Node, b: Node, hop: Hop) {
    hop.probability == EffectiveProbability(counts, a, b) && LinkIn(edges, a, b, hop.linkType)
  }

  /** The hops follow edges of the graph and carry the effective probability of each arc. */
  ghost predicate HopChain(edges: seq<Edge>, counts: EdgeCounts, a: Node, b: Node, hops: seq<Hop>) {
    var p := NodesAlong(a, hops);
    && WalkBetween(AllArcs(edges), a, b, p)
    && forall i :: 0 <= i < |hops| ==> HopFits(edges, counts, p[i], p[i + 1], hops[i])
  }

  ghost predicate ShortestHops(edges: seq<Edge>, counts: EdgeCounts, a: Node, b: Node, hops: seq<Hop>) {
    && HopChain(edges, counts, a, b, hops)
    && Distinct(NodesAlong(a, hops))
    && forall q :: WalkBetween(AllArcs(edges), a, b, q) ==> |hops| + 1 <= |q|
  }

  /**
   The confidence of a reconstructed path is at most the optimum whenever the search for the optimum may use the
   path at all: each hop runs along an edge whose raw type propagates, and both ends are registered.
   */
  lemma PathConfidenceIsBounded(graph: Graph, counts: EdgeCounts, a: Node, b: Node, hops: seq<Hop>)
    requires ValidEdges(counts) && HopChain(graph.edges, counts, a, b, hops)
    requires a in graph.nodes && b in graph.nodes
    requires forall i :: 0 <= i < |hops| ==> HasArc(PropagationArcs(graph), NodesAlong(a, hops)[i], NodesAlong(a, hops)[i + 1])
    ensures Product(Effective(counts), NodesAlong(a, hops)) <= MaxPropagation(graph, counts, a, b)
  {
    MaxPropagationIsOptimal(graph, counts, a, b);
    assert WalkBetween(PropagationArcs(graph), a, b, NodesAlong(a, hops));
  }

  /** The observations a candidate reaches, in the order observed. */
  ghost function ReachedObservations(edges: seq<Edge>, candidate: Node, observations: seq<Observation>): seq<Observation> {
    Filtered((o: Observation) => o.skillIri != candidate && Reachable(AllArcs(edges), candidate, o.skillIri), observations)
  }

  /** One shortest path per reached observation, with its product as confidence. */
  ghost predicate PathsExplain(edges: seq<Edge>, counts: EdgeCounts, candidate: Node, observations: seq<Observation>, paths: seq<PropagationPath>) {
    var reached := ReachedObservations(edges, candidate, observations);
    && |paths| == |reached|
    && forall i :: 0 <= i < |paths| ==>
         && paths[i].terminal == reached[i]
         && ShortestHops(edges, counts, candidate, reached[i].skillIri, paths[i].hops)
         && paths[i].confidence == Product(Effective(counts), NodesAlong(candidate, paths[i].hops))
  }

  // ---------- candidates and their scores ----------

  /** What the observed skills depend on, transitively, apart from the observed skills themselves. */
  ghost predicate IsCandidate(graph: Graph, observed: set<Node>, n: Node) {
    n !in observed && exists o :: o in observed && Reachable(DependencyArcs(graph), o, n)
  }

  /** Along a single dependency the candidate is the far end, and it does not propagate back to what was observed. */
  lemma CandidateDownstreamExample(counts: EdgeCounts, o: Node, n: Node)
    requires ValidEdges(counts) && o != n
    ensures var graph := Graph([o, n], [Edge(o, n, "Prerequisite")]);
            IsCandidate(graph, {o}, n) && MaxPropagation(graph, counts, n, o) == 0.0
  {
    hide MaxPropagation, ValidEdges;
    var edge := Edge(o, n, "Prerequisite");
    var graph := Graph([o, n], [edge]);
    assert edge in graph.edges && o in graph.nodes && n in graph.nodes;
    assert DependencyArcs(graph) == {(o, n)} && PropagationArcs(graph) == {(o, n)};
    assert WalkBetween(DependencyArcs(graph), o, n, [o, n]);
    MaxPropagationIsOptimal(graph, counts, n, o);
  }

  function ObservedSkills(observations: seq<Observation>): set<Node> {
    set o | o in observations :: o.skillIri
  }

  /** How much one observation weighs: nothing if the candidate itself failed, a fixed penalty if unreachable. */
  ghost function Factor(graph: Graph, counts: EdgeCounts, candidate: Node, o: Observation): (r: real)
    requires ValidEdges(counts)
    ensures 0.0 < r <= 1.0
  {
    if o.skillIri == candidate then 1.0 else
      var p := MaxPropagation(graph, counts, candidate, o.skillIri);
      if p > 0.0 then p else UNREACHED_FACTOR
  }

  ghost function Likelihood(graph: Graph, counts: EdgeCounts, candidate: Node, observations: seq<Observation>): real
    requires ValidEdges(counts)
  {
    if observations == [] then 1.0 else
      Likelihood(graph, counts, candidate, observations[..|observations| - 1]) *
      Factor(graph, counts, candidate, observations[|observations| - 1])
  }

  lemma {:induction false} LikelihoodBounds(graph: Graph, counts: EdgeCounts, candidate: Node, observations: seq<Observation>)
    requires ValidEdges(counts)
    ensures 0.0 < Likelihood(graph, counts, candidate, observations) <= 1.0
  {
    hide Factor;
    if observations != [] {
      var most, last := observations[..|observations| - 1], observations[|observations| - 1];
      LikelihoodBounds(graph, counts, candidate, most);
      ScaleDown(Likelihood(graph, counts, candidate, most), Factor(graph, counts, candidate, last));
    }
  }

  ghost function Posterior(graph: Graph, counts: EdgeCounts, priors: map<Iri, real>, candidate: Node, observations: seq<Observation>): real
    requires ValidEdges(counts)
  {
    PriorOf(priors, candidate) * Likelihood(graph, counts, candidate, observations)
  }
}
