/** The ranked answer of the engine, and why a prefix of the sorted candidates is the best of them. */
module RootCauseRanking {
  import opened Walks
  import opened CausalStore
  import opened CausalGraph
  import opened Sorting

  function Roots(results: seq<Inference>): (r: seq<Node>) {
    seq(|results|, i requires 0 <= i < |results| => results[i].rootCause)
  }

  function ByConfidence(): (Inference, Inference) -> bool {
    (a: Inference, b: Inference) => a.confidence >= b.confidence
  }

  ghost predicate Scored(graph: Graph, counts: EdgeCounts, priors: map<Iri, real>, observations: seq<Observation>, r: Inference)
    requires ValidEdges(counts)
  {
    && r.confidence == Posterior(graph, counts, priors, r.rootCause, observations)
    && PathsExplain(graph.edges, counts, r.rootCause, observations, r.paths)
  }

  ghost predicate IsRanking(graph: Graph, counts: EdgeCounts, priors: map<Iri, real>, observations: seq<Observation>, results: seq<Inference>)
    requires ValidEdges(counts) && ValidPriors(priors)
  {
    && Distinct(Roots(results))
    && (forall i, j :: 0 <= i < j < |results| ==> results[i].confidence >= results[j].confidence)
    && forall i :: 0 <= i < |results| ==>
         && IsCandidate(graph, ObservedSkills(observations), results[i].rootCause)
         && Scored(graph, counts, priors, observations, results[i])
         && 0.0 < results[i].confidence <= PRIOR_CEILING
  }

  ghost predicate NoBetterThan(graph: Graph, counts: EdgeCounts, priors: map<Iri, real>, observations: seq<Observation>, n: Node, results: seq<Inference>)
    requires ValidEdges(counts) && ValidPriors(priors)
  {
    forall i :: 0 <= i < |results| ==> Posterior(graph, counts, priors, n, observations) <= results[i].confidence
  }

  lemma PosteriorIsPositive(graph: Graph, counts: EdgeCounts, priors: map<Iri, real>, candidate: Node, observations: seq<Observation>)
    requires ValidEdges(counts) && ValidPriors(priors)
    ensures 0.0 < Posterior(graph, counts, priors, candidate, observations) <= PRIOR_CEILING
  {
    hide Likelihood, ValidEdges;
    LikelihoodBounds(graph, counts, candidate, observations);
    assert 0.0 < PriorOf(priors, candidate) <= PRIOR_CEILING;
    ScaleDown(PriorOf(priors, candidate), Likelihood(graph, counts, candidate, observations));
  }

  lemma NoCandidates(graph: Graph)
    ensures forall n :: !IsCandidate(graph, ObservedSkills([]), n)
  {
  }

  lemma SkillsOf(observations: seq<Observation>, skills: seq<Node>)
    requires |skills| == |observations| && forall i :: 0 <= i < |skills| ==> skills[i] == observations[i].skillIri
    ensures NodesOf(skills) == ObservedSkills(observations)
  {
    forall n | n in NodesOf(skills)
      ensures n in ObservedSkills(observations)
    {
      var i :| 0 <= i < |skills| && skills[i] == n;
      assert observations[i] in observations;
    }
    forall n | n in ObservedSkills(observations)
      ensures n in NodesOf(skills)
    {
      var o :| o in observations && o.skillIri == n;
      var i :| 0 <= i < |observations| && observations[i] == o;
      assert skills[i] == n;
    }
  }

  /** Sorting permutes the scored candidates; a prefix of the sorted list keeps every claim about them. */
  lemma TopOfSorted(graph: Graph, counts: EdgeCounts, priors: map<Iri, real>, observations: seq<Observation>, candidates: seq<Node>, scored: seq<Inference>, k: nat)
    requires ValidEdges(counts) && ValidPriors(priors)
    requires Distinct(candidates) && Roots(scored) == candidates && k <= |scored|
    requires forall n :: n in candidates <==> IsCandidate(graph, ObservedSkills(observations), n)
    requires forall i :: 0 <= i < |scored| ==> Scored(graph, counts, priors, observations, scored[i])
    ensures |Sorted(ByConfidence(), scored)| == |scored|
    ensures IsRanking(graph, counts, priors, observations, Sorted(ByConfidence(), scored)[..k])
    ensures forall n :: n in candidates && n !in Roots(Sorted(ByConfidence(), scored)[..k]) ==>
              k < |scored| && NoBetterThan(graph, counts, priors, observations, n, Sorted(ByConfidence(), scored)[..k])
  {
    hide IsCandidate, Posterior, PathsExplain, Sorted, NoBetterThan, Distinct;
    var sorted := Sorted(ByConfidence(), scored);
    SortedProperties(ByConfidence(), scored);
    DistinctByRoot(scored, sorted);
    forall i | 0 <= i < |sorted|
      ensures sorted[i].rootCause in candidates && Scored(graph, counts, priors, observations, sorted[i]) && 0.0 < sorted[i].confidence <= PRIOR_CEILING
    {
      var j := SameElement(sorted, scored, i);
      assert candidates[j] == sorted[i].rootCause;
      PosteriorIsPositive(graph, counts, priors, sorted[i].rootCause, observations);
    }
    DistinctPrefix(sorted, k);
    forall n | n in candidates && n !in Roots(sorted[..k])
      ensures k < |scored| && NoBetterThan(graph, counts, priors, observations, n, sorted[..k])
    {
      var j :| 0 <= j < |candidates| && candidates[j] == n;
      LeftOutIsNoBetter(graph, counts, priors, observations, scored, sorted, k, j);
    }
  }

  lemma SameElement(s: seq<Inference>, t: seq<Inference>, i: nat) returns (j: nat)
    requires multiset(s) == multiset(t) && i < |s|
    ensures j < |t| && t[j] == s[i]
  {
    assert s[i] in multiset(s);
    j :| 0 <= j < |t| && t[j] == s[i];
  }

  lemma DistinctPrefix(s: seq<Inference>, k: nat)
    requires Distinct(Roots(s)) && k <= |s|
    ensures Distinct(Roots(s[..k]))
  {
    assert Roots(s[..k]) == Roots(s)[..k];
  }

  lemma RootOfPrefix(s: seq<Inference>, k: nat, h: nat)
    requires h < k <= |s|
    ensures s[h].rootCause in Roots(s[..k])
  {
    assert Roots(s[..k])[h] == s[h].rootCause;
  }

  lemma LeftOutIsNoBetter(graph: Graph, counts: EdgeCounts, priors: map<Iri, real>, observations: seq<Observation>, scored: seq<Inference>, sorted: seq<Inference>, k: nat, j: nat)
    requires ValidEdges(counts) && ValidPriors(priors) && multiset(scored) == multiset(sorted) && |scored| == |sorted|
    requires IsSorted(ByConfidence(), sorted) && k <= |scored| && j < |scored|
    requires Scored(graph, counts, priors, observations, scored[j]) && scored[j].rootCause !in Roots(sorted[..k])
    ensures k < |scored| && NoBetterThan(graph, counts, priors, observations, scored[j].rootCause, sorted[..k])
  {
    hide Posterior, PathsExplain;
    var h := SameElement(scored, sorted, j);
    if h < k { RootOfPrefix(sorted, k, h); }
    forall i | 0 <= i < k
      ensures scored[j].confidence <= sorted[i].confidence
    {
      assert ByConfidence()(sorted[i], sorted[h]);
    }
  }

  lemma DistinctByRoot(scored: seq<Inference>, sorted: seq<Inference>)
    requires multiset(scored) == multiset(sorted) && Distinct(Roots(scored))
    ensures Distinct(Roots(sorted))
  {
    if !Distinct(Roots(sorted)) {
      var i, j :| 0 <= i < j < |sorted| && sorted[i].rootCause == sorted[j].rootCause;
      assert sorted[i] in multiset(sorted) && sorted[j] in multiset(sorted);
      var a :| 0 <= a < |scored| && scored[a] == sorted[i];
      var b :| 0 <= b < |scored| && scored[b] == sorted[j];
      assert Roots(scored)[a] == Roots(scored)[b];
      if a == b {
        assert sorted[i] == sorted[j];
        TwiceInList(sorted, i, j);
        TwiceFromMultiset(scored, sorted[i], a);
      }
    }
  }

  lemma TwiceInList(s: seq<Inference>, i: nat, j: nat)
    requires i < j < |s| && s[i] == s[j]
    ensures multiset(s)[s[i]] >= 2
  {
    assert s == s[..i] + [s[i]] + s[i + 1..j] + [s[j]] + s[j + 1..];
  }

  lemma TwiceFromMultiset(s: seq<Inference>, x: Inference, a: nat)
    requires a < |s| && s[a] == x && multiset(s)[x] >= 2
    ensures !Distinct(Roots(s))
  {
    assert s == s[..a] + [x] + s[a + 1..];
    assert x in multiset(s[..a]) || x in multiset(s[a + 1..]);
    if x in multiset(s[..a]) {
      var b :| 0 <= b < a && s[b] == x;
      assert Roots(s)[b] == Roots(s)[a];
    } else {
      var b :| 0 <= b < |s[a + 1..]| && s[a + 1..][b] == x;
      assert Roots(s)[a] == Roots(s)[a + 1 + b];
    }
  }
}
