/**
 The statistics store of the causal engine (src/causal/store.rs): an index error -> skills, its transpose
 skill -> errors, counts of propagations, and priors. The maps are fields that every recorder updates in place.
 */
module CausalStore {
  import opened Wrappers
  import opened Sums
  import opened Sorting

  type Iri = string
  type Signature = string
  type Index = map<Signature, seq<(Iri, nat)>>
  type Profiles = map<Iri, map<Signature, nat>>
  type EdgeCounts = map<(Iri, Iri), nat>

  datatype Observation = Observation(eventId: string, skillIri: Iri, errorClass: string,
                                     errorSignature: Signature, propagationFrom: Option<Iri>)

  datatype PropagationEdge = PropagationEdge(weight: real, observationCount: nat)

  const PRIOR_FLOOR := 0.001
  const PRIOR_CEILING := 0.999

  // ---------- what each critical section does to its map ----------

  function PositionOf(entries: seq<(Iri, nat)>, skill: Iri): (i: nat)
    ensures i <= |entries|
    ensures i < |entries| ==> entries[i].0 == skill
    ensures forall j :: 0 <= j < i ==> entries[j].0 != skill
  {
    if entries == [] || entries[0].0 == skill then 0 else 1 + PositionOf(entries[1..], skill)
  }

  function BumpEntry(entries: seq<(Iri, nat)>, skill: Iri): seq<(Iri, nat)> {
    var i := PositionOf(entries, skill);
    if i < |entries| then entries[i := (skill, entries[i].1 + 1)] else entries + [(skill, 1)]
  }

  function IndexRecorded(index: Index, signature: Signature, skill: Iri): Index {
    index[signature := BumpEntry(if signature in index then index[signature] else [], skill)]
  }

  function Bumped<K>(m: map<K, nat>, k: K): map<K, nat> {
    m[k := (if k in m then m[k] else 0) + 1]
  }

  function ProfileRecorded(profiles: Profiles, skill: Iri, signature: Signature): Profiles {
    profiles[skill := Bumped(if skill in profiles then profiles[skill] else map[], signature)]
  }

  function LinkRecorded(edges: EdgeCounts, source: Option<Iri>, skill: Iri): EdgeCounts {
    if source.Some? then Bumped(edges, (source.value, skill)) else edges
  }

  // ---------- reading the maps ----------

  function EntryCount(entries: seq<(Iri, nat)>, skill: Iri): nat {
    var i := PositionOf(entries, skill);
    if i < |entries| then entries[i].1 else 0
  }

  function IndexCount(index: Index, signature: Signature, skill: Iri): nat {
    if signature in index then EntryCount(index[signature], skill) else 0
  }

  function ProfileCount(profiles: Profiles, skill: Iri, signature: Signature): nat {
    if skill in profiles && signature in profiles[skill] then profiles[skill][signature] else 0
  }

  function EdgeCount(edges: EdgeCounts, link: (Iri, Iri)): nat {
    if link in edges then edges[link] else 0
  }

  ghost function ProfileTotals(profiles: Profiles): map<Iri, nat> {
    map skill | skill in profiles :: Total(profiles[skill])
  }

  ghost function OutKeys(edges: EdgeCounts, source: Iri): set<(Iri, Iri)> {
    set e | e in edges && e.0 == source
  }

  ghost function TotalOut(edges: EdgeCounts, source: Iri): nat {
    SumOf(edges, OutKeys(edges, source))
  }

  /** count(source -> target) / total count out of source, and 0 when nothing leaves source. */
  ghost function Probability(edges: EdgeCounts, source: Iri, target: Iri): real {
    if TotalOut(edges, source) == 0 then 0.0
    else EdgeCount(edges, (source, target)) as real / TotalOut(edges, source) as real
  }

  ghost function Heads(keys: set<(Iri, Iri)>): set<Iri> {
    set e | e in keys :: e.1
  }

  /** The ends of a walk over all edges: nothing seen, and everything seen. */
  lemma NoneAndAllSeen(edges: EdgeCounts, source: Iri)
    ensures SumOf(edges, {} * OutKeys(edges, source)) == 0 && Heads({} * OutKeys(edges, source)) == {}
    ensures edges.Keys * OutKeys(edges, source) == OutKeys(edges, source)
  {
    assert {} * OutKeys(edges, source) == {};
  }

  /** Visiting one more edge adds its count to the running total of its own source, and to no other. */
  lemma SeenOneMore(edges: EdgeCounts, source: Iri, seen: set<(Iri, Iri)>, e: (Iri, Iri))
    requires e in edges && e !in seen
    ensures e.0 == source ==> (seen + {e}) * OutKeys(edges, source) == seen * OutKeys(edges, source) + {e}
    ensures e.0 != source ==> (seen + {e}) * OutKeys(edges, source) == seen * OutKeys(edges, source)
    ensures SumOf(edges, (seen + {e}) * OutKeys(edges, source)) ==
            SumOf(edges, seen * OutKeys(edges, source)) + if e.0 == source then edges[e] else 0
    ensures multiset(Heads((seen + {e}) * OutKeys(edges, source))) ==
            multiset(Heads(seen * OutKeys(edges, source))) + if e.0 == source then multiset{e.1} else multiset{}
    ensures EdgeCount(edges, e) == edges[e]
  {
    var old', new' := seen * OutKeys(edges, source), (seen + {e}) * OutKeys(edges, source);
    if e.0 == source {
      assert new' == old' + {e};
      SumAdd(edges, old', e);
      assert Heads(new') == Heads(old') + {e.1};
      assert e.1 !in Heads(old');
    } else {
      assert new' == old';
    }
  }

  function Names<V>(list: seq<(Iri, V)>): (r: seq<Iri>)
    ensures |r| == |list| && forall i :: 0 <= i < |r| ==> r[i] == list[i].0
  {
    seq(|list|, i requires 0 <= i < |list| => list[i].0)
  }

  function Links(list: seq<(Iri, Iri, real)>): (r: seq<(Iri, Iri)>)
    ensures |r| == |list| && forall i :: 0 <= i < |r| ==> r[i] == (list[i].0, list[i].1)
  {
    seq(|list|, i requires 0 <= i < |list| => (list[i].0, list[i].1))
  }

  lemma NamesAppend<V>(list: seq<(Iri, V)>, x: (Iri, V))
    ensures Names(list + [x]) == Names(list) + [x.0]
  {
  }

  lemma LinksAppend(list: seq<(Iri, Iri, real)>, x: (Iri, Iri, real))
    ensures Links(list + [x]) == Links(list) + [(x.0, x.1)]
  {
  }

  lemma WeightByDefinition(edges: EdgeCounts, source: Iri, target: Iri)
    ensures Probability(edges, source, target) ==
            if TotalOut(edges, source) > 0 then EdgeCount(edges, (source, target)) as real / TotalOut(edges, source) as real else 0.0
  {
  }

  /** Guarding the division, as two of the queries do, does not change the weight. */
  lemma GuardedWeight(edges: EdgeCounts, e: (Iri, Iri))
    requires e in edges
    ensures Probability(edges, e.0, e.1) == edges[e] as real / (if TotalOut(edges, e.0) < 1 then 1 else TotalOut(edges, e.0)) as real
  {
    assert e == (e.0, e.1);
    SumIsPositive(edges, OutKeys(edges, e.0), e);
    if TotalOut(edges, e.0) == 0 { Ratios(0, 0, 1); }
  }

  // ---------- invariants ----------

  ghost predicate DistinctSkills(entries: seq<(Iri, nat)>) {
    forall i, j :: 0 <= i < j < |entries| ==> entries[i].0 != entries[j].0
  }

  ghost predicate ValidEntries(entries: seq<(Iri, nat)>) {
    DistinctSkills(entries) && forall i :: 0 <= i < |entries| ==> entries[i].1 > 0
  }

  ghost predicate ValidIndex(index: Index) {
    forall s :: s in index ==> ValidEntries(index[s])
  }

  ghost predicate ValidProfiles(profiles: Profiles) {
    forall k :: k in profiles ==> forall s :: s in profiles[k] ==> profiles[k][s] > 0
  }

  ghost predicate ValidEdges(edges: EdgeCounts) {
    forall e :: e in edges ==> edges[e] > 0
  }

  ghost predicate ValidPriors(priors: map<Iri, real>) {
    forall k :: k in priors ==> PRIOR_FLOOR <= priors[k] <= PRIOR_CEILING
  }

  lemma PositionIsUnique(entries: seq<(Iri, nat)>, i: nat)
    requires DistinctSkills(entries) && i < |entries|
    ensures PositionOf(entries, entries[i].0) == i
  {
    var j := PositionOf(entries, entries[i].0);
    assert j <= i;
  }

  lemma PositionAfterBump(entries: seq<(Iri, nat)>, skill: Iri, k: Iri)
    ensures PositionOf(BumpEntry(entries, skill), k) ==
            if PositionOf(entries, k) == |entries| && k != skill then |BumpEntry(entries, skill)| else PositionOf(entries, k)
  {
    var after := BumpEntry(entries, skill);
    var i, j := PositionOf(entries, k), PositionOf(after, k);
    assert forall h :: 0 <= h < |entries| ==> after[h].0 == entries[h].0;
    if i < |after| && (i < |entries| || k == skill) {
      assert after[i].0 == k;
    }
  }

  lemma BumpEntryCounts(entries: seq<(Iri, nat)>, skill: Iri)
    requires ValidEntries(entries)
    ensures ValidEntries(BumpEntry(entries, skill))
    ensures forall k :: EntryCount(BumpEntry(entries, skill), k) == EntryCount(entries, k) + if k == skill then 1 else 0
  {
    forall k
      ensures EntryCount(BumpEntry(entries, skill), k) == EntryCount(entries, k) + if k == skill then 1 else 0
    {
      PositionAfterBump(entries, skill, k);
    }
  }

  /** Recording moves exactly one cell of the index, by one, and keeps one entry per skill. */
  lemma IndexRecordedCounts(index: Index, signature: Signature, skill: Iri)
    requires ValidIndex(index)
    ensures ValidIndex(IndexRecorded(index, signature, skill))
    ensures forall s, k :: IndexCount(IndexRecorded(index, signature, skill), s, k) ==
                           IndexCount(index, s, k) + if s == signature && k == skill then 1 else 0
  {
    BumpEntryCounts(if signature in index then index[signature] else [], skill);
  }

  lemma ProfileRecordedCounts(profiles: Profiles, skill: Iri, signature: Signature)
    requires ValidProfiles(profiles)
    ensures ValidProfiles(ProfileRecorded(profiles, skill, signature))
    ensures forall s, k :: ProfileCount(ProfileRecorded(profiles, skill, signature), k, s) ==
                           ProfileCount(profiles, k, s) + if s == signature && k == skill then 1 else 0
    ensures Total(ProfileTotals(ProfileRecorded(profiles, skill, signature))) == Total(ProfileTotals(profiles)) + 1
  {
    var profile := if skill in profiles then profiles[skill] else map[];
    var k := Bumped(profile, signature);
    TotalUpdate(profile, signature, k[signature]);
    TotalUpdate(ProfileTotals(profiles), skill, Total(k));
    assert ProfileTotals(profiles[skill := k]) == ProfileTotals(profiles)[skill := Total(k)];
  }

  // ---------- the weights form a probability distribution ----------

  lemma ProbabilityBounds(edges: EdgeCounts, source: Iri, target: Iri)
    requires ValidEdges(edges)
    ensures 0.0 <= Probability(edges, source, target) <= 1.0
    ensures Probability(edges, source, target) > 0.0 <==> (source, target) in edges
  {
    var link := (source, target);
    var total := TotalOut(edges, source);
    if link in edges {
      SumIsPositive(edges, OutKeys(edges, source), link);
      Ratios(edges[link], 0, total);
    }
  }

  ghost function WeightSum(edges: EdgeCounts, source: Iri, keys: set<(Iri, Iri)>): real {
    if keys == {} then 0.0 else
      var e :| e in keys;
      Probability(edges, source, e.1) + WeightSum(edges, source, keys - {e})
  }

  lemma {:induction false} WeightSumIsRatio(edges: EdgeCounts, source: Iri, keys: set<(Iri, Iri)>)
    requires keys <= OutKeys(edges, source) && TotalOut(edges, source) > 0
    ensures WeightSum(edges, source, keys) == SumOf(edges, keys) as real / TotalOut(edges, source) as real
  {
    if keys != {} {
      var e :| e in keys && WeightSum(edges, source, keys) == Probability(edges, source, e.1) + WeightSum(edges, source, keys - {e});
      assert e == (source, e.1);
      SumRemove(edges, keys, e);
      WeightSumIsRatio(edges, source, keys - {e});
      var total := TotalOut(edges, source);
      assert Probability(edges, source, e.1) == edges[e] as real / total as real;
      Ratios(edges[e], SumOf(edges, keys - {e}), total);
      assert edges[e] + SumOf(edges, keys - {e}) == SumOf(edges, keys);
    } else {
      Ratios(0, 0, TotalOut(edges, source));
    }
  }

  lemma Ratios(x: nat, y: nat, d: nat)
    requires d > 0
    ensures x as real / d as real + y as real / d as real == (x + y) as real / d as real
    ensures 0 as real / d as real == 0.0 && d as real / d as real == 1.0
    ensures 0.0 <= x as real / d as real && (x > 0 ==> x as real / d as real > 0.0) && (x <= d ==> x as real / d as real <= 1.0)
  {
    RatiosAdd(x as real, y as real, d as real);
    RatioOfEnds(d as real);
    RatioIsPositive(x as real, d as real);
    RatioIsAtMostOne(x as real, d as real);
  }

  lemma RatiosAdd(x: real, y: real, r: real)
    requires r > 0.0
    ensures x / r + y / r == (x + y) / r
  {
  }

  lemma RatioOfEnds(r: real)
    requires r > 0.0
    ensures r / r == 1.0 && 0.0 / r == 0.0
  {
  }

  lemma RatioIsPositive(x: real, r: real)
    requires x >= 0.0 && r > 0.0
    ensures x / r >= 0.0 && (x > 0.0 ==> x / r > 0.0)
  {
  }

  lemma RatioIsAtMostOne(x: real, r: real)
    requires r > 0.0
    ensures x <= r ==> x / r <= 1.0
  {
  }

  /** Out of any source with recorded edges, the weights are positive, at most 1, and sum to exactly 1. */
  lemma WeightsSumToOne(edges: EdgeCounts, source: Iri)
    requires ValidEdges(edges) && OutKeys(edges, source) != {}
    ensures WeightSum(edges, source, OutKeys(edges, source)) == 1.0
    ensures forall e :: e in OutKeys(edges, source) ==> 0.0 < Probability(edges, source, e.1) <= 1.0
  {
    var e :| e in OutKeys(edges, source);
    SumIsPositive(edges, OutKeys(edges, source), e);
    WeightSumIsRatio(edges, source, OutKeys(edges, source));
    Ratios(0, 0, TotalOut(edges, source));
    forall e | e in OutKeys(edges, source)
      ensures 0.0 < Probability(edges, source, e.1) <= 1.0
    {
      ProbabilityBounds(edges, source, e.1);
      assert e == (source, e.1);
    }
  }

  // ---------- the store ----------

  function Clamped(p: real): real {
    if p < PRIOR_FLOOR then PRIOR_FLOOR else if p > PRIOR_CEILING then PRIOR_CEILING else p
  }

  function Failures(rates: seq<(Iri, real)>): real {
    if rates == [] then 0.0 else Failures(rates[..|rates| - 1]) + (1.0 - rates[|rates| - 1].1)
  }

  function AtLeastFloor(total: real): (r: real)
    ensures r >= 0.001 && r >= total && r in {0.001, total}
  {
    if total < PRIOR_FLOOR then PRIOR_FLOOR else total
  }

  function WithFailureShares(priors: map<Iri, real>, rates: seq<(Iri, real)>, total: real): map<Iri, real>
    requires total > 0.0
  {
    if rates == [] then priors else
      var (skill, rate) := rates[|rates| - 1];
      WithFailureShares(priors, rates[..|rates| - 1], total)[skill := Clamped((1.0 - rate) / total)]
  }

  function PriorOf(priors: map<Iri, real>, skill: Iri): real {
    if skill in priors then priors[skill] else PRIOR_FLOOR
  }

  /** Clamping takes the nearest number from 0.001 to 0.999. */
  lemma ClampedIsNearest(p: real, x: real)
    requires 0.001 <= x <= 0.999
    ensures 0.001 <= Clamped(p) <= 0.999 && Distance(p, Clamped(p)) <= Distance(p, x)
  {
  }

  function Distance(x: real, y: real): real {
    if x < y then y - x else x - y
  }

  /** The failures of a list add up, each entry by what its rate falls short of 1. */
  lemma {:induction false} FailuresAddUp(rates: seq<(Iri, real)>, more: seq<(Iri, real)>)
    ensures Failures(rates + more) == Failures(rates) + Failures(more)
    ensures |more| == 1 ==> Failures(more) == 1.0 - more[0].1
  {
    if more == [] {
      assert rates + more == rates;
    } else {
      FailuresAddUp(rates, more[..|more| - 1]);
      assert (rates + more)[..|rates + more| - 1] == rates + more[..|more| - 1];
      assert |more| == 1 ==> more[..0] == [];
    }
  }

  /** After an update, a listed skill has the clamped share of all failures that its last entry makes up. */
  lemma {:induction false} ShareOfLastEntry(priors: map<Iri, real>, rates: seq<(Iri, real)>, total: real, i: nat)
    requires total > 0.0 && i < |rates| && forall j :: i < j < |rates| ==> rates[j].0 != rates[i].0
    ensures var after := WithFailureShares(priors, rates, total);
            rates[i].0 in after && after[rates[i].0] == Clamped((1.0 - rates[i].1) / total)
  {
    hide Clamped;
    if i < |rates| - 1 {
      ShareOfLastEntry(priors, rates[..|rates| - 1], total, i);
    }
  }

  /** Any other skill keeps what it had. */
  lemma {:induction false} UnlistedKeepTheirPrior(priors: map<Iri, real>, rates: seq<(Iri, real)>, total: real, skill: Iri)
    requires total > 0.0 && forall i :: 0 <= i < |rates| ==> rates[i].0 != skill
    ensures var after := WithFailureShares(priors, rates, total);
            (skill in after <==> skill in priors) && (skill in priors ==> after[skill] == priors[skill])
  {
    hide Clamped;
    if rates != [] {
      UnlistedKeepTheirPrior(priors, rates[..|rates| - 1], total, skill);
    }
  }

  function HasCount(n: nat): ((Iri, nat)) -> bool {
    (x: (Iri, nat)) => x.1 == n
  }

  class CausalModelStore {
    var errorIndex: Index
    var errorProfiles: Profiles
    var edges: EdgeCounts
    var priors: map<Iri, real>

    ghost predicate Valid()
      reads this
    {
      ValidIndex(errorIndex) && ValidProfiles(errorProfiles) && ValidEdges(edges) && ValidPriors(priors)
    }

    constructor ()
      ensures Valid()
      ensures errorIndex == map[] && errorProfiles == map[] && edges == map[] && priors == map[]
    {
      errorIndex, errorProfiles, edges, priors := map[], map[], map[], map[];
    }

    /** First critical section of `record_observation`. */
    method RecordInIndex(signature: Signature, skill: Iri)
      requires Valid()
      modifies this`errorIndex
      ensures Valid() && errorIndex == IndexRecorded(old(errorIndex), signature, skill)
    {
      hide ValidIndex, ValidProfiles, ValidEdges, ValidPriors, PositionOf, IndexCount;
      IndexRecordedCounts(errorIndex, signature, skill);
      var entries := if signature in errorIndex then errorIndex[signature] else [];
      var i := 0;
      while i < |entries| && entries[i].0 != skill
        invariant i <= |entries| && forall j :: 0 <= j < i ==> entries[j].0 != skill
      {
        i := i + 1;
      }
      assert i == PositionOf(entries, skill);
      if i < |entries| {
        entries := entries[i := (skill, entries[i].1 + 1)];
      } else {
        entries := entries + [(skill, 1)];
      }
      errorIndex := errorIndex[signature := entries];
    }

    /** Second critical section of `record_observation`. */
    method RecordInProfile(skill: Iri, signature: Signature)
      requires Valid()
      modifies this`errorProfiles
      ensures Valid() && errorProfiles == ProfileRecorded(old(errorProfiles), skill, signature)
    {
      ProfileRecordedCounts(errorProfiles, skill, signature);
      var profile := if skill in errorProfiles then errorProfiles[skill] else map[];
      profile := profile[signature := (if signature in profile then profile[signature] else 0) + 1];
      errorProfiles := errorProfiles[skill := profile];
    }

    method RecordPropagation(source: Iri, target: Iri)
      requires Valid()
      modifies this`edges
      ensures Valid() && edges == Bumped(old(edges), (source, target))
    {
      var link := (source, target);
      edges := edges[link := (if link in edges then edges[link] else 0) + 1];
    }

    /** The three critical sections in sequence; ConcurrentRecording lets other recorders run between them. */
    method RecordObservation(obs: Observation)
      requires Valid()
      modifies this`errorIndex, this`errorProfiles, this`edges
      ensures Valid()
      ensures errorIndex == IndexRecorded(old(errorIndex), obs.errorSignature, obs.skillIri)
      ensures errorProfiles == ProfileRecorded(old(errorProfiles), obs.skillIri, obs.errorSignature)
      ensures edges == LinkRecorded(old(edges), obs.propagationFrom, obs.skillIri)
    {
      RecordInIndex(obs.errorSignature, obs.skillIri);
      RecordInProfile(obs.skillIri, obs.errorSignature);
      match obs.propagationFrom {
        case Some(source) => RecordPropagation(source, obs.skillIri);
        case None =>
      }
    }

    method SetPrior(skill: Iri, probability: real)
      requires Valid()
      modifies this`priors
      ensures Valid() && priors == old(priors)[skill := Clamped(probability)]
    {
      priors := priors[skill := Clamped(probability)];
    }

    /** Each listed skill gets its share of all failures, clamped; the last entry for a skill counts. */
    method UpdatePriorsFromSuccessRates(rates: seq<(Iri, real)>)
      requires Valid()
      modifies this`priors
      ensures Valid() && priors == WithFailureShares(old(priors), rates, AtLeastFloor(Failures(rates)))
    {
      var total := 0.0;
      for i := 0 to |rates|
        invariant total == Failures(rates[..i])
      {
        total := total + (1.0 - rates[i].1);
        assert rates[..i + 1][..i] == rates[..i];
      }
      total := if total < 0.001 then 0.001 else total;
      assert rates[..|rates|] == rates;
      for i := 0 to |rates|
        invariant Valid() && priors == WithFailureShares(old(priors), rates[..i], total)
      {
        priors := priors[rates[i].0 := Clamped((1.0 - rates[i].1) / total)];
        assert rates[..i + 1][..i] == rates[..i];
      }
    }

    method Prior(skill: Iri) returns (p: real)
      requires Valid()
      ensures p == PriorOf(priors, skill) && PRIOR_FLOOR <= p <= PRIOR_CEILING
    {
      p := if skill in priors then priors[skill] else 0.001;
    }

    /** The skills of one error with their counts, most frequent first; equal counts in order of first appearance. */
    method FindSkillsByError(signature: Signature) returns (results: seq<(Iri, nat)>)
      requires Valid()
      ensures multiset(results) == multiset(if signature in errorIndex then errorIndex[signature] else [])
      ensures forall i, j :: 0 <= i < j < |results| ==> results[i].1 >= results[j].1
      ensures forall i :: 0 <= i < |results| ==> results[i].1 == IndexCount(errorIndex, signature, results[i].0) > 0
      ensures forall n :: Filtered(HasCount(n), results) == Filtered(HasCount(n), if signature in errorIndex then errorIndex[signature] else [])
    {
      var entries := if signature in errorIndex then errorIndex[signature] else [];
      var byCount := (x: (Iri, nat), y: (Iri, nat)) => x.1 >= y.1;
      results := Sorted(byCount, entries);
      SortedProperties(byCount, entries);
      forall n
        ensures Filtered(HasCount(n), results) == Filtered(HasCount(n), entries)
      {
        SortedIsStable(byCount, entries, HasCount(n));
      }
      forall i | 0 <= i < |results|
        ensures results[i].1 == IndexCount(errorIndex, signature, results[i].0) > 0
      {
        assert results[i] in multiset(results);
        var j :| 0 <= j < |entries| && entries[j] == results[i];
        PositionIsUnique(entries, j);
      }
    }

    method PropagationProbability(source: Iri, target: Iri) returns (p: real)
      ensures p == Probability(edges, source, target)
    {
      var count := if (source, target) in edges then edges[(source, target)] else 0;
      var totalOut: nat := 0;
      var rest := edges.Keys;
      ghost var seen: set<(Iri, Iri)> := {};
      while rest != {}
        invariant seen + rest == edges.Keys && seen !! rest
        invariant totalOut == SumOf(edges, seen * OutKeys(edges, source))
        decreases rest
      {
        var e :| e in rest;
        SeenOneMore(edges, source, seen, e);
        if e.0 == source {
          totalOut := totalOut + edges[e];
        }
        rest, seen := rest - {e}, seen + {e};
      }
      assert seen * OutKeys(edges, source) == OutKeys(edges, source);
      p := if totalOut == 0 then 0.0 else count as real / totalOut as real;
    }

    /** Every recorded edge out of `source`, once, with the weight the point query reports. */
    method OutgoingEdges(source: Iri) returns (result: seq<(Iri, PropagationEdge)>)
      ensures multiset(Names(result)) == multiset(Heads(OutKeys(edges, source)))
      ensures forall i :: 0 <= i < |result| ==>
        result[i].1 == PropagationEdge(Probability(edges, source, result[i].0), EdgeCount(edges, (source, result[i].0)))
    {
      hide Names, Heads, Probability, EdgeCount, TotalOut;
      var totalOut, targets := CountOutgoing(source);
      result := [];
      assert Names(targets)[..|targets|] == Names(targets);
      for i := 0 to |targets|
        invariant Names(result) == Names(targets)[..i]
        invariant forall j :: 0 <= j < i ==>
          result[j].1 == PropagationEdge(Probability(edges, source, result[j].0), EdgeCount(edges, (source, result[j].0)))
      {
        var weight := if totalOut > 0 then targets[i].1 as real / totalOut as real else 0.0;
        WeightByDefinition(edges, source, targets[i].0);
        NamesAppend(result, (targets[i].0, PropagationEdge(weight, targets[i].1)));
        result := result + [(targets[i].0, PropagationEdge(weight, targets[i].1))];
      }
    }

    /** The first loop of `outgoing_edges`: the total out of `source`, and its targets with their counts. */
    method CountOutgoing(source: Iri) returns (totalOut: nat, targets: seq<(Iri, nat)>)
      ensures totalOut == TotalOut(edges, source)
      ensures multiset(Names(targets)) == multiset(Heads(OutKeys(edges, source)))
      ensures forall i :: 0 <= i < |targets| ==> targets[i].1 == EdgeCount(edges, (source, targets[i].0))
    {
      hide SumOf, Names, Heads, EdgeCount, OutKeys;
      NoneAndAllSeen(edges, source);
      totalOut, targets := 0, [];
      var rest := edges.Keys;
      ghost var seen: set<(Iri, Iri)> := {};
      while rest != {}
        invariant seen + rest == edges.Keys && seen !! rest
        invariant totalOut == SumOf(edges, seen * OutKeys(edges, source))
        invariant multiset(Names(targets)) == multiset(Heads(seen * OutKeys(edges, source)))
        invariant forall i :: 0 <= i < |targets| ==> targets[i].1 == EdgeCount(edges, (source, targets[i].0))
        decreases rest
      {
        var e :| e in rest;
        SeenOneMore(edges, source, seen, e);
        if e.0 == source {
          totalOut := totalOut + edges[e];
          NamesAppend(targets, (e.1, edges[e]));
          targets := targets + [(e.1, edges[e])];
        }
        rest, seen := rest - {e}, seen + {e};
      }
    }

    /** Every recorded edge, once, with the weight the point query reports. */
    method AllPropagationEdges() returns (result: seq<(Iri, Iri, real)>)
      ensures multiset(Links(result)) == multiset(edges.Keys)
      ensures forall i :: 0 <= i < |result| ==> result[i].2 == Probability(edges, result[i].0, result[i].1)
    {
      hide Probability, TotalOut, SumOf, OutKeys, Links;
      var totalOut := TotalsBySource();
      result := [];
      assert Links(result) == [];
      var rest := edges.Keys;
      while rest != {}
        invariant rest <= edges.Keys && multiset(Links(result)) == multiset(edges.Keys - rest)
        invariant forall i :: 0 <= i < |result| ==> result[i].2 == Probability(edges, result[i].0, result[i].1)
        decreases rest
      {
        var e :| e in rest;
        var total := if totalOut[e.0] < 1 then 1 else totalOut[e.0];
        var weight := edges[e] as real / total as real;
        GuardedWeight(edges, e);
        LinksAppend(result, (e.0, e.1, weight));
        assert edges.Keys - (rest - {e}) == edges.Keys - rest + {e};
        result := result + [(e.0, e.1, weight)];
        rest := rest - {e};
      }
      assert edges.Keys - rest == edges.Keys;
    }

    method TotalsBySource() returns (totals: map<Iri, nat>)
      ensures forall e :: e in edges ==> e.0 in totals && totals[e.0] == TotalOut(edges, e.0)
    {
      totals := map[];
      var rest := edges.Keys;
      ghost var seen: set<(Iri, Iri)> := {};
      while rest != {}
        invariant seen + rest == edges.Keys && seen !! rest
        invariant forall e :: e in seen ==> e.0 in totals
        invariant forall s :: SumOf(edges, seen * OutKeys(edges, s)) == if s in totals then totals[s] else 0
        decreases rest
      {
        var e :| e in rest;
        ghost var before := totals;
        totals := totals[e.0 := (if e.0 in totals then totals[e.0] else 0) + edges[e]];
        forall s
          ensures SumOf(edges, (seen + {e}) * OutKeys(edges, s)) == if s in totals then totals[s] else 0
        {
          SeenOneMore(edges, s, seen, e);
        }
        rest, seen := rest - {e}, seen + {e};
      }
      forall e | e in edges
        ensures e.0 in totals && totals[e.0] == TotalOut(edges, e.0)
      {
        assert seen * OutKeys(edges, e.0) == OutKeys(edges, e.0);
      }
    }

    method TotalObservations() returns (n: nat)
      ensures n == Total(ProfileTotals(errorProfiles))
    {
      n := 0;
      var rest := errorProfiles.Keys;
      ghost var totals := ProfileTotals(errorProfiles);
      ghost var seen: set<Iri> := {};
      while rest != {}
        invariant seen + rest == totals.Keys == errorProfiles.Keys && seen !! rest
        invariant n == SumOf(totals, seen)
        decreases rest
      {
        var skill :| skill in rest;
        var count := SumOfValues(errorProfiles[skill]);
        SumAdd(totals, seen, skill);
        n := n + count;
        rest, seen := rest - {skill}, seen + {skill};
      }
      assert seen == totals.Keys;
    }
  }

  method SumOfValues(m: map<Signature, nat>) returns (n: nat)
    ensures n == Total(m)
  {
    n := 0;
    var rest := m.Keys;
    ghost var seen: set<Signature> := {};
    while rest != {}
      invariant seen + rest == m.Keys && seen !! rest
      invariant n == SumOf(m, seen)
      decreases rest
    {
      var k :| k in rest;
      SumAdd(m, seen, k);
      n := n + m[k];
      rest, seen := rest - {k}, seen + {k};
    }
    assert seen == m.Keys;
  }
}
