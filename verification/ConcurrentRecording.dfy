/**
 Recorders running concurrently: `record_observation` takes three locks one after the other, so any number of
 other recorders may run between its steps. A state holds the three shared maps and, for every call made so far,
 how far it has come; a run is any sequence of steps.
 */
module ConcurrentRecording {
  import opened Wrappers
  import opened Sums
  import opened CausalStore

  /** The critical section a recorder is about to enter. */
  datatype Phase = Indexing | Profiling | Linking | Finished

  datatype Recorder = Recorder(obs: Observation, phase: Phase)

  datatype State = State(index: Index, profiles: Profiles, edges: EdgeCounts,
                         recorders: seq<Recorder>, links: seq<(Iri, Iri)>)

  const Start := State(map[], map[], map[], [], [])

  datatype Action =
    | Call(obs: Observation)
    | Advance(i: nat)
    | RecordPropagation(source: Iri, target: Iri)

  ghost predicate Enabled(s: State, a: Action) {
    a.Advance? ==> a.i < |s.recorders| && !s.recorders[a.i].phase.Finished?
  }

  /** One atomic step: a new call, one critical section of one call, or a bare `record_propagation`. */
  function After(s: State, a: Action): State
    requires Enabled(s, a)
  {
    match a
    case Call(obs) => s.(recorders := s.recorders + [Recorder(obs, Indexing)])
    case RecordPropagation(source, target) =>
      s.(edges := Bumped(s.edges, (source, target)), links := s.links + [(source, target)])
    case Advance(i) =>
      var r := s.recorders[i];
      match r.phase
      case Indexing =>
        s.(index := IndexRecorded(s.index, r.obs.errorSignature, r.obs.skillIri), recorders := s.recorders[i := r.(phase := Profiling)])
      case Profiling =>
        s.(profiles := ProfileRecorded(s.profiles, r.obs.skillIri, r.obs.errorSignature), recorders := s.recorders[i := r.(phase := Linking)])
      case Linking =>
        s.(edges := LinkRecorded(s.edges, r.obs.propagationFrom, r.obs.skillIri), recorders := s.recorders[i := r.(phase := Finished)])
      case Finished => s
  }

  ghost predicate Run(actions: seq<Action>)
    decreases |actions|, 0
  {
    actions == [] || (Run(actions[..|actions| - 1]) && Enabled(Outcome(actions[..|actions| - 1]), actions[|actions| - 1]))
  }

  ghost function Outcome(actions: seq<Action>): State
    requires Run(actions)
    decreases |actions|, 1
  {
    if actions == [] then Start else After(Outcome(actions[..|actions| - 1]), actions[|actions| - 1])
  }

  // ---------- counting recorders ----------

  function Count(rs: seq<Recorder>, p: Recorder -> bool): nat {
    if rs == [] then 0 else (if p(rs[0]) then 1 else 0) + Count(rs[1..], p)
  }

  lemma {:induction false} CountUpdate(rs: seq<Recorder>, i: nat, r: Recorder, p: Recorder -> bool)
    requires i < |rs|
    ensures Count(rs[i := r], p) + (if p(rs[i]) then 1 else 0) == Count(rs, p) + if p(r) then 1 else 0
  {
    if i == 0 {
      assert rs[0 := r][1..] == rs[1..];
    } else {
      CountUpdate(rs[1..], i - 1, r, p);
      assert rs[i := r][1..] == rs[1..][i - 1 := r];
    }
  }

  lemma {:induction false} CountAppend(rs: seq<Recorder>, r: Recorder, p: Recorder -> bool)
    ensures Count(rs + [r], p) == Count(rs, p) + if p(r) then 1 else 0
  {
    if rs != [] {
      CountAppend(rs[1..], r, p);
      assert (rs + [r])[1..] == rs[1..] + [r];
    }
  }

  lemma {:induction false} CountSame(rs: seq<Recorder>, p: Recorder -> bool, q: Recorder -> bool)
    requires forall i :: 0 <= i < |rs| ==> p(rs[i]) == q(rs[i])
    ensures Count(rs, p) == Count(rs, q)
  {
    if rs != [] {
      CountSame(rs[1..], p, q);
    }
  }

  predicate Matches(r: Recorder, signature: Signature, skill: Iri) {
    r.obs.errorSignature == signature && r.obs.skillIri == skill
  }

  predicate Profiled(r: Recorder) {
    r.phase.Linking? || r.phase.Finished?
  }

  function Of(signature: Signature, skill: Iri): Recorder -> bool {
    (r: Recorder) => Matches(r, signature, skill)
  }

  function IndexedOf(signature: Signature, skill: Iri): Recorder -> bool {
    (r: Recorder) => Matches(r, signature, skill) && !r.phase.Indexing?
  }

  function ProfiledOf(signature: Signature, skill: Iri): Recorder -> bool {
    (r: Recorder) => Matches(r, signature, skill) && Profiled(r)
  }

  function BetweenOf(signature: Signature, skill: Iri): Recorder -> bool {
    (r: Recorder) => Matches(r, signature, skill) && r.phase.Profiling?
  }

  function LinkedOf(link: (Iri, Iri)): Recorder -> bool {
    (r: Recorder) => r.phase.Finished? && r.obs.propagationFrom == Some(link.0) && r.obs.skillIri == link.1
  }

  function AnyProfiled(): Recorder -> bool {
    (r: Recorder) => Profiled(r)
  }

  // ---------- the invariant ----------

  ghost predicate Maps(s: State) {
    ValidIndex(s.index) && ValidProfiles(s.profiles) && ValidEdges(s.edges)
  }

  ghost predicate Counts(s: State, signature: Signature, skill: Iri) {
    && IndexCount(s.index, signature, skill) == Count(s.recorders, IndexedOf(signature, skill))
    && ProfileCount(s.profiles, skill, signature) == Count(s.recorders, ProfiledOf(signature, skill))
  }

  ghost predicate LinkCounts(s: State, link: (Iri, Iri)) {
    EdgeCount(s.edges, link) == Count(s.recorders, LinkedOf(link)) + multiset(s.links)[link]
  }

  ghost predicate Inv(s: State) {
    && Maps(s)
    && (forall signature, skill :: Counts(s, signature, skill))
    && (forall link :: LinkCounts(s, link))
    && Total(ProfileTotals(s.profiles)) == Count(s.recorders, AnyProfiled())
  }

  lemma AfterKeepsInv(s: State, a: Action)
    requires Inv(s) && Enabled(s, a)
    ensures Inv(After(s, a))
  {
    var t := After(s, a);
    match a {
      case Call(obs) =>
        forall p { CountAppend(s.recorders, Recorder(obs, Indexing), p); }
        assert forall signature, skill :: Counts(s, signature, skill) ==> Counts(t, signature, skill);
        assert forall link :: LinkCounts(s, link) ==> LinkCounts(t, link);
      case RecordPropagation(source, target) =>
        assert forall signature, skill :: Counts(s, signature, skill) ==> Counts(t, signature, skill);
        assert forall link :: LinkCounts(s, link) ==> LinkCounts(t, link);
      case Advance(i) =>
        AdvanceKeepsInv(s, i);
    }
  }

  lemma AdvanceKeepsInv(s: State, i: nat)
    requires Inv(s) && Enabled(s, Advance(i))
    ensures Inv(After(s, Advance(i)))
  {
    hide Count, Total, ProfileTotals, IndexRecorded, ProfileRecorded, Counts;
    var t, r := After(s, Advance(i)), s.recorders[i];
    forall signature, skill
      ensures Counts(t, signature, skill)
    {
      AdvanceCounts(s, i, signature, skill);
    }
    forall link
      ensures LinkCounts(t, link)
    {
      assert LinkCounts(s, link);
      CountUpdate(s.recorders, i, t.recorders[i], LinkedOf(link));
    }
    CountUpdate(s.recorders, i, t.recorders[i], AnyProfiled());
    match r.phase {
      case Indexing => IndexRecordedCounts(s.index, r.obs.errorSignature, r.obs.skillIri);
      case Profiling => ProfileRecordedCounts(s.profiles, r.obs.skillIri, r.obs.errorSignature);
      case Linking =>
    }
  }

  lemma AdvanceCounts(s: State, i: nat, signature: Signature, skill: Iri)
    requires Inv(s) && Enabled(s, Advance(i))
    ensures Counts(After(s, Advance(i)), signature, skill)
  {
    hide Count, Total, ProfileTotals, IndexRecorded, ProfileRecorded, IndexCount, ProfileCount;
    var t, r := After(s, Advance(i)), s.recorders[i];
    assert Counts(s, signature, skill);
    CountUpdate(s.recorders, i, t.recorders[i], IndexedOf(signature, skill));
    CountUpdate(s.recorders, i, t.recorders[i], ProfiledOf(signature, skill));
    match r.phase {
      case Indexing => IndexRecordedCounts(s.index, r.obs.errorSignature, r.obs.skillIri);
      case Profiling => ProfileRecordedCounts(s.profiles, r.obs.skillIri, r.obs.errorSignature);
      case Linking =>
    }
  }

  lemma {:induction false} RunKeepsInv(actions: seq<Action>)
    requires Run(actions)
    ensures Inv(Outcome(actions))
  {
    if actions == [] {
      assert ProfileTotals(Start.profiles) == map[];
      assert forall signature, skill :: Counts(Start, signature, skill);
      assert forall link :: LinkCounts(Start, link);
    } else {
      RunKeepsInv(actions[..|actions| - 1]);
      AfterKeepsInv(Outcome(actions[..|actions| - 1]), actions[|actions| - 1]);
    }
  }

  lemma {:induction false} BetweenIsDifference(rs: seq<Recorder>, signature: Signature, skill: Iri)
    ensures Count(rs, IndexedOf(signature, skill)) ==
            Count(rs, ProfiledOf(signature, skill)) + Count(rs, BetweenOf(signature, skill))
  {
    if rs != [] {
      BetweenIsDifference(rs[1..], signature, skill);
    }
  }

  // ---------- over every interleaving ----------

  /** The index runs ahead of the profiles by exactly the recorders that are between their first two steps. */
  lemma IndexLeadsByRecordersInBetween(actions: seq<Action>, signature: Signature, skill: Iri)
    requires Run(actions)
    ensures var s := Outcome(actions);
            IndexCount(s.index, signature, skill) ==
            ProfileCount(s.profiles, skill, signature) + Count(s.recorders, BetweenOf(signature, skill))
  {
    RunKeepsInv(actions);
    var s := Outcome(actions);
    assert Counts(s, signature, skill);
    BetweenIsDifference(s.recorders, signature, skill);
  }

  ghost predicate Quiescent(s: State) {
    forall i :: 0 <= i < |s.recorders| ==> s.recorders[i].phase.Finished?
  }

  /**
   Once every call has returned, index and profiles are exact transposes that count every observation made,
   no skill is listed twice under an error, and the total is the number of calls.
   */
  lemma QuiescentStoreIsExact(actions: seq<Action>)
    requires Run(actions) && Quiescent(Outcome(actions))
    ensures var s := Outcome(actions);
            && (forall signature, skill :: IndexCount(s.index, signature, skill) == ProfileCount(s.profiles, skill, signature)
                                           == Count(s.recorders, Of(signature, skill)))
            && (forall signature :: signature in s.index ==> DistinctSkills(s.index[signature]))
            && Total(ProfileTotals(s.profiles)) == |s.recorders|
  {
    RunKeepsInv(actions);
    var s := Outcome(actions);
    forall signature, skill
      ensures IndexCount(s.index, signature, skill) == ProfileCount(s.profiles, skill, signature) == Count(s.recorders, Of(signature, skill))
    {
      assert Counts(s, signature, skill);
      CountSame(s.recorders, IndexedOf(signature, skill), Of(signature, skill));
      CountSame(s.recorders, ProfiledOf(signature, skill), Of(signature, skill));
    }
    CountAll(s.recorders, AnyProfiled());
  }

  lemma {:induction false} CountAll(rs: seq<Recorder>, p: Recorder -> bool)
    requires forall i :: 0 <= i < |rs| ==> p(rs[i])
    ensures Count(rs, p) == |rs|
  {
    if rs != [] {
      CountAll(rs[1..], p);
    }
  }

  /**
   In every reachable store the weights out of a source with recorded edges are positive and sum to 1, and each
   recorded edge counts exactly the finished calls that named it plus the bare recordings of it.
   */
  lemma ReachableWeights(actions: seq<Action>, source: Iri)
    requires Run(actions)
    ensures var s := Outcome(actions);
            && ValidEdges(s.edges)
            && (forall link :: EdgeCount(s.edges, link) == Count(s.recorders, LinkedOf(link)) + multiset(s.links)[link])
            && (OutKeys(s.edges, source) != {} ==> WeightSum(s.edges, source, OutKeys(s.edges, source)) == 1.0)
  {
    RunKeepsInv(actions);
    var s := Outcome(actions);
    forall link
      ensures EdgeCount(s.edges, link) == Count(s.recorders, LinkedOf(link)) + multiset(s.links)[link]
    {
      assert LinkCounts(s, link);
    }
    if OutKeys(s.edges, source) != {} {
      WeightsSumToOne(s.edges, source);
    }
  }
}
