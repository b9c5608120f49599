/**
 How a completed step is forgotten: a scan stops at a hundred envelopes in key order, and keys do not follow time
 (src/core/checkpoint.rs, `read_pdca_resume`).
 */
module CheckpointReach {
  import opened Checkpoints
  import opened CheckpointOrder
  import T = Text

  const START := World(map[], 0, [])

  function Tally(n: nat): (r: string)
    ensures |r| == n && NoSlash(r)
  {
    if n == 0 then "" else Tally(n - 1) + "x"
  }

  /** A plan written under number 1, then `n` times a restart and a step written under number 0. */
  function CrashLoop(task: string, claims: Claims, now: int, n: nat): seq<Op> {
    if n == 0 then [Lost, Record(task, Plan, claims, [], "u", now)]
    else CrashLoop(task, claims, now, n - 1) + [Restart, Record(task, Do, claims, [], Tally(n), now)]
  }

  function PlanOf(task: string, claims: Claims, now: int): Envelope {
    Envelope(EnvelopeIri(task, 1, "u"), task, Plan, claims, [], now)
  }

  function DoneOf(task: string, claims: Claims, now: int, n: nat): Envelope {
    Envelope(EnvelopeIri(task, 0, Tally(n)), task, Do, claims, [], now)
  }

  /** Where the loop leaves the store. */
  function Looped(task: string, claims: Claims, now: int, n: nat): World {
    if n == 0 then var e := PlanOf(task, claims, now); World(map[e.iri := Parsed(e)], 2, [e])
    else
      var w, e := Looped(task, claims, now, n - 1), DoneOf(task, claims, now, n);
      World(w.entries[e.iri := Parsed(e)], 1, w.written + [e])
  }

  function DoneKeys(task: string, n: nat): set<string> {
    if n == 0 then {} else DoneKeys(task, n - 1) + {EnvelopeIri(task, 0, Tally(n))}
  }

  lemma DoneKey(task: string, n: nat)
    ensures var k := EnvelopeIri(task, 0, Tally(n));
            PrefixOf(task) <= k && T.Below(k, EnvelopeIri(task, 1, "u")) && k != EnvelopeIri(task, 1, "u") && |k| == |PrefixOf(task)| + 2 + n
  {
    hide T.Below, PrefixOf, Tally;
    SecondKeyIsSmaller(task, Tally(n));
    assert T.Decimal(0) == "0";
  }

  lemma {:induction false} DoneKeysAreSmaller(task: string, n: nat)
    ensures |DoneKeys(task, n)| == n
    ensures forall k :: k in DoneKeys(task, n) ==> PrefixOf(task) <= k && T.Below(k, EnvelopeIri(task, 1, "u")) && |k| <= |PrefixOf(task)| + 2 + n
  {
    hide T.Below, PrefixOf, Tally, EnvelopeIri;
    if n > 0 {
      DoneKeysAreSmaller(task, n - 1);
      DoneKey(task, n);
      assert EnvelopeIri(task, 0, Tally(n)) !in DoneKeys(task, n - 1);
    }
  }

  lemma {:induction false} LoopedKeys(task: string, claims: Claims, now: int, n: nat)
    ensures Looped(task, claims, now, n).entries.Keys == DoneKeys(task, n) + {EnvelopeIri(task, 1, "u")}
    ensures Mine(Looped(task, claims, now, n).written, task) == Looped(task, claims, now, n).written
    ensures |Looped(task, claims, now, n).written| == n + 1
    ensures forall e :: e in Looped(task, claims, now, n).written ==> e.step == Do || e == PlanOf(task, claims, now)
    ensures PlanOf(task, claims, now) in Looped(task, claims, now, n).written
  {
    hide EnvelopeIri, Tally, Mine;
    if n == 0 {
      MineAfter([], PlanOf(task, claims, now), task);
      assert [] + [PlanOf(task, claims, now)] == [PlanOf(task, claims, now)];
    } else {
      LoopedKeys(task, claims, now, n - 1);
      MineAfter(Looped(task, claims, now, n - 1).written, DoneOf(task, claims, now, n), task);
    }
  }

  lemma {:induction false} RunConcat(w: World, a: seq<Op>, b: seq<Op>, task: string, claims: Claims)
    requires AllFit(w, a, task, claims) && AllFit(Run(w, a), b, task, claims)
    ensures Run(w, a + b) == Run(Run(w, a), b) && AllFit(w, a + b, task, claims)
    decreases |a|
  {
    hide Next, Fits;
    if a == [] {
      assert a + b == b;
    } else {
      assert (a + b)[1..] == a[1..] + b;
      RunConcat(Next(w, a[0]), a[1..], b, task, claims);
    }
  }

  lemma RunTwo(w: World, a: Op, b: Op, task: string, claims: Claims)
    requires Fits(w, a, task, claims) && Fits(Next(w, a), b, task, claims)
    ensures Run(w, [a, b]) == Next(Next(w, a), b) && AllFit(w, [a, b], task, claims)
  {
    hide Next, Fits;
    assert [a, b][1..] == [b] && [b][1..] == [];
    assert Run(Next(w, a), [b]) == Next(Next(w, a), b) && AllFit(Next(w, a), [b], task, claims);
  }

  lemma {:induction false} LoopRuns(task: string, claims: Claims, now: int, n: nat)
    ensures Run(START, CrashLoop(task, claims, now, n)) == Looped(task, claims, now, n)
    ensures AllFit(START, CrashLoop(task, claims, now, n), task, claims)
  {
    hide Run, AllFit, EnvelopeIri, Tally, DoneKeys;
    if n == 0 {
      RunTwo(START, Lost, Record(task, Plan, claims, [], "u", now), task, claims);
    } else {
      LoopRuns(task, claims, now, n - 1);
      LoopedKeys(task, claims, now, n - 1);
      NextKeyIsNew(task, n);
      var w := Looped(task, claims, now, n - 1);
      RunTwo(w, Restart, Record(task, Do, claims, [], Tally(n), now), task, claims);
      RunConcat(START, CrashLoop(task, claims, now, n - 1), [Restart, Record(task, Do, claims, [], Tally(n), now)], task, claims);
    }
  }

  lemma NextKeyIsNew(task: string, n: nat)
    requires n > 0
    ensures EnvelopeIri(task, 0, Tally(n)) !in DoneKeys(task, n - 1) + {EnvelopeIri(task, 1, "u")}
  {
    hide T.Below, PrefixOf, DoneKeys, EnvelopeIri;
    DoneKeysAreSmaller(task, n - 1);
    DoneKey(task, n);
  }

  lemma PlanIsOutOfReach(task: string, claims: Claims, now: int, n: nat)
    requires n >= SCAN_LIMIT
    ensures !InReach(Looped(task, claims, now, n).entries, PrefixOf(task), EnvelopeIri(task, 1, "u"))
  {
    hide T.Below, PrefixOf, EnvelopeIri, DoneKeys, Looped;
    DoneKeysAreSmaller(task, n);
    LoopedKeys(task, claims, now, n);
    SubsetIsSmaller(DoneKeys(task, n), KeysBelow(Looped(task, claims, now, n).entries, PrefixOf(task), EnvelopeIri(task, 1, "u")));
  }

  lemma LoopIsHeld(task: string, claims: Claims, now: int, n: nat)
    ensures Holds(Looped(task, claims, now, n).entries, Looped(task, claims, now, n).written, task, claims)
  {
    assert Holds(START.entries, Mine(START.written, task), task, claims);
    hide Holds, Run, AllFit, Mine, CrashLoop, Looped;
    LoopRuns(task, claims, now, n);
    LoopedKeys(task, claims, now, n);
    RunHolds(START, CrashLoop(task, claims, now, n), task, claims);
  }

  lemma PlanIsScanned(task: string, claims: Claims, now: int, n: nat)
    ensures var w := Looped(task, claims, now, n);
            Plan in StepsOf(w.written) && (Plan in StepsOf(Scanned(w.entries, w.written, task)) <==> n < SCAN_LIMIT)
  {
    hide Holds, Scanned, InReach, PrefixOf, EnvelopeIri, Looped, DoneKeys, Mine;
    var w, plan := Looped(task, claims, now, n), PlanOf(task, claims, now);
    var scanned := Scanned(w.entries, w.written, task);
    LoopedKeys(task, claims, now, n);
    LoopIsHeld(task, claims, now, n);
    var i :| 0 <= i < |w.written| && w.written[i] == plan;
    assert StepsOf(w.written)[i] == Plan;
    if n < SCAN_LIMIT {
      FewAreAllScanned(w.entries, w.written, task, claims);
    } else {
      PlanIsOutOfReach(task, claims, now, n);
      ScannedHas(w.entries, w.written, task, claims);
      assert forall i :: 0 <= i < |scanned| ==> scanned[i] in scanned;
    }
  }

  /** The plan is reported as completed until a hundred later envelopes have smaller keys. */
  lemma ForgottenPlanExample(task: string, claims: Claims, now: int, n: nat, keys: seq<string>)
    requires IsScan(Run(START, CrashLoop(task, claims, now, n)).entries, PrefixOf(task), keys)
    ensures AllFit(START, CrashLoop(task, claims, now, n), task, claims)
    ensures var w := Run(START, CrashLoop(task, claims, now, n));
            Plan in StepsOf(Mine(w.written, task)) && (forall k :: k in keys ==> k in w.entries) &&
            var r := Resumed(w.entries, keys, task, claims);
            r.Ok? && r.value.Some? && (Plan in r.value.value.completedSteps <==> n < 100)
  {
    hide Run, AllFit, Holds, IsScan, Resumed, Scanned, PrefixOf, Mine, CrashLoop, Looped;
    LoopRuns(task, claims, now, n);
    LoopedKeys(task, claims, now, n);
    LoopIsHeld(task, claims, now, n);
    PlanIsScanned(task, claims, now, n);
    var w := Looped(task, claims, now, n);
    ResumeReports(w.entries, w.written, task, claims, keys);
    SameSteps(Scanned(w.entries, w.written, task), Scanned(w.entries, w.written, task), Plan);
  }
}
