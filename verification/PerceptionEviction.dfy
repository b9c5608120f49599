/**
 When evicting old deduplication stamps shows (src/core/perception_store.rs, `evict_dedup_cache`): never, as long as no
 write reads the clock more than 60 seconds behind an earlier eviction, and otherwise for some contents of the store.
 */
module PerceptionEviction {
  import opened Wrappers
  import opened Sorting
  import opened Perception

  function WithoutEvictions(ops: seq<Op>): (r: seq<Op>)
    ensures |r| <= |ops|
  {
    if ops == [] then [] else (if ops[0].Evict? then [] else [ops[0]]) + WithoutEvictions(ops[1..])
  }

  /** How far the clock may fall back behind an eviction. */
  const GRACE := (EVICTION_SECONDS - DEDUP_SECONDS) * NANOS_PER_SECOND

  /** One eviction makes no difference to a later write, whatever the stamps, exactly when the write reads no more than 60 seconds earlier. */
  lemma EvictionShowsExactlyWhen(key: Key, evict: int, write: int)
    ensures (forall dedup :: Admits(AfterEviction(dedup, evict), key, write) == Admits(dedup, key, write)) <==> write >= evict - 60_000_000_000
  {
    if write >= evict - GRACE {
      forall dedup
        ensures Admits(AfterEviction(dedup, evict), key, write) == Admits(dedup, key, write)
      {
        if key in dedup && key !in AfterEviction(dedup, evict) {
          NumSecondsGrows(evict - GRACE - dedup[key], write - dedup[key]);
        }
      }
    } else {
      var dedup := map[key := evict - EVICTION_SECONDS * NANOS_PER_SECOND];
      assert key !in AfterEviction(dedup, evict);
      assert Admits(AfterEviction(dedup, evict), key, write) != Admits(dedup, key, write);
    }
  }

  predicate IsWrite(op: Op) {
    op.Store? || op.StoreGlobal?
  }

  /** No write reads more than 60 seconds before an earlier eviction. */
  predicate EvictionsInTime(ops: seq<Op>) {
    forall i, j :: 0 <= i < j < |ops| && ops[i].Evict? && IsWrite(ops[j]) ==> ops[j].now >= ops[i].now - 60_000_000_000
  }

  /** All writes still to come read at least the horizon, if there is one. */
  predicate WritesFrom(ops: seq<Op>, horizon: Option<int>) {
    forall j :: 0 <= j < |ops| && IsWrite(ops[j]) && horizon.Some? ==> ops[j].now >= horizon.value
  }

  /** `s` is `t` short of some stamps that are too old at the horizon to refuse anything. */
  ghost predicate Evicted(s: State, t: State, horizon: Option<int>) {
    s.pending == t.pending && s.globals == t.globals &&
    (forall k :: k in s.dedup ==> k in t.dedup && t.dedup[k] == s.dedup[k]) &&
    (forall k :: k in t.dedup && k !in s.dedup ==> horizon.Some? && NumSeconds(horizon.value - t.dedup[k]) >= DEDUP_SECONDS)
  }

  function Later(horizon: Option<int>, evict: int): Option<int> {
    if horizon.Some? && horizon.value > evict - GRACE then horizon else Some(evict - GRACE)
  }

  /** Steps with the same operation keep two such stores alike, as long as writes stay behind the horizon. */
  lemma StepAlike(s: State, t: State, op: Op, horizon: Option<int>)
    requires Evicted(s, t, horizon) && !op.Evict? && (IsWrite(op) && horizon.Some? ==> op.now >= horizon.value)
    ensures Evicted(Step(s, op), Step(t, op), horizon) && OutcomeOf(s, op) == OutcomeOf(t, op)
  {
    hide NumSeconds, Sorted, Fresh, Admits, HasFresh;
    if IsWrite(op) {
      SameVerdict(s, t, KeyOf(op.entry), op.now, horizon);
    }
  }

  lemma SameVerdict(s: State, t: State, key: Key, now: int, horizon: Option<int>)
    requires Evicted(s, t, horizon) && (horizon.Some? ==> now >= horizon.value)
    ensures Admits(s.dedup, key, now) == Admits(t.dedup, key, now)
  {
    hide NumSeconds;
    if key in t.dedup && key !in s.dedup {
      NumSecondsGrows(horizon.value - t.dedup[key], now - t.dedup[key]);
    }
  }

  lemma EvictionAlike(s: State, t: State, horizon: Option<int>, now: int)
    requires Evicted(s, t, horizon)
    ensures Evicted(Step(s, Evict(now)), t, Later(horizon, now))
  {
    var later := Later(horizon, now).value;
    forall k | k in t.dedup && k !in Step(s, Evict(now)).dedup
      ensures NumSeconds(later - t.dedup[k]) >= DEDUP_SECONDS
    {
      if k in s.dedup {
        NumSecondsGrows(now - GRACE - t.dedup[k], later - t.dedup[k]);
      } else {
        NumSecondsGrows(horizon.value - t.dedup[k], later - t.dedup[k]);
      }
    }
  }

  lemma {:induction false} RunAlike(s: State, t: State, ops: seq<Op>, horizon: Option<int>)
    requires Evicted(s, t, horizon) && EvictionsInTime(ops) && WritesFrom(ops, horizon)
    ensures Outcomes(s, ops) == Outcomes(t, WithoutEvictions(ops))
    ensures var u, v := Run(s, ops), Run(t, WithoutEvictions(ops)); u.pending == v.pending && u.globals == v.globals
    decreases |ops|
  {
    assert s.pending == t.pending && s.globals == t.globals;
    hide Evicted, Step, OutcomeOf;
    if ops != [] {
      TailInTime(ops, horizon);
      if ops[0].Evict? {
        EvictionAlike(s, t, horizon, ops[0].now);
        assert WithoutEvictions(ops) == WithoutEvictions(ops[1..]);
        RunAlike(Step(s, ops[0]), t, ops[1..], Later(horizon, ops[0].now));
      } else {
        StepAlike(s, t, ops[0], horizon);
        RunAlike(Step(s, ops[0]), Step(t, ops[0]), ops[1..], horizon);
        assert ([ops[0]] + WithoutEvictions(ops[1..]))[1..] == WithoutEvictions(ops[1..]);
      }
    }
  }

  lemma TailInTime(ops: seq<Op>, horizon: Option<int>)
    requires EvictionsInTime(ops) && WritesFrom(ops, horizon) && ops != []
    ensures EvictionsInTime(ops[1..]) && WritesFrom(ops[1..], if ops[0].Evict? then Later(horizon, ops[0].now) else horizon)
  {
    var rest := ops[1..];
    assert forall j :: 0 <= j < |rest| ==> rest[j] == ops[j + 1];
  }

  /**
   Two runs that differ only in where, and how often, the stamps are evicted show their callers the same: every write
   gets the same verdict and every take the same entries. No write may read more than 60 seconds before an earlier
   eviction; a clock that never goes back is enough.
   */
  lemma EvictionsChangeNothing(s: State, ops: seq<Op>, others: seq<Op>)
    requires EvictionsInTime(ops) && EvictionsInTime(others) && WithoutEvictions(ops) == WithoutEvictions(others)
    ensures Outcomes(s, ops) == Outcomes(s, others)
    ensures Run(s, ops).pending == Run(s, others).pending && Run(s, ops).globals == Run(s, others).globals
  {
    RunAlike(s, s, ops, None);
    RunAlike(s, s, others, None);
  }

  function TimeOf(op: Op): Option<int> {
    match op
    case Store(_, _, now) => Some(now)
    case StoreGlobal(_, now) => Some(now)
    case Evict(now) => Some(now)
    case _ => None
  }

  /** The clock readings of a run never go back, and start no earlier than `from`. */
  predicate Monotone(ops: seq<Op>, from: int)
    decreases |ops|
  {
    ops == [] || (var t := TimeOf(ops[0]).GetOr(from); from <= t && Monotone(ops[1..], t))
  }

  /** A clock that never goes back keeps all evictions in time. */
  lemma {:induction false} MonotoneIsInTime(ops: seq<Op>, from: int)
    requires Monotone(ops, from)
    ensures EvictionsInTime(ops) && forall j :: 0 <= j < |ops| && TimeOf(ops[j]).Some? ==> TimeOf(ops[j]).value >= from
    decreases |ops|
  {
    if ops != [] {
      var rest := ops[1..];
      MonotoneIsInTime(rest, TimeOf(ops[0]).GetOr(from));
      assert forall j :: 0 < j < |ops| ==> ops[j] == rest[j - 1];
    }
  }

  // ---------- otherwise an eviction shows ----------

  /** The same operations at the same times, but the writes may bring other entries. */
  predicate Rewritten(ops: seq<Op>, others: seq<Op>) {
    |ops| == |others| &&
    forall i :: 0 <= i < |ops| ==> if IsWrite(ops[i]) then IsWrite(others[i]) && others[i] == WithEntry(ops[i], others[i].entry) else others[i] == ops[i]
  }

  function WithEntry(op: Op, e: Entry): Op {
    match op
    case Store(task, _, now) => Store(task, e, now)
    case StoreGlobal(_, now) => StoreGlobal(e, now)
    case _ => op
  }

  function Writing(content: string): Entry {
    Entry("", BatchAgent, content, None, 0, 0, false)
  }

  /** Every write brings "x", but the one at `j` brings "y". */
  function Relabelled(ops: seq<Op>, j: nat): (r: seq<Op>) {
    seq(|ops|, i requires 0 <= i < |ops| => WithEntry(ops[i], Writing(if i == j then "y" else "x")))
  }

  lemma {:induction false} WithoutEvictionsConcat(a: seq<Op>, b: seq<Op>)
    ensures WithoutEvictions(a + b) == WithoutEvictions(a) + WithoutEvictions(b)
  {
    if a == [] {
      assert a + b == b;
    } else {
      assert (a + b)[1..] == a[1..] + b;
      WithoutEvictionsConcat(a[1..], b);
    }
  }

  lemma {:induction false} OneOutcomeEach(s: State, t: State, ops: seq<Op>)
    ensures |Outcomes(s, ops)| == |WithoutEvictions(ops)| == |Outcomes(t, WithoutEvictions(ops))|
    decreases |ops|
  {
    hide Step, OutcomeOf;
    if ops != [] {
      var rest := WithoutEvictions(ops[1..]);
      if ops[0].Evict? {
        OneOutcomeEach(Step(s, ops[0]), t, ops[1..]);
        assert WithoutEvictions(ops) == rest;
      } else {
        OneOutcomeEach(Step(s, ops[0]), Step(t, ops[0]), ops[1..]);
        assert ([ops[0]] + rest)[1..] == rest;
      }
    }
  }

  predicate LeavesAlone(ops: seq<Op>, key: Key) {
    forall i :: 0 <= i < |ops| ==> !Writes(ops[i], key)
  }

  lemma {:induction false} NoneLeft(ops: seq<Op>, key: Key)
    requires LeavesAlone(ops, key)
    ensures LeavesAlone(WithoutEvictions(ops), key) && forall i :: 0 <= i < |WithoutEvictions(ops)| ==> !WithoutEvictions(ops)[i].Evict?
  {
    if ops != [] {
      assert forall i :: 0 <= i < |ops[1..]| ==> ops[1..][i] == ops[i + 1];
      NoneLeft(ops[1..], key);
    }
  }

  /** The stamp that the eviction at `i` takes away. */
  function Doomed(evict: int): State {
    EMPTY.(dedup := map[KeyOf(Writing("y")) := evict - EVICTION_SECONDS * NANOS_PER_SECOND])
  }

  lemma EvictedByThen(ops: seq<Op>, i: nat, key: Key)
    requires i < |ops| && ops[i].Evict? && LeavesAlone(ops, key) && key == KeyOf(Writing("y"))
    ensures key !in Run(Doomed(ops[i].now), ops).dedup
  {
    var s, a, b := Doomed(ops[i].now), ops[..i], ops[i + 1..];
    assert LeavesAlone(a, key) && LeavesAlone(b, key);
    hide Outcomes, Run, Step, LeavesAlone, Doomed;
    assert ops == a + ([ops[i]] + b);
    RunConcat(s, a, [ops[i]] + b);
    StampStays(s, a, key);
    var before := Run(s, a);
    var after := Step(before, ops[i]);
    DoomedGoes(before, ops[i], key);
    RunConcat(before, [ops[i]], b);
    RunOne(before, ops[i]);
    StampStays(after, b, key);
  }

  lemma RunOne(s: State, op: Op)
    ensures Run(s, [op]) == Step(s, op)
  {
    assert [op][1..] == [];
  }

  lemma DoomedGoes(s: State, op: Op, key: Key)
    requires op.Evict? && key == KeyOf(Writing("y"))
    requires key in s.dedup ==> key in Doomed(op.now).dedup && s.dedup[key] == Doomed(op.now).dedup[key]
    ensures key !in Step(s, op).dedup
  {
  }

  lemma KeptWithout(ops: seq<Op>, evict: int, key: Key)
    requires LeavesAlone(ops, key) && key == KeyOf(Writing("y"))
    ensures var d := Run(Doomed(evict), WithoutEvictions(ops)).dedup;
            key in d && d[key] == evict - EVICTION_SECONDS * NANOS_PER_SECOND
  {
    NoneLeft(ops, key);
    StampStays(Doomed(evict), WithoutEvictions(ops), key);
  }

  /** An eviction that is not in time changes the verdict on the write, for some entries and some store. */
  lemma LateEvictionShows(ops: seq<Op>, i: nat, j: nat)
    requires i < j < |ops| && ops[i].Evict? && IsWrite(ops[j]) && ops[j].now < ops[i].now - 60_000_000_000
    ensures var others, s := Relabelled(ops, j), Doomed(ops[i].now);
            Rewritten(ops, others) && Outcomes(s, others) != Outcomes(s, WithoutEvictions(others))
  {
    hide Run, Outcomes, WithoutEvictions, Admits;
    var others, s, key := Relabelled(ops, j), Doomed(ops[i].now), KeyOf(Writing("y"));
    var a, op, b := others[..j], others[j], others[j + 1..];
    assert others == a + ([op] + b);
    assert "x"[0] != "y"[0];
    assert a[i] == ops[i] && LeavesAlone(a, key);
    EvictedByThen(a, i, key);
    KeptWithout(a, ops[i].now, key);
    RunConcat(s, a, [op] + b);
    WithoutEvictionsConcat(a, [op] + b);
    WithoutEvictionsConcat([op], b);
    FirstOutcome(s, op, b);
    RunConcat(s, WithoutEvictions(a), [op] + WithoutEvictions(b));
    OneOutcomeEach(s, s, a);
    VerdictsDiffer(Run(s, a), Run(s, WithoutEvictions(a)), op, key, ops[i].now);
    FirstOutcome(Run(s, a), op, b);
    FirstOutcome(Run(s, WithoutEvictions(a)), op, WithoutEvictions(b));
    var n := |WithoutEvictions(a)|;
    assert Outcomes(s, others)[n] == OutcomeOf(Run(s, a), op);
    assert Outcomes(s, WithoutEvictions(others))[n] == OutcomeOf(Run(s, WithoutEvictions(a)), op);
  }

  lemma FirstOutcome(s: State, op: Op, rest: seq<Op>)
    requires !op.Evict?
    ensures |Outcomes(s, [op] + rest)| > 0 && Outcomes(s, [op] + rest)[0] == OutcomeOf(s, op)
    ensures WithoutEvictions([op]) == [op]
  {
    assert [op][1..] == [];
  }

  lemma VerdictsDiffer(s: State, t: State, op: Op, key: Key, evict: int)
    requires IsWrite(op) && KeyOf(op.entry) == key && op.now < evict - GRACE
    requires key !in s.dedup && key in t.dedup && t.dedup[key] == evict - EVICTION_SECONDS * NANOS_PER_SECOND
    ensures OutcomeOf(s, op) != OutcomeOf(t, op)
  {
  }

  /** For instance a write at 0 that a stamp from 0 refuses, unless an eviction at 120 seconds took the stamp away. */
  lemma BackwardClockExample(e: Entry)
    ensures var s := EMPTY.(dedup := map[KeyOf(e) := 0]);
            var late, early := Evict(120_000_000_000), StoreGlobal(e, 0);
            Outcomes(s, [late, early]) == [Decided(true)] && Outcomes(s, [early]) == [Decided(false)]
  {
    var s := EMPTY.(dedup := map[KeyOf(e) := 0]);
    var late, early := Evict(120_000_000_000), StoreGlobal(e, 0);
    assert [late, early][1..] == [early] && [early][1..] == [];
    assert Step(s, late).dedup == map[];
    assert Outcomes(Step(s, late), [early]) == [Decided(true)];
  }

  lemma RewrittenInTime(ops: seq<Op>, others: seq<Op>)
    requires Rewritten(ops, others) && EvictionsInTime(ops)
    ensures EvictionsInTime(others)
  {
  }

  /**
   The evictions of a run are invisible, for every store to start from and whatever the writes bring, exactly when no
   write reads more than 60 seconds before an earlier eviction.
   */
  lemma EvictionsInvisibleExactlyWhen(ops: seq<Op>)
    ensures (forall others, s :: Rewritten(ops, others) ==> Outcomes(s, others) == Outcomes(s, WithoutEvictions(others))) <==>
            EvictionsInTime(ops)
  {
    hide Outcomes, WithoutEvictions, Rewritten;
    if EvictionsInTime(ops) {
      forall others, s | Rewritten(ops, others)
        ensures Outcomes(s, others) == Outcomes(s, WithoutEvictions(others))
      {
        RewrittenInTime(ops, others);
        RunAlike(s, s, others, None);
      }
    } else {
      var i, j :| 0 <= i < j < |ops| && ops[i].Evict? && IsWrite(ops[j]) && ops[j].now < ops[i].now - GRACE;
      LateEvictionShows(ops, i, j);
    }
  }
}
