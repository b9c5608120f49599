/**
 The deduplication window (src/core/perception_store.rs): how far apart two accepted writes of the same source and
 content are, and what can make them come closer.
 */
module PerceptionWindow {
  import opened Wrappers
  import opened Perception
  import opened PerceptionEviction

  /**
   After an accepted write, the next one of the same source and content is accepted exactly when it comes 60 seconds
   later or the stamp was taken away in between: by an eviction reading 120 seconds later, or, for the workspace
   monitor, by clearing the global entries. The clock may read anything.
   */
  lemma AcceptedAgainExactlyWhen(s: State, ops: seq<Op>, key: Key, i: nat, j: nat)
    requires i < j < |ops| && AcceptedAt(s, ops, i, key) && Writes(ops[j], key)
    requires forall k :: i < k < j ==> !AcceptedAt(s, ops, k, key)
    ensures AcceptedAt(s, ops, j, key) <==>
            ops[j].now - ops[i].now >= 60_000_000_000 ||
            (exists k :: i < k < j && ops[k].Evict? && ops[k].now - ops[i].now >= 120_000_000_000) ||
            (key.0 == WorkspaceMonitor && exists k :: i < k < j && ops[k].ClearGlobal?)
  {
    Seconds(ops[j].now - ops[i].now);
    forall k | i < k < j
      ensures Forgets(ops[k], key, ops[i].now) <==>
              (ops[k].Evict? && ops[k].now - ops[i].now >= 120_000_000_000) || (key.0 == WorkspaceMonitor && ops[k].ClearGlobal?)
    {
      ForgetsExactlyWhen(ops[k], key, ops[i].now);
    }
    hide Run, Forgets, NumSeconds;
    var after := AfterWrite(s, ops, key, i);
    var between := ops[i + 1..j];
    forall k | 0 <= k < |between|
      ensures !AcceptedAt(after, between, k, key) && between[k] == ops[i + 1 + k]
    {
      RunFrom(s, ops, i, i + 1 + k);
      assert between[..k] == ops[i + 1..i + 1 + k];
      assert !AcceptedAt(s, ops, i + 1 + k, key);
    }
    StampStays(after, between, key);
    RunFrom(s, ops, i, j);
    assert forall k :: i < k < j ==> ops[k] == between[k - i - 1];
  }

  lemma ForgetsExactlyWhen(op: Op, key: Key, time: int)
    ensures Forgets(op, key, time) <==>
            (op.Evict? && op.now - time >= 120_000_000_000) || (key.0 == WorkspaceMonitor && op.ClearGlobal?)
  {
    if op.Evict? {
      Seconds(op.now - time);
    }
  }

  lemma Seconds(d: int)
    ensures NumSeconds(d) >= DEDUP_SECONDS <==> d >= 60_000_000_000
    ensures NumSeconds(d) >= EVICTION_SECONDS <==> d >= 120_000_000_000
  {
  }

  lemma RunFrom(s: State, ops: seq<Op>, i: nat, j: nat)
    requires i < j <= |ops|
    ensures Run(s, ops[..j]) == Run(Step(Run(s, ops[..i]), ops[i]), ops[i + 1..j])
  {
    hide Step, Outcomes;
    assert ops[..j] == ops[..i] + ops[i..j];
    RunConcat(s, ops[..i], ops[i..j]);
    assert ops[i..j][1..] == ops[i + 1..j];
  }

  lemma AfterWrite(s: State, ops: seq<Op>, key: Key, i: nat) returns (after: State)
    requires i < |ops| && AcceptedAt(s, ops, i, key)
    ensures after == Step(Run(s, ops[..i]), ops[i]) && key in after.dedup && after.dedup[key] == ops[i].now
  {
    after := Step(Run(s, ops[..i]), ops[i]);
  }

  // ---------- at least 60 seconds apart ----------

  /** The store remembers that `key` was written at `time`, or the writes to come are too late to matter. */
  predicate Remembers(s: State, key: Key, time: int, horizon: Option<int>) {
    if key in s.dedup then s.dedup[key] >= time else horizon.Some? && NumSeconds(horizon.value - time) >= DEDUP_SECONDS
  }

  lemma StepRemembers(s: State, op: Op, key: Key, time: int, horizon: Option<int>)
    requires Remembers(s, key, time, horizon) && (IsWrite(op) && horizon.Some? ==> op.now >= horizon.value)
    requires key.0 != WorkspaceMonitor || !op.ClearGlobal?
    ensures Remembers(Step(s, op), key, time, if op.Evict? then Later(horizon, op.now) else horizon)
    ensures Writes(op, key) && Admits(s.dedup, key, op.now) ==> NumSeconds(op.now - time) >= DEDUP_SECONDS
  {
    if op.Evict? {
      var later := Later(horizon, op.now).value;
      if key in s.dedup {
        NumSecondsGrows(op.now - GRACE - s.dedup[key], later - time);
      } else {
        NumSecondsGrows(horizon.value - time, later - time);
      }
    } else if IsWrite(op) && key in s.dedup {
      NumSecondsGrows(op.now - s.dedup[key], op.now - time);
    } else if IsWrite(op) {
      NumSecondsGrows(horizon.value - time, op.now - time);
    }
  }

  /** What a store remembers refuses the next writes, by induction over the run. */
  lemma {:induction false} RefusedWithinTheWindow(s: State, ops: seq<Op>, key: Key, time: int, horizon: Option<int>, i: nat)
    requires Remembers(s, key, time, horizon) && EvictionsInTime(ops) && WritesFrom(ops, horizon) && i < |ops|
    requires key.0 != WorkspaceMonitor || forall j :: 0 <= j < i ==> !ops[j].ClearGlobal?
    requires AcceptedAt(s, ops, i, key)
    ensures NumSeconds(ops[i].now - time) >= DEDUP_SECONDS
    decreases i
  {
    hide Remembers, Admits, NumSeconds, Step, EvictionsInTime, Later;
    StepRemembers(s, ops[0], key, time, horizon);
    if i == 0 {
      assert ops[..0] == [];
    } else {
      TailInTime(ops, horizon);
      assert ops[..i][1..] == ops[1..][..i - 1] && ops[..i][0] == ops[0];
      RefusedWithinTheWindow(Step(s, ops[0]), ops[1..], key, time, if ops[0].Evict? then Later(horizon, ops[0].now) else horizon, i - 1);
    }
  }

  /**
   Any two accepted writes of the same source and content in one run are at least 60 seconds apart, as long as no write
   reads the clock more than 60 seconds behind an earlier eviction; for the workspace monitor, clearing the global
   entries ends this.
   */
  lemma AcceptedWritesAreApart(s: State, ops: seq<Op>, key: Key, i: nat, j: nat)
    requires i < j < |ops| && AcceptedAt(s, ops, i, key) && AcceptedAt(s, ops, j, key) && EvictionsInTime(ops)
    requires key.0 != WorkspaceMonitor || forall k :: i < k < j ==> !ops[k].ClearGlobal?
    ensures ops[j].now - ops[i].now >= 60_000_000_000
  {
    Seconds(ops[j].now - ops[i].now);
    hide Run, NumSeconds, Step;
    var after := AfterWrite(s, ops, key, i);
    var rest := ops[i + 1..];
    RunFrom(s, ops, i, j);
    assert rest[..j - i - 1] == ops[i + 1..j];
    assert forall k :: 0 <= k < |rest| ==> rest[k] == ops[i + 1 + k];
    RefusedWithinTheWindow(after, rest, key, ops[i].now, None, j - i - 1);
  }

  /** Otherwise an entry can be accepted twice at the same instant. */
  lemma TwiceAtOnceExample(e: Entry)
    ensures Outcomes(EMPTY, [StoreGlobal(e, 0), Evict(120_000_000_000), StoreGlobal(e, 0)]) == [Decided(true), Decided(true)]
  {
    var write, evict := StoreGlobal(e, 0), Evict(120_000_000_000);
    var once := Step(EMPTY, write);
    assert [write, evict, write][1..] == [evict, write] && [evict, write][1..] == [write] && [write][1..] == [];
    assert Step(once, evict).dedup == map[];
    assert Outcomes(Step(once, evict), [write]) == [Decided(true)];
  }
}
