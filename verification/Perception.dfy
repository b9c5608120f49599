/**
 What the perception store does to its three maps (src/core/perception_store.rs), as one step per operation:
 deduplicated writes, deliver-once reads, eviction of old deduplication stamps.
 */
module Perception {
  import opened Wrappers
  import opened Sorting
  import opened Sums

  datatype Source = WorkspaceMonitor | BatchAgent | PerceptionEngine | Environment | System

  /** Times are in nanoseconds. */
  datatype Entry = Entry(id: string, source: Source, content: string, detailIri: Option<string>,
                         priority: nat, timestamp: int, consumed: bool)

  type Key = (Source, string)

  datatype State = State(pending: map<string, seq<Entry>>, globals: seq<Entry>, dedup: map<Key, int>)

  const NANOS_PER_SECOND := 1_000_000_000
  const DEDUP_SECONDS := 60
  const EVICTION_SECONDS := 120
  const MAX_DELIVERED := 10

  const EMPTY := State(map[], [], map[])

  /** Whole seconds of a duration, truncated toward zero. */
  function NumSeconds(duration: int): int {
    if duration >= 0 then duration / NANOS_PER_SECOND else -(-duration / NANOS_PER_SECOND)
  }

  function KeyOf(e: Entry): Key {
    (e.source, e.content)
  }

  /** A write is refused while its source and content were written less than 60 seconds ago. */
  predicate Admits(dedup: map<Key, int>, key: Key, now: int) {
    key !in dedup || NumSeconds(now - dedup[key]) >= DEDUP_SECONDS
  }

  function PendingOf(pending: map<string, seq<Entry>>, task: string): seq<Entry> {
    if task in pending then pending[task] else []
  }

  function Consumed(entries: seq<Entry>): (r: seq<Entry>) {
    seq(|entries|, i requires 0 <= i < |entries| => entries[i].(consumed := true))
  }

  /** The entries not yet taken, in order, as a take hands them out. */
  function Fresh(entries: seq<Entry>): seq<Entry> {
    if entries == [] then [] else
      var last := entries[|entries| - 1];
      Fresh(entries[..|entries| - 1]) + if last.consumed then [] else [last.(consumed := true)]
  }

  function Candidates(s: State, task: string): seq<Entry> {
    Fresh(s.globals) + Fresh(PendingOf(s.pending, task))
  }

  /** Higher priority first, then older first. */
  function Before(): (Entry, Entry) -> bool {
    (a: Entry, b: Entry) => a.priority > b.priority || (a.priority == b.priority && a.timestamp <= b.timestamp)
  }

  function Delivered(s: State, task: string): seq<Entry> {
    var sorted := Sorted(Before(), Candidates(s, task));
    if |sorted| > MAX_DELIVERED then sorted[..MAX_DELIVERED] else sorted
  }

  predicate HasFresh(entries: seq<Entry>) {
    exists i :: 0 <= i < |entries| && !entries[i].consumed
  }

  predicate HasNew(s: State, task: string) {
    HasFresh(s.globals) || HasFresh(PendingOf(s.pending, task))
  }

  // ---------- operations ----------

  datatype Op =
    | Store(task: string, entry: Entry, now: int)
    | StoreGlobal(entry: Entry, now: int)
    | ClearGlobal
    | Take(task: string)
    | AskNew(task: string)
    | Cleanup(task: string)
    | Evict(now: int)

  datatype Outcome = Decided(accepted: bool) | Handed(entries: seq<Entry>) | Answered(hasNew: bool) | Done

  /** Stamps of 120 seconds and older go. */
  function AfterEviction(dedup: map<Key, int>, now: int): map<Key, int> {
    map k | k in dedup && NumSeconds(now - dedup[k]) < EVICTION_SECONDS :: dedup[k]
  }

  function AfterTake(s: State, task: string): State {
    s.(globals := Consumed(s.globals),
       pending := if task in s.pending then s.pending[task := Consumed(s.pending[task])] else s.pending)
  }

  function Step(s: State, op: Op): State {
    match op
    case Store(task, e, now) =>
      if Admits(s.dedup, KeyOf(e), now)
      then s.(dedup := s.dedup[KeyOf(e) := now], pending := s.pending[task := PendingOf(s.pending, task) + [e]])
      else s
    case StoreGlobal(e, now) =>
      if Admits(s.dedup, KeyOf(e), now) then s.(dedup := s.dedup[KeyOf(e) := now], globals := s.globals + [e]) else s
    case ClearGlobal =>
      s.(globals := [], dedup := map k | k in s.dedup && k.0 != WorkspaceMonitor :: s.dedup[k])
    case Take(task) => AfterTake(s, task)
    case AskNew(_) => s
    case Cleanup(task) => s.(pending := s.pending - {task})
    case Evict(now) => s.(dedup := AfterEviction(s.dedup, now))
  }

  function OutcomeOf(s: State, op: Op): Outcome {
    match op
    case Store(_, e, now) => Decided(Admits(s.dedup, KeyOf(e), now))
    case StoreGlobal(e, now) => Decided(Admits(s.dedup, KeyOf(e), now))
    case Take(task) => Handed(Delivered(s, task))
    case AskNew(task) => Answered(HasNew(s, task))
    case _ => Done
  }

  function Run(s: State, ops: seq<Op>): State
    decreases |ops|
  {
    if ops == [] then s else Run(Step(s, ops[0]), ops[1..])
  }

  /** What the callers of a run see; an eviction shows them nothing. */
  function Outcomes(s: State, ops: seq<Op>): seq<Outcome>
    decreases |ops|
  {
    if ops == [] then [] else (if ops[0].Evict? then [] else [OutcomeOf(s, ops[0])]) + Outcomes(Step(s, ops[0]), ops[1..])
  }

  // ---------- a take hands out the best ten and leaves nothing new ----------

  lemma BeforeIsTotal()
    ensures TotalPreorder(Before())
  {
  }

  lemma {:induction false} FreshOfConsumed(entries: seq<Entry>)
    ensures Fresh(Consumed(entries)) == []
  {
    if entries != [] {
      var most := entries[..|entries| - 1];
      assert Consumed(entries)[..|entries| - 1] == Consumed(most);
      FreshOfConsumed(most);
    }
  }

  lemma TakeHandsOutTheBest(s: State, task: string)
    ensures var c, d := Candidates(s, task), Delivered(s, task);
            |d| == (if |c| < MAX_DELIVERED then |c| else MAX_DELIVERED) && IsSorted(Before(), d) &&
            multiset(d) <= multiset(c) &&
            forall x, y :: x in d && y in multiset(c) - multiset(d) ==> Before()(x, y)
    ensures var after := AfterTake(s, task); !HasNew(after, task) && Candidates(after, task) == []
  {
    hide Before, Fresh, IsSorted;
    var c := Candidates(s, task);
    BeforeIsTotal();
    SortedProperties(Before(), c);
    PrefixIsBest(Before(), Sorted(Before(), c), |Delivered(s, task)|);
    FreshOfConsumed(s.globals);
    FreshOfConsumed(PendingOf(s.pending, task));
    NothingFresh(AfterTake(s, task).globals);
    NothingFresh(PendingOf(AfterTake(s, task).pending, task));
  }

  /** A global entry is for the first task that takes: another task is left with its own entries only. */
  lemma GlobalsGoToTheFirst(s: State, a: string, b: string)
    ensures Candidates(AfterTake(s, a), b) == if a == b then [] else Fresh(PendingOf(s.pending, b))
  {
    hide Fresh;
    FreshOfConsumed(s.globals);
    FreshOfConsumed(PendingOf(s.pending, a));
    assert Fresh(PendingOf(AfterTake(s, a).pending, b)) == if a == b then [] else Fresh(PendingOf(s.pending, b)) by {
      NothingFresh([]);
    }
  }

  lemma PrefixIsBest<T(!new)>(le: (T, T) -> bool, sorted: seq<T>, n: nat)
    requires IsSorted(le, sorted) && n <= |sorted|
    ensures IsSorted(le, sorted[..n]) && multiset(sorted[..n]) <= multiset(sorted)
    ensures forall x, y :: x in sorted[..n] && y in multiset(sorted) - multiset(sorted[..n]) ==> le(x, y)
  {
    var first, last := sorted[..n], sorted[n..];
    assert multiset(sorted) == multiset(first) + multiset(last) by {
      assert sorted == first + last;
    }
    forall x, y | x in first && y in last
      ensures le(x, y)
    {
      var i :| 0 <= i < |first| && first[i] == x;
      var j :| 0 <= j < |last| && last[j] == y;
      assert le(sorted[i], sorted[n + j]);
    }
    hide IsSorted;
    assert forall y :: y in multiset(sorted) - multiset(first) ==> y in last;
  }

  lemma NothingFresh(entries: seq<Entry>)
    ensures (forall i :: 0 <= i < |entries| ==> entries[i].consumed) ==> Fresh(entries) == [] && !HasFresh(entries)
  {
    if forall i :: 0 <= i < |entries| ==> entries[i].consumed {
      assert Consumed(entries) == entries;
      FreshOfConsumed(entries);
    }
  }

  // ---------- every accepted entry is handed out at most once ----------

  /** How many entries of a list are still to be taken as `x`. */
  ghost function Waiting(entries: seq<Entry>, x: Entry): nat {
    multiset(Fresh(entries))[x]
  }

  ghost function WaitingPerTask(pending: map<string, seq<Entry>>, x: Entry): map<string, nat> {
    map task | task in pending :: Waiting(pending[task], x)
  }

  ghost function AllWaiting(s: State, x: Entry): nat {
    Waiting(s.globals, x) + Total(WaitingPerTask(s.pending, x))
  }

  ghost function Accepted(s: State, op: Op, x: Entry): nat {
    if (op.Store? || op.StoreGlobal?) && Admits(s.dedup, KeyOf(op.entry), op.now) then Waiting([op.entry], x) else 0
  }

  ghost function HandedOut(s: State, op: Op, x: Entry): nat {
    if op.Take? then multiset(Delivered(s, op.task))[x] else 0
  }

  /** What is given up: entries a take withholds beyond the ten, and the waiting ones a clear or a cleanup removes. */
  ghost function Dropped(s: State, op: Op, x: Entry): nat {
    match op
    case Take(task) =>
      var c, d := multiset(Candidates(s, task))[x], multiset(Delivered(s, task))[x];
      if c > d then c - d else 0
    case ClearGlobal => Waiting(s.globals, x)
    case Cleanup(task) => Waiting(PendingOf(s.pending, task), x)
    case _ => 0
  }

  ghost function AllAccepted(s: State, ops: seq<Op>, x: Entry): nat
    decreases |ops|
  {
    if ops == [] then 0 else Accepted(s, ops[0], x) + AllAccepted(Step(s, ops[0]), ops[1..], x)
  }

  ghost function AllHandedOut(s: State, ops: seq<Op>, x: Entry): nat
    decreases |ops|
  {
    if ops == [] then 0 else HandedOut(s, ops[0], x) + AllHandedOut(Step(s, ops[0]), ops[1..], x)
  }

  ghost function AllDropped(s: State, ops: seq<Op>, x: Entry): nat
    decreases |ops|
  {
    if ops == [] then 0 else Dropped(s, ops[0], x) + AllDropped(Step(s, ops[0]), ops[1..], x)
  }

  lemma WaitingAfterPush(entries: seq<Entry>, e: Entry, x: Entry)
    ensures Waiting(entries + [e], x) == Waiting(entries, x) + Waiting([e], x)
  {
    assert (entries + [e])[..|entries|] == entries;
    assert [e][..0] == [];
    assert Fresh([e]) == if e.consumed then [] else [e.(consumed := true)];
    assert Fresh(entries + [e]) == Fresh(entries) + Fresh([e]);
  }

  lemma PendingReplaced(pending: map<string, seq<Entry>>, task: string, entries: seq<Entry>, x: Entry)
    ensures Total(WaitingPerTask(pending[task := entries], x)) + Waiting(PendingOf(pending, task), x) ==
            Total(WaitingPerTask(pending, x)) + Waiting(entries, x)
  {
    var m := WaitingPerTask(pending, x);
    assert WaitingPerTask(pending[task := entries], x) == m[task := Waiting(entries, x)];
    TotalUpdate(m, task, Waiting(entries, x));
    assert Fresh([]) == [];
  }

  lemma PendingRemoved(pending: map<string, seq<Entry>>, task: string, x: Entry)
    ensures Total(WaitingPerTask(pending - {task}, x)) + Waiting(PendingOf(pending, task), x) == Total(WaitingPerTask(pending, x))
  {
    if task in pending {
      var rest := pending - {task};
      assert rest[task := pending[task]] == pending;
      PendingReplaced(rest, task, pending[task], x);
      assert Fresh([]) == [];
    } else {
      assert pending - {task} == pending;
      NoneWaiting(x);
    }
  }

  /** What was waiting or is accepted is handed out, dropped or still waiting, copy by copy. */
  lemma StepConserves(s: State, op: Op, x: Entry)
    ensures HandedOut(s, op, x) + Dropped(s, op, x) + AllWaiting(Step(s, op), x) == Accepted(s, op, x) + AllWaiting(s, x)
  {
    hide Fresh, Total, WaitingPerTask, Waiting, Candidates, Delivered, Admits;
    match op
    case Store(task, e, now) =>
      if Admits(s.dedup, KeyOf(e), now) {
        var entries := PendingOf(s.pending, task);
        PendingReplaced(s.pending, task, entries + [e], x);
        WaitingAfterPush(entries, e, x);
      }
    case StoreGlobal(e, now) =>
      WaitingAfterPush(s.globals, e, x);
    case ClearGlobal =>
      NoneWaiting(x);
    case Take(task) =>
      TakeConserves(s, task, x);
    case AskNew(_) =>
    case Cleanup(task) =>
      PendingRemoved(s.pending, task, x);
    case Evict(_) =>
  }

  lemma NoneWaiting(x: Entry)
    ensures Waiting([], x) == 0
  {
  }

  lemma TakeConserves(s: State, task: string, x: Entry)
    ensures multiset(Delivered(s, task))[x] <= multiset(Candidates(s, task))[x]
    ensures multiset(Candidates(s, task))[x] + AllWaiting(AfterTake(s, task), x) == AllWaiting(s, x)
  {
    hide Fresh, Total, WaitingPerTask, Delivered;
    TakeHandsOutTheBest(s, task);
    FreshOfConsumed(s.globals);
    var entries := PendingOf(s.pending, task);
    FreshOfConsumed(entries);
    NoneWaiting(x);
    if task in s.pending {
      PendingReplaced(s.pending, task, Consumed(entries), x);
    }
  }

  /** The same over every run. */
  lemma {:induction false} RunConserves(s: State, ops: seq<Op>, x: Entry)
    ensures AllHandedOut(s, ops, x) + AllDropped(s, ops, x) + AllWaiting(Run(s, ops), x) == AllAccepted(s, ops, x) + AllWaiting(s, x)
    decreases |ops|
  {
    hide AllWaiting, HandedOut, Accepted, Dropped, Step;
    if ops != [] {
      StepConserves(s, ops[0], x);
      RunConserves(Step(s, ops[0]), ops[1..], x);
    }
  }

  /** In a new store an entry is handed out at most as often as it was accepted, and what is missing was dropped or still waits. */
  lemma DeliveredAtMostOnce(ops: seq<Op>, x: Entry)
    ensures AllHandedOut(EMPTY, ops, x) <= AllAccepted(EMPTY, ops, x)
    ensures AllAccepted(EMPTY, ops, x) - AllHandedOut(EMPTY, ops, x) == AllDropped(EMPTY, ops, x) + AllWaiting(Run(EMPTY, ops), x)
  {
    RunConserves(EMPTY, ops, x);
    NoneWaiting(x);
    assert WaitingPerTask(map[], x) == map[];
    assert Total(WaitingPerTask(map[], x)) == 0;
  }

  // ---------- the deduplication window ----------

  lemma NumSecondsGrows(d: int, e: int)
    requires d <= e
    ensures NumSeconds(d) <= NumSeconds(e)
  {
  }

  predicate Writes(op: Op, key: Key) {
    (op.Store? || op.StoreGlobal?) && KeyOf(op.entry) == key
  }

  predicate AcceptedAt(s: State, ops: seq<Op>, i: nat, key: Key)
    requires i < |ops|
  {
    Writes(ops[i], key) && Admits(Run(s, ops[..i]).dedup, key, ops[i].now)
  }

  /** The operation takes away the stamp of a write of `key` at `time`. */
  predicate Forgets(op: Op, key: Key, time: int) {
    (op.Evict? && NumSeconds(op.now - time) >= EVICTION_SECONDS) || (op.ClearGlobal? && key.0 == WorkspaceMonitor)
  }

  lemma StampAfter(s: State, op: Op, key: Key)
    requires !(Writes(op, key) && Admits(s.dedup, key, op.now))
    ensures var d := Step(s, op).dedup;
            (key in d <==> key in s.dedup && !Forgets(op, key, s.dedup[key])) && (key in d ==> d[key] == s.dedup[key])
  {
    hide NumSeconds;
  }

  /** Until its key is accepted again, a stamp stays as it is or is taken away. */
  lemma {:induction false} StampStays(s: State, ops: seq<Op>, key: Key)
    requires forall i :: 0 <= i < |ops| ==> !AcceptedAt(s, ops, i, key)
    ensures var d := Run(s, ops).dedup;
            (key in d <==> key in s.dedup && forall i :: 0 <= i < |ops| ==> !Forgets(ops[i], key, s.dedup[key])) &&
            (key in d ==> d[key] == s.dedup[key])
    decreases |ops|
  {
    hide Step, Admits, Writes, Forgets;
    if ops != [] {
      var next, rest := Step(s, ops[0]), ops[1..];
      assert !AcceptedAt(s, ops, 0, key) && ops[..0] == [];
      StampAfter(s, ops[0], key);
      forall i | 0 <= i < |rest|
        ensures !AcceptedAt(next, rest, i, key) && rest[i] == ops[i + 1]
      {
        assert ops[..i + 1][1..] == rest[..i] && !AcceptedAt(s, ops, i + 1, key);
      }
      StampStays(next, rest, key);
      assert forall i :: 0 < i < |ops| ==> ops[i] == rest[i - 1];
    }
  }

  lemma {:induction false} RunConcat(s: State, a: seq<Op>, b: seq<Op>)
    ensures Run(s, a + b) == Run(Run(s, a), b)
    ensures Outcomes(s, a + b) == Outcomes(s, a) + Outcomes(Run(s, a), b)
    decreases |a|
  {
    hide Step, OutcomeOf;
    if a == [] {
      assert a + b == b;
    } else {
      assert (a + b)[1..] == a[1..] + b;
      RunConcat(Step(s, a[0]), a[1..], b);
    }
  }
}
