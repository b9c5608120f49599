/** What a take delivers, entry by entry, in terms of their fields (src/core/perception_store.rs, `take_perception_text`). */
module PerceptionDelivery {
  import opened Sorting
  import opened Perception

  /** Higher priority first, at equal priority the older one first. */
  predicate MoreUrgent(x: Entry, y: Entry) {
    x.priority > y.priority || (x.priority == y.priority && x.timestamp <= y.timestamp)
  }

  function Alike(priority: nat, timestamp: int): Entry -> bool {
    (e: Entry) => e.priority == priority && e.timestamp == timestamp
  }

  /**
   At most ten entries are delivered, the more urgent before the less, and none withheld is more urgent than one
   delivered. At equal priority and time, global entries come before the task's, each in the order of arrival.
   */
  lemma DeliveredInOrder(s: State, task: string, priority: nat, timestamp: int)
    ensures var waiting := Fresh(s.globals) + Fresh(if task in s.pending then s.pending[task] else []);
            var d := Delivered(s, task);
            |d| == (if |waiting| < 10 then |waiting| else 10) &&
            (forall i, j :: 0 <= i < j < |d| ==> MoreUrgent(d[i], d[j])) &&
            (forall x, y :: x in d && y in multiset(waiting) - multiset(d) ==> MoreUrgent(x, y)) &&
            Filtered(Alike(priority, timestamp), d) <= Filtered(Alike(priority, timestamp), waiting)
  {
    forall x, y
      ensures Before()(x, y) == MoreUrgent(x, y)
    {
    }
    hide Fresh, Before, MoreUrgent, Sorted;
    TakeHandsOutTheBest(s, task);
    StableDelivery(s, task, priority, timestamp);
  }

  lemma StableDelivery(s: State, task: string, priority: nat, timestamp: int)
    ensures Filtered(Alike(priority, timestamp), Delivered(s, task)) <= Filtered(Alike(priority, timestamp), Candidates(s, task))
  {
    hide Fresh, Sorted;
    var p, sorted, d := Alike(priority, timestamp), Sorted(Before(), Candidates(s, task)), Delivered(s, task);
    SortedIsStable(Before(), Candidates(s, task), p);
    assert sorted == d + sorted[|d|..];
    FilteredConcat(p, d, sorted[|d|..]);
  }

  /** What is waiting in a list: its entries not yet consumed, marked, in the order of arrival. */
  lemma FreshInOrder(entries: seq<Entry>, e: Entry)
    ensures Fresh([]) == []
    ensures Fresh(entries + [e]) == Fresh(entries) + if e.consumed then [] else [e.(consumed := true)]
  {
    assert (entries + [e])[..|entries|] == entries;
  }

  predicate Marked(after: seq<Entry>, before: seq<Entry>) {
    |after| == |before| && forall i :: 0 <= i < |before| ==> after[i] == before[i].(consumed := true)
  }

  /** A take keeps every entry where it is, and changes nothing but the mark. */
  lemma TakeKeepsEntries(s: State, task: string, other: string)
    ensures var after := AfterTake(s, task);
            Marked(after.globals, s.globals) && after.pending.Keys == s.pending.Keys && after.dedup == s.dedup &&
            (task in s.pending ==> Marked(after.pending[task], s.pending[task])) &&
            (other in s.pending && other != task ==> after.pending[other] == s.pending[other])
  {
  }

  /** What each step leaves waiting for a task: an accepted write comes last in its list, and nothing else is added. */
  lemma WaitingAfterStep(s: State, op: Op, task: string)
    ensures var globals, own := Fresh(s.globals), Fresh(if task in s.pending then s.pending[task] else []);
            var after := Step(s, op);
            Fresh(after.globals) + Fresh(if task in after.pending then after.pending[task] else []) ==
            match op
            case Store(t, e, now) => if t == task && Admits(s.dedup, (e.source, e.content), now) then globals + (own + Fresh([e])) else globals + own
            case StoreGlobal(e, now) => if Admits(s.dedup, (e.source, e.content), now) then globals + Fresh([e]) + own else globals + own
            case ClearGlobal => own
            case Take(t) => if t == task then [] else own
            case AskNew(_) => globals + own
            case Cleanup(t) => if t == task then globals else globals + own
            case Evict(_) => globals + own
  {
    hide Fresh, Admits;
    assert Fresh([]) == [] by { NothingFresh([]); }
    match op
    case Store(t, e, now) =>
      FreshAppended(PendingOf(s.pending, t), e);
    case StoreGlobal(e, now) =>
      FreshAppended(s.globals, e);
    case ClearGlobal =>
    case Take(t) =>
      GlobalsGoToTheFirst(s, t, task);
    case AskNew(_) =>
    case Cleanup(_) =>
    case Evict(_) =>
  }

  lemma FreshAppended(entries: seq<Entry>, e: Entry)
    ensures Fresh(entries + [e]) == Fresh(entries) + Fresh([e])
  {
    FreshInOrder(entries, e);
    FreshInOrder([], e);
    assert [] + [e] == [e];
  }

  /** The verdict on a write: refused exactly while a stamp less than 60 seconds old is there; an accepted one is stamped. */
  lemma WriteDecided(s: State, op: Op)
    requires op.Store? || op.StoreGlobal?
    ensures var key := (op.entry.source, op.entry.content);
            var accepted := key !in s.dedup || op.now - s.dedup[key] >= 60_000_000_000;
            OutcomeOf(s, op) == Decided(accepted) && Step(s, op).dedup == if accepted then s.dedup[key := op.now] else s.dedup
  {
  }

  /** There is something new for a task exactly when a take would deliver something. */
  lemma NewExactlyWhenWaiting(s: State, task: string)
    ensures HasNew(s, task) <==> Fresh(s.globals) + Fresh(if task in s.pending then s.pending[task] else []) != []
    ensures HasNew(s, task) <==> Delivered(s, task) != []
  {
    SomethingFresh(s.globals);
    SomethingFresh(PendingOf(s.pending, task));
    hide Fresh, HasFresh, Sorted, Before;
    TakeHandsOutTheBest(s, task);
  }

  lemma {:induction false} SomethingFresh(entries: seq<Entry>)
    ensures HasFresh(entries) <==> Fresh(entries) != []
  {
    if entries != [] {
      var most := entries[..|entries| - 1];
      SomethingFresh(most);
      if HasFresh(most) {
        var i :| 0 <= i < |most| && !most[i].consumed;
        assert !entries[i].consumed;
      }
      if HasFresh(entries) && entries[|entries| - 1].consumed {
        var i :| 0 <= i < |entries| && !entries[i].consumed;
        assert !most[i].consumed;
      }
    }
  }
}
