/** The store itself: three fields that every operation updates in place (src/core/perception_store.rs). */
module PerceptionStore {
  import opened Sorting
  import opened Perception

  function Prefix(source: Source): string {
    match source
    case WorkspaceMonitor => "\U{1F4C1} Workspace"
    case BatchAgent => "\U{1F4CA} Batch"
    case PerceptionEngine => "\U{26A0}\U{FE0F} Alert"
    case Environment => "\U{1F50C} Environment"
    case System => "\U{2139}\U{FE0F} System"
  }

  /** One entry as a line of text. */
  function Render(e: Entry): string {
    match e.detailIri
    case Some(iri) => "[" + Prefix(e.source) + "] " + e.content + " | details: " + iri
    case None => "[" + Prefix(e.source) + "] " + e.content
  }

  function Lines(entries: seq<Entry>): string {
    if entries == [] then ""
    else if |entries| == 1 then Render(entries[0])
    else Render(entries[0]) + "\n" + Lines(entries[1..])
  }

  /** A text is its lines, one below the other. */
  lemma {:induction false} LinesJoined(a: seq<Entry>, b: seq<Entry>, e: Entry)
    ensures Lines([]) == "" && Lines([e]) == Render(e)
    ensures a != [] && b != [] ==> Lines(a + b) == Lines(a) + "\n" + Lines(b)
  {
    hide Prefix, Render;
    if |a| > 1 && b != [] {
      LinesJoined(a[1..], b, e);
      assert (a + b)[1..] == a[1..] + b;
    } else if |a| == 1 {
      assert (a + b)[1..] == b;
    }
  }

  /** A line names the source, the content, and where there are details. */
  lemma RenderedAs(e: Entry)
    ensures Render(e) == "[" + Prefix(e.source) + "] " + e.content + if e.detailIri.Some? then " | details: " + e.detailIri.value else ""
    ensures Prefix(WorkspaceMonitor)[1..] == " Workspace" && Prefix(BatchAgent)[1..] == " Batch" && Prefix(PerceptionEngine)[2..] == " Alert"
    ensures Prefix(Environment)[1..] == " Environment" && Prefix(System)[2..] == " System"
  {
  }

  class PerceptionStore {
    var pending: map<string, seq<Entry>>
    var globals: seq<Entry>
    var dedupCache: map<Key, int>

    function Abstract(): State
      reads this
    {
      State(pending, globals, dedupCache)
    }

    constructor ()
      ensures Abstract() == EMPTY
    {
      pending, globals, dedupCache := map[], [], map[];
    }

    /** The shared test at the head of both writes: refuse, or stamp the key. */
    method Admit(entry: Entry, now: int) returns (accepted: bool)
      modifies `dedupCache
      ensures accepted == Admits(old(dedupCache), KeyOf(entry), now)
      ensures dedupCache == if accepted then old(dedupCache)[KeyOf(entry) := now] else old(dedupCache)
    {
      var key := KeyOf(entry);
      if key in dedupCache {
        if NumSeconds(now - dedupCache[key]) < DEDUP_SECONDS {
          return false;
        }
      }
      dedupCache := dedupCache[key := now];
      return true;
    }

    method Store(task: string, entry: Entry, now: int)
      modifies this
      ensures Abstract() == Step(old(Abstract()), Perception.Store(task, entry, now))
    {
      var accepted := Admit(entry, now);
      if accepted {
        pending := pending[task := PendingOf(pending, task) + [entry]];
      }
    }

    method StoreGlobal(entry: Entry, now: int)
      modifies this
      ensures Abstract() == Step(old(Abstract()), Perception.StoreGlobal(entry, now))
    {
      var accepted := Admit(entry, now);
      if accepted {
        globals := globals + [entry];
      }
    }

    method ClearGlobal()
      modifies this
      ensures Abstract() == Step(old(Abstract()), Perception.ClearGlobal)
    {
      globals := [];
      dedupCache := map k | k in dedupCache && k.0 != WorkspaceMonitor :: dedupCache[k];
    }

    /** Marks what is new among the entries of one list, and returns it. */
    static method TakeFrom(entries: seq<Entry>) returns (marked: seq<Entry>, taken: seq<Entry>)
      ensures marked == Consumed(entries) && taken == Fresh(entries)
    {
      marked, taken := entries, [];
      for i := 0 to |entries|
        invariant |marked| == |entries| && taken == Fresh(entries[..i])
        invariant forall j :: 0 <= j < i ==> marked[j] == entries[j].(consumed := true)
        invariant forall j :: i <= j < |entries| ==> marked[j] == entries[j]
      {
        assert entries[..i + 1][..i] == entries[..i];
        if !marked[i].consumed {
          marked := marked[i := marked[i].(consumed := true)];
          taken := taken + [marked[i]];
        }
      }
      assert entries[..|entries|] == entries;
    }

    method TakePerceptionText(task: string) returns (text: string)
      modifies this
      ensures Abstract() == Step(old(Abstract()), Take(task))
      ensures text == Lines(Delivered(old(Abstract()), task))
    {
      var entries;
      globals, entries := TakeFrom(globals);
      if task in pending {
        var marked, taken := TakeFrom(pending[task]);
        pending := pending[task := marked];
        entries := entries + taken;
      }
      assert entries == Candidates(old(Abstract()), task);
      if entries == [] {
        return "";
      }
      entries := Sorted(Before(), entries);
      if |entries| > MAX_DELIVERED {
        entries := entries[..MAX_DELIVERED];
      }
      text := Lines(entries);
    }

    method HasNew(task: string) returns (r: bool)
      ensures r == Perception.HasNew(Abstract(), task)
    {
      for i := 0 to |globals|
        invariant forall j :: 0 <= j < i ==> globals[j].consumed
      {
        if !globals[i].consumed {
          return true;
        }
      }
      if task in pending {
        for i := 0 to |pending[task]|
          invariant forall j :: 0 <= j < i ==> pending[task][j].consumed
        {
          if !pending[task][i].consumed {
            return true;
          }
        }
      }
      return false;
    }

    method Cleanup(task: string)
      modifies this
      ensures Abstract() == Step(old(Abstract()), Perception.Cleanup(task))
    {
      pending := pending - {task};
    }

    method EvictDedupCache(now: int)
      modifies this
      ensures Abstract() == Step(old(Abstract()), Evict(now))
    {
      dedupCache := map k | k in dedupCache && NumSeconds(now - dedupCache[k]) < EVICTION_SECONDS :: dedupCache[k];
    }
  }
}
