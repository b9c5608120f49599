/** The checkpoint manager and the persistent map under it (src/core/checkpoint.rs, src/memory/l0_store.rs). */
module PdcaCheckpoint {
  import opened Wrappers
  import opened Sorting
  import opened Checkpoints
  import T = Text

  class L0Store {
    var entries: Entries

    constructor ()
      ensures entries == map[]
    {
      entries := map[];
    }

    method Store(iri: string, content: Content)
      modifies this
      ensures entries == old(entries)[iri := content]
    {
      entries := entries[iri := content];
    }

    /** Walks the keys under `prefix` in order; the limit is looked at after a row is taken. */
    method ScanIriPrefix(prefix: string, limit: nat) returns (keys: seq<string>)
      ensures IsScanUpTo(entries, prefix, if limit == 0 then 1 else limit, keys)
    {
      hide IsLegacyToolResult;
      var rest := set k | k in entries && prefix <= k;
      keys := [];
      while rest != {}
        invariant Ascending(keys) && |keys| < if limit == 0 then 1 else limit
        invariant forall k :: k in keys ==> Visible(entries, prefix, k) && k !in rest
        invariant forall k :: k in rest ==> k in entries && prefix <= k
        invariant forall k :: Visible(entries, prefix, k) && k !in rest ==> k in keys
        invariant forall k, j :: k in rest && 0 <= j < |keys| ==> T.Below(keys[j], k)
        decreases rest
      {
        ghost var least := T.LeastKey(rest);
        var k :| k in rest && forall other :: other in rest && other != k ==> T.Below(k, other);
        rest := rest - {k};
        if IsLegacyToolResult(k) {
          continue;
        }
        keys := keys + [k];
        if |keys| >= limit {
          break;
        }
      }
    }
  }

  class CheckpointManager {
    const l0: Option<L0Store>
    var counter: nat

    constructor (l0: Option<L0Store>)
      ensures this.l0 == l0 && counter == 0
    {
      this.l0 := l0;
      counter := 0;
    }

    /** `uuid` and `now` are the generated suffix and the clock. */
    method WritePdcaEnvelope(task: string, step: StepKind, claims: Option<Claims>, tools: seq<string>, uuid: string, now: int)
      returns (r: Result<Envelope, CoreError>)
      modifies this, if l0.Some? then {l0.value} else {}
      ensures claims.None? ==> r == Err(PermissionDenied)
      ensures claims.Some? && l0.None? ==> r == Err(StorageError)
      ensures r.Err? ==> counter == old(counter) && (l0.Some? ==> l0.value.entries == old(l0.value.entries))
      ensures claims.Some? && l0.Some? ==>
                var w := Write(old(World(l0.value.entries, counter, [])), task, step, claims.value, tools, uuid, now);
                r == Ok(w.written[0]) && World(l0.value.entries, counter, [r.value]) == w
    {
      if claims.None? {
        return Err(PermissionDenied);
      }
      if l0.None? {
        return Err(StorageError);
      }
      var seqNo := counter;
      counter := counter + 1;
      var envelope := Envelope(EnvelopeIri(task, seqNo, uuid), task, step, claims.value, tools, now);
      l0.value.Store(envelope.iri, Parsed(envelope));
      return Ok(envelope);
    }

    method ReadPdcaResume(task: string, claims: Option<Claims>)
      returns (r: Result<Option<ResumeState>, CoreError>, ghost keys: seq<string>)
      ensures claims.None? ==> r == Err(PermissionDenied)
      ensures claims.Some? && l0.None? ==> r == Err(StorageError)
      ensures claims.Some? && l0.Some? ==>
                IsScan(l0.value.entries, PrefixOf(task), keys) && r == Resumed(l0.value.entries, keys, task, claims.value)
    {
      hide IsScanUpTo, Sorted, FirstOccurrences, PrefixOf, StepsOf;
      keys := [];
      if claims.None? {
        return Err(PermissionDenied), keys;
      }
      if l0.None? {
        return Err(StorageError), keys;
      }
      var scanned := l0.value.ScanIriPrefix(PrefixOf(task), SCAN_LIMIT);
      keys := scanned;
      ScanOfTask(l0.value.entries, task, scanned);
      var parsed := ParseAll(l0.value.entries, scanned);
      if parsed.Err? {
        return Err(parsed.error), keys;
      }
      var envelopes := parsed.value;
      if envelopes == [] {
        return Ok(None), keys;
      }
      if exists i :: 0 <= i < |envelopes| && (envelopes[i].task != task || envelopes[i].claims != claims.value) {
        return Err(PermissionDenied), keys;
      }
      SortedProperties(Older(), envelopes);
      envelopes := Sorted(Older(), envelopes);
      var last := envelopes[|envelopes| - 1];
      var completed := CompletedSteps(envelopes);
      return Ok(Some(ResumeState(last, completed))), keys;
    }

    static method ParseAll(entries: Entries, keys: seq<string>) returns (r: Result<seq<Envelope>, CoreError>)
      requires forall k :: k in keys ==> k in entries
      ensures r == if AllParse(entries, keys) then Ok(EnvelopesAt(entries, keys)) else Err(Internal)
    {
      var envelopes := [];
      for i := 0 to |keys|
        invariant AllParse(entries, keys[..i])
        invariant envelopes == EnvelopesAt(entries, keys[..i])
      {
        match entries[keys[i]]
        case Garbled => return Err(Internal);
        case Parsed(e) => envelopes := envelopes + [e];
      }
      assert keys[..|keys|] == keys;
      return Ok(envelopes);
    }

    static method CompletedSteps(envelopes: seq<Envelope>) returns (completed: seq<StepKind>)
      ensures completed == FirstOccurrences(StepsOf(envelopes))
    {
      completed := [];
      for i := 0 to |envelopes|
        invariant completed == FirstOccurrences(StepsOf(envelopes[..i]))
      {
        assert StepsOf(envelopes[..i + 1])[..i] == StepsOf(envelopes[..i]);
        if envelopes[i].step !in completed {
          completed := completed + [envelopes[i].step];
        }
      }
      assert envelopes[..|envelopes|] == envelopes;
    }
  }
}
