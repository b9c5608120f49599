/**
 The protocol behind resuming a Plan-Do-Check-Act task (src/core/checkpoint.rs): envelopes written under generated
 keys of a persistent map, a counter that a restart resets, and what a resume makes of the envelopes it scans.
 */
module Checkpoints {
  import opened Wrappers
  import opened Sorting
  import T = Text

  datatype StepKind = Plan | Do | Check | Act

  datatype Claims = Claims(tenant: string, project: string, actor: string)

  datatype Envelope = Envelope(iri: string, task: string, step: StepKind, claims: Claims, tools: seq<string>, createdAt: int)

  /** A stored text, as the envelope it parses to. */
  datatype Content = Parsed(envelope: Envelope) | Garbled

  type Entries = map<string, Content>

  datatype CoreError = PermissionDenied | StorageError | Internal

  datatype ResumeState = ResumeState(lastSuccessful: Envelope, completedSteps: seq<StepKind>)

  const SCAN_LIMIT := 100

  // ---------- keys ----------

  function TaskPath(task: string): string {
    if "iri://" <= task then task[6..] else task
  }

  function PrefixOf(task: string): string {
    "iri://checkpoint/" + TaskPath(task) + "/pdca/"
  }

  function EnvelopeIri(task: string, seqNo: nat, uuid: string): string {
    PrefixOf(task) + T.Decimal(seqNo) + "/" + uuid
  }

  predicate NoSlash(s: string) {
    forall i :: 0 <= i < |s| ==> s[i] != '/'
  }

  /** An envelope of one task has a key under another task's prefix exactly when the prefixes nest. */
  lemma ForeignKeyExactlyWhen(task: string, other: string, seqNo: nat, uuid: string)
    requires NoSlash(uuid)
    ensures PrefixOf(task) <= EnvelopeIri(other, seqNo, uuid) <==> PrefixOf(task) <= PrefixOf(other)
  {
    hide T.Decimal;
    var p, q, key := PrefixOf(task), PrefixOf(other), EnvelopeIri(other, seqNo, uuid);
    var digits := T.Decimal(seqNo);
    assert key[..|q|] == q;
    if p <= key {
      if |p| <= |q| {
        assert p == key[..|p|] == q[..|p|];
      } else {
        SlashesAtTheEnd(q, digits, uuid, |p|);
      }
    }
  }

  /** Past the prefix, a key has one slash only, so it cannot end in `/pdca/` there. */
  lemma SlashesAtTheEnd(q: string, digits: string, uuid: string, n: nat)
    requires |q| >= 6 && q[|q| - 6..] == "/pdca/"
    requires digits != "" && (forall i :: 0 <= i < |digits| ==> '0' <= digits[i] <= '9') && NoSlash(uuid)
    ensures var key := q + digits + "/" + uuid;
            |q| < n <= |key| ==> !(key[n - 1] == '/' && key[n - 2] == 'a')
  {
    var key := q + digits + "/" + uuid;
    if |q| < n <= |key| {
      if n - 1 < |q| + |digits| {
        assert key[n - 1] == digits[n - 1 - |q|];
      } else if n - 1 == |q| + |digits| {
        assert key[n - 2] == digits[|digits| - 1];
      } else {
        assert key[n - 1] == uuid[n - 1 - |q| - |digits| - 1];
      }
    }
  }

  // ---------- what a scan returns ----------

  predicate Ascending(keys: seq<string>) {
    forall i, j :: 0 <= i < j < |keys| ==> T.Below(keys[i], keys[j])
  }

  /** The number of non-empty parts between slashes. */
  function Segments(s: string): nat {
    if s == "" then 0
    else (if s[0] != '/' && (|s| == 1 || s[1] == '/') then 1 else 0) + Segments(s[1..])
  }

  /** Rows of an older key layout, which a scan passes over. */
  predicate IsLegacyToolResult(iri: string) {
    "iri://tool-result/" <= iri && Segments(iri[18..]) != 5
  }

  /** Parts are counted one after the other; slashes by themselves count for nothing. */
  lemma {:induction false} PartsCounted(part: string, rest: string)
    requires part != "" && NoSlash(part)
    ensures Segments("") == 0 && Segments(part) == 1 && Segments("/" + rest) == Segments(rest)
    ensures Segments(part + "/" + rest) == 1 + Segments(rest)
  {
    assert ("/" + rest)[1..] == rest;
    if |part| == 1 {
      assert (part + "/" + rest)[1..] == "/" + rest;
    } else {
      PartsCounted(part[1..], rest);
      assert (part + "/" + rest)[1..] == part[1..] + "/" + rest;
    }
  }

  /** A tool result is of the older layout exactly when its key does not have five parts after the scheme. */
  lemma LegacyExactlyWhen(rest: string, iri: string)
    ensures IsLegacyToolResult("iri://tool-result/" + rest) <==> Segments(rest) != 5
    ensures |iri| < 18 || iri[..18] != "iri://tool-result/" ==> !IsLegacyToolResult(iri)
  {
    assert ("iri://tool-result/" + rest)[18..] == rest;
  }

  predicate Visible(entries: Entries, prefix: string, k: string) {
    k in entries && prefix <= k && !IsLegacyToolResult(k)
  }

  /** The first `limit` visible keys under a prefix, in key order. */
  ghost predicate IsScanUpTo(entries: Entries, prefix: string, limit: nat, keys: seq<string>) {
    Ascending(keys) && |keys| <= limit &&
    (forall k :: k in keys ==> Visible(entries, prefix, k)) &&
    (|keys| < limit ==> forall k :: Visible(entries, prefix, k) ==> k in keys) &&
    forall k, j :: Visible(entries, prefix, k) && k !in keys && 0 <= j < |keys| ==> T.Below(keys[j], k)
  }

  ghost predicate IsScan(entries: Entries, prefix: string, keys: seq<string>) {
    IsScanUpTo(entries, prefix, SCAN_LIMIT, keys)
  }

  lemma NoLegacyUnder(task: string, k: string)
    requires PrefixOf(task) <= k
    ensures !IsLegacyToolResult(k)
  {
    assert k[6] == PrefixOf(task)[6] == 'c';
    assert "iri://tool-result/"[6] == 't';
  }

  /** Under a task's prefix every key is visible. */
  lemma ScanOfTask(entries: Entries, task: string, keys: seq<string>)
    requires IsScan(entries, PrefixOf(task), keys)
    ensures Ascending(keys) && |keys| <= SCAN_LIMIT
    ensures forall k :: k in keys ==> k in entries && PrefixOf(task) <= k
    ensures |keys| < SCAN_LIMIT ==> forall k :: k in entries && PrefixOf(task) <= k ==> k in keys
  {
    hide PrefixOf, IsLegacyToolResult;
    if |keys| < SCAN_LIMIT {
      forall k | k in entries && PrefixOf(task) <= k
        ensures k in keys
      {
        NoLegacyUnder(task, k);
        assert Visible(entries, PrefixOf(task), k);
      }
    }
  }

  ghost function KeysUnder(entries: Entries, prefix: string): set<string> {
    set k | k in entries && prefix <= k
  }

  ghost function KeysBelow(entries: Entries, prefix: string, k: string): set<string> {
    set j | j in KeysUnder(entries, prefix) && T.Below(j, k)
  }

  /** Fewer than a hundred keys under the prefix come before `k`. */
  ghost predicate InReach(entries: Entries, prefix: string, k: string) {
    k in KeysUnder(entries, prefix) && |KeysBelow(entries, prefix, k)| < SCAN_LIMIT
  }

  lemma AscendingIsDistinct(keys: seq<string>)
    requires Ascending(keys)
    ensures Distinct(keys)
  {
    forall i, j | 0 <= i < j < |keys|
      ensures keys[i] != keys[j]
    {
      T.BelowIsTotal(keys[i], keys[j]);
    }
  }

  /** A scan returns exactly the keys within reach. */
  lemma ScanReaches(entries: Entries, task: string, keys: seq<string>)
    requires IsScan(entries, PrefixOf(task), keys)
    ensures Distinct(keys) && forall k :: k in keys <==> InReach(entries, PrefixOf(task), k)
  {
    hide PrefixOf, Distinct;
    ScanOfTask(entries, task, keys);
    AscendingIsDistinct(keys);
    forall k
      ensures k in keys <==> InReach(entries, PrefixOf(task), k)
    {
      if k in keys {
        var i :| 0 <= i < |keys| && keys[i] == k;
        ReturnedIsInReach(entries, task, keys, i);
      } else if k in KeysUnder(entries, PrefixOf(task)) {
        SkippedIsOutOfReach(entries, task, keys, k);
      }
    }
  }

  lemma ReturnedIsInReach(entries: Entries, task: string, keys: seq<string>, i: nat)
    requires IsScan(entries, PrefixOf(task), keys) && i < |keys|
    ensures InReach(entries, PrefixOf(task), keys[i])
  {
    ScanOfTask(entries, task, keys);
    hide PrefixOf, IsLegacyToolResult, T.Below;
    var k, earlier := keys[i], keys[..i];
    assert k in keys;
    forall j | j in KeysBelow(entries, PrefixOf(task), k)
      ensures j in Elements(earlier)
    {
      T.BelowIsTotal(j, k);
      NoLegacyUnder(task, j);
      assert Visible(entries, PrefixOf(task), j);
      var l :| 0 <= l < |keys| && keys[l] == j;
      assert earlier[l] == j;
    }
    ElementsAreFew(earlier);
    SubsetIsSmaller(KeysBelow(entries, PrefixOf(task), k), Elements(earlier));
  }

  lemma SkippedIsOutOfReach(entries: Entries, task: string, keys: seq<string>, k: string)
    requires IsScan(entries, PrefixOf(task), keys) && k in KeysUnder(entries, PrefixOf(task)) && k !in keys
    ensures !InReach(entries, PrefixOf(task), k)
  {
    hide PrefixOf, IsLegacyToolResult, T.Below, Distinct;
    ScanOfTask(entries, task, keys);
    NoLegacyUnder(task, k);
    assert Visible(entries, PrefixOf(task), k);
    AscendingIsDistinct(keys);
    DistinctCount(keys);
    SubsetIsSmaller(Elements(keys), KeysBelow(entries, PrefixOf(task), k));
  }

  lemma SubsetIsSmaller<T>(a: set<T>, b: set<T>)
    requires a <= b
    ensures |a| <= |b|
  {
    assert |b - a| == |b| - |a|;
  }

  lemma {:induction false} ElementsAreFew<T>(s: seq<T>)
    ensures |Elements(s)| <= |s|
  {
    if s != [] {
      ElementsAreFew(s[1..]);
      assert s == [s[0]] + s[1..];
      assert Elements(s) == {s[0]} + Elements(s[1..]);
    }
  }

  /** Of at most a hundred keys, all are within reach. */
  lemma FewAreInReach(entries: Entries, prefix: string)
    requires |KeysUnder(entries, prefix)| <= SCAN_LIMIT
    ensures forall k :: k in KeysUnder(entries, prefix) ==> InReach(entries, prefix, k)
  {
    forall k | k in KeysUnder(entries, prefix)
      ensures InReach(entries, prefix, k)
    {
      T.BelowIsTotal(k, k);
      SubsetIsSmaller(KeysBelow(entries, prefix, k), KeysUnder(entries, prefix) - {k});
    }
  }

  // ---------- what a resume makes of it ----------

  function Older(): (Envelope, Envelope) -> bool {
    (a: Envelope, b: Envelope) => a.createdAt <= b.createdAt
  }

  function FirstOccurrences(steps: seq<StepKind>): (r: seq<StepKind>)
    ensures forall x :: x in r <==> x in steps
    ensures forall i, j :: 0 <= i < j < |r| ==> r[i] != r[j]
  {
    if steps == [] then [] else
      var before := FirstOccurrences(steps[..|steps| - 1]);
      var last := steps[|steps| - 1];
      assert steps == steps[..|steps| - 1] + [last];
      if last in before then before else before + [last]
  }

  function StepsOf(envelopes: seq<Envelope>): (r: seq<StepKind>) {
    seq(|envelopes|, i requires 0 <= i < |envelopes| => envelopes[i].step)
  }

  predicate AllParse(entries: Entries, keys: seq<string>)
    requires forall k :: k in keys ==> k in entries
  {
    forall i :: 0 <= i < |keys| ==> entries[keys[i]].Parsed?
  }

  function EnvelopesAt(entries: Entries, keys: seq<string>): (r: seq<Envelope>)
    requires (forall k :: k in keys ==> k in entries) && AllParse(entries, keys)
  {
    seq(|keys|, i requires 0 <= i < |keys| => entries[keys[i]].envelope)
  }

  predicate Owned(e: Envelope, task: string, claims: Claims) {
    e.task == task && e.claims == claims
  }

  function Resumed(entries: Entries, keys: seq<string>, task: string, claims: Claims): Result<Option<ResumeState>, CoreError>
    requires forall k :: k in keys ==> k in entries
  {
    if !AllParse(entries, keys) then Err(Internal)
    else
      var envelopes := EnvelopesAt(entries, keys);
      if envelopes == [] then Ok(None)
      else if exists i :: 0 <= i < |envelopes| && !Owned(envelopes[i], task, claims) then Err(PermissionDenied)
      else
        var sorted := Sorted(Older(), envelopes);
        SortedProperties(Older(), envelopes);
        Ok(Some(ResumeState(sorted[|sorted| - 1], FirstOccurrences(StepsOf(sorted)))))
  }

  // ---------- runs ----------

  /** `written` is the history of all envelopes stored so far. */
  datatype World = World(entries: Entries, counter: nat, written: seq<Envelope>)

  function Write(w: World, task: string, step: StepKind, claims: Claims, tools: seq<string>, uuid: string, now: int): World {
    var e := Envelope(EnvelopeIri(task, w.counter, uuid), task, step, claims, tools, now);
    World(w.entries[e.iri := Parsed(e)], w.counter + 1, w.written + [e])
  }

  /** `Lost` is a write that took a number and died before it stored; `Other` is any other record of the system. */
  datatype Op =
    | Record(task: string, step: StepKind, claims: Claims, tools: seq<string>, uuid: string, now: int)
    | Lost
    | Restart
    | Other(iri: string, content: Content)

  function Next(w: World, op: Op): World {
    match op
    case Record(task, step, claims, tools, uuid, now) => Write(w, task, step, claims, tools, uuid, now)
    case Lost => w.(counter := w.counter + 1)
    case Restart => w.(counter := 0)
    case Other(iri, content) => w.(entries := w.entries[iri := content])
  }

  function Run(w: World, ops: seq<Op>): World
    decreases |ops|
  {
    if ops == [] then w else Run(Next(w, ops[0]), ops[1..])
  }

  /** Generated keys are new, `task` is written by one identity, and nobody else writes under its prefix. */
  predicate Fits(w: World, op: Op, task: string, claims: Claims) {
    match op
    case Record(t, _, c, _, uuid, _) =>
      NoSlash(uuid) && EnvelopeIri(t, w.counter, uuid) !in w.entries &&
      if t == task then c == claims else !(PrefixOf(task) <= PrefixOf(t))
    case Other(iri, _) => !(PrefixOf(task) <= iri)
    case _ => true
  }

  predicate AllFit(w: World, ops: seq<Op>, task: string, claims: Claims)
    decreases |ops|
  {
    ops == [] || (Fits(w, ops[0], task, claims) && AllFit(Next(w, ops[0]), ops[1..], task, claims))
  }

  /** The envelopes of one task, in the order they were written. */
  function Mine(written: seq<Envelope>, task: string): (r: seq<Envelope>)
    ensures |r| <= |written| && forall e :: e in r ==> e.task == task
  {
    if written == [] then [] else
      var last := written[|written| - 1];
      Mine(written[..|written| - 1], task) + if last.task == task then [last] else []
  }

  predicate HasIri(envelopes: seq<Envelope>, iri: string) {
    exists i :: 0 <= i < |envelopes| && envelopes[i].iri == iri
  }

  predicate DistinctIris(envelopes: seq<Envelope>) {
    forall i, j :: 0 <= i < j < |envelopes| ==> envelopes[i].iri != envelopes[j].iri
  }

  /** The map holds the task's envelopes under its prefix, and nothing else there. */
  predicate Holds(entries: Entries, mine: seq<Envelope>, task: string, claims: Claims) {
    DistinctIris(mine) &&
    (forall i :: 0 <= i < |mine| ==>
      Owned(mine[i], task, claims) && PrefixOf(task) <= mine[i].iri && mine[i].iri in entries && entries[mine[i].iri] == Parsed(mine[i])) &&
    (forall k :: k in entries && PrefixOf(task) <= k ==> HasIri(mine, k))
  }

  lemma MineAfter(written: seq<Envelope>, e: Envelope, task: string)
    ensures Mine(written + [e], task) == Mine(written, task) + if e.task == task then [e] else []
  {
    assert (written + [e])[..|written|] == written;
  }

  /** A write stores what was recorded, under a key of its task and the next number, and nothing else. */
  lemma WriteStores(w: World, task: string, step: StepKind, claims: Claims, tools: seq<string>, uuid: string, now: int)
    ensures var after := Next(w, Record(task, step, claims, tools, uuid, now));
            var path := if |task| >= 6 && task[..6] == "iri://" then task[6..] else task;
            var iri := "iri://checkpoint/" + path + "/pdca/" + T.Decimal(w.counter) + "/" + uuid;
            var e := Envelope(iri, task, step, claims, tools, now);
            after.entries == w.entries[iri := Parsed(e)] && after.written == w.written + [e] && after.counter == w.counter + 1
  {
    assert "iri://" <= task <==> |task| >= 6 && task[..6] == "iri://";
  }

  /** Every step keeps the invariant. */
  lemma NextHolds(w: World, op: Op, task: string, claims: Claims)
    requires Holds(w.entries, Mine(w.written, task), task, claims) && Fits(w, op, task, claims)
    ensures Holds(Next(w, op).entries, Mine(Next(w, op).written, task), task, claims)
    ensures Mine(w.written, task) <= Mine(Next(w, op).written, task)
  {
    hide PrefixOf, T.Decimal;
    if op.Record? {
      var e := Envelope(EnvelopeIri(op.task, w.counter, op.uuid), op.task, op.step, op.claims, op.tools, op.now);
      var mine := Mine(w.written, task);
      MineAfter(w.written, e, task);
      if op.task == task {
        HoldsAfterOwn(w.entries, mine, e, task, claims);
      } else {
        ForeignKeyExactlyWhen(task, op.task, w.counter, op.uuid);
        HoldsAfterOther(w.entries, mine, e.iri, Parsed(e), task, claims);
        assert mine + [] == mine;
      }
    } else if op.Other? {
      HoldsAfterOther(w.entries, Mine(w.written, task), op.iri, op.content, task, claims);
    }
  }

  lemma HoldsAfterOwn(entries: Entries, mine: seq<Envelope>, e: Envelope, task: string, claims: Claims)
    requires Holds(entries, mine, task, claims) && Owned(e, task, claims) && PrefixOf(task) <= e.iri && e.iri !in entries
    ensures Holds(entries[e.iri := Parsed(e)], mine + [e], task, claims)
  {
    hide PrefixOf, Owned;
    forall k | k in entries[e.iri := Parsed(e)] && PrefixOf(task) <= k
      ensures HasIri(mine + [e], k)
    {
      if k == e.iri {
        assert (mine + [e])[|mine|].iri == k;
      } else {
        var i :| 0 <= i < |mine| && mine[i].iri == k;
        assert (mine + [e])[i].iri == k;
      }
    }
  }

  lemma HoldsAfterOther(entries: Entries, mine: seq<Envelope>, iri: string, content: Content, task: string, claims: Claims)
    requires Holds(entries, mine, task, claims) && !(PrefixOf(task) <= iri)
    ensures Holds(entries[iri := content], mine, task, claims)
  {
    hide PrefixOf, Owned, HasIri, DistinctIris;
  }

  lemma {:induction false} RunHolds(w: World, ops: seq<Op>, task: string, claims: Claims)
    requires Holds(w.entries, Mine(w.written, task), task, claims) && AllFit(w, ops, task, claims)
    ensures Holds(Run(w, ops).entries, Mine(Run(w, ops).written, task), task, claims)
    ensures Mine(w.written, task) <= Mine(Run(w, ops).written, task)
    decreases |ops|
  {
    hide Holds, Mine, Fits, Next;
    if ops != [] {
      NextHolds(w, ops[0], task, claims);
      RunHolds(Next(w, ops[0]), ops[1..], task, claims);
    }
  }

  // ---------- a scan finds exactly the task's envelopes ----------

  ghost function Elements<T>(s: seq<T>): set<T> {
    set x | x in s
  }

  lemma {:induction false} DistinctCount<T>(s: seq<T>)
    requires Distinct(s)
    ensures |Elements(s)| == |s| && forall x :: multiset(s)[x] == if x in s then 1 else 0
  {
    if s != [] {
      var most, last := s[..|s| - 1], s[|s| - 1];
      DistinctCount(most);
      assert s == most + [last];
      assert Elements(s) == Elements(most) + {last};
    }
  }

  function IrisOf(envelopes: seq<Envelope>): (r: seq<string>) {
    seq(|envelopes|, i requires 0 <= i < |envelopes| => envelopes[i].iri)
  }

  /** The task's envelopes within reach of a scan, in the order they were written. */
  ghost function Scanned(entries: Entries, mine: seq<Envelope>, task: string): seq<Envelope> {
    Filtered((e: Envelope) => InReach(entries, PrefixOf(task), e.iri), mine)
  }

  lemma ScannedHas(entries: Entries, mine: seq<Envelope>, task: string, claims: Claims)
    requires Holds(entries, mine, task, claims)
    ensures Distinct(mine) && Distinct(Scanned(entries, mine, task))
    ensures forall e :: e in Scanned(entries, mine, task) <==> e in mine && InReach(entries, PrefixOf(task), e.iri)
  {
    hide PrefixOf, InReach, Distinct, Owned, HasIri;
    var reached := (e: Envelope) => InReach(entries, PrefixOf(task), e.iri);
    DistinctByIri(mine);
    FilteredIsDistinct(reached, mine);
    forall e
      ensures e in Scanned(entries, mine, task) <==> e in mine && reached(e)
    {
      FilteredHas(reached, mine, e);
    }
  }

  /** Up to a hundred envelopes, a scan misses none. */
  lemma FewAreAllScanned(entries: Entries, mine: seq<Envelope>, task: string, claims: Claims)
    requires Holds(entries, mine, task, claims) && |mine| <= SCAN_LIMIT
    ensures Scanned(entries, mine, task) == mine
  {
    hide PrefixOf, Owned;
    var iris := IrisOf(mine);
    forall k | k in KeysUnder(entries, PrefixOf(task))
      ensures k in Elements(iris)
    {
      var i :| 0 <= i < |mine| && mine[i].iri == k;
      assert iris[i] == k;
    }
    ElementsAreFew(iris);
    SubsetIsSmaller(KeysUnder(entries, PrefixOf(task)), Elements(iris));
    FewAreInReach(entries, PrefixOf(task));
    FilteredIsWhole((e: Envelope) => InReach(entries, PrefixOf(task), e.iri), mine);
  }

  lemma SameMultiset<T>(a: seq<T>, b: seq<T>)
    requires Distinct(a) && Distinct(b) && forall x :: x in a <==> x in b
    ensures multiset(a) == multiset(b)
  {
    hide Distinct;
    DistinctCount(a);
    DistinctCount(b);
  }

  lemma ScanReadsOwn(entries: Entries, mine: seq<Envelope>, task: string, claims: Claims, keys: seq<string>)
    requires Holds(entries, mine, task, claims) && forall k :: k in keys ==> k in KeysUnder(entries, PrefixOf(task))
    ensures forall k :: k in keys ==> k in entries
    ensures AllParse(entries, keys) && IrisOf(EnvelopesAt(entries, keys)) == keys
    ensures forall i :: 0 <= i < |keys| ==> var e := EnvelopesAt(entries, keys)[i]; e in mine && e.iri == keys[i] && Owned(e, task, claims)
    ensures forall e :: e in mine && e.iri in keys ==> e in EnvelopesAt(entries, keys)
  {
    hide PrefixOf, Owned, DistinctIris;
    forall i | 0 <= i < |keys|
      ensures exists j :: 0 <= j < |mine| && mine[j].iri == keys[i] && entries[keys[i]] == Parsed(mine[j])
    {
      assert keys[i] in keys && HasIri(mine, keys[i]);
      var j :| 0 <= j < |mine| && mine[j].iri == keys[i];
    }
    var read := EnvelopesAt(entries, keys);
    forall e | e in mine && e.iri in keys
      ensures e in read
    {
      var i :| 0 <= i < |keys| && keys[i] == e.iri;
      assert read[i] == e;
    }
  }

  lemma ScanReadsScanned(entries: Entries, mine: seq<Envelope>, task: string, claims: Claims, keys: seq<string>)
    requires Holds(entries, mine, task, claims) && IsScan(entries, PrefixOf(task), keys)
    ensures (forall k :: k in keys ==> k in KeysUnder(entries, PrefixOf(task))) && AllParse(entries, keys)
    ensures forall e :: e in EnvelopesAt(entries, keys) <==> e in Scanned(entries, mine, task)
    ensures mine != [] ==> keys != []
  {
    assert forall i :: 0 <= i < |mine| ==> mine[i].iri in entries && PrefixOf(task) <= mine[i].iri;
    hide PrefixOf, Owned, IsScan, Distinct, InReach, Scanned, Holds, AllParse, EnvelopesAt;
    ScanOfTask(entries, task, keys);
    ScanReaches(entries, task, keys);
    ScannedHas(entries, mine, task, claims);
    ScanReadsOwn(entries, mine, task, claims, keys);
    var read := EnvelopesAt(entries, keys);
    forall e | e in read
      ensures e in Scanned(entries, mine, task)
    {
      var i :| 0 <= i < |read| && read[i] == e;
      assert keys[i] in keys;
    }
  }

  lemma ScanReadsMine(entries: Entries, mine: seq<Envelope>, task: string, claims: Claims, keys: seq<string>)
    requires Holds(entries, mine, task, claims) && IsScan(entries, PrefixOf(task), keys)
    ensures forall k :: k in keys ==> k in KeysUnder(entries, PrefixOf(task))
    ensures AllParse(entries, keys) && multiset(EnvelopesAt(entries, keys)) == multiset(Scanned(entries, mine, task))
    ensures IrisOf(EnvelopesAt(entries, keys)) == keys && Distinct(mine) && Distinct(Scanned(entries, mine, task))
    ensures mine != [] ==> Scanned(entries, mine, task) != []
    ensures forall i :: 0 <= i < |keys| ==> Owned(EnvelopesAt(entries, keys)[i], task, claims)
  {
    hide PrefixOf, Owned, IsScan, Distinct, InReach, Scanned, Holds, AllParse;
    ScanReadsScanned(entries, mine, task, claims, keys);
    ScanReaches(entries, task, keys);
    ScannedHas(entries, mine, task, claims);
    ScanReadsOwn(entries, mine, task, claims, keys);
    DistinctByIri(EnvelopesAt(entries, keys));
    SameMultiset(EnvelopesAt(entries, keys), Scanned(entries, mine, task));
    SameElements(EnvelopesAt(entries, keys), Scanned(entries, mine, task));
  }

  lemma DistinctByIri(envelopes: seq<Envelope>)
    ensures Distinct(IrisOf(envelopes)) ==> Distinct(envelopes)
    ensures DistinctIris(envelopes) ==> Distinct(IrisOf(envelopes))
  {
    if Distinct(IrisOf(envelopes)) {
      forall i, j | 0 <= i < j < |envelopes|
        ensures envelopes[i] != envelopes[j]
      {
        assert IrisOf(envelopes)[i] != IrisOf(envelopes)[j];
      }
    }
  }

  // ---------- what a resume reports ----------

  /** The oldest-first list a resume works on. */
  ghost function Chronological(entries: Entries, keys: seq<string>): seq<Envelope>
    requires (forall k :: k in keys ==> k in entries) && AllParse(entries, keys)
  {
    Sorted(Older(), EnvelopesAt(entries, keys))
  }

  /** A newest of the envelopes as the last successful one, and exactly their steps, each once. */
  ghost predicate ReportsOn(r: ResumeState, envelopes: seq<Envelope>) {
    r.lastSuccessful in envelopes && (forall e :: e in envelopes ==> e.createdAt <= r.lastSuccessful.createdAt) &&
    Distinct(r.completedSteps) && forall x :: x in r.completedSteps <==> exists i :: 0 <= i < |envelopes| && envelopes[i].step == x
  }

  /**
   After any run of writes, lost writes, restarts and unrelated records, a resume reports exactly the recorded steps
   that have an envelope within reach of the scan, each once, with a newest such envelope as the last successful one.
   Up to a hundred envelopes, all are within reach.
   */
  lemma ResumeReportsTheRun(w: World, ops: seq<Op>, task: string, claims: Claims, keys: seq<string>)
    requires Holds(w.entries, Mine(w.written, task), task, claims) && AllFit(w, ops, task, claims)
    requires IsScan(Run(w, ops).entries, PrefixOf(task), keys)
    ensures var mine := Mine(Run(w, ops).written, task);
            var scanned := Scanned(Run(w, ops).entries, mine, task);
            var r := Resumed(Run(w, ops).entries, keys, task, claims);
            (|mine| <= SCAN_LIMIT ==> scanned == mine) &&
            if mine == [] then r == Ok(None)
            else r.Ok? && r.value.Some? && ReportsOn(r.value.value, scanned)
  {
    hide Holds, AllFit, Mine, Run, IsScan, Sorted, PrefixOf, FirstOccurrences, Owned, Scanned, ReportsOn;
    var mine := Mine(Run(w, ops).written, task);
    RunHolds(w, ops, task, claims);
    assert forall k :: k in keys ==> k in Run(w, ops).entries by {
      ScanOfTask(Run(w, ops).entries, task, keys);
    }
    if |mine| <= SCAN_LIMIT {
      FewAreAllScanned(Run(w, ops).entries, mine, task, claims);
    }
    ResumeReports(Run(w, ops).entries, mine, task, claims, keys);
  }

  lemma ResumeReports(entries: Entries, mine: seq<Envelope>, task: string, claims: Claims, keys: seq<string>)
    requires Holds(entries, mine, task, claims) && IsScan(entries, PrefixOf(task), keys)
    ensures forall k :: k in keys ==> k in entries
    ensures var scanned := Scanned(entries, mine, task);
            var r := Resumed(entries, keys, task, claims);
            if mine == [] then r == Ok(None)
            else r.Ok? && r.value.Some? && ReportsOn(r.value.value, scanned)
  {
    assert mine == [] ==> Scanned(entries, mine, task) == [];
    hide Holds, Sorted, PrefixOf, Owned, IsScan, FirstOccurrences, Resumed, Scanned, ReportsOn, AllParse;
    ScanOfTask(entries, task, keys);
    ScanReadsMine(entries, mine, task, claims, keys);
    var read, scanned := EnvelopesAt(entries, keys), Scanned(entries, mine, task);
    SortedProperties(Older(), read);
    ResumedInOrder(entries, keys, task, claims, Sorted(Older(), read));
    SameElements(read, scanned);
    if mine != [] {
      SortedReports(read, scanned);
    }
  }

  lemma SortedReports(read: seq<Envelope>, scanned: seq<Envelope>)
    requires multiset(read) == multiset(scanned) && scanned != []
    ensures var sorted := Sorted(Older(), read);
            sorted != [] && ReportsOn(ResumeState(sorted[|sorted| - 1], FirstOccurrences(StepsOf(sorted))), scanned)
  {
    hide Sorted, FirstOccurrences;
    SortedProperties(Older(), read);
    var sorted := Sorted(Older(), read);
    SameElements(sorted, scanned);
    var last := sorted[|sorted| - 1];
    assert last in sorted;
    forall e | e in scanned
      ensures e.createdAt <= last.createdAt
    {
      var i :| 0 <= i < |sorted| && sorted[i] == e;
      assert i < |sorted| - 1 ==> Older()(sorted[i], last);
    }
    forall x
      ensures x in StepsOf(sorted) <==> exists i :: 0 <= i < |scanned| && scanned[i].step == x
    {
      SameSteps(sorted, scanned, x);
    }
  }

  lemma ResumedInOrder(entries: Entries, keys: seq<string>, task: string, claims: Claims, ordered: seq<Envelope>)
    requires (forall k :: k in keys ==> k in entries) && AllParse(entries, keys)
    requires Sorted(Older(), EnvelopesAt(entries, keys)) == ordered
    requires forall i :: 0 <= i < |keys| ==> Owned(EnvelopesAt(entries, keys)[i], task, claims)
    ensures Resumed(entries, keys, task, claims) ==
            Ok(if ordered == [] then None else Some(ResumeState(ordered[|ordered| - 1], FirstOccurrences(StepsOf(ordered)))))
  {
    hide Sorted, Owned, FirstOccurrences, AllParse;
    SortedProperties(Older(), EnvelopesAt(entries, keys));
  }

  lemma SameElements(a: seq<Envelope>, b: seq<Envelope>)
    requires multiset(a) == multiset(b)
    ensures |a| == |b| && forall e :: e in a <==> e in b
  {
    assert |multiset(a)| == |multiset(b)|;
    assert forall e :: e in a <==> e in multiset(a);
    assert forall e :: e in b <==> e in multiset(b);
  }

  lemma SameSteps(a: seq<Envelope>, b: seq<Envelope>, x: StepKind)
    requires forall e :: e in a <==> e in b
    ensures x in StepsOf(a) <==> exists i :: 0 <= i < |b| && b[i].step == x
  {
    if x in StepsOf(a) {
      var i :| 0 <= i < |a| && StepsOf(a)[i] == x;
      assert a[i] in b;
    }
    if exists i :: 0 <= i < |b| && b[i].step == x {
      var i :| 0 <= i < |b| && b[i].step == x;
      assert b[i] in a;
      var j :| 0 <= j < |a| && a[j] == b[i];
      assert StepsOf(a)[j] == x;
    }
  }

  /**
   Whatever happens to the process, a completed step stays completed exactly as long as one of its envelopes is within
   reach; up to a hundred envelopes it always does.
   */
  lemma StepStaysCompletedExactlyWhen(w: World, ops: seq<Op>, task: string, claims: Claims, keys: seq<string>, later: seq<string>, x: StepKind)
    requires Holds(w.entries, Mine(w.written, task), task, claims) && AllFit(w, ops, task, claims)
    requires Mine(w.written, task) != []
    requires IsScan(w.entries, PrefixOf(task), keys) && IsScan(Run(w, ops).entries, PrefixOf(task), later)
    ensures var before, after := Resumed(w.entries, keys, task, claims), Resumed(Run(w, ops).entries, later, task, claims);
            var mine := Mine(Run(w, ops).written, task);
            before.Ok? && before.value.Some? && after.Ok? && after.value.Some? &&
            (x in before.value.value.completedSteps ==>
              (x in after.value.value.completedSteps <==>
                exists i :: 0 <= i < |mine| && mine[i].step == x && InReach(Run(w, ops).entries, PrefixOf(task), mine[i].iri)) &&
              (|mine| <= SCAN_LIMIT ==> x in after.value.value.completedSteps))
  {
    hide Holds, AllFit, Mine, IsScan, PrefixOf, Resumed, Scanned, InReach;
    RunHolds(w, ops, task, claims);
    var mine, more := Mine(w.written, task), Mine(Run(w, ops).written, task);
    var scanned := Scanned(Run(w, ops).entries, more, task);
    ScannedHas(w.entries, mine, task, claims);
    ScannedHas(Run(w, ops).entries, more, task, claims);
    ResumeReports(w.entries, mine, task, claims, keys);
    ResumeReports(Run(w, ops).entries, more, task, claims, later);
    if exists i :: 0 <= i < |more| && more[i].step == x && InReach(Run(w, ops).entries, PrefixOf(task), more[i].iri) {
      var i :| 0 <= i < |more| && more[i].step == x && InReach(Run(w, ops).entries, PrefixOf(task), more[i].iri);
      assert more[i] in scanned;
    }
    if x in Resumed(w.entries, keys, task, claims).value.value.completedSteps && |more| <= SCAN_LIMIT {
      FewAreAllScanned(Run(w, ops).entries, more, task, claims);
      StepIsStillThere(Scanned(w.entries, mine, task), mine, more, x);
    }
  }

  lemma StepIsStillThere(scanned: seq<Envelope>, mine: seq<Envelope>, more: seq<Envelope>, x: StepKind)
    requires (forall e :: e in scanned ==> e in mine) && mine <= more
    requires exists i :: 0 <= i < |scanned| && scanned[i].step == x
    ensures exists i :: 0 <= i < |more| && more[i].step == x
  {
    var i :| 0 <= i < |scanned| && scanned[i].step == x;
    assert scanned[i] in mine;
    var j :| 0 <= j < |mine| && mine[j] == scanned[i];
    assert more[j] == mine[j];
  }

  /**
   The resume gives up exactly when a record within reach does not parse, and refuses exactly when all do and one is of
   another task or identity. Up to a hundred records under the prefix, all are within reach.
   */
  lemma ForeignEnvelopeExactlyWhen(entries: Entries, task: string, claims: Claims, keys: seq<string>)
    requires IsScan(entries, PrefixOf(task), keys)
    ensures forall k :: k in keys ==> k in entries
    ensures Resumed(entries, keys, task, claims) == Err(Internal) <==>
            exists k :: InReach(entries, PrefixOf(task), k) && !entries[k].Parsed?
    ensures Resumed(entries, keys, task, claims) == Err(PermissionDenied) <==>
            (forall k :: InReach(entries, PrefixOf(task), k) ==> entries[k].Parsed?) &&
            exists k :: InReach(entries, PrefixOf(task), k) && (entries[k].envelope.task != task || entries[k].envelope.claims != claims)
    ensures |KeysUnder(entries, PrefixOf(task))| <= SCAN_LIMIT ==>
            forall k :: k in KeysUnder(entries, PrefixOf(task)) ==> InReach(entries, PrefixOf(task), k)
  {
    var prefix := PrefixOf(task);
    assert forall k :: InReach(entries, prefix, k) ==> k in entries;
    hide PrefixOf, IsScan, Sorted, FirstOccurrences, InReach, Ascending, KeysUnder;
    ScanOfTask(entries, task, keys);
    ScanReaches(entries, task, keys);
    if |KeysUnder(entries, prefix)| <= SCAN_LIMIT {
      FewAreInReach(entries, prefix);
    }
    if forall k :: InReach(entries, prefix, k) ==> entries[k].Parsed? {
      var read := EnvelopesAt(entries, keys);
      if exists k :: InReach(entries, prefix, k) && !Owned(entries[k].envelope, task, claims) {
        var k :| InReach(entries, prefix, k) && !Owned(entries[k].envelope, task, claims);
        var i :| 0 <= i < |keys| && keys[i] == k;
        assert !Owned(read[i], task, claims);
      }
    } else {
      var k :| InReach(entries, prefix, k) && !entries[k].Parsed?;
      var i :| 0 <= i < |keys| && keys[i] == k;
    }
  }
}
