/**
 In what order a resume reports the completed steps, and which envelope it takes for the last successful one
 (src/core/checkpoint.rs, `read_pdca_resume`).
 */
module CheckpointOrder {
  import opened Wrappers
  import opened Sorting
  import opened Checkpoints
  import T = Text

  // ---------- sorting breaks ties by key ----------

  /** Older, and at the same instant the smaller key. */
  predicate Precedes(a: Envelope, b: Envelope) {
    a.createdAt < b.createdAt || (a.createdAt == b.createdAt && T.Below(a.iri, b.iri))
  }

  predicate InOrder(s: seq<Envelope>) {
    forall i, j :: 0 <= i < j < |s| ==> Precedes(s[i], s[j])
  }

  lemma PrependInOrder(x: Envelope, s: seq<Envelope>)
    requires InOrder(s) && forall i :: 0 <= i < |s| ==> Precedes(x, s[i])
    ensures InOrder([x] + s)
  {
    hide Precedes;
  }

  lemma OldestPrecedes(x: Envelope, s: seq<Envelope>)
    requires InOrder(s) && forall i :: 0 <= i < |s| ==> T.Below(x.iri, s[i].iri)
    requires s == [] || x.createdAt <= s[0].createdAt
    ensures forall i :: 0 <= i < |s| ==> Precedes(x, s[i])
  {
    hide T.Below;
    forall i | 0 <= i < |s|
      ensures Precedes(x, s[i])
    {
      assert i > 0 ==> Precedes(s[0], s[i]);
    }
  }

  lemma {:induction false} InsertedInOrder(x: Envelope, s: seq<Envelope>)
    requires InOrder(s) && forall i :: 0 <= i < |s| ==> T.Below(x.iri, s[i].iri)
    ensures InOrder(Inserted(Older(), x, s))
  {
    hide InOrder, T.Below;
    if s == [] || Older()(x, s[0]) {
      OldestPrecedes(x, s);
      PrependInOrder(x, s);
    } else {
      InOrderTail(s);
      InsertedInOrder(x, s[1..]);
      InsertedIsPermutation(Older(), x, s[1..]);
      var rest := Inserted(Older(), x, s[1..]);
      forall i | 0 <= i < |rest|
        ensures Precedes(s[0], rest[i])
      {
        assert rest[i] in multiset([x] + s[1..]);
        if rest[i] != x {
          assert rest[i] in s[1..];
          HeadPrecedes(s, rest[i]);
        }
      }
      PrependInOrder(s[0], rest);
    }
  }

  lemma HeadPrecedes(s: seq<Envelope>, y: Envelope)
    requires InOrder(s) && s != [] && y in s[1..]
    ensures Precedes(s[0], y)
  {
    hide Precedes;
    var i :| 0 <= i < |s| - 1 && s[1..][i] == y;
    assert s[i + 1] == y;
  }

  /** Sorting what came in key order leaves ties in key order. */
  lemma {:induction false} SortedInOrder(s: seq<Envelope>)
    requires Ascending(IrisOf(s))
    ensures InOrder(Sorted(Older(), s))
  {
    if s != [] {
      assert IrisOf(s)[1..] == IrisOf(s[1..]);
      SortedInOrder(s[1..]);
      SortedProperties(Older(), s[1..]);
      var rest := Sorted(Older(), s[1..]);
      SameElements(rest, s[1..]);
      forall i | 0 <= i < |rest|
        ensures T.Below(s[0].iri, rest[i].iri)
      {
        assert rest[i] in s[1..];
        var j :| 0 <= j < |s| - 1 && s[1..][j] == rest[i];
        assert T.Below(IrisOf(s)[0], IrisOf(s)[j + 1]);
      }
      InsertedInOrder(s[0], rest);
    }
  }

  lemma PrecedesIsStrict(a: Envelope, b: Envelope)
    ensures !(Precedes(a, b) && Precedes(b, a))
  {
    T.BelowIsTotal(a.iri, b.iri);
  }

  lemma InOrderTail(a: seq<Envelope>)
    requires InOrder(a) && a != []
    ensures InOrder(a[1..])
  {
    hide Precedes;
  }

  lemma OneOrderOnly(a: seq<Envelope>, b: seq<Envelope>)
    requires InOrder(a) && InOrder(b) && multiset(a) == multiset(b)
    ensures a == b
  {
    hide Precedes;
    forall x, y
      ensures !(Precedes(x, y) && Precedes(y, x))
    {
      PrecedesIsStrict(x, y);
    }
    OneArrangement((x: Envelope, y: Envelope) => Precedes(x, y), a, b);
  }

  /** Whatever ordered rearrangement of the envelopes within reach there is, a resume works through that one. */
  lemma ResumeSortsTo(entries: Entries, mine: seq<Envelope>, ordered: seq<Envelope>, task: string, claims: Claims, keys: seq<string>)
    requires Holds(entries, mine, task, claims) && IsScan(entries, PrefixOf(task), keys)
    requires InOrder(ordered) && multiset(ordered) == multiset(Scanned(entries, mine, task)) && ordered != []
    ensures forall k :: k in keys ==> k in entries
    ensures AllParse(entries, keys) && Chronological(entries, keys) == ordered
    ensures Resumed(entries, keys, task, claims) ==
            Ok(Some(ResumeState(ordered[|ordered| - 1], FirstOccurrences(StepsOf(ordered)))))
  {
    hide Holds, Sorted, PrefixOf, Owned, FirstOccurrences, InOrder, Ascending, IsScan, Resumed, AllParse, Scanned;
    ScanReadsMine(entries, mine, task, claims, keys);
    ScanOfTask(entries, task, keys);
    var read := EnvelopesAt(entries, keys);
    SortedInOrder(read);
    SortedProperties(Older(), read);
    OneOrderOnly(Sorted(Older(), read), ordered);
    ResumedInOrder(entries, keys, task, claims, ordered);
  }

  /** There is always such a rearrangement: what the resume sorted to. */
  lemma SortedRearrangement(entries: Entries, mine: seq<Envelope>, task: string, claims: Claims, keys: seq<string>) returns (ordered: seq<Envelope>)
    requires Holds(entries, mine, task, claims) && IsScan(entries, PrefixOf(task), keys) && mine != []
    ensures InOrder(ordered) && multiset(ordered) == multiset(Scanned(entries, mine, task)) && ordered != []
    ensures forall k :: k in keys ==> k in entries
    ensures Resumed(entries, keys, task, claims) ==
            Ok(Some(ResumeState(ordered[|ordered| - 1], FirstOccurrences(StepsOf(ordered)))))
  {
    hide Holds, Sorted, PrefixOf, Owned, FirstOccurrences, InOrder, Ascending, IsScan, Resumed, AllParse, Scanned;
    ScanReadsMine(entries, mine, task, claims, keys);
    ScanOfTask(entries, task, keys);
    ordered := Sorted(Older(), EnvelopesAt(entries, keys));
    SortedInOrder(EnvelopesAt(entries, keys));
    SortedProperties(Older(), EnvelopesAt(entries, keys));
    SameElements(ordered, Scanned(entries, mine, task));
    ResumedInOrder(entries, keys, task, claims, ordered);
  }

  // ---------- the last successful envelope ----------

  /** Every other envelope is older than the one written last, or of the same instant with a smaller key. */
  predicate LastIsNewest(mine: seq<Envelope>) {
    forall i :: 0 <= i < |mine| - 1 ==> Precedes(mine[i], mine[|mine| - 1])
  }

  /**
   The last successful envelope is the one written last exactly when that one is within reach of the scan and no other
   one within reach has a later creation time, or the same one and a larger key. A clock that stands still or goes back
   breaks this.
   */
  lemma LastSuccessfulExactlyWhen(entries: Entries, mine: seq<Envelope>, task: string, claims: Claims, keys: seq<string>)
    requires Holds(entries, mine, task, claims) && IsScan(entries, PrefixOf(task), keys) && mine != []
    ensures forall k :: k in keys ==> k in entries
    ensures var r, last := Resumed(entries, keys, task, claims), mine[|mine| - 1];
            r.Ok? && r.value.Some? &&
            (r.value.value.lastSuccessful == last <==> InReach(entries, PrefixOf(task), last.iri) && LastIsNewest(Scanned(entries, mine, task)))
  {
    var last := mine[|mine| - 1];
    if InReach(entries, PrefixOf(task), last.iri) {
      FilteredLast((e: Envelope) => InReach(entries, PrefixOf(task), e.iri), mine);
    }
    assert InReach(entries, PrefixOf(task), last.iri) ==>
             var scanned := Scanned(entries, mine, task); scanned != [] && scanned[|scanned| - 1] == last;
    hide Holds, PrefixOf, IsScan, Resumed, FirstOccurrences, Precedes, InReach, Scanned, Distinct, InOrder, LastIsNewest;
    var ordered := SortedRearrangement(entries, mine, task, claims, keys);
    var scanned := Scanned(entries, mine, task);
    ScanReadsMine(entries, mine, task, claims, keys);
    ScannedHas(entries, mine, task, claims);
    SameElements(ordered, scanned);
    LastOfOrdered(scanned, ordered);
    assert ordered[|ordered| - 1] in ordered;
  }

  lemma FilteredLast<T>(p: T -> bool, s: seq<T>)
    requires s != [] && p(s[|s| - 1])
    ensures Filtered(p, s) != [] && Filtered(p, s)[|Filtered(p, s)| - 1] == s[|s| - 1]
  {
    var most, last := s[..|s| - 1], s[|s| - 1];
    assert s == most + [last] && [last][1..] == [];
    FilteredConcat(p, most, [last]);
  }

  lemma LastOfOrdered(mine: seq<Envelope>, ordered: seq<Envelope>)
    requires Distinct(mine) && InOrder(ordered) && multiset(ordered) == multiset(mine) && mine != [] && ordered != []
    ensures ordered[|ordered| - 1] == mine[|mine| - 1] <==> LastIsNewest(mine)
  {
    hide Precedes;
    SameElements(ordered, mine);
    var last, newest := mine[|mine| - 1], ordered[|ordered| - 1];
    if newest == last {
      forall i | 0 <= i < |mine| - 1
        ensures Precedes(mine[i], last)
      {
        assert mine[i] in ordered;
        var j :| 0 <= j < |ordered| && ordered[j] == mine[i];
        assert mine[i] != last;
      }
    } else if LastIsNewest(mine) {
      assert newest in mine && last in ordered;
      var i :| 0 <= i < |mine| && mine[i] == newest;
      var j :| 0 <= j < |ordered| && ordered[j] == last;
      PrecedesIsStrict(newest, last);
    }
  }

  // ---------- the order of the completed steps ----------

  /** The first `x` comes before every `y`. */
  predicate Before(steps: seq<StepKind>, x: StepKind, y: StepKind) {
    exists i :: 0 <= i < |steps| && steps[i] == x && forall j :: 0 <= j < |steps| && steps[j] == y ==> i < j
  }

  predicate PrecedesAll(e: Envelope, mine: seq<Envelope>, y: StepKind) {
    forall j :: 0 <= j < |mine| && mine[j].step == y ==> Precedes(e, mine[j])
  }

  /** Some envelope of `x` is older than every envelope of `y`, keys breaking ties. */
  predicate StepPrecedes(mine: seq<Envelope>, x: StepKind, y: StepKind) {
    exists i :: 0 <= i < |mine| && mine[i].step == x && PrecedesAll(mine[i], mine, y)
  }

  /** Every recorded step is within reach of the scan, and there the one first written before another is also the older one. */
  predicate StepsInTime(mine: seq<Envelope>, scanned: seq<Envelope>) {
    (forall x :: x in StepsOf(mine) ==> x in StepsOf(scanned)) &&
    forall x, y :: y in StepsOf(mine) && Before(StepsOf(mine), x, y) ==> StepPrecedes(scanned, x, y)
  }

  predicate Follows(steps: seq<StepKind>, list: seq<StepKind>) {
    forall p, q :: 0 <= p < q < |list| ==> Before(steps, list[p], list[q])
  }

  lemma BeforeIsStrict(steps: seq<StepKind>, x: StepKind, y: StepKind)
    requires Before(steps, x, y) && y in steps
    ensures x in steps && x != y && !Before(steps, y, x)
  {
  }

  lemma BeforeAfterOneMore(steps: seq<StepKind>, last: StepKind, x: StepKind, y: StepKind)
    ensures Before(steps, x, y) ==> Before(steps + [last], x, y)
    ensures x in steps && last !in steps ==> Before(steps + [last], x, last)
  {
    if Before(steps, x, y) {
      var i :| 0 <= i < |steps| && steps[i] == x && forall j :: 0 <= j < |steps| && steps[j] == y ==> i < j;
      assert (steps + [last])[i] == x;
    }
    if x in steps && last !in steps {
      var i :| 0 <= i < |steps| && steps[i] == x;
      assert (steps + [last])[i] == x;
    }
  }

  /** The first occurrences come in the order of the first occurrences. */
  lemma {:induction false} FirstOccurrencesFollow(steps: seq<StepKind>)
    ensures Follows(steps, FirstOccurrences(steps))
  {
    hide Before;
    if steps != [] {
      var most, last := steps[..|steps| - 1], steps[|steps| - 1];
      FirstOccurrencesFollow(most);
      assert steps == most + [last];
      var r, before := FirstOccurrences(steps), FirstOccurrences(most);
      forall p, q | 0 <= p < q < |r|
        ensures Before(steps, r[p], r[q])
      {
        if q < |before| {
          BeforeAfterOneMore(most, last, before[p], before[q]);
        } else {
          assert before[p] in before;
          BeforeAfterOneMore(most, last, before[p], last);
        }
      }
    }
  }

  lemma OneFollower(steps: seq<StepKind>, a: seq<StepKind>, b: seq<StepKind>)
    requires Follows(steps, a) && Follows(steps, b) && Distinct(a) && Distinct(b)
    requires (forall x :: x in a <==> x in b) && forall x :: x in a ==> x in steps
    ensures a == b
  {
    hide Before;
    SameMultiset(a, b);
    forall x, y | x in a && y in a && Before(steps, x, y)
      ensures !Before(steps, y, x)
    {
      BeforeIsStrict(steps, x, y);
    }
    OneArrangement((x: StepKind, y: StepKind) => Before(steps, x, y), a, b);
  }

  /** In the sorted list, coming first and being older are the same. */
  lemma OlderComesFirst(mine: seq<Envelope>, ordered: seq<Envelope>, x: StepKind, y: StepKind)
    requires InOrder(ordered) && forall e :: e in ordered <==> e in mine
    ensures Before(StepsOf(ordered), x, y) <==> StepPrecedes(mine, x, y)
  {
    hide Precedes, InOrder;
    if Before(StepsOf(ordered), x, y) {
      var i :| 0 <= i < |ordered| && StepsOf(ordered)[i] == x && forall j :: 0 <= j < |ordered| && StepsOf(ordered)[j] == y ==> i < j;
      EarlierPrecedesAll(mine, ordered, i, y);
      assert ordered[i] in mine;
      var k :| 0 <= k < |mine| && mine[k] == ordered[i];
      assert mine[k].step == x && PrecedesAll(mine[k], mine, y);
    }
    if StepPrecedes(mine, x, y) {
      var k :| 0 <= k < |mine| && mine[k].step == x && PrecedesAll(mine[k], mine, y);
      assert mine[k] in ordered;
      var i :| 0 <= i < |ordered| && ordered[i] == mine[k];
      PrecedesAllComesEarlier(mine, ordered, i, y);
      assert StepsOf(ordered)[i] == x;
    }
  }

  lemma EarlierPrecedesAll(mine: seq<Envelope>, ordered: seq<Envelope>, i: nat, y: StepKind)
    requires InOrder(ordered) && (forall e :: e in ordered <==> e in mine) && i < |ordered|
    requires forall j :: 0 <= j < |ordered| && StepsOf(ordered)[j] == y ==> i < j
    ensures PrecedesAll(ordered[i], mine, y)
  {
    hide Precedes;
    forall l | 0 <= l < |mine| && mine[l].step == y
      ensures Precedes(ordered[i], mine[l])
    {
      assert mine[l] in ordered;
      var j :| 0 <= j < |ordered| && ordered[j] == mine[l];
      assert StepsOf(ordered)[j] == y;
    }
  }

  lemma PrecedesAllComesEarlier(mine: seq<Envelope>, ordered: seq<Envelope>, i: nat, y: StepKind)
    requires InOrder(ordered) && (forall e :: e in ordered <==> e in mine) && i < |ordered| && PrecedesAll(ordered[i], mine, y)
    ensures forall j :: 0 <= j < |ordered| && StepsOf(ordered)[j] == y ==> i < j
  {
    hide Precedes;
    forall j | 0 <= j < |ordered| && StepsOf(ordered)[j] == y
      ensures i < j
    {
      assert ordered[j] in mine;
      var l :| 0 <= l < |mine| && mine[l] == ordered[j];
      PrecedesIsStrict(ordered[i], ordered[j]);
    }
  }

  /**
   The completed steps come in order of first completion exactly when all of them are within reach of the scan and, of
   any two, the one first written earlier is also the older one there. Creation times that stand still or go back between the first writes of two
   steps break this; between writes of the same step they do not matter.
   */
  lemma CompletedOrderExactlyWhen(entries: Entries, mine: seq<Envelope>, task: string, claims: Claims, keys: seq<string>)
    requires Holds(entries, mine, task, claims) && IsScan(entries, PrefixOf(task), keys) && mine != []
    ensures forall k :: k in keys ==> k in entries
    ensures var r := Resumed(entries, keys, task, claims);
            r.Ok? && r.value.Some? &&
            (r.value.value.completedSteps == FirstOccurrences(StepsOf(mine)) <==> StepsInTime(mine, Scanned(entries, mine, task)))
  {
    hide Holds, PrefixOf, IsScan, Resumed, FirstOccurrences, Precedes, StepsInTime, InOrder, InReach, Scanned;
    var ordered := SortedRearrangement(entries, mine, task, claims, keys);
    ScannedHas(entries, mine, task, claims);
    SameElements(ordered, Scanned(entries, mine, task));
    OrderOfFirstOccurrences(mine, Scanned(entries, mine, task), ordered);
  }

  lemma OrderOfFirstOccurrences(mine: seq<Envelope>, scanned: seq<Envelope>, ordered: seq<Envelope>)
    requires InOrder(ordered) && (forall e :: e in ordered <==> e in scanned) && forall e :: e in scanned ==> e in mine
    ensures FirstOccurrences(StepsOf(ordered)) == FirstOccurrences(StepsOf(mine)) <==> StepsInTime(mine, scanned)
  {
    hide FirstOccurrences, InOrder, Before, StepPrecedes;
    var written, sorted := StepsOf(mine), StepsOf(ordered);
    var q, r := FirstOccurrences(written), FirstOccurrences(sorted);
    FirstOccurrencesFollow(written);
    FirstOccurrencesFollow(sorted);
    StepsWithin(mine, scanned, ordered);
    if r == q {
      forall x
        ensures x in written ==> x in StepsOf(scanned)
      {
        assert x in q <==> x in written;
        assert x in r <==> x in sorted;
      }
      forall x, y | y in written && Before(written, x, y)
        ensures StepPrecedes(scanned, x, y)
      {
        var i, j := OrderIsReported(written, q, x, y);
        assert Before(sorted, r[i], r[j]);
        OlderComesFirst(scanned, ordered, x, y);
      }
    }
    if StepsInTime(mine, scanned) {
      forall i, j | 0 <= i < j < |q|
        ensures Before(sorted, q[i], q[j])
      {
        assert q[j] in q;
        assert Before(written, q[i], q[j]);
        OlderComesFirst(scanned, ordered, q[i], q[j]);
      }
      OneFollower(sorted, q, r);
    }
  }

  lemma StepsWithin(mine: seq<Envelope>, scanned: seq<Envelope>, ordered: seq<Envelope>)
    requires (forall e :: e in ordered <==> e in scanned) && forall e :: e in scanned ==> e in mine
    ensures forall x :: x in StepsOf(ordered) <==> x in StepsOf(scanned)
    ensures forall x :: x in StepsOf(scanned) ==> x in StepsOf(mine)
  {
    forall x
      ensures x in StepsOf(ordered) <==> x in StepsOf(scanned)
      ensures x in StepsOf(scanned) ==> x in StepsOf(mine)
    {
      SameSteps(ordered, scanned, x);
      SameSteps(scanned, scanned, x);
      if x in StepsOf(scanned) {
        var i :| 0 <= i < |scanned| && StepsOf(scanned)[i] == x;
        assert scanned[i] in mine;
        var j :| 0 <= j < |mine| && mine[j] == scanned[i];
        assert StepsOf(mine)[j] == x;
      }
    }
  }

  /** Two steps stand in the list of first occurrences as they were first written. */
  lemma OrderIsReported(steps: seq<StepKind>, list: seq<StepKind>, x: StepKind, y: StepKind) returns (p: nat, q: nat)
    requires Follows(steps, list) && (forall z :: z in list <==> z in steps) && y in steps && Before(steps, x, y)
    ensures p < q < |list| && list[p] == x && list[q] == y
  {
    hide Before;
    BeforeIsStrict(steps, x, y);
    p :| 0 <= p < |list| && list[p] == x;
    q :| 0 <= q < |list| && list[q] == y;
  }

  /** In particular both hold when all envelopes are within reach and each is newer than the ones written before it. */
  lemma OrderedWritesSuffice(mine: seq<Envelope>)
    requires InOrder(mine) && mine != []
    ensures LastIsNewest(mine) && StepsInTime(mine, mine)
  {
    hide Precedes;
    forall x, y | y in StepsOf(mine) && Before(StepsOf(mine), x, y)
      ensures StepPrecedes(mine, x, y)
    {
      OlderComesFirst(mine, mine, x, y);
    }
  }

  // ---------- an example ----------

  lemma {:induction false} BelowAfterPrefix(p: string, a: string, b: string)
    requires T.Below(a, b)
    ensures T.Below(p + a, p + b)
  {
    if p == "" {
      assert p + a == a && p + b == b;
    } else {
      BelowAfterPrefix(p[1..], a, b);
      assert (p + a)[1..] == p[1..] + a && (p + b)[1..] == p[1..] + b;
    }
  }

  /** A plan written at `first`, a restart, and a step written at `second`. */
  function StalledClockOps(task: string, claims: Claims, first: int, second: int): seq<Op> {
    [Lost, Record(task, Plan, claims, [], "u", first), Restart, Record(task, Do, claims, [], "v", second)]
  }

  lemma SecondKeyIsSmaller(task: string, uuid: string)
    ensures var first, second := EnvelopeIri(task, 1, "u"), EnvelopeIri(task, 0, uuid); T.Below(second, first) && second != first
  {
    hide PrefixOf;
    assert T.Decimal(0) == "0" && T.Decimal(1) == "1";
    assert T.Below("0" + "/" + uuid, "1" + "/" + "u");
    BelowAfterPrefix(PrefixOf(task), "0" + "/" + uuid, "1" + "/" + "u");
    assert EnvelopeIri(task, 0, uuid) == PrefixOf(task) + ("0" + "/" + uuid);
    assert EnvelopeIri(task, 1, "u") == PrefixOf(task) + ("1" + "/" + "u");
    T.BelowIsTotal(EnvelopeIri(task, 0, uuid), EnvelopeIri(task, 1, "u"));
  }

  lemma StalledClockRun(task: string, claims: Claims, first: int, second: int) returns (plan: Envelope, done: Envelope)
    ensures plan.step == Plan && done.step == Do && plan.createdAt == first && done.createdAt == second && T.Below(done.iri, plan.iri)
    ensures Run(World(map[], 0, []), StalledClockOps(task, claims, first, second)) ==
            World(map[plan.iri := Parsed(plan), done.iri := Parsed(done)], 1, [plan, done])
    ensures plan.task == done.task == task
    ensures AllFit(World(map[], 0, []), StalledClockOps(task, claims, first, second), task, claims)
  {
    hide EnvelopeIri, T.Below;
    var ops := StalledClockOps(task, claims, first, second);
    plan := Envelope(EnvelopeIri(task, 1, "u"), task, Plan, claims, [], first);
    done := Envelope(EnvelopeIri(task, 0, "v"), task, Do, claims, [], second);
    SecondKeyIsSmaller(task, "v");
    var w0 := World(map[], 0, []);
    var w1 := Next(w0, ops[0]);
    var w2 := Next(w1, ops[1]);
    var w3 := Next(w2, ops[2]);
    var w4 := Next(w3, ops[3]);
    assert w2 == World(map[plan.iri := Parsed(plan)], 2, [plan]);
    assert w4 == World(map[plan.iri := Parsed(plan), done.iri := Parsed(done)], 1, [plan, done]);
    assert ops[1..][1..] == ops[2..] && ops[2..][1..] == ops[3..] && ops[3..][1..] == [];
    assert Run(w3, ops[3..]) == w4 && AllFit(w3, ops[3..], task, claims);
    assert Run(w2, ops[2..]) == w4 && AllFit(w2, ops[2..], task, claims);
    assert Run(w1, ops[1..]) == w4 && AllFit(w1, ops[1..], task, claims);
  }

  /**
   After a restart the counter starts over, so an envelope written second can have the smaller key. If the clock has
   not moved, or has gone back, it is then reported first, and the one written last is not the last successful one.
   */
  lemma StalledClockExample(task: string, claims: Claims, first: int, second: int, keys: seq<string>)
    requires second <= first
    requires IsScan(Run(World(map[], 0, []), StalledClockOps(task, claims, first, second)).entries, PrefixOf(task), keys)
    ensures AllFit(World(map[], 0, []), StalledClockOps(task, claims, first, second), task, claims)
    ensures var w := Run(World(map[], 0, []), StalledClockOps(task, claims, first, second));
            StepsOf(Mine(w.written, task)) == [Plan, Do] && (forall k :: k in keys ==> k in w.entries) &&
            var r := Resumed(w.entries, keys, task, claims);
            r.Ok? && r.value.Some? && r.value.value.completedSteps == [Do, Plan] && r.value.value.lastSuccessful.step == Plan
  {
    hide Run, AllFit, StalledClockOps, PrefixOf, Holds, IsScan, Resumed, FirstOccurrences, Chronological, Mine, T.Below;
    var plan, done := StalledClockRun(task, claims, first, second);
    var w0 := World(map[], 0, []);
    var ops := StalledClockOps(task, claims, first, second);
    var w := Run(w0, ops);
    TwoAreMine(plan, done, task, claims);
    RunHolds(w0, ops, task, claims);
    assert multiset([done, plan]) == multiset([plan, done]);
    assert InOrder([done, plan]);
    FewAreAllScanned(w.entries, [plan, done], task, claims);
    ResumeSortsTo(w.entries, [plan, done], [done, plan], task, claims, keys);
    TwoSteps(plan, done);
  }

  lemma TwoAreMine(plan: Envelope, done: Envelope, task: string, claims: Claims)
    requires plan.task == task && done.task == task
    ensures Mine([plan, done], task) == [plan, done] && Holds(map[], Mine([], task), task, claims)
  {
    MineAfter([], plan, task);
    MineAfter([plan], done, task);
    assert [] + [plan] == [plan];
  }

  lemma TwoSteps(plan: Envelope, done: Envelope)
    requires plan.step == Plan && done.step == Do
    ensures StepsOf([plan, done]) == [Plan, Do]
    ensures FirstOccurrences(StepsOf([done, plan])) == [Do, Plan]
  {
    assert StepsOf([done, plan]) == [Do, Plan];
    assert [Do, Plan][..1] == [Do] && [Do][..0] == [];
  }
}
