/** Filling in the tenant and project of old catalog records, in place (src/bin/kb_catalog_backfill.rs). */
module CatalogBackfill {
  import opened Wrappers
  import opened JsonValue
  import T = Text

  type Scope = (string, string)

  type Assigns = map<string, Scope>

  datatype Status = AlreadyScoped | Conflict | Assigned | Unambiguous | NoEvidence | Ambiguous

  datatype Report = Report(id: string, status: Status, scope: Option<Scope>, evidence: set<Scope>, before: Option<(Json, Json)>)

  /** `Panicked`: writing a field into a value that is neither an object nor null. */
  datatype Failure = Panicked | UnknownId(id: string)

  function IdOf(base: Json): string {
    GetStr(base, "id").GetOr("<missing>")
  }

  predicate Scoped(base: Json) {
    GetStr(base, "tenant_id").Some? && GetStr(base, "project_id").Some?
  }

  function ScopeOf(v: Json): Option<Scope> {
    if Scoped(v) then Some((GetStr(v, "tenant_id").value, GetStr(v, "project_id").value)) else None
  }

  function Documents(base: Json): seq<Json> {
    match Get(base, "documents")
    case Some(Arr(items)) => items
    case _ => []
  }

  /** The scopes the record's documents carry. */
  function Evidence(documents: seq<Json>): set<Scope> {
    set i | 0 <= i < |documents| && ScopeOf(documents[i]).Some? :: ScopeOf(documents[i]).value
  }

  /** What happens to one record: nothing, a report, or a scope to fill in. */
  datatype Verdict = Silent | Told(status: Status, evidence: set<Scope>) | Fill(status: Status, scope: Scope)

  /** The scope that fits the record: the only one its documents name, or the assigned one if they name none. */
  predicate Fits(base: Json, assigns: Assigns, scope: Scope) {
    var evidence := Evidence(Documents(base));
    !Scoped(base) &&
    (evidence == {scope} || (evidence == {} && IdOf(base) in assigns)) &&
    (IdOf(base) in assigns ==> assigns[IdOf(base)] == scope) &&
    GetStr(base, "tenant_id") in {None, Some(scope.0)} && GetStr(base, "project_id") in {None, Some(scope.1)}
  }

  function Judged(base: Json, assigns: Assigns): Verdict {
    var id := IdOf(base);
    var found := Evidence(Documents(base));
    if Scoped(base) then
      if id !in assigns then Silent
      else if Some(assigns[id]) == ScopeOf(base) then Told(AlreadyScoped, {})
      else Told(Conflict, {})
    else if found != {} && id in assigns && assigns[id] !in found then Told(Conflict, {})
    else
      var evidence := if found == {} && id in assigns then {assigns[id]} else found;
      if |evidence| == 1 then
        var scope := Only(evidence);
        if GetStr(base, "tenant_id") !in {None, Some(scope.0)} || GetStr(base, "project_id") !in {None, Some(scope.1)}
        then Told(Conflict, {})
        else Fill(if id in assigns then Assigned else Unambiguous, scope)
      else Told(if evidence == {} then NoEvidence else Ambiguous, evidence)
  }

  function Only(s: set<Scope>): (x: Scope)
    requires |s| == 1
    ensures s == {x}
  {
    OnlyExists(s);
    var x :| x in s && s == {x};
    x
  }

  lemma OnlyExists(s: set<Scope>)
    requires |s| == 1
    ensures exists x :: x in s && s == {x}
  {
    var x :| x in s;
    assert |s - {x}| == 0;
  }

  /** A scope is filled in exactly when it fits. */
  lemma FilledExactlyWhenItFits(base: Json, assigns: Assigns, scope: Scope)
    ensures (Judged(base, assigns).Fill? && Judged(base, assigns).scope == scope) <==> Fits(base, assigns, scope)
  {
    var id := IdOf(base);
    var found := Evidence(Documents(base));
    if !Scoped(base) {
      var evidence := if found == {} && id in assigns then {assigns[id]} else found;
      if |evidence| == 1 {
        assert evidence == {Only(evidence)};
      }
    }
  }

  // ---------- the new record ----------

  predicate CanHoldFields(base: Json) {
    base.Obj? || base.Null?
  }

  function With(base: Json, key: string, value: Json): Json {
    Obj((if base.Obj? then base.fields else map[])[key := value])
  }

  function WithDefault(base: Json, key: string, text: string): Json {
    if GetStr(base, key).None? then With(base, key, Str(text)) else base
  }

  function After(base: Json, assigns: Assigns): Json {
    match Judged(base, assigns)
    case Fill(_, scope) => WithDefault(WithDefault(base, "tenant_id", scope.0), "project_id", scope.1)
    case _ => base
  }

  predicate Panics(base: Json, assigns: Assigns) {
    Judged(base, assigns).Fill? && !CanHoldFields(base)
  }

  function BeforeImage(base: Json): (Json, Json) {
    (Get(base, "tenant_id").GetOr(Null), Get(base, "project_id").GetOr(Null))
  }

  function ReportsFor(base: Json, apply: bool, assigns: Assigns): seq<Report> {
    match Judged(base, assigns)
    case Silent => []
    case Told(status, evidence) => [Report(IdOf(base), status, None, evidence, None)]
    case Fill(status, scope) => [Report(IdOf(base), status, Some(scope), {}, if apply then Some(BeforeImage(base)) else None)]
  }

  /** The evidence: what the entries of the record's document list carry, where they carry both a tenant and a project. */
  lemma EvidenceIs(base: Json, scope: Scope)
    ensures scope in Evidence(Documents(base)) <==>
            exists items :: Get(base, "documents") == Some(Arr(items)) &&
              exists i :: 0 <= i < |items| && GetStr(items[i], "tenant_id") == Some(scope.0) && GetStr(items[i], "project_id") == Some(scope.1)
  {
    var documents := Documents(base);
    if exists i :: 0 <= i < |documents| && GetStr(documents[i], "tenant_id") == Some(scope.0) && GetStr(documents[i], "project_id") == Some(scope.1) {
      var i :| 0 <= i < |documents| && GetStr(documents[i], "tenant_id") == Some(scope.0) && GetStr(documents[i], "project_id") == Some(scope.1);
      assert ScopeOf(documents[i]) == Some(scope);
      assert Get(base, "documents") == Some(Arr(documents));
    }
  }

  predicate Contradicts(base: Json, scope: Scope) {
    GetStr(base, "tenant_id") !in {None, Some(scope.0)} || GetStr(base, "project_id") !in {None, Some(scope.1)}
  }

  /** A scoped record that nobody assigned a scope to is passed over; every other one gets one report. */
  lemma OneReportEach(base: Json, apply: bool, assigns: Assigns)
    ensures |ReportsFor(base, apply, assigns)| == if Scoped(base) && IdOf(base) !in assigns then 0 else 1
    ensures forall r :: r in ReportsFor(base, apply, assigns) ==>
              r.id == GetStr(base, "id").GetOr("<missing>") && (r.evidence != {} <==> r.status == Ambiguous)
  {
    hide Evidence, Documents;
    AmbiguousHasEvidence(base, assigns);
  }

  lemma AmbiguousHasEvidence(base: Json, assigns: Assigns)
    ensures Judged(base, assigns).Told? ==>
              (Judged(base, assigns).evidence != {} <==> Judged(base, assigns).status == Ambiguous) &&
              Judged(base, assigns).status in {AlreadyScoped, Conflict, NoEvidence, Ambiguous}
    ensures Judged(base, assigns).Fill? ==> Judged(base, assigns).status in {Assigned, Unambiguous}
  {
    hide Evidence, Documents, IdOf;
  }

  /** Which report it is, status by status. */
  lemma StatusExactlyWhen(base: Json, apply: bool, assigns: Assigns, r: Report)
    requires r in ReportsFor(base, apply, assigns)
    ensures var id, found := IdOf(base), Evidence(Documents(base));
            (r.status == AlreadyScoped <==> Scoped(base) && Some(assigns[id]) == ScopeOf(base)) &&
            (r.status == NoEvidence <==> !Scoped(base) && found == {} && id !in assigns) &&
            (r.status == Ambiguous <==> !Scoped(base) && |found| > 1 && (id in assigns ==> assigns[id] in found)) &&
            (r.status == Assigned <==> id in assigns && Fits(base, assigns, assigns[id])) &&
            (r.status == Unambiguous <==> id !in assigns && exists scope :: Fits(base, assigns, scope)) &&
            (r.status == Conflict <==>
              if Scoped(base) then Some(assigns[id]) != ScopeOf(base)
              else (found != {} && id in assigns && assigns[id] !in found) ||
                   exists scope :: Contradicts(base, scope) && (found == {scope} || (found == {} && id in assigns && assigns[id] == scope)))
    ensures r.status == Ambiguous ==> r.evidence == Evidence(Documents(base))
    ensures r.status in {Assigned, Unambiguous} ==>
              r.scope.Some? && Fits(base, assigns, r.scope.value) &&
              r.before == if apply then Some((Get(base, "tenant_id").GetOr(Null), Get(base, "project_id").GetOr(Null))) else None
    ensures r.status !in {Assigned, Unambiguous} ==> r.scope == None && r.before == None
  {
    var id, found := IdOf(base), Evidence(Documents(base));
    hide Evidence, Documents, IdOf;
    AmbiguousHasEvidence(base, assigns);
    var v := Judged(base, assigns);
    if v.Fill? {
      FilledExactlyWhenItFits(base, assigns, v.scope);
    }
  }

  // ---------- the whole catalog ----------

  function AllAfter(bases: seq<Json>, assigns: Assigns): (r: seq<Json>) {
    seq(|bases|, i requires 0 <= i < |bases| => After(bases[i], assigns))
  }

  function AllReports(bases: seq<Json>, apply: bool, assigns: Assigns): seq<Report> {
    if bases == [] then [] else AllReports(bases[..|bases| - 1], apply, assigns) + ReportsFor(bases[|bases| - 1], apply, assigns)
  }

  function FillCount(bases: seq<Json>, assigns: Assigns): nat {
    if bases == [] then 0 else
      FillCount(bases[..|bases| - 1], assigns) + if Judged(bases[|bases| - 1], assigns).Fill? then 1 else 0
  }

  predicate HasId(bases: seq<Json>, id: string) {
    exists i :: 0 <= i < |bases| && GetStr(bases[i], "id") == Some(id)
  }

  predicate RunPanics(bases: seq<Json>, apply: bool, assigns: Assigns) {
    apply && exists i :: 0 <= i < |bases| && Panics(bases[i], assigns)
  }

  method CollectEvidence(base: Json) returns (evidence: set<Scope>)
    ensures evidence == Evidence(Documents(base))
  {
    evidence := {};
    var documents := Documents(base);
    for i := 0 to |documents|
      invariant evidence == Evidence(documents[..i])
    {
      EvidenceStep(documents, i);
      var scope := ScopeOf(documents[i]);
      if scope.Some? {
        evidence := evidence + {scope.value};
      }
    }
    assert documents[..|documents|] == documents;
  }

  lemma EvidenceStep(documents: seq<Json>, i: nat)
    requires i < |documents|
    ensures Evidence(documents[..i + 1]) ==
            Evidence(documents[..i]) + if ScopeOf(documents[i]).Some? then {ScopeOf(documents[i]).value} else {}
  {
    hide ScopeOf;
    var before, after := documents[..i], documents[..i + 1];
    assert forall j :: 0 <= j < i ==> after[j] == before[j];
    forall x | x in Evidence(before)
      ensures x in Evidence(after)
    {
      var j :| 0 <= j < i && ScopeOf(before[j]).Some? && ScopeOf(before[j]).value == x;
      assert ScopeOf(after[j]).value == x;
    }
    if ScopeOf(documents[i]).Some? {
      assert ScopeOf(after[i]).value in Evidence(after);
    }
  }

  /** Judges one record and, on a real run, writes the scope into it. */
  method BackfillOne(bases: array<Json>, i: nat, apply: bool, assigns: Assigns) returns (reports: seq<Report>, changed: bool, panicked: bool)
    requires i < bases.Length
    modifies bases
    ensures panicked == (apply && Panics(old(bases[i]), assigns))
    ensures !panicked ==> reports == ReportsFor(old(bases[i]), apply, assigns)
    ensures !panicked ==> changed == (apply && Judged(old(bases[i]), assigns).Fill?)
    ensures bases[..] == old(bases[..])[i := if apply && !panicked then After(old(bases[i]), assigns) else old(bases[i])]
  {
    var base := bases[i];
    var id := IdOf(base);
    reports, changed, panicked := [], false, false;
    if GetStr(base, "tenant_id").Some? && GetStr(base, "project_id").Some? {
      if id in assigns {
        var (tenant, project) := assigns[id];
        if GetStr(base, "tenant_id") == Some(tenant) && GetStr(base, "project_id") == Some(project) {
          reports := [Report(id, AlreadyScoped, None, {}, None)];
        } else {
          reports := [Report(id, Conflict, None, {}, None)];
        }
      }
      return;
    }
    var evidence := CollectEvidence(base);
    if evidence == {} {
      if id in assigns {
        evidence := {assigns[id]};
      }
    } else if id in assigns {
      if assigns[id] !in evidence {
        reports := [Report(id, Conflict, None, {}, None)];
        return;
      }
    }
    if |evidence| == 1 {
      var (tenant, project) := Only(evidence);
      var tenantConflict := GetStr(base, "tenant_id").Some? && GetStr(base, "tenant_id").value != tenant;
      var projectConflict := GetStr(base, "project_id").Some? && GetStr(base, "project_id").value != project;
      if tenantConflict || projectConflict {
        reports := [Report(id, Conflict, None, {}, None)];
      } else {
        var report := Report(id, if id in assigns then Assigned else Unambiguous, Some((tenant, project)), {}, None);
        if apply {
          var before := BeforeImage(base);
          if !CanHoldFields(base) {
            panicked := true;
            return;
          }
          if GetStr(bases[i], "tenant_id").None? {
            bases[i] := With(bases[i], "tenant_id", Str(tenant));
          }
          if GetStr(bases[i], "project_id").None? {
            bases[i] := With(bases[i], "project_id", Str(project));
          }
          report := report.(before := Some(before));
          changed := true;
        }
        reports := [report];
      }
    } else {
      reports := [Report(id, if evidence == {} then NoEvidence else Ambiguous, None, evidence, None)];
    }
  }

  method Backfill(bases: array<Json>, apply: bool, assigns: Assigns) returns (r: Result<(nat, seq<Report>), Failure>)
    modifies bases
    ensures r == Err(Panicked) <==> RunPanics(old(bases[..]), apply, assigns)
    ensures r != Err(Panicked) ==> bases[..] == if apply then AllAfter(old(bases[..]), assigns) else old(bases[..])
    ensures r.Ok? ==>
              r.value == (if apply then FillCount(old(bases[..]), assigns) else 0, AllReports(old(bases[..]), apply, assigns)) &&
              forall id :: id in assigns ==> exists i :: 0 <= i < bases.Length && GetStr(old(bases[i]), "id") == Some(id)
    ensures r.Err? && r.error.UnknownId? ==>
              r.error.id in assigns && (forall i :: 0 <= i < bases.Length ==> GetStr(old(bases[i]), "id") != Some(r.error.id)) &&
              forall id :: id in assigns && !HasId(old(bases[..]), id) ==> id == r.error.id || T.Below(r.error.id, id)
  {
    hide Panics, Judged, ReportsFor, After;
    ghost var was := bases[..];
    var reports, changed, panicked := BackfillEach(bases, apply, assigns);
    if panicked {
      return Err(Panicked);
    }
    SameIds(was, bases[..], assigns);
    var missing := FirstMissing(bases[..], assigns);
    if missing.Some? {
      return Err(UnknownId(missing.value));
    }
    return Ok((changed, reports));
  }

  method BackfillEach(bases: array<Json>, apply: bool, assigns: Assigns) returns (reports: seq<Report>, changed: nat, panicked: bool)
    modifies bases
    ensures panicked == RunPanics(old(bases[..]), apply, assigns)
    ensures !panicked ==> bases[..] == if apply then AllAfter(old(bases[..]), assigns) else old(bases[..])
    ensures !panicked ==> changed == if apply then FillCount(old(bases[..]), assigns) else 0
    ensures !panicked ==> reports == AllReports(old(bases[..]), apply, assigns)
  {
    hide After, Panics, Judged, ReportsFor;
    ghost var was := bases[..];
    reports, changed, panicked := [], 0, false;
    for i := 0 to bases.Length
      invariant forall j :: 0 <= j < i ==> bases[j] == if apply then After(was[j], assigns) else was[j]
      invariant forall j :: i <= j < bases.Length ==> bases[j] == was[j]
      invariant apply ==> forall j :: 0 <= j < i ==> !Panics(was[j], assigns)
      invariant changed == if apply then FillCount(was[..i], assigns) else 0
      invariant reports == AllReports(was[..i], apply, assigns)
    {
      ghost var before := bases[..];
      CountsOneMore(was, apply, assigns, i);
      var told, wrote, failed := BackfillOne(bases, i, apply, assigns);
      if failed {
        return reports, changed, true;
      }
      assert forall j :: 0 <= j < bases.Length && j != i ==> bases[..][j] == before[j];
      assert bases[..][i] == if apply then After(was[i], assigns) else was[i];
      reports := reports + told;
      changed := changed + if wrote then 1 else 0;
    }
    assert was[..bases.Length] == was;
  }

  lemma CountsOneMore(bases: seq<Json>, apply: bool, assigns: Assigns, i: nat)
    requires i < |bases|
    ensures AllReports(bases[..i + 1], apply, assigns) == AllReports(bases[..i], apply, assigns) + ReportsFor(bases[i], apply, assigns)
    ensures FillCount(bases[..i + 1], assigns) == FillCount(bases[..i], assigns) + if Judged(bases[i], assigns).Fill? then 1 else 0
  {
    hide Judged, ReportsFor;
    assert bases[..i + 1][..i] == bases[..i];
  }

  /** The first assigned id, in key order, that no record has. */
  method FirstMissing(bases: seq<Json>, assigns: Assigns) returns (missing: Option<string>)
    ensures missing.None? ==> forall id :: id in assigns ==> HasId(bases, id)
    ensures missing.Some? ==>
              missing.value in assigns && !HasId(bases, missing.value) &&
              forall id :: id in assigns && !HasId(bases, id) ==> id == missing.value || T.Below(missing.value, id)
  {
    var rest := assigns.Keys;
    while rest != {}
      invariant rest <= assigns.Keys && forall id :: id in assigns && id !in rest ==> HasId(bases, id)
      decreases rest
    {
      ghost var least := T.LeastKey(rest);
      var id :| id in rest && forall other :: other in rest && other != id ==> T.Below(id, other);
      var found := FindId(bases, id);
      if !found {
        return Some(id);
      }
      rest := rest - {id};
    }
    return None;
  }

  method FindId(bases: seq<Json>, id: string) returns (found: bool)
    ensures found == HasId(bases, id)
  {
    for i := 0 to |bases|
      invariant forall j :: 0 <= j < i ==> GetStr(bases[j], "id") != Some(id)
    {
      if GetStr(bases[i], "id") == Some(id) {
        return true;
      }
    }
    return false;
  }

  lemma SameIds(was: seq<Json>, bases: seq<Json>, assigns: Assigns)
    requires bases == was || bases == AllAfter(was, assigns)
    ensures forall id :: HasId(bases, id) == HasId(was, id)
  {
    hide After;
    forall i | 0 <= i < |was|
      ensures GetStr(bases[i], "id") == GetStr(was[i], "id")
    {
      NeverAlters(was[i], assigns, "id");
    }
  }

  // ---------- what a run does to a catalog ----------

  /** A tenant or project that is already there as a string stays, and no other field changes at all. */
  lemma NeverAlters(base: Json, assigns: Assigns, key: string)
    ensures key != "tenant_id" && key != "project_id" ==> Get(After(base, assigns), key) == Get(base, key)
    ensures GetStr(base, key).Some? ==> Get(After(base, assigns), key) == Get(base, key)
  {
    hide Judged;
  }

  /** A record ends up with both fields exactly when it had both or a scope fits it, and then it has that scope. */
  lemma ScopedAfterExactlyWhen(base: Json, assigns: Assigns)
    ensures Scoped(After(base, assigns)) <==> Scoped(base) || Judged(base, assigns).Fill?
    ensures Judged(base, assigns).Fill? ==> ScopeOf(After(base, assigns)) == Some(Judged(base, assigns).scope)
  {
    hide Judged, Evidence, Documents, IdOf;
    if Judged(base, assigns).Fill? {
      FilledExactlyWhenItFits(base, assigns, Judged(base, assigns).scope);
    }
  }

  /** Judging a record again after the fill finds nothing more to fill. */
  lemma SettledAfterOne(base: Json, assigns: Assigns)
    ensures !Judged(After(base, assigns), assigns).Fill? && After(After(base, assigns), assigns) == After(base, assigns)
  {
    ScopedAfterExactlyWhen(base, assigns);
  }

  lemma {:induction false} NothingToFill(bases: seq<Json>, assigns: Assigns)
    requires forall i :: 0 <= i < |bases| ==> !Judged(bases[i], assigns).Fill?
    ensures FillCount(bases, assigns) == 0 && AllAfter(bases, assigns) == bases
  {
    hide Judged;
    if bases != [] {
      NothingToFill(bases[..|bases| - 1], assigns);
    }
  }

  /** A second real run changes no record, counts none, and cannot panic. */
  lemma SecondRunChangesNothing(bases: seq<Json>, assigns: Assigns)
    ensures var once := AllAfter(bases, assigns);
            AllAfter(once, assigns) == once && FillCount(once, assigns) == 0 && !RunPanics(once, true, assigns)
  {
    hide Judged, After;
    var once := AllAfter(bases, assigns);
    forall i | 0 <= i < |once|
      ensures !Judged(once[i], assigns).Fill?
    {
      SettledAfterOne(bases[i], assigns);
    }
    NothingToFill(once, assigns);
  }

  /** The reports come record by record, in order. */
  lemma {:induction false} ReportsInOrder(bases: seq<Json>, more: seq<Json>, apply: bool, assigns: Assigns)
    ensures AllReports(bases + more, apply, assigns) == AllReports(bases, apply, assigns) + AllReports(more, apply, assigns)
  {
    hide ReportsFor;
    if more == [] {
      assert bases + more == bases;
    } else {
      var most := more[..|more| - 1];
      ReportsInOrder(bases, most, apply, assigns);
      assert (bases + more)[..|bases + more| - 1] == bases + most;
    }
  }

  lemma ReportsOfOne(base: Json, apply: bool, assigns: Assigns)
    ensures AllReports([base], apply, assigns) == ReportsFor(base, apply, assigns)
  {
    hide ReportsFor;
    assert [base][..0] == [];
  }

  predicate IsFill(r: Report) {
    r.status == Assigned || r.status == Unambiguous
  }

  function CountFills(reports: seq<Report>): nat {
    if reports == [] then 0 else CountFills(reports[..|reports| - 1]) + if IsFill(reports[|reports| - 1]) then 1 else 0
  }

  lemma {:induction false} CountFillsConcat(a: seq<Report>, b: seq<Report>)
    ensures CountFills(a + b) == CountFills(a) + CountFills(b)
  {
    if b == [] {
      assert a + b == a;
    } else {
      CountFillsConcat(a, b[..|b| - 1]);
      assert (a + b)[..|a + b| - 1] == a + b[..|b| - 1];
    }
  }

  lemma FillsOfOne(base: Json, apply: bool, assigns: Assigns)
    ensures CountFills(ReportsFor(base, apply, assigns)) == if Judged(base, assigns).Fill? then 1 else 0
  {
    var reports := ReportsFor(base, apply, assigns);
    assert |reports| == 1 ==> reports[..0] == [];
  }

  /** A dry run reports as many assigned and unambiguous records as a real run changes. */
  lemma {:induction false} DryRunCountsTheChanges(bases: seq<Json>, apply: bool, assigns: Assigns)
    ensures CountFills(AllReports(bases, apply, assigns)) == FillCount(bases, assigns)
  {
    hide Judged, ReportsFor;
    if bases != [] {
      var most, last := bases[..|bases| - 1], bases[|bases| - 1];
      DryRunCountsTheChanges(most, apply, assigns);
      CountFillsConcat(AllReports(most, apply, assigns), ReportsFor(last, apply, assigns));
      FillsOfOne(last, apply, assigns);
    }
  }

  /** A real run panics exactly when `<missing>` is assigned a scope and some record is neither an object nor null. */
  lemma PanicsExactlyWhen(bases: seq<Json>, assigns: Assigns)
    ensures RunPanics(bases, true, assigns) <==>
            "<missing>" in assigns && exists i :: 0 <= i < |bases| && !CanHoldFields(bases[i])
  {
    forall i | 0 <= i < |bases|
      ensures Panics(bases[i], assigns) <==> "<missing>" in assigns && !CanHoldFields(bases[i])
    {
      OnePanicsExactlyWhen(bases[i], assigns);
    }
  }

  /** For instance on a catalog that holds a bare boolean. */
  lemma PanicExample()
    ensures RunPanics([Bool(true)], true, map["<missing>" := ("tenant", "project")])
  {
    PanicsExactlyWhen([Bool(true)], map["<missing>" := ("tenant", "project")]);
    assert !CanHoldFields([Bool(true)][0]);
  }

  lemma OnePanicsExactlyWhen(base: Json, assigns: Assigns)
    ensures Panics(base, assigns) <==> "<missing>" in assigns && !CanHoldFields(base)
  {
    if !CanHoldFields(base) {
      assert Documents(base) == [] && Evidence([]) == {};
      if "<missing>" in assigns {
        FilledExactlyWhenItFits(base, assigns, assigns["<missing>"]);
      }
    }
  }
}
