/**
 The sections of an update are documented to carry the camel-case field names of the detail structures
 (src/core/five_w2h.rs), which is how those structures serialize. What merging makes of a section spelled so.
 */
module FiveW2HSections {
  import opened Wrappers
  import opened JsonValue
  import opened FiveW2HRecord
  import opened FiveW2HUpdates

  function SerializedWho(w: Who): Json {
    Obj(map["requestor" := Text(w.requestor), "assignees" := Texts(w.assignees), "stakeholders" := Texts(w.stakeholders),
            "requiredRole" := Text(w.requiredRole),
            "accessLevel" := match w.accessLevel case Some(a) => Str(AccessName(a)) case None => Null])
  }

  function SerializedWhen(w: When, fmt: int -> string): Json {
    Obj(map["deadline" := Instant(w.deadline, fmt), "startAfter" := Instant(w.startAfter, fmt),
            "estimatedDuration" := Text(w.estimatedDuration), "timezone" := Text(w.timezone),
            "reminderBefore" := Text(w.reminderBefore)])
  }

  function SerializedWhere(w: Where): Json {
    Obj(map["dataSources" := Texts(w.dataSources), "executionEnvironment" := Text(w.executionEnvironment),
            "targetRepository" := Text(w.targetRepository), "targetBranch" := Text(w.targetBranch)])
  }

  function SerializedHow(h: How): Json {
    Obj(map["planIri" := Text(h.planIri), "preferredSkills" := Texts(h.preferredSkills),
            "forbiddenTools" := Texts(h.forbiddenTools), "requiredSteps" := Text(h.requiredSteps),
            "dependencies" := Texts(h.dependencies)])
  }

  function SerializedCost(c: Cost): Json {
    Obj(map["tokensUsed" := Integer(c.tokensUsed), "cyclesUsed" := Integer(c.cyclesUsed), "durationSecs" := Fraction(c.durationSecs)])
  }

  function SerializedHowMuch(h: HowMuch): Json {
    Obj(map["tokenBudget" := Count(h.tokenBudget), "maxSubAgents" := Count(h.maxSubAgents),
            "maxPdcaCycles" := Count(h.maxPdcaCycles),
            "expectedQuality" := match h.expectedQuality case Some(x) => Fraction(x) case None => Null,
            "actualCost" := match h.actualCost case Some(c) => SerializedCost(c) case None => Null])
  }

  // ---------- reading a section ----------

  lemma WhoReads(w: Who)
    ensures UpdatedWho(SerializedWho(w)) == w
  {
    hide GetStrings, Texts;
    TextsReadBack(SerializedWho(w), "assignees", w.assignees);
    TextsReadBack(SerializedWho(w), "stakeholders", w.stakeholders);
  }

  lemma WhenReads(w: When, fmt: int -> string, parse: string -> Option<int>)
    requires InstantsReadBack(w, fmt, parse)
    ensures UpdatedWhen(SerializedWhen(w, fmt), parse) == w
  {
  }

  lemma WhereReads(w: Where)
    ensures UpdatedWhere(SerializedWhere(w)) == w
  {
    hide GetStrings, Texts;
    TextsReadBack(SerializedWhere(w), "dataSources", w.dataSources);
  }

  lemma HowReads(h: How)
    ensures UpdatedHow(SerializedHow(h)) == h.(planIri := None)
  {
    hide GetStrings, Texts;
    var v := SerializedHow(h);
    TextsReadBack(v, "preferredSkills", h.preferredSkills);
    TextsReadBack(v, "forbiddenTools", h.forbiddenTools);
    TextsReadBack(v, "dependencies", h.dependencies);
    assert "planIRI"[5] != "planIri"[5];
    assert GetStr(v, "planIRI") == None;
  }

  lemma HowMuchReads(h: HowMuch)
    ensures UpdatedHowMuch(SerializedHowMuch(h)) == h.(actualCost := None)
  {
    hide GetU64, GetU32, Count, SerializedCost;
    var v := SerializedHowMuch(h);
    CountReadsBack(v, "tokenBudget", None, h.tokenBudget);
    CountReadsBack(v, "maxSubAgents", h.maxSubAgents, None);
    CountReadsBack(v, "maxPdcaCycles", h.maxPdcaCycles, None);
  }

  // ---------- merging it ----------

  lemma WhoIsTakenOver(t: Record, updates: Json, w: Who, parse: string -> Option<int>, now: string)
    requires GetObj(updates, "who") == Some(SerializedWho(w))
    ensures Merged(t, updates, parse, now).who == Some(w)
  {
    hide Merged, UpdatedWho, SerializedWho, GetObj;
    WhoReads(w);
    MergeReplaces(t, updates, parse, now);
  }

  /** A section with neither deadline nor duration is dropped, whatever else it says. */
  lemma WhenIsTakenOver(t: Record, updates: Json, w: When, fmt: int -> string, parse: string -> Option<int>, now: string)
    requires GetObj(updates, "when") == Some(SerializedWhen(w, fmt)) && InstantsReadBack(w, fmt, parse)
    ensures var r := Merged(t, updates, parse, now).when;
            r in {Some(w), t.when} && (r == Some(w) <==> w.deadline.Some? || w.estimatedDuration.Some? || t.when == Some(w))
  {
    hide Merged, UpdatedWhen, SerializedWhen, GetObj;
    WhenReads(w, fmt, parse);
    MergeReplaces(t, updates, parse, now);
  }

  /** A section with neither data sources nor an environment is dropped, whatever else it says. */
  lemma WhereIsTakenOver(t: Record, updates: Json, w: Where, parse: string -> Option<int>, now: string)
    requires GetObj(updates, "where") == Some(SerializedWhere(w))
    ensures var r := Merged(t, updates, parse, now).place;
            r in {Some(w), t.place} && (r == Some(w) <==> w.dataSources != [] || w.executionEnvironment.Some? || t.place == Some(w))
  {
    hide Merged, UpdatedWhere, SerializedWhere, GetObj;
    WhereReads(w);
    MergeReplaces(t, updates, parse, now);
  }

  /** All but the plan is taken over: merging looks for `planIRI`, the structure serializes as `planIri`. */
  lemma HowIsTakenOver(t: Record, updates: Json, h: How, parse: string -> Option<int>, now: string)
    requires GetObj(updates, "how") == Some(SerializedHow(h))
    ensures Merged(t, updates, parse, now).how == Some(h.(planIri := None))
    ensures Merged(t, updates, parse, now).how == Some(h) <==> h.planIri.None?
  {
    hide Merged, UpdatedHow, SerializedHow, GetObj;
    HowReads(h);
    MergeReplaces(t, updates, parse, now);
  }

  /** All but the actual cost is taken over; an earlier actual cost is gone as well. */
  lemma HowMuchIsTakenOver(t: Record, updates: Json, h: HowMuch, parse: string -> Option<int>, now: string)
    requires HowMuchUpdate(updates) == Some(SerializedHowMuch(h))
    ensures Merged(t, updates, parse, now).howMuch == Some(h.(actualCost := None))
    ensures Merged(t, updates, parse, now).howMuch == Some(h) <==> h.actualCost.None?
  {
    hide Merged, UpdatedHowMuch, SerializedHowMuch, HowMuchUpdate;
    HowMuchReads(h);
    MergeReplaces(t, updates, parse, now);
  }
}
