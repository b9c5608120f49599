/** How the dimensions of a 5W2H record get filled, and what a completeness check can still miss (src/core/five_w2h.rs). */
module FiveW2HUpdates {
  import opened Wrappers
  import opened JsonValue
  import opened FiveW2HRecord
  import opened Sorting

  function New(what: string, reason: string, now: string): Record {
    var created := Meta(Create, Some("SA"), Some(now));
    Record(what, Why(reason, [], Medium), None, None, None, None, None, map["what" := created, "why" := created], false)
  }

  function Filled(t: Record, dimension: string, stage: FillStage, filler: string, now: string): Record {
    t.(meta := t.meta[dimension := Meta(stage, Some(filler), Some(now))])
  }

  // ---------- merging updates ----------

  function UpdatedWho(v: Json): Who {
    Who(GetStr(v, "requestor"), GetStrings(v, "assignees"), GetStrings(v, "stakeholders"), GetStr(v, "requiredRole"),
        ReadAccess(GetStr(v, "accessLevel")))
  }

  function UpdatedWhen(v: Json, parse: string -> Option<int>): When {
    When(GetInstant(v, "deadline", parse), GetInstant(v, "startAfter", parse), GetStr(v, "estimatedDuration"),
         GetStr(v, "timezone"), GetStr(v, "reminderBefore"))
  }

  function UpdatedWhere(v: Json): Where {
    Where(GetStrings(v, "dataSources"), GetStr(v, "executionEnvironment"), GetStr(v, "targetRepository"), GetStr(v, "targetBranch"))
  }

  function UpdatedHow(v: Json): How {
    How(GetStr(v, "planIRI"), GetStrings(v, "preferredSkills"), GetStrings(v, "forbiddenTools"), GetStr(v, "requiredSteps"),
        GetStrings(v, "dependencies"))
  }

  function UpdatedHowMuch(v: Json): HowMuch {
    HowMuch(GetU64(v, "tokenBudget"), GetU32(v, "maxSubAgents"), GetU32(v, "maxPdcaCycles"), GetReal(v, "expectedQuality"), None)
  }

  function MergeWho(t: Record, updates: Json, now: string): Record {
    match GetObj(updates, "who")
    case None => t
    case Some(v) => Filled(t.(who := Some(UpdatedWho(v))), "who", Plan, "PA", now)
  }

  /** A deadline or a duration makes the update count. */
  function MergeWhen(t: Record, updates: Json, parse: string -> Option<int>, now: string): Record {
    match GetObj(updates, "when")
    case None => t
    case Some(v) =>
      var w := UpdatedWhen(v, parse);
      if w.deadline.Some? || w.estimatedDuration.Some? then Filled(t.(when := Some(w)), "when", Plan, "PA", now) else t
  }

  function MergeWhere(t: Record, updates: Json, now: string): Record {
    match GetObj(updates, "where")
    case None => t
    case Some(v) =>
      var w := UpdatedWhere(v);
      if w.dataSources != [] || w.executionEnvironment.Some? then Filled(t.(place := Some(w)), "where", Plan, "PA", now) else t
  }

  function MergeHow(t: Record, updates: Json, now: string): Record {
    match GetObj(updates, "how")
    case None => t
    case Some(v) => Filled(t.(how := Some(UpdatedHow(v))), "how", Plan, "PA", now)
  }

  /** Either spelling of the key; the second is looked at only if the first is absent. */
  function HowMuchUpdate(updates: Json): Option<Json> {
    if Get(updates, "howMuch").Some? then GetObj(updates, "howMuch") else GetObj(updates, "how_much")
  }

  function MergeHowMuch(t: Record, updates: Json, now: string): Record {
    match HowMuchUpdate(updates)
    case None => t
    case Some(v) => Filled(t.(howMuch := Some(UpdatedHowMuch(v))), "how_much", Plan, "PA", now)
  }

  function Merged(t: Record, updates: Json, parse: string -> Option<int>, now: string): Record {
    MergeHowMuch(MergeHow(MergeWhere(MergeWhen(MergeWho(t, updates, now), updates, parse, now), updates, now), updates, now), updates, now)
  }

  // ---------- defaults ----------

  function DefaultWho(t: Record, now: string): Record {
    if t.who.None? then Filled(t.(who := Some(Who(None, [], [], None, None))), "who", Plan, "SA-Default", now) else t
  }

  /** `cwd` is the working directory, if there is one. */
  function DefaultWhere(t: Record, cwd: Option<string>, now: string): Record {
    if t.place.None? && cwd.Some? then Filled(t.(place := Some(Where([], cwd, None, None))), "where", Plan, "SA-Default", now) else t
  }

  function DefaultHow(t: Record, now: string): Record {
    if t.how.None? then Filled(t.(how := Some(How(None, [], [], None, []))), "how", Plan, "SA-Default", now) else t
  }

  function DefaultHowMuch(t: Record, maxPdcaCycles: u32, now: string): Record {
    if t.howMuch.None?
    then Filled(t.(howMuch := Some(HowMuch(None, None, Some(maxPdcaCycles), None, None))), "how_much", Plan, "SA-Default", now)
    else t
  }

  function WithDefaults(t: Record, maxPdcaCycles: u32, cwd: Option<string>, now: string): Record {
    DefaultHowMuch(DefaultHow(DefaultWhere(DefaultWho(t, now), cwd, now), now), maxPdcaCycles, now)
  }

  // ---------- completeness ----------

  const ALL_DIMENSIONS := ["what", "why", "who", "when", "where", "how", "how_much"]

  function Required(level: string): seq<string> {
    if level == "Instant" then ["what"]
    else if level == "Simple" then ["what", "why"]
    else if level == "Standard" || level == "Complex" then ALL_DIMENSIONS
    else ["what", "why"]
  }

  function Unfilled(t: Record): string -> bool {
    (d: string) => d !in t.meta
  }

  function Missing(t: Record, level: string): seq<string> {
    Filtered(Unfilled(t), Required(level))
  }

  // ---------- what runs keep ----------

  datatype Op = MergeUpdates(updates: Json, now: string) | RecordFill(dimension: string, stage: FillStage, filler: string, now: string)

  function Apply(t: Record, op: Op, parse: string -> Option<int>): Record {
    match op
    case MergeUpdates(updates, now) => Merged(t, updates, parse, now)
    case RecordFill(dimension, stage, filler, now) => Filled(t, dimension, stage, filler, now)
  }

  function ApplyAll(t: Record, ops: seq<Op>, parse: string -> Option<int>): Record {
    if ops == [] then t else Apply(ApplyAll(t, ops[..|ops| - 1], parse), ops[|ops| - 1], parse)
  }

  /** Every dimension that is set is on record as filled. */
  predicate OnRecord(t: Record) {
    "what" in t.meta && "why" in t.meta &&
    (t.who.Some? ==> "who" in t.meta) && (t.when.Some? ==> "when" in t.meta) && (t.place.Some? ==> "where" in t.meta) &&
    (t.how.Some? ==> "how" in t.meta) && (t.howMuch.Some? ==> "how_much" in t.meta)
  }

  /** `r` keeps what `t` has on record, and records what it sets. */
  predicate Extends(r: Record, t: Record) {
    (forall d :: d in t.meta ==> d in r.meta) && (OnRecord(t) ==> OnRecord(r))
  }

  lemma FillExtends(t: Record, r: Record, dimension: string, stage: FillStage, filler: string, now: string)
    requires t.meta == r.meta
    requires dimension != "who" ==> r.who == t.who
    requires dimension != "when" ==> r.when == t.when
    requires dimension != "where" ==> r.place == t.place
    requires dimension != "how" ==> r.how == t.how
    requires dimension != "how_much" ==> r.howMuch == t.howMuch
    ensures Extends(Filled(r, dimension, stage, filler, now), t) && Extends(t, t)
  {
  }

  lemma ExtendsStep(t: Record, updates: Json, parse: string -> Option<int>, now: string)
    ensures Extends(MergeWho(t, updates, now), t)
    ensures Extends(MergeWhen(t, updates, parse, now), t)
    ensures Extends(MergeWhere(t, updates, now), t)
    ensures Extends(MergeHow(t, updates, now), t)
    ensures Extends(MergeHowMuch(t, updates, now), t)
  {
    hide GetObj, HowMuchUpdate, UpdatedWho, UpdatedWhen, UpdatedWhere, UpdatedHow, UpdatedHowMuch, Extends, Filled;
    FillExtends(t, t, "", Plan, "", now);
    if GetObj(updates, "who").Some? {
      FillExtends(t, t.(who := Some(UpdatedWho(GetObj(updates, "who").value))), "who", Plan, "PA", now);
    }
    if GetObj(updates, "when").Some? {
      FillExtends(t, t.(when := Some(UpdatedWhen(GetObj(updates, "when").value, parse))), "when", Plan, "PA", now);
    }
    if GetObj(updates, "where").Some? {
      FillExtends(t, t.(place := Some(UpdatedWhere(GetObj(updates, "where").value))), "where", Plan, "PA", now);
    }
    if GetObj(updates, "how").Some? {
      FillExtends(t, t.(how := Some(UpdatedHow(GetObj(updates, "how").value))), "how", Plan, "PA", now);
    }
    if HowMuchUpdate(updates).Some? {
      FillExtends(t, t.(howMuch := Some(UpdatedHowMuch(HowMuchUpdate(updates).value))), "how_much", Plan, "PA", now);
    }
  }

  lemma MergeKeepsRecord(t: Record, updates: Json, parse: string -> Option<int>, now: string)
    ensures Extends(Merged(t, updates, parse, now), t)
  {
    hide OnRecord, MergeWho, MergeWhen, MergeWhere, MergeHow, MergeHowMuch;
    var t1 := MergeWho(t, updates, now);
    var t2 := MergeWhen(t1, updates, parse, now);
    var t3 := MergeWhere(t2, updates, now);
    var t4 := MergeHow(t3, updates, now);
    ExtendsStep(t, updates, parse, now);
    ExtendsStep(t1, updates, parse, now);
    ExtendsStep(t2, updates, parse, now);
    ExtendsStep(t3, updates, parse, now);
    ExtendsStep(t4, updates, parse, now);
  }

  lemma {:induction false} RunKeepsRecord(t: Record, ops: seq<Op>, parse: string -> Option<int>)
    requires OnRecord(t)
    ensures OnRecord(ApplyAll(t, ops, parse))
  {
    hide OnRecord, Merged, Filled;
    if ops != [] {
      var before := ApplyAll(t, ops[..|ops| - 1], parse);
      RunKeepsRecord(t, ops[..|ops| - 1], parse);
      match ops[|ops| - 1]
      case MergeUpdates(updates, now) => MergeKeepsRecord(before, updates, parse, now);
      case RecordFill(dimension, stage, filler, now) => FillExtends(before, before, dimension, stage, filler, now);
    }
  }

  /** Defaults only fill what is unset. */
  lemma DefaultsFillGaps(t: Record, maxPdcaCycles: u32, cwd: Option<string>, now: string)
    ensures var r := WithDefaults(t, maxPdcaCycles, cwd, now);
            r.what == t.what && r.why == t.why && r.when == t.when && r.frozen == t.frozen &&
            (t.who.Some? ==> r.who == t.who) && (t.place.Some? ==> r.place == t.place) && (t.how.Some? ==> r.how == t.how) &&
            (t.howMuch.Some? ==> r.howMuch == t.howMuch) &&
            r.who.Some? && r.how.Some? && r.howMuch.Some? && (r.place.Some? <==> t.place.Some? || cwd.Some?)
  {
    hide DefaultWho, DefaultWhere, DefaultHow, DefaultHowMuch;
    var t1 := DefaultWho(t, now);
    var t2 := DefaultWhere(t1, cwd, now);
    var t3 := DefaultHow(t2, now);
    DefaultsOneByOne(t, t1, t2, t3, maxPdcaCycles, cwd, now);
  }

  lemma DefaultsOneByOne(t: Record, t1: Record, t2: Record, t3: Record, maxPdcaCycles: u32, cwd: Option<string>, now: string)
    ensures var r := DefaultWho(t, now);
            r.(who := t.who, meta := t.meta) == t && r.who.Some? && (t.who.Some? ==> r.who == t.who)
    ensures var r := DefaultWhere(t1, cwd, now);
            r.(place := t1.place, meta := t1.meta) == t1 && (r.place.Some? <==> t1.place.Some? || cwd.Some?) &&
            (t1.place.Some? ==> r.place == t1.place)
    ensures var r := DefaultHow(t2, now);
            r.(how := t2.how, meta := t2.meta) == t2 && r.how.Some? && (t2.how.Some? ==> r.how == t2.how)
    ensures var r := DefaultHowMuch(t3, maxPdcaCycles, now);
            r.(howMuch := t3.howMuch, meta := t3.meta) == t3 && r.howMuch.Some? && (t3.howMuch.Some? ==> r.howMuch == t3.howMuch)
  {
  }

  /** The dimensions the defaults fill: who, how and how much if unset, where if unset and there is a working directory. */
  function Added(t: Record, cwd: Option<string>): set<string> {
    (if t.who.None? then {"who"} else {}) + (if t.place.None? && cwd.Some? then {"where"} else {}) +
    (if t.how.None? then {"how"} else {}) + (if t.howMuch.None? then {"how_much"} else {})
  }

  /** The defaults record exactly what they fill. */
  lemma DefaultsRecord(t: Record, maxPdcaCycles: u32, cwd: Option<string>, now: string)
    ensures WithDefaults(t, maxPdcaCycles, cwd, now).meta.Keys == t.meta.Keys + Added(t, cwd)
  {
    hide DefaultWho, DefaultWhere, DefaultHow, DefaultHowMuch;
    var t1 := DefaultWho(t, now);
    var t2 := DefaultWhere(t1, cwd, now);
    var t3 := DefaultHow(t2, now);
    DefaultsOneByOne(t, t1, t2, t3, maxPdcaCycles, cwd, now);
    DefaultKeys(t, t1, t2, t3, maxPdcaCycles, cwd, now);
    assert t1.place == t.place && t2.how == t.how && t3.howMuch == t.howMuch;
  }

  lemma DefaultKeys(t: Record, t1: Record, t2: Record, t3: Record, maxPdcaCycles: u32, cwd: Option<string>, now: string)
    ensures DefaultWho(t, now).meta.Keys == t.meta.Keys + if t.who.None? then {"who"} else {}
    ensures DefaultWhere(t1, cwd, now).meta.Keys == t1.meta.Keys + if t1.place.None? && cwd.Some? then {"where"} else {}
    ensures DefaultHow(t2, now).meta.Keys == t2.meta.Keys + if t2.how.None? then {"how"} else {}
    ensures DefaultHowMuch(t3, maxPdcaCycles, now).meta.Keys == t3.meta.Keys + if t3.howMuch.None? then {"how_much"} else {}
  {
    hide Filled;
    FilledKeys(t.(who := Some(Who(None, [], [], None, None))), "who", now);
    FilledKeys(t1.(place := Some(Where([], cwd, None, None))), "where", now);
    FilledKeys(t2.(how := Some(How(None, [], [], None, []))), "how", now);
    FilledKeys(t3.(howMuch := Some(HowMuch(None, None, Some(maxPdcaCycles), None, None))), "how_much", now);
  }

  lemma FilledKeys(t: Record, dimension: string, now: string)
    ensures Filled(t, dimension, Plan, "SA-Default", now).meta.Keys == t.meta.Keys + {dimension}
  {
  }

  /**
   For every record, however it came about: after the defaults a dimension is reported missing exactly when it is
   required, no fill of it is on record, and the defaults do not fill it.
   */
  lemma MissingAfterDefaults(t: Record, maxPdcaCycles: u32, cwd: Option<string>, now: string, level: string, d: string)
    ensures d in Missing(WithDefaults(t, maxPdcaCycles, cwd, now), level) <==>
            d in Required(level) && d !in t.meta && d !in Added(t, cwd)
  {
    hide WithDefaults, Required, Added;
    var r := WithDefaults(t, maxPdcaCycles, cwd, now);
    DefaultsRecord(t, maxPdcaCycles, cwd, now);
    FilteredHas(Unfilled(r), Required(level), d);
    assert d in r.meta.Keys <==> d in t.meta.Keys + Added(t, cwd);
  }

  /**
   After any run of updates and recorded fills, and then the defaults, a dimension is reported missing exactly when it
   is "when" and nothing filled it, or it is "where", nothing filled it and there is no working directory.
   */
  lemma MissingExactlyWhen(what: string, reason: string, created: string, ops: seq<Op>, parse: string -> Option<int>,
                           maxPdcaCycles: u32, cwd: Option<string>, now: string, level: string, d: string)
    ensures var t := ApplyAll(New(what, reason, created), ops, parse);
            d in Missing(WithDefaults(t, maxPdcaCycles, cwd, now), level) <==>
            level in {"Standard", "Complex"} &&
            ((d == "when" && d !in t.meta) || (d == "where" && d !in t.meta && cwd.None?))
  {
    assert ALL_DIMENSIONS[3] == "when" && ALL_DIMENSIONS[4] == "where";
    assert d in Required(level) ==> d in {"what", "why", "who", "when", "where", "how", "how_much"};
    assert if level in {"Standard", "Complex"} then "when" in Required(level) && "where" in Required(level)
      else d in Required(level) ==> d in {"what", "why"};
    hide WithDefaults, OnRecord, ApplyAll;
    NewIsOnRecord(what, reason, created);
    RunKeepsRecord(New(what, reason, created), ops, parse);
    var t := ApplyAll(New(what, reason, created), ops, parse);
    hide Missing, Added, Required;
    MissingAfterDefaults(t, maxPdcaCycles, cwd, now, level, d);
    LeftOver(t, cwd);
  }

  /** In a record that is on record, only "when", and "where" without a working directory, can be left. */
  lemma LeftOver(t: Record, cwd: Option<string>)
    requires OnRecord(t)
    ensures "what" in t.meta && "why" in t.meta && ("who" in t.meta || "who" in Added(t, cwd))
    ensures ("how" in t.meta || "how" in Added(t, cwd)) && ("how_much" in t.meta || "how_much" in Added(t, cwd))
    ensures "when" !in Added(t, cwd) && ("where" !in t.meta ==> ("where" in Added(t, cwd) <==> cwd.Some?))
  {
  }

  lemma NewIsOnRecord(what: string, reason: string, now: string)
    ensures OnRecord(New(what, reason, now))
  {
  }

  /** A dimension set from outside, without recording the fill, stays missing: the defaults see it and pass it by. */
  lemma UnrecordedExample(what: string, reason: string, now: string, who: Who, maxPdcaCycles: u32, cwd: Option<string>)
    ensures var t := New(what, reason, now).(who := Some(who));
            "who" in Missing(WithDefaults(t, maxPdcaCycles, cwd, now), "Standard")
  {
    hide WithDefaults, Missing;
    var t := New(what, reason, now).(who := Some(who));
    MissingAfterDefaults(t, maxPdcaCycles, cwd, now, "Standard", "who");
    assert Required("Standard")[2] == "who";
    assert t.meta.Keys == {"what", "why"};
    assert "who" !in Added(t, cwd);
  }

  /** The section of an update that replaces "when": it must bring a deadline or a duration. */
  function UsableWhen(updates: Json, parse: string -> Option<int>): Option<When> {
    match GetObj(updates, "when")
    case None => None
    case Some(v) =>
      var w := UpdatedWhen(v, parse);
      if w.deadline.Some? || w.estimatedDuration.Some? then Some(w) else None
  }

  /** The section of an update that replaces "where": it must bring data sources or an environment. */
  function UsableWhere(updates: Json): Option<Where> {
    match GetObj(updates, "where")
    case None => None
    case Some(v) =>
      var w := UpdatedWhere(v);
      if w.dataSources != [] || w.executionEnvironment.Some? then Some(w) else None
  }

  function Else<T>(o: Option<T>, otherwise: Option<T>): Option<T> {
    if o.Some? then o else otherwise
  }

  /**
   What an update replaces: "who", "how" and "how much" whenever it has a section for them, be it empty, "when" and
   "where" only if the section says enough. Everything else stays, and what, why and the frozen flag always do.
   */
  lemma MergeReplaces(t: Record, updates: Json, parse: string -> Option<int>, now: string)
    ensures var r := Merged(t, updates, parse, now);
            r.what == t.what && r.why == t.why && r.frozen == t.frozen &&
            r.who == Else(Mapped(GetObj(updates, "who"), v => UpdatedWho(v)), t.who) &&
            r.when == Else(UsableWhen(updates, parse), t.when) &&
            r.place == Else(UsableWhere(updates), t.place) &&
            r.how == Else(Mapped(GetObj(updates, "how"), v => UpdatedHow(v)), t.how) &&
            r.howMuch == Else(Mapped(HowMuchUpdate(updates), v => UpdatedHowMuch(v)), t.howMuch)
  {
    hide GetObj, HowMuchUpdate, MergeWho, MergeWhen, MergeWhere, MergeHow, MergeHowMuch, UsableWhen, UsableWhere,
         UpdatedWho, UpdatedHow, UpdatedHowMuch;
    var t1 := MergeWho(t, updates, now);
    var t2 := MergeWhen(t1, updates, parse, now);
    var t3 := MergeWhere(t2, updates, now);
    var t4 := MergeHow(t3, updates, now);
    WhoAndWhenTouch(t, t1, updates, parse, now);
    WhereAndHowTouch(t2, t3, updates, now);
    HowMuchTouches(t4, updates, now);
  }

  lemma WhoAndWhenTouch(t: Record, t1: Record, updates: Json, parse: string -> Option<int>, now: string)
    ensures var r := MergeWho(t, updates, now);
            r.(who := t.who, meta := t.meta) == t && r.who == Else(Mapped(GetObj(updates, "who"), v => UpdatedWho(v)), t.who)
    ensures var r := MergeWhen(t1, updates, parse, now);
            r.(when := t1.when, meta := t1.meta) == t1 && r.when == Else(UsableWhen(updates, parse), t1.when)
  {
    hide GetObj, UpdatedWho, UpdatedWhen;
  }

  lemma WhereAndHowTouch(t2: Record, t3: Record, updates: Json, now: string)
    ensures var r := MergeWhere(t2, updates, now);
            r.(place := t2.place, meta := t2.meta) == t2 && r.place == Else(UsableWhere(updates), t2.place)
    ensures var r := MergeHow(t3, updates, now);
            r.(how := t3.how, meta := t3.meta) == t3 && r.how == Else(Mapped(GetObj(updates, "how"), v => UpdatedHow(v)), t3.how)
  {
    hide GetObj, UpdatedWhere, UpdatedHow;
  }

  lemma HowMuchTouches(t4: Record, updates: Json, now: string)
    ensures var r := MergeHowMuch(t4, updates, now);
            r.(howMuch := t4.howMuch, meta := t4.meta) == t4 &&
            r.howMuch == Else(Mapped(HowMuchUpdate(updates), v => UpdatedHowMuch(v)), t4.howMuch)
  {
    hide HowMuchUpdate, UpdatedHowMuch;
  }

  /** Empty sections are applied too: they replace who, how and how much with nothing, but not when and where. */
  lemma EmptySectionsErase(t: Record, parse: string -> Option<int>, now: string)
    ensures var nothing := Obj(map[]);
            var r := Merged(t, Obj(map["who" := nothing, "when" := nothing, "where" := nothing, "how" := nothing, "how_much" := nothing]), parse, now);
            r.who == Some(Who(None, [], [], None, None)) && r.when == t.when && r.place == t.place &&
            r.how == Some(How(None, [], [], None, [])) && r.howMuch == Some(HowMuch(None, None, None, None, None))
  {
    hide Merged, UpdatedWho, UpdatedWhen, UpdatedWhere, UpdatedHow, UpdatedHowMuch;
    var nothing := Obj(map[]);
    NothingSaid(parse);
    var updates := Obj(map["who" := nothing, "when" := nothing, "where" := nothing, "how" := nothing, "how_much" := nothing]);
    MergeReplaces(t, updates, parse, now);
    assert GetObj(updates, "who") == GetObj(updates, "when") == GetObj(updates, "where") == GetObj(updates, "how") == Some(nothing);
    assert HowMuchUpdate(updates) == Some(nothing);
  }

  lemma NothingSaid(parse: string -> Option<int>)
    ensures var nothing := Obj(map[]);
            UpdatedWho(nothing) == Who(None, [], [], None, None) && UpdatedWhen(nothing, parse) == When(None, None, None, None, None) &&
            UpdatedWhere(nothing) == Where([], None, None, None) && UpdatedHow(nothing) == How(None, [], [], None, []) &&
            UpdatedHowMuch(nothing) == HowMuch(None, None, None, None, None)
  {
  }
}
