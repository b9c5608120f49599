/** What new records, updates and defaults put into a 5W2H record, and what they note about it (src/core/five_w2h.rs). */
module FiveW2HFills {
  import opened Wrappers
  import opened JsonValue
  import opened FiveW2HRecord
  import opened FiveW2HUpdates

  lemma NewRecord(what: string, reason: string, now: string)
    ensures var t := New(what, reason, now);
            t.what == what && t.why == Why(reason, [], Medium) && !t.frozen &&
            t.who.None? && t.when.None? && t.place.None? && t.how.None? && t.howMuch.None? &&
            forall d :: d in t.meta <==> d in {"what", "why"}
    ensures forall d :: d in {"what", "why"} ==> New(what, reason, now).meta[d] == Meta(Create, Some("SA"), Some(now))
  {
  }

  /** The defaults are empty but for the working directory and the number of cycles. */
  lemma DefaultValues(t: Record, maxPdcaCycles: u32, cwd: Option<string>, now: string)
    ensures var r := WithDefaults(t, maxPdcaCycles, cwd, now);
            (t.who.None? ==> r.who == Some(Who(None, [], [], None, None))) &&
            (t.place.None? ==> r.place == if cwd.Some? then Some(Where([], cwd, None, None)) else None) &&
            (t.how.None? ==> r.how == Some(How(None, [], [], None, []))) &&
            (t.howMuch.None? ==> r.howMuch == Some(HowMuch(None, None, Some(maxPdcaCycles), None, None)))
  {
  }

  /** They are noted as defaults; what was noted before stays. */
  lemma DefaultsAreNoted(t: Record, maxPdcaCycles: u32, cwd: Option<string>, now: string, d: string)
    ensures var r := WithDefaults(t, maxPdcaCycles, cwd, now);
            if d in Added(t, cwd) then d in r.meta && r.meta[d] == Meta(Plan, Some("SA-Default"), Some(now))
            else (d in r.meta <==> d in t.meta) && (d in t.meta ==> r.meta[d] == t.meta[d])
  {
    hide DefaultWho, DefaultWhere, DefaultHow, DefaultHowMuch, Noted;
    var t1 := DefaultWho(t, now);
    var t2 := DefaultWhere(t1, cwd, now);
    var t3 := DefaultHow(t2, now);
    DefaultsOneByOne(t, t1, t2, t3, maxPdcaCycles, cwd, now);
    DefaultNotes(t, t1, t2, t3, maxPdcaCycles, cwd, now);
    assert t1.place == t.place && t2.how == t.how && t3.howMuch == t.howMuch;
    ChainOfNotes(t.meta, t.who.None?, false, t.place.None? && cwd.Some?, t.how.None?, t.howMuch.None?, d, "SA-Default", now);
    assert Noted(t1.meta, false, "when", "SA-Default", now) == t1.meta by { NotNoted(t1.meta, now); }
  }

  lemma NotNoted(meta: map<string, Meta>, now: string)
    ensures Noted(meta, false, "when", "SA-Default", now) == meta
  {
  }

  lemma DefaultNotes(t: Record, t1: Record, t2: Record, t3: Record, maxPdcaCycles: u32, cwd: Option<string>, now: string)
    ensures DefaultWho(t, now).meta == Noted(t.meta, t.who.None?, "who", "SA-Default", now)
    ensures DefaultWhere(t1, cwd, now).meta == Noted(t1.meta, t1.place.None? && cwd.Some?, "where", "SA-Default", now)
    ensures DefaultHow(t2, now).meta == Noted(t2.meta, t2.how.None?, "how", "SA-Default", now)
    ensures DefaultHowMuch(t3, maxPdcaCycles, now).meta == Noted(t3.meta, t3.howMuch.None?, "how_much", "SA-Default", now)
  {
  }

  /** The dimensions an update replaces. */
  function Replaced(updates: Json, parse: string -> Option<int>): set<string> {
    (if GetObj(updates, "who").Some? then {"who"} else {}) + (if UsableWhen(updates, parse).Some? then {"when"} else {}) +
    (if UsableWhere(updates).Some? then {"where"} else {}) + (if GetObj(updates, "how").Some? then {"how"} else {}) +
    (if HowMuchUpdate(updates).Some? then {"how_much"} else {})
  }

  /** An update is noted, as the planning agent's, for exactly the dimensions it replaces. */
  lemma UpdatesAreNoted(t: Record, updates: Json, parse: string -> Option<int>, now: string, d: string)
    ensures var r := Merged(t, updates, parse, now);
            if d in Replaced(updates, parse) then d in r.meta && r.meta[d] == Meta(Plan, Some("PA"), Some(now))
            else (d in r.meta <==> d in t.meta) && (d in t.meta ==> r.meta[d] == t.meta[d])
  {
    hide GetObj, HowMuchUpdate, MergeWho, MergeWhen, MergeWhere, MergeHow, MergeHowMuch, UsableWhen, UsableWhere, Noted;
    var t1 := MergeWho(t, updates, now);
    var t2 := MergeWhen(t1, updates, parse, now);
    var t3 := MergeWhere(t2, updates, now);
    var t4 := MergeHow(t3, updates, now);
    WhoAndWhenNoted(t, t1, updates, parse, now);
    OthersNoted(t2, t3, t4, updates, now);
    ChainOfNotes(t.meta, GetObj(updates, "who").Some?, UsableWhen(updates, parse).Some?, UsableWhere(updates).Some?,
                 GetObj(updates, "how").Some?, HowMuchUpdate(updates).Some?, d, "PA", now);
  }

  function Noted(meta: map<string, Meta>, replaced: bool, d: string, filler: string, now: string): map<string, Meta> {
    if replaced then meta[d := Meta(Plan, Some(filler), Some(now))] else meta
  }

  lemma ChainOfNotes(meta: map<string, Meta>, who: bool, when: bool, place: bool, how: bool, howMuch: bool, d: string, filler: string, now: string)
    ensures var r := Noted(Noted(Noted(Noted(Noted(meta, who, "who", filler, now), when, "when", filler, now), place, "where", filler, now), how, "how", filler, now), howMuch, "how_much", filler, now);
            if (who && d == "who") || (when && d == "when") || (place && d == "where") || (how && d == "how") || (howMuch && d == "how_much")
            then d in r && r[d] == Meta(Plan, Some(filler), Some(now))
            else (d in r <==> d in meta) && (d in meta ==> r[d] == meta[d])
  {
  }

  lemma WhoAndWhenNoted(t: Record, t1: Record, updates: Json, parse: string -> Option<int>, now: string)
    ensures MergeWho(t, updates, now).meta == Noted(t.meta, GetObj(updates, "who").Some?, "who", "PA", now)
    ensures MergeWhen(t1, updates, parse, now).meta == Noted(t1.meta, UsableWhen(updates, parse).Some?, "when", "PA", now)
  {
    hide GetObj, UpdatedWho, UpdatedWhen;
  }

  lemma OthersNoted(t2: Record, t3: Record, t4: Record, updates: Json, now: string)
    ensures MergeWhere(t2, updates, now).meta == Noted(t2.meta, UsableWhere(updates).Some?, "where", "PA", now)
    ensures MergeHow(t3, updates, now).meta == Noted(t3.meta, GetObj(updates, "how").Some?, "how", "PA", now)
    ensures MergeHowMuch(t4, updates, now).meta == Noted(t4.meta, HowMuchUpdate(updates).Some?, "how_much", "PA", now)
  {
    hide GetObj, HowMuchUpdate, UpdatedWhere, UpdatedHow, UpdatedHowMuch;
  }

  /** "How much" may be spelled either way; the second spelling counts only where the first is absent altogether. */
  lemma EitherSpelling(updates: Json, v: Json)
    ensures HowMuchUpdate(updates) == Some(v) <==>
            v.Obj? && (Get(updates, "howMuch") == Some(v) || (Get(updates, "howMuch").None? && Get(updates, "how_much") == Some(v)))
  {
  }

  /** Values that do not fit: a number beyond 32 bits keeps its low half, items that are no strings and unknown levels are passed over. */
  lemma OddValues(n: int, s: string)
    requires 0 <= n < 0x1_0000_0000_0000_0000
    ensures UpdatedHowMuch(Obj(map["maxSubAgents" := Integer(n)])).maxSubAgents == Some(n % 4_294_967_296)
    ensures UpdatedWho(Obj(map["assignees" := Arr([Null, Str(s), Integer(n)])])).assignees == [s]
    ensures UpdatedHow(Obj(map["planIRI" := Str(s)])).planIri == Some(s)
    ensures s !in {"Read", "Write", "Admin"} ==> UpdatedWho(Obj(map["accessLevel" := Str(s)])).accessLevel == None
  {
    var items := [Null, Str(s), Integer(n)];
    assert items[1..] == [Str(s), Integer(n)] && items[1..][1..] == [Integer(n)] && items[1..][1..][1..] == [];
    assert Strings(items[1..][1..]) == [] && Strings(items[1..]) == [s] && Strings(items) == [s];
    assert GetStrings(Obj(map["assignees" := Arr(items)]), "assignees") == [s];
  }

  /** Reading fails exactly where a record has no subject or no usable reason. */
  lemma ReadingFailsExactlyWhen(v: Json, parse: string -> Option<int>)
    ensures FromJsonLd(v, parse).Err? <==>
            !v.Obj? || GetStr(v, "task:what").None? || GetObj(v, "task:why").None? ||
            var why := GetObj(v, "task:why").value;
            GetStr(why, "task:description").None? || GetStr(why, "task:priority") !in {Some("High"), Some("Medium"), Some("Low")}
  {
  }

  /** A cost without numbers reads as none. */
  lemma EmptyCost()
    ensures ReadCost(Obj(map[])) == Cost(0, 0, 0.0)
  {
  }
}
