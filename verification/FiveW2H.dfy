/** The 5W2H record as an object its methods update (src/core/five_w2h.rs). */
module FiveW2H {
  import opened Wrappers
  import opened JsonValue
  import opened FiveW2HRecord
  import opened Sorting
  import U = FiveW2HUpdates

  function Strip(s: string): string {
    if "iri://task/" <= s then Strip(s[11..]) else s
  }

  lemma NoUpdate(t: Record, updates: Json, parse: string -> Option<int>, now: string)
    requires !updates.Obj?
    ensures U.Merged(t, updates, parse, now) == t
  {
    hide U.UpdatedWho, U.UpdatedWhen, U.UpdatedWhere, U.UpdatedHow, U.UpdatedHowMuch, U.Filled;
  }

  class Task5W2H {
    var what: string
    var why: Why
    var who: Option<Who>
    var when: Option<When>
    var place: Option<Where>
    var how: Option<How>
    var howMuch: Option<HowMuch>
    var meta: map<string, Meta>
    var frozen: bool

    function Value(): Record
      reads this
    {
      Record(what, why, who, when, place, how, howMuch, meta, frozen)
    }

    constructor (what: string, reason: string, now: string)
      ensures Value() == U.New(what, reason, now)
    {
      var created := Meta(Create, Some("SA"), Some(now));
      this.what, why := what, Why(reason, [], Medium);
      who, when, place, how, howMuch := None, None, None, None, None;
      meta := map["what" := created, "why" := created];
      frozen := false;
    }

    method RecordFill(dimension: string, stage: FillStage, filler: string, now: string)
      modifies `meta
      ensures Value() == U.Filled(old(Value()), dimension, stage, filler, now)
    {
      meta := meta[dimension := Meta(stage, Some(filler), Some(now))];
    }

    method MergeWho(updates: Json, now: string)
      modifies this
      ensures Value() == U.MergeWho(old(Value()), updates, now)
    {
      hide U.UpdatedWho;
      var v := GetObj(updates, "who");
      if v.Some? {
        who := Some(U.UpdatedWho(v.value));
        RecordFill("who", Plan, "PA", now);
      }
    }

    method MergeWhen(updates: Json, parse: string -> Option<int>, now: string)
      modifies this
      ensures Value() == U.MergeWhen(old(Value()), updates, parse, now)
    {
      hide U.UpdatedWhen;
      var v := GetObj(updates, "when");
      if v.Some? {
        var w := U.UpdatedWhen(v.value, parse);
        if w.deadline.Some? || w.estimatedDuration.Some? {
          when := Some(w);
          RecordFill("when", Plan, "PA", now);
        }
      }
    }

    method MergeWhere(updates: Json, now: string)
      modifies this
      ensures Value() == U.MergeWhere(old(Value()), updates, now)
    {
      hide U.UpdatedWhere;
      var v := GetObj(updates, "where");
      if v.Some? {
        var w := U.UpdatedWhere(v.value);
        if w.dataSources != [] || w.executionEnvironment.Some? {
          place := Some(w);
          RecordFill("where", Plan, "PA", now);
        }
      }
    }

    method MergeHow(updates: Json, now: string)
      modifies this
      ensures Value() == U.MergeHow(old(Value()), updates, now)
    {
      hide U.UpdatedHow;
      var v := GetObj(updates, "how");
      if v.Some? {
        how := Some(U.UpdatedHow(v.value));
        RecordFill("how", Plan, "PA", now);
      }
    }

    method MergeHowMuch(updates: Json, now: string)
      modifies this
      ensures Value() == U.MergeHowMuch(old(Value()), updates, now)
    {
      hide U.UpdatedHowMuch;
      var v := if Get(updates, "howMuch").Some? then GetObj(updates, "howMuch") else GetObj(updates, "how_much");
      if v.Some? {
        howMuch := Some(U.UpdatedHowMuch(v.value));
        RecordFill("how_much", Plan, "PA", now);
      }
    }

    /** `now` is the clock, printed. An update that is not an object changes nothing. */
    method MergeUpdates(updates: Json, parse: string -> Option<int>, now: string)
      modifies this
      ensures Value() == U.Merged(old(Value()), updates, parse, now)
    {
      hide U.MergeWho, U.MergeWhen, U.MergeWhere, U.MergeHow, U.MergeHowMuch;
      if !updates.Obj? {
        NoUpdate(Value(), updates, parse, now);
        return;
      }
      MergeWho(updates, now);
      MergeWhen(updates, parse, now);
      MergeWhere(updates, now);
      MergeHow(updates, now);
      MergeHowMuch(updates, now);
    }

    method DeriveDefaults(maxPdcaCycles: u32, cwd: Option<string>, now: string)
      modifies this
      ensures Value() == U.WithDefaults(old(Value()), maxPdcaCycles, cwd, now)
    {
      ghost var t := Value();
      if who.None? {
        who := Some(Who(None, [], [], None, None));
        RecordFill("who", Plan, "SA-Default", now);
      }
      t := U.DefaultWho(t, now);
      assert Value() == t;
      if place.None? {
        if cwd.Some? {
          place := Some(Where([], cwd, None, None));
          RecordFill("where", Plan, "SA-Default", now);
        }
      }
      t := U.DefaultWhere(t, cwd, now);
      assert Value() == t;
      if how.None? {
        how := Some(How(None, [], [], None, []));
        RecordFill("how", Plan, "SA-Default", now);
      }
      t := U.DefaultHow(t, now);
      assert Value() == t;
      if howMuch.None? {
        howMuch := Some(HowMuch(None, None, Some(maxPdcaCycles), None, None));
        RecordFill("how_much", Plan, "SA-Default", now);
      }
    }

    method CheckCompleteness(level: string) returns (missing: seq<string>)
      ensures missing == U.Missing(Value(), level)
    {
      var required := U.Required(level);
      ghost var unfilled := U.Unfilled(Value());
      missing := [];
      for i := 0 to |required|
        invariant missing == Filtered(unfilled, required[..i])
      {
        FilteredConcat(unfilled, required[..i], [required[i]]);
        assert required[..i + 1] == required[..i] + [required[i]];
        if required[i] !in meta {
          missing := missing + [required[i]];
        }
      }
      assert required[..|required|] == required;
    }

    /** Whatever is set, the printed form reads back as this very record. */
    method ToJsonLd(taskIri: string, fmt: int -> string, ghost parse: string -> Option<int>) returns (r: Json)
      requires when.Some? ==> InstantsReadBack(when.value, fmt, parse)
      ensures FromJsonLd(r, parse) == Ok(Value())
      ensures Get(r, "@context") == Some(Obj(map["task" := Str("https://wildagentos.org/ontology/task#")]))
      ensures GetStr(r, "@id") == Some("iri://task/" + Strip(taskIri) + "/5w2h") && GetStr(r, "@type") == Some("task:5W2H")
    {
      hide FromJsonLd, ReadMetas, PrintedWhy, PrintedWho, PrintedWhen, PrintedWhere, PrintedHow, PrintedHowMuch, Strip, HasSections, Heading, GetStrings;
      PrintedObjects(Value(), fmt);
      var id := "iri://task/" + Strip(taskIri) + "/5w2h";
      HeadingMembers(id, what, why);
      var m := Heading(id, what, why);
      m := PrintSections(m, fmt);
      SectionsStay(m, "task:frozen", Bool(frozen), Value(), fmt);
      m := m["task:frozen" := Bool(frozen)];
      var metas := PrintMeta();
      SectionsStay(m, "task:dimensionMeta", Obj(metas), Value(), fmt);
      m := m["task:dimensionMeta" := Obj(metas)];
      r := Obj(m);
      RecordReadsBack(r, Value(), fmt, parse);
    }

    /** Adds the sections that are set. */
    method PrintSections(start: map<string, Json>, fmt: int -> string) returns (m: map<string, Json>)
      requires start.Keys !! SECTIONS
      ensures m.Keys <= start.Keys + SECTIONS && forall k :: k in start ==> k in m && m[k] == start[k]
      ensures HasSections(Obj(m), Value(), fmt)
    {
      hide PrintedWho, PrintedWhen, PrintedWhere, PrintedHow, PrintedHowMuch;
      m := start;
      if who.Some? {
        m := m["task:who" := PrintedWho(who.value)];
      }
      assert ("task:who" in m <==> who.Some?) && (who.Some? ==> m["task:who"] == PrintedWho(who.value));
      if when.Some? {
        m := m["task:when" := PrintedWhen(when.value, fmt)];
      }
      assert ("task:when" in m <==> when.Some?) && (when.Some? ==> m["task:when"] == PrintedWhen(when.value, fmt));
      if place.Some? {
        m := m["task:where" := PrintedWhere(place.value)];
      }
      assert ("task:where" in m <==> place.Some?) && (place.Some? ==> m["task:where"] == PrintedWhere(place.value));
      if how.Some? {
        m := m["task:how" := PrintedHow(how.value)];
      }
      assert ("task:how" in m <==> how.Some?) && (how.Some? ==> m["task:how"] == PrintedHow(how.value));
      if howMuch.Some? {
        m := m["task:howMuch" := PrintedHowMuch(howMuch.value)];
      }
    }

    method PrintMeta() returns (metas: map<string, Json>)
      ensures ReadMetas(Some(Obj(metas))) == meta
    {
      metas := map[];
      var rest := meta.Keys;
      while rest != {}
        invariant rest <= meta.Keys && metas.Keys == meta.Keys - rest
        invariant forall d :: d in metas ==> metas[d] == PrintedMeta(meta[d])
      {
        var d :| d in rest;
        metas := metas[d := PrintedMeta(meta[d])];
        rest := rest - {d};
      }
      forall d | d in meta
        ensures d in metas && metas[d].Obj? && ReadMeta(metas[d]) == meta[d]
      {
        MetaReadsBack(meta[d]);
      }
    }
  }
}
