/**
 The 5W2H record of a task and its JSON-LD form (src/core/five_w2h.rs). Dates are instants; `fmt` and `parse` stand
 for the RFC 3339 printer and parser.
 */
module FiveW2HRecord {
  import opened Wrappers
  import opened JsonValue

  type u32 = n: int | 0 <= n < 0x1_0000_0000
  type u64 = n: int | 0 <= n < 0x1_0000_0000_0000_0000

  datatype Priority = High | Medium | Low
  datatype AccessLevel = Read | Write | Admin
  datatype FillStage = Create | Plan | Do | Check | Act

  datatype Why = Why(description: string, successCriteria: seq<string>, priority: Priority)

  datatype Who = Who(requestor: Option<string>, assignees: seq<string>, stakeholders: seq<string>,
                     requiredRole: Option<string>, accessLevel: Option<AccessLevel>)

  datatype When = When(deadline: Option<int>, startAfter: Option<int>, estimatedDuration: Option<string>,
                       timezone: Option<string>, reminderBefore: Option<string>)

  datatype Where = Where(dataSources: seq<string>, executionEnvironment: Option<string>,
                         targetRepository: Option<string>, targetBranch: Option<string>)

  datatype How = How(planIri: Option<string>, preferredSkills: seq<string>, forbiddenTools: seq<string>,
                     requiredSteps: Option<string>, dependencies: seq<string>)

  datatype Cost = Cost(tokensUsed: u64, cyclesUsed: u32, durationSecs: real)

  datatype HowMuch = HowMuch(tokenBudget: Option<u64>, maxSubAgents: Option<u32>, maxPdcaCycles: Option<u32>,
                             expectedQuality: Option<real>, actualCost: Option<Cost>)

  datatype Meta = Meta(stage: FillStage, filledBy: Option<string>, filledAt: Option<string>)

  datatype Record = Record(what: string, why: Why, who: Option<Who>, when: Option<When>, place: Option<Where>,
                           how: Option<How>, howMuch: Option<HowMuch>, meta: map<string, Meta>, frozen: bool)

  // ---------- reading members ----------

  /** The strings of an array, other items skipped. */
  function Strings(items: seq<Json>): seq<string> {
    if items == [] then [] else (if items[0].Str? then [items[0].text] else []) + Strings(items[1..])
  }

  function GetStrings(v: Json, key: string): seq<string> {
    match Get(v, key)
    case Some(Arr(items)) => Strings(items)
    case _ => []
  }

  function GetU64(v: Json, key: string): Option<u64> {
    match Get(v, key)
    case Some(Integer(n)) => if 0 <= n < 0x1_0000_0000_0000_0000 then Some(n) else None
    case _ => None
  }

  /** A cast to 32 bits keeps the low half. */
  function GetU32(v: Json, key: string): Option<u32> {
    match GetU64(v, key)
    case Some(n) => Some(n % 0x1_0000_0000)
    case None => None
  }

  function GetReal(v: Json, key: string): Option<real> {
    match Get(v, key)
    case Some(Integer(n)) => Some(n as real)
    case Some(Fraction(x)) => Some(x)
    case _ => None
  }

  function GetInstant(v: Json, key: string, parse: string -> Option<int>): Option<int> {
    match GetStr(v, key)
    case Some(t) => parse(t)
    case None => None
  }

  function ReadPriority(s: string): Option<Priority> {
    if s == "High" then Some(High) else if s == "Medium" then Some(Medium) else if s == "Low" then Some(Low) else None
  }

  function ReadAccess(s: Option<string>): Option<AccessLevel> {
    match s
    case Some(t) => if t == "Read" then Some(Read) else if t == "Write" then Some(Write) else if t == "Admin" then Some(Admin) else None
    case None => None
  }

  function ReadStage(s: Option<string>): FillStage {
    match s
    case Some(t) =>
      if t == "Create" then Create else if t == "Plan" then Plan else if t == "Do" then Do
      else if t == "Check" then Check else if t == "Act" then Act else Create
    case None => Create
  }

  // ---------- parsing ----------

  function ReadWho(v: Json): Who {
    Who(GetStr(v, "task:requestor"), GetStrings(v, "task:assignees"), GetStrings(v, "task:stakeholders"),
        GetStr(v, "task:requiredRole"), ReadAccess(GetStr(v, "task:accessLevel")))
  }

  function ReadWhen(v: Json, parse: string -> Option<int>): When {
    When(GetInstant(v, "task:deadline", parse), GetInstant(v, "task:startAfter", parse),
         GetStr(v, "task:estimatedDuration"), GetStr(v, "task:timezone"), GetStr(v, "task:reminderBefore"))
  }

  function ReadWhere(v: Json): Where {
    Where(GetStrings(v, "task:dataSources"), GetStr(v, "task:executionEnvironment"),
          GetStr(v, "task:targetRepository"), GetStr(v, "task:targetBranch"))
  }

  function ReadHow(v: Json): How {
    How(GetStr(v, "task:planIri"), GetStrings(v, "task:preferredSkills"), GetStrings(v, "task:forbiddenTools"),
        GetStr(v, "task:requiredSteps"), GetStrings(v, "task:dependencies"))
  }

  function ReadCost(v: Json): Cost {
    Cost(GetU64(v, "task:tokensUsed").GetOr(0), GetU32(v, "task:cyclesUsed").GetOr(0), GetReal(v, "task:durationSecs").GetOr(0.0))
  }

  function ReadHowMuch(v: Json): HowMuch {
    HowMuch(GetU64(v, "task:tokenBudget"), GetU32(v, "task:maxSubAgents"), GetU32(v, "task:maxPdcaCycles"),
            GetReal(v, "task:expectedQuality"),
            match GetObj(v, "task:actualCost") case Some(c) => Some(ReadCost(c)) case None => None)
  }

  function ReadMeta(v: Json): Meta {
    Meta(ReadStage(GetStr(v, "task:fillStage")), GetStr(v, "task:filledBy"), GetStr(v, "task:filledAt"))
  }

  function ReadMetas(v: Option<Json>): map<string, Meta> {
    match v
    case Some(Obj(fields)) => map d | d in fields && fields[d].Obj? :: ReadMeta(fields[d])
    case _ => map[]
  }

  function FromJsonLd(v: Json, parse: string -> Option<int>): Result<Record, string> {
    if !v.Obj? then Err("JSON-LD value is not an object")
    else if GetStr(v, "task:what").None? then Err("Missing task:what")
    else match GetObj(v, "task:why")
      case None => Err("Missing task:why")
      case Some(why) =>
        if GetStr(why, "task:description").None? then Err("Missing task:description in why")
        else match GetStr(why, "task:priority")
          case None => Err("Invalid task:priority")
          case Some(p) =>
            if ReadPriority(p).None? then Err("Invalid task:priority")
            else Ok(Record(
              GetStr(v, "task:what").value,
              Why(GetStr(why, "task:description").value, GetStrings(why, "task:successCriteria"), ReadPriority(p).value),
              match GetObj(v, "task:who") case Some(o) => Some(ReadWho(o)) case None => None,
              match GetObj(v, "task:when") case Some(o) => Some(ReadWhen(o, parse)) case None => None,
              match GetObj(v, "task:where") case Some(o) => Some(ReadWhere(o)) case None => None,
              match GetObj(v, "task:how") case Some(o) => Some(ReadHow(o)) case None => None,
              match GetObj(v, "task:howMuch") case Some(o) => Some(ReadHowMuch(o)) case None => None,
              ReadMetas(Get(v, "task:dimensionMeta")),
              GetBool(v, "task:frozen").GetOr(false)))
  }

  // ---------- printing ----------

  function Text(s: Option<string>): Json {
    match s case Some(t) => Str(t) case None => Null
  }

  function Texts(s: seq<string>): Json {
    Arr(seq(|s|, i requires 0 <= i < |s| => Str(s[i])))
  }

  function Count(n: Option<int>): Json {
    match n case Some(k) => Integer(k) case None => Null
  }

  function Instant(t: Option<int>, fmt: int -> string): Json {
    match t case Some(i) => Str(fmt(i)) case None => Null
  }

  function PriorityName(p: Priority): string {
    match p case High => "High" case Medium => "Medium" case Low => "Low"
  }

  function AccessName(a: AccessLevel): string {
    match a case Read => "Read" case Write => "Write" case Admin => "Admin"
  }

  function StageName(s: FillStage): string {
    match s case Create => "Create" case Plan => "Plan" case Do => "Do" case Check => "Check" case Act => "Act"
  }

  function PrintedWhy(w: Why): Json {
    Obj(map["task:description" := Str(w.description), "task:successCriteria" := Texts(w.successCriteria),
            "task:priority" := Str(PriorityName(w.priority))])
  }

  function PrintedWho(w: Who): Json {
    Obj(map["task:requestor" := Text(w.requestor), "task:assignees" := Texts(w.assignees),
            "task:stakeholders" := Texts(w.stakeholders), "task:requiredRole" := Text(w.requiredRole),
            "task:accessLevel" := match w.accessLevel case Some(a) => Str(AccessName(a)) case None => Null])
  }

  function PrintedWhen(w: When, fmt: int -> string): Json {
    Obj(map["task:deadline" := Instant(w.deadline, fmt), "task:startAfter" := Instant(w.startAfter, fmt),
            "task:estimatedDuration" := Text(w.estimatedDuration), "task:timezone" := Text(w.timezone),
            "task:reminderBefore" := Text(w.reminderBefore)])
  }

  function PrintedWhere(w: Where): Json {
    Obj(map["task:dataSources" := Texts(w.dataSources), "task:executionEnvironment" := Text(w.executionEnvironment),
            "task:targetRepository" := Text(w.targetRepository), "task:targetBranch" := Text(w.targetBranch)])
  }

  function PrintedHow(h: How): Json {
    Obj(map["task:planIri" := Text(h.planIri), "task:preferredSkills" := Texts(h.preferredSkills),
            "task:forbiddenTools" := Texts(h.forbiddenTools), "task:requiredSteps" := Text(h.requiredSteps),
            "task:dependencies" := Texts(h.dependencies)])
  }

  function PrintedCost(c: Cost): Json {
    Obj(map["task:tokensUsed" := Integer(c.tokensUsed), "task:cyclesUsed" := Integer(c.cyclesUsed),
            "task:durationSecs" := Fraction(c.durationSecs)])
  }

  function PrintedHowMuch(h: HowMuch): Json {
    var numbers := map[
      "task:tokenBudget" := Count(h.tokenBudget), "task:maxSubAgents" := Count(h.maxSubAgents),
      "task:maxPdcaCycles" := Count(h.maxPdcaCycles),
      "task:expectedQuality" := match h.expectedQuality case Some(x) => Fraction(x) case None => Null];
    Obj(if h.actualCost.Some? then numbers["task:actualCost" := PrintedCost(h.actualCost.value)] else numbers)
  }

  function PrintedMeta(m: Meta): Json {
    Obj(map["task:fillStage" := Str(StageName(m.stage)), "task:filledBy" := Text(m.filledBy), "task:filledAt" := Text(m.filledAt)])
  }

  // ---------- each part reads back ----------

  lemma {:induction false} StringsOfTexts(s: seq<string>)
    ensures Strings(Texts(s).items) == s
  {
    if s != [] {
      StringsOfTexts(s[1..]);
      assert Texts(s).items[1..] == Texts(s[1..]).items;
    }
  }

  lemma TextsReadBack(v: Json, key: string, s: seq<string>)
    requires Get(v, key) == Some(Texts(s))
    ensures GetStrings(v, key) == s
  {
    StringsOfTexts(s);
  }

  lemma CountReadsBack(v: Json, key: string, small: Option<u32>, large: Option<u64>)
    ensures Get(v, key) == Some(Count(large)) ==> GetU64(v, key) == large
    ensures Get(v, key) == Some(Count(small)) ==> GetU32(v, key) == small
  {
  }

  lemma WhyReadsBack(w: Why)
    ensures GetStr(PrintedWhy(w), "task:description") == Some(w.description)
    ensures GetStrings(PrintedWhy(w), "task:successCriteria") == w.successCriteria
    ensures GetStr(PrintedWhy(w), "task:priority") == Some(PriorityName(w.priority)) && ReadPriority(PriorityName(w.priority)) == Some(w.priority)
  {
    hide GetStrings, Texts;
    TextsReadBack(PrintedWhy(w), "task:successCriteria", w.successCriteria);
  }

  lemma WhoReadsBack(w: Who)
    ensures ReadWho(PrintedWho(w)) == w
  {
    hide GetStrings, Texts;
    TextsReadBack(PrintedWho(w), "task:assignees", w.assignees);
    TextsReadBack(PrintedWho(w), "task:stakeholders", w.stakeholders);
  }

  predicate InstantReadsBack(t: Option<int>, fmt: int -> string, parse: string -> Option<int>) {
    t.Some? ==> parse(fmt(t.value)) == Some(t.value)
  }

  /** The parser undoes the printer on the instants at hand. */
  predicate InstantsReadBack(w: When, fmt: int -> string, parse: string -> Option<int>) {
    InstantReadsBack(w.deadline, fmt, parse) && InstantReadsBack(w.startAfter, fmt, parse)
  }

  lemma WhenReadsBack(w: When, fmt: int -> string, parse: string -> Option<int>)
    requires InstantsReadBack(w, fmt, parse)
    ensures ReadWhen(PrintedWhen(w, fmt), parse) == w
  {
  }

  lemma WhereReadsBack(w: Where)
    ensures ReadWhere(PrintedWhere(w)) == w
  {
    hide GetStrings, Texts;
    TextsReadBack(PrintedWhere(w), "task:dataSources", w.dataSources);
  }

  lemma HowReadsBack(h: How)
    ensures ReadHow(PrintedHow(h)) == h
  {
    hide GetStrings, Texts;
    TextsReadBack(PrintedHow(h), "task:preferredSkills", h.preferredSkills);
    TextsReadBack(PrintedHow(h), "task:forbiddenTools", h.forbiddenTools);
    TextsReadBack(PrintedHow(h), "task:dependencies", h.dependencies);
  }

  lemma CostReadsBack(c: Cost)
    ensures PrintedCost(c).Obj? && ReadCost(PrintedCost(c)) == c
  {
  }

  lemma HowMuchReadsBack(h: HowMuch)
    ensures ReadHowMuch(PrintedHowMuch(h)) == h
  {
    hide GetU64, GetU32, Count, ReadCost, PrintedCost;
    var v := PrintedHowMuch(h);
    CountReadsBack(v, "task:tokenBudget", None, h.tokenBudget);
    CountReadsBack(v, "task:maxSubAgents", h.maxSubAgents, None);
    CountReadsBack(v, "task:maxPdcaCycles", h.maxPdcaCycles, None);
    if h.actualCost.Some? {
      CostReadsBack(h.actualCost.value);
    }
  }

  lemma MetaReadsBack(m: Meta)
    ensures ReadMeta(PrintedMeta(m)) == m
  {
  }

  function Mapped<A, B>(o: Option<A>, f: A -> B): Option<B> {
    match o case Some(x) => Some(f(x)) case None => None
  }

  const SECTIONS := {"task:who", "task:when", "task:where", "task:how", "task:howMuch"}

  /** Exactly the sections of the record that are set are there, printed. */
  predicate HasSections(v: Json, t: Record, fmt: int -> string) {
    Get(v, "task:who") == Mapped(t.who, w => PrintedWho(w)) &&
    Get(v, "task:when") == Mapped(t.when, w => PrintedWhen(w, fmt)) &&
    Get(v, "task:where") == Mapped(t.place, w => PrintedWhere(w)) &&
    Get(v, "task:how") == Mapped(t.how, h => PrintedHow(h)) &&
    Get(v, "task:howMuch") == Mapped(t.howMuch, h => PrintedHowMuch(h))
  }

  /** The members every record has. */
  function Heading(id: string, what: string, why: Why): map<string, Json> {
    map["@context" := Obj(map["task" := Str("https://wildagentos.org/ontology/task#")]),
        "@id" := Str(id),
        "@type" := Str("task:5W2H"),
        "task:what" := Str(what),
        "task:why" := PrintedWhy(why)]
  }

  lemma HeadingMembers(id: string, what: string, why: Why)
    ensures var h := Heading(id, what, why);
            h.Keys == {"@context", "@id", "@type", "task:what", "task:why"} && h.Keys !! SECTIONS &&
            h["@context"] == Obj(map["task" := Str("https://wildagentos.org/ontology/task#")]) && h["@id"] == Str(id) && h["@type"] == Str("task:5W2H") && h["task:what"] == Str(what) && h["task:why"] == PrintedWhy(why)
  {
    hide PrintedWhy;
  }

  lemma SectionsStay(m: map<string, Json>, key: string, value: Json, t: Record, fmt: int -> string)
    requires HasSections(Obj(m), t, fmt) && key !in SECTIONS
    ensures HasSections(Obj(m[key := value]), t, fmt)
  {
  }

  lemma PrintedObjects(t: Record, fmt: int -> string)
    ensures PrintedWhy(t.why).Obj?
    ensures t.who.Some? ==> PrintedWho(t.who.value).Obj?
    ensures t.when.Some? ==> PrintedWhen(t.when.value, fmt).Obj?
    ensures t.place.Some? ==> PrintedWhere(t.place.value).Obj?
    ensures t.how.Some? ==> PrintedHow(t.how.value).Obj?
    ensures t.howMuch.Some? ==> PrintedHowMuch(t.howMuch.value).Obj?
  {
  }

  /** A value with the printed parts under their keys, and no part where the record has none, reads back as the record. */
  lemma RecordReadsBack(v: Json, t: Record, fmt: int -> string, parse: string -> Option<int>)
    requires t.when.Some? ==> InstantsReadBack(t.when.value, fmt, parse)
    requires v.Obj? && GetStr(v, "task:what") == Some(t.what) && GetObj(v, "task:why") == Some(PrintedWhy(t.why))
    requires HasSections(v, t, fmt)
    requires GetBool(v, "task:frozen") == Some(t.frozen) && ReadMetas(Get(v, "task:dimensionMeta")) == t.meta
    ensures FromJsonLd(v, parse) == Ok(t)
  {
    hide ReadWho, ReadWhen, ReadWhere, ReadHow, ReadHowMuch, ReadMetas, PrintedWho, PrintedWhen, PrintedWhere, PrintedHow, PrintedHowMuch, GetStrings, PrintedWhy, ReadPriority, GetStr, GetBool;
    PrintedObjects(t, fmt);
    WhyReadsBack(t.why);
    if t.who.Some? { WhoReadsBack(t.who.value); }
    if t.when.Some? { WhenReadsBack(t.when.value, fmt, parse); }
    if t.place.Some? { WhereReadsBack(t.place.value); }
    if t.how.Some? { HowReadsBack(t.how.value); }
    if t.howMuch.Some? { HowMuchReadsBack(t.howMuch.value); }
  }
}
