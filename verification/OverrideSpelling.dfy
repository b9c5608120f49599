/**
 Which spellings of the runtime override file the loader trusts (src/config/settings.rs, `noncanonical_keyed_sections`
 and `keys_are_canonical`), and what that check buys: an accepted section folds the same way in every order.
 */
module OverrideSpelling {
  import opened Wrappers
  import opened ConfigLayers
  import opened Sorting

  // ---------- the spelling check ----------

  const KEYED_OVERRIDE_SECTIONS: seq<string> := ["gateway", "embedding"]

  predicate IsFreeForm(section: string, key: string) {
    section == "gateway" && key == "model_mapping"
  }

  predicate KeysAreCanonical(lower: char -> char, section: string, value: Raw, depth: nat)
    decreases value
  {
    match value
    case RawObject(entries) =>
      forall i :: 0 <= i < |entries| ==>
        Lowered(lower, entries[i].key) == entries[i].key &&
        ((depth == 0 && IsFreeForm(section, entries[i].key)) || KeysAreCanonical(lower, section, entries[i].value, depth + 1))
    case RawArray(items) => forall i :: 0 <= i < |items| ==> KeysAreCanonical(lower, section, items[i], depth + 1)
    case _ => true
  }

  /** The top-level entries that could end up in `section`. */
  function Spellings(lower: char -> char, root: seq<Entry>, section: string): seq<Entry> {
    Filtered((e: Entry) => Lowered(lower, Head(e.key)) == section, root)
  }

  predicate SectionIsCanonical(lower: char -> char, root: seq<Entry>, section: string) {
    var s := Spellings(lower, root, section);
    s == [] || (|s| == 1 && s[0].key == section && KeysAreCanonical(lower, section, s[0].value, 0))
  }

  /** The sections the check refuses; all of them if the file is not an object. */
  method NoncanonicalKeyedSections(lower: char -> char, file: Raw) returns (noncanonical: seq<string>)
    ensures forall s :: s in noncanonical <==>
              s in {"gateway", "embedding"} && !(file.RawObject? && SectionIsCanonical(lower, file.entries, s))
  {
    if !file.RawObject? {
      return KEYED_OVERRIDE_SECTIONS;
    }
    noncanonical := [];
    for i := 0 to |KEYED_OVERRIDE_SECTIONS|
      invariant forall s :: s in noncanonical <==>
                  s in KEYED_OVERRIDE_SECTIONS[..i] && !SectionIsCanonical(lower, file.entries, s)
    {
      var section := KEYED_OVERRIDE_SECTIONS[i];
      assert KEYED_OVERRIDE_SECTIONS[..i + 1] == KEYED_OVERRIDE_SECTIONS[..i] + [section];
      var spellings := Spellings(lower, file.entries, section);
      var canonical :=
        |spellings| == 0 ||
        (|spellings| == 1 && spellings[0].key == section && KeysAreCanonical(lower, section, spellings[0].value, 0));
      if !canonical {
        noncanonical := noncanonical + [section];
      }
    }
    assert KEYED_OVERRIDE_SECTIONS[..|KEYED_OVERRIDE_SECTIONS|] == KEYED_OVERRIDE_SECTIONS;
  }

  /** The key occurs somewhere in the section, the keys of `gateway.model_mapping` not counted. */
  ghost predicate MentionsKey(section: string, raw: Raw, depth: nat, key: string)
    decreases raw
  {
    match raw
    case RawObject(entries) =>
      exists i :: 0 <= i < |entries| &&
        (entries[i].key == key ||
         (!(depth == 0 && section == "gateway" && entries[i].key == "model_mapping") && MentionsKey(section, entries[i].value, depth + 1, key)))
    case RawArray(items) => exists i :: 0 <= i < |items| && MentionsKey(section, items[i], depth + 1, key)
    case _ => false
  }

  /** The keys of a value pass exactly when every one that counts is its own lower case. */
  lemma {:induction false} CanonicalExactlyWhen(lower: char -> char, section: string, raw: Raw, depth: nat)
    ensures KeysAreCanonical(lower, section, raw, depth) <==> forall key :: MentionsKey(section, raw, depth, key) ==> Lowered(lower, key) == key
    decreases raw
  {
    match raw {
      case RawObject(entries) =>
        forall i | 0 <= i < |entries|
          ensures KeysAreCanonical(lower, section, entries[i].value, depth + 1) <==>
                  forall key :: MentionsKey(section, entries[i].value, depth + 1, key) ==> Lowered(lower, key) == key
        {
          CanonicalExactlyWhen(lower, section, entries[i].value, depth + 1);
        }
      case RawArray(items) =>
        forall i | 0 <= i < |items|
          ensures KeysAreCanonical(lower, section, items[i], depth + 1) <==>
                  forall key :: MentionsKey(section, items[i], depth + 1, key) ==> Lowered(lower, key) == key
        {
          CanonicalExactlyWhen(lower, section, items[i], depth + 1);
        }
      case _ =>
    }
  }

  /** Only the entry at `i` could end up in the section. */
  ghost predicate OnlySpelling(lower: char -> char, root: seq<Entry>, section: string, i: nat) {
    i < |root| && forall j :: 0 <= j < |root| ==> (Lowered(lower, Head(root[j].key)) == section <==> j == i)
  }

  /**
   A section is accepted exactly when no top-level key could mean it, or a single one could, spelled as the section's
   name, and every key that counts beneath it is its own lower case.
   */
  lemma SectionAcceptedExactlyWhen(lower: char -> char, root: seq<Entry>, section: string)
    ensures SectionIsCanonical(lower, root, section) <==>
            (forall j :: 0 <= j < |root| ==> Lowered(lower, Head(root[j].key)) != section) ||
            exists i: nat :: OnlySpelling(lower, root, section, i) && root[i].key == section &&
              forall key :: MentionsKey(section, root[i].value, 0, key) ==> Lowered(lower, key) == key
  {
    hide KeysAreCanonical, MentionsKey, Head, Lowered;
    var p := (e: Entry) => Lowered(lower, Head(e.key)) == section;
    var s := Spellings(lower, root, section);
    assert s == Filtered(p, root);
    if s == [] {
      forall j | 0 <= j < |root|
        ensures !p(root[j])
      {
        FilteredHas(p, root, root[j]);
      }
    } else if |s| == 1 {
      var i := FilteredOnce(p, root);
      assert OnlySpelling(lower, root, section, i);
      CanonicalExactlyWhen(lower, section, root[i].value, 0);
    } else {
      if exists i :: OnlySpelling(lower, root, section, i) {
        var i :| OnlySpelling(lower, root, section, i);
        OnceFiltered(p, root, i);
      }
      if forall j :: 0 <= j < |root| ==> Lowered(lower, Head(root[j].key)) != section {
        NoneFiltered(p, root);
      }
    }
  }

  // ---------- what the check buys: folding an accepted section is deterministic ----------

  /** No object lists a key twice: the parser has collapsed exact duplicates. */
  predicate DistinctKeys(raw: Raw)
    decreases raw
  {
    match raw
    case RawObject(entries) => DistinctEntries(entries) && forall i :: 0 <= i < |entries| ==> DistinctKeys(entries[i].value)
    case RawArray(items) => forall i :: 0 <= i < |items| ==> DistinctKeys(items[i])
    case _ => true
  }

  predicate DistinctEntries(entries: seq<Entry>) {
    forall i, j :: 0 <= i < j < |entries| ==> entries[i].key != entries[j].key
  }

  function EntryOf(entries: seq<Entry>, key: string): (r: Option<Raw>)
    ensures r.Some? ==> exists i :: 0 <= i < |entries| && entries[i] == Entry(key, r.value)
    ensures r.None? ==> forall i :: 0 <= i < |entries| ==> entries[i].key != key
  {
    if entries == [] then None
    else if entries[|entries| - 1].key == key then Some(entries[|entries| - 1].value)
    else EntryOf(entries[..|entries| - 1], key)
  }

  /** Looking a path up in the JSON itself, by exact keys. */
  function RawLookup(raw: Raw, path: Path): Option<Raw>
    decreases |path|
  {
    if path == [] then Some(raw)
    else if raw.RawObject? && EntryOf(raw.entries, path[0]).Some? then RawLookup(EntryOf(raw.entries, path[0]).value, path[1..])
    else None
  }

  lemma {:induction false} FoldedChild(lower: char -> char, entries: seq<Entry>, key: string)
    requires DistinctEntries(entries)
    requires forall i :: 0 <= i < |entries| && Lowered(lower, entries[i].key) == key ==> entries[i].key == key
    requires forall i :: 0 <= i < |entries| && entries[i].key == key ==> Lowered(lower, entries[i].key) == key
    ensures FoldedEntries(lower, EmptyTable, entries).Table?
    ensures match EntryOf(entries, key)
            case None => key !in Entries(FoldedEntries(lower, EmptyTable, entries))
            case Some(raw) => key in Entries(FoldedEntries(lower, EmptyTable, entries)) &&
                              Entries(FoldedEntries(lower, EmptyTable, entries))[key] == Folded(lower, EmptyTable, raw)
  {
    if entries != [] {
      FoldedChild(lower, entries[..|entries| - 1], key);
    }
  }

  /** Below an accepted key, folding finds what an exact lookup finds, whatever the order of the entries. */
  lemma {:induction false} CanonicalFold(lower: char -> char, section: string, raw: Raw, depth: nat, path: Path)
    requires KeysAreCanonical(lower, section, raw, depth) && DistinctKeys(raw)
    requires depth == 0 && path != [] ==> !IsFreeForm(section, path[0])
    ensures match RawLookup(raw, path)
            case None => Lookup(Folded(lower, EmptyTable, raw), path) == None
            case Some(r) => Lookup(Folded(lower, EmptyTable, raw), path) == Some(Folded(lower, EmptyTable, r))
    decreases |path|
  {
    if path != [] && raw.RawObject? {
      FoldedChild(lower, raw.entries, path[0]);
      match EntryOf(raw.entries, path[0])
      case None =>
      case Some(child) => CanonicalFold(lower, section, child, depth + 1, path[1..]);
    }
  }

  lemma {:induction false} LookupBeside(lower: char -> char, v: Value, path: Path, raw: Raw, q: Path)
    requires path != [] && q != [] && path[0] != q[0]
    ensures Lookup(FoldedAt(lower, v, path, raw), q) == Lookup(v, q)
  {
  }

  lemma {:induction false} NoSpellingNoSection(lower: char -> char, root: seq<Entry>, section: string, q: Path)
    requires Spellings(lower, root, section) == [] && q != [] && q[0] == section
    ensures Lookup(FoldedFile(lower, root), q) == None
  {
    if root != [] {
      var most, last := root[..|root| - 1], root[|root| - 1];
      SpellingsSplit(lower, root, section);
      NoSpellingNoSection(lower, most, section, q);
      LookupBeside(lower, FoldedFile(lower, most), LoweredPath(lower, Components(last.key)), last.value, q);
    }
  }

  lemma SpellingsSplit(lower: char -> char, root: seq<Entry>, section: string)
    requires root != []
    ensures Spellings(lower, root, section) ==
            Spellings(lower, root[..|root| - 1], section) +
            if Lowered(lower, Head(root[|root| - 1].key)) == section then [root[|root| - 1]] else []
  {
    var p := (e: Entry) => Lowered(lower, Head(e.key)) == section;
    assert root == root[..|root| - 1] + [root[|root| - 1]];
    FilteredConcat(p, root[..|root| - 1], [root[|root| - 1]]);
  }

  predicate NoSeparator(key: string) {
    forall i :: 0 <= i < |key| ==> !IsSeparator(key[i])
  }

  lemma {:induction false} OneComponent(key: string)
    requires NoSeparator(key)
    ensures Head(key) == key && Components(key) == [key]
  {
    if key != "" {
      OneComponent(key[1..]);
      assert key == [key[0]] + key[1..];
    }
  }

  /** A section with one canonical spelling folds to that entry's value alone. */
  lemma {:induction false} OneSpellingIsTheSection(lower: char -> char, root: seq<Entry>, section: string, rest: Path)
    requires NoSeparator(section) && |Spellings(lower, root, section)| == 1 && Spellings(lower, root, section)[0].key == section
    ensures Lookup(FoldedFile(lower, root), [section] + rest) ==
            Lookup(Folded(lower, EmptyTable, Spellings(lower, root, section)[0].value), rest)
  {
    var most, last := root[..|root| - 1], root[|root| - 1];
    var q := [section] + rest;
    assert q[1..] == rest;
    SpellingsSplit(lower, root, section);
    var v := FoldedFile(lower, most);
    var path := LoweredPath(lower, Components(last.key));
    if Lowered(lower, Head(last.key)) == section {
      assert Spellings(lower, most, section) == [];
      OneComponent(section);
      assert path == [section];
      NoSpellingNoSection(lower, most, section, [section]);
      var only := Folded(lower, EmptyTable, last.value);
      assert Spellings(lower, root, section) == [last];
      assert Child(v, section) == EmptyTable;
      assert FoldedAt(lower, v, [section], last.value) == Table(Entries(v)[section := only]) by {
        assert [section][1..] == [];
        assert FoldedAt(lower, EmptyTable, [], last.value) == only;
      }
      assert Lookup(FoldedFile(lower, root), q) == Lookup(only, rest);
    } else {
      OneSpellingIsTheSection(lower, most, section, rest);
      LookupBeside(lower, v, path, last.value, q);
    }
  }

  function RawText(raw: Option<Raw>): Option<string> {
    match raw
    case Some(RawStr(t)) => Some(t)
    case Some(RawScalar(t)) => Some(t)
    case _ => None
  }

  /** The exact-key value of a setting in the raw file. */
  function RawSetting(lower: char -> char, root: seq<Entry>, section: string, rest: Path): Option<Raw> {
    var s := Spellings(lower, root, section);
    if |s| == 1 then RawLookup(s[0].value, rest) else None
  }

  /**
   When the check accepts a section, every order in which its keys can fold gives the text the file spells out,
   even with free-form keys under `gateway.model_mapping`.
   */
  lemma AcceptedSectionFoldsExactly(lower: char -> char, root: seq<Entry>, section: string, rest: Path)
    requires SectionIsCanonical(lower, root, section) && DistinctKeys(RawObject(root)) && NoSeparator(section)
    requires rest != [] && !IsFreeForm(section, rest[0])
    ensures GetString(FoldedFile(lower, root), [section] + rest) == RawText(RawSetting(lower, root, section, rest))
  {
    var s := Spellings(lower, root, section);
    if s == [] {
      NoSpellingNoSection(lower, root, section, [section] + rest);
    } else {
      OneSpellingIsTheSection(lower, root, section, rest);
      SpellingIsEntry(lower, root, section);
      CanonicalFold(lower, section, s[0].value, 0, rest);
    }
  }

  lemma {:induction false} SpellingIsEntry(lower: char -> char, root: seq<Entry>, section: string)
    ensures forall e :: e in Spellings(lower, root, section) <==> e in root && Lowered(lower, Head(e.key)) == section
  {
    if root != [] {
      SpellingIsEntry(lower, root[1..], section);
      assert root == [root[0]] + root[1..];
    }
  }

  // ---------- two orders of the same file ----------

  /** The same JSON with the entries of its objects listed in another order. */
  ghost predicate SameJson(a: Raw, b: Raw)
    decreases a
  {
    match a
    case RawObject(xs) =>
      b.RawObject? && (forall i :: 0 <= i < |xs| ==> HasPartner(xs[i], b.entries)) &&
      forall j :: 0 <= j < |b.entries| ==> HasKey(xs, b.entries[j].key)
    case RawArray(xs) => b.RawArray? && |xs| == |b.items| && forall i :: 0 <= i < |xs| ==> SameJson(xs[i], b.items[i])
    case _ => a == b
  }

  ghost predicate HasPartner(x: Entry, ys: seq<Entry>)
    decreases x
  {
    exists j :: 0 <= j < |ys| && ys[j].key == x.key && SameJson(x.value, ys[j].value)
  }

  predicate HasKey(xs: seq<Entry>, key: string) {
    exists i :: 0 <= i < |xs| && xs[i].key == key
  }

  /** The entry of `ys` with the key of `xs[i]` holds the same JSON. */
  lemma Partner(xs: seq<Entry>, ys: seq<Entry>, i: nat) returns (j: nat)
    requires SameJson(RawObject(xs), RawObject(ys)) && i < |xs|
    ensures j < |ys| && ys[j].key == xs[i].key && SameJson(xs[i].value, ys[j].value)
  {
    assert HasPartner(xs[i], RawObject(ys).entries);
    j :| 0 <= j < |ys| && ys[j].key == xs[i].key && SameJson(xs[i].value, ys[j].value);
  }

  lemma PartnerBack(xs: seq<Entry>, ys: seq<Entry>, j: nat) returns (i: nat)
    requires SameJson(RawObject(xs), RawObject(ys)) && j < |ys|
    ensures i < |xs| && ys[j].key == xs[i].key
  {
    assert HasKey(xs, RawObject(ys).entries[j].key);
    i :| 0 <= i < |xs| && xs[i].key == ys[j].key;
  }

  lemma {:induction false} EntryOfIndex(entries: seq<Entry>, i: nat)
    requires DistinctEntries(entries) && i < |entries|
    ensures EntryOf(entries, entries[i].key) == Some(entries[i].value)
  {
    hide EntryOf;
    var r := EntryOf(entries, entries[i].key);
    if r.Some? {
      var k :| 0 <= k < |entries| && entries[k] == Entry(entries[i].key, r.value);
      assert k == i;
    }
  }

  lemma SameEntry(xs: seq<Entry>, ys: seq<Entry>, key: string)
    requires DistinctEntries(xs) && DistinctEntries(ys) && SameJson(RawObject(xs), RawObject(ys))
    ensures EntryOf(xs, key).Some? <==> EntryOf(ys, key).Some?
    ensures EntryOf(xs, key).Some? ==> SameJson(EntryOf(xs, key).value, EntryOf(ys, key).value)
  {
    hide SameJson, EntryOf, DistinctEntries;
    if EntryOf(xs, key).Some? {
      var i :| 0 <= i < |xs| && xs[i] == Entry(key, EntryOf(xs, key).value);
      var j := Partner(xs, ys, i);
      EntryOfIndex(ys, j);
    } else if EntryOf(ys, key).Some? {
      var j :| 0 <= j < |ys| && ys[j] == Entry(key, EntryOf(ys, key).value);
      var i := PartnerBack(xs, ys, j);
    }
  }

  lemma {:induction false} SameRawText(a: Raw, b: Raw, path: Path)
    requires SameJson(a, b) && DistinctKeys(a) && DistinctKeys(b)
    ensures RawText(RawLookup(a, path)) == RawText(RawLookup(b, path))
    decreases |path|
  {
    hide SameJson, EntryOf, DistinctEntries;
    if path == [] || !a.RawObject? {
      SameShape(a, b);
    } else {
      SameShape(a, b);
      ChildrenDistinct(a);
      ChildrenDistinct(b);
      SameEntry(a.entries, b.entries, path[0]);
      if EntryOf(a.entries, path[0]).Some? {
        SameRawText(EntryOf(a.entries, path[0]).value, EntryOf(b.entries, path[0]).value, path[1..]);
      }
    }
  }

  lemma SameShape(a: Raw, b: Raw)
    requires SameJson(a, b)
    ensures a.RawObject? == b.RawObject? && RawText(Some(a)) == RawText(Some(b))
  {
  }

  lemma ChildrenDistinct(raw: Raw)
    requires raw.RawObject? && DistinctKeys(raw)
    ensures DistinctEntries(raw.entries) && forall i :: 0 <= i < |raw.entries| ==> DistinctKeys(raw.entries[i].value)
  {
  }

  lemma TheSpelling(lower: char -> char, root: seq<Entry>, section: string) returns (i: nat)
    requires SectionIsCanonical(lower, root, section) && DistinctKeys(RawObject(root)) && Spellings(lower, root, section) != []
    ensures i < |root| && Spellings(lower, root, section) == [root[i]] && root[i].key == section && DistinctKeys(root[i].value)
  {
    SpellingIsEntry(lower, root, section);
    var s := Spellings(lower, root, section);
    assert s[0] in s;
    i :| 0 <= i < |root| && root[i] == s[0];
  }

  lemma SameSetting(lower: char -> char, xs: seq<Entry>, ys: seq<Entry>, section: string, rest: Path)
    requires SameJson(RawObject(xs), RawObject(ys)) && DistinctKeys(RawObject(xs)) && DistinctKeys(RawObject(ys))
    requires SectionIsCanonical(lower, xs, section) && SectionIsCanonical(lower, ys, section) && NoSeparator(section)
    ensures RawText(RawSetting(lower, xs, section, rest)) == RawText(RawSetting(lower, ys, section, rest))
  {
    var s, t := Spellings(lower, xs, section), Spellings(lower, ys, section);
    hide SameJson, DistinctKeys, SectionIsCanonical, Spellings, RawLookup, Head, Lowered;
    if s != [] {
      var i := TheSpelling(lower, xs, section);
      var j := Partner(xs, ys, i);
      SpellingOfSection(lower, xs, ys, section, i, j);
      var k := TheSpelling(lower, ys, section);
      SameSpelling(ys, j, k);
      SameRawText(xs[i].value, ys[j].value, rest);
    } else if t != [] {
      var j := TheSpelling(lower, ys, section);
      var i := PartnerBack(xs, ys, j);
      SpellingOfSection(lower, ys, xs, section, j, i);
    }
  }

  lemma SameSpelling(ys: seq<Entry>, j: nat, k: nat)
    requires DistinctKeys(RawObject(ys)) && j < |ys| && k < |ys| && ys[j].key == ys[k].key
    ensures j == k
  {
    assert DistinctEntries(RawObject(ys).entries);
  }

  /** Whether an entry belongs to a section depends on its key alone. */
  lemma SpellingOfSection(lower: char -> char, xs: seq<Entry>, ys: seq<Entry>, section: string, i: nat, j: nat)
    requires i < |xs| && j < |ys| && xs[i].key == ys[j].key && xs[i] in Spellings(lower, xs, section)
    ensures ys[j] in Spellings(lower, ys, section)
  {
    SpellingIsEntry(lower, xs, section);
    SpellingIsEntry(lower, ys, section);
  }

  // ---------- the check does not depend on the order either ----------

  lemma TheOnlyPartner(xs: seq<Entry>, ys: seq<Entry>, j: nat) returns (i: nat)
    requires SameJson(RawObject(xs), RawObject(ys)) && DistinctKeys(RawObject(ys)) && j < |ys|
    ensures i < |xs| && xs[i].key == ys[j].key && SameJson(xs[i].value, ys[j].value)
  {
    hide SameJson, DistinctKeys;
    i := PartnerBack(xs, ys, j);
    var k := Partner(xs, ys, i);
    SameSpelling(ys, j, k);
  }

  lemma {:induction false} CanonicalInAnyOrder(lower: char -> char, section: string, a: Raw, b: Raw, depth: nat)
    requires SameJson(a, b) && DistinctKeys(b) && KeysAreCanonical(lower, section, a, depth)
    ensures KeysAreCanonical(lower, section, b, depth)
    decreases a
  {
    match a
    case RawObject(xs) =>
      CanonicalEntries(lower, section, xs, b.entries, depth);
    case RawArray(xs) =>
      forall i | 0 <= i < |xs|
        ensures KeysAreCanonical(lower, section, b.items[i], depth + 1)
      {
        CanonicalInAnyOrder(lower, section, xs[i], b.items[i], depth + 1);
      }
    case _ =>
  }

  lemma {:induction false} CanonicalEntries(lower: char -> char, section: string, xs: seq<Entry>, ys: seq<Entry>, depth: nat)
    requires SameJson(RawObject(xs), RawObject(ys)) && DistinctKeys(RawObject(ys)) && KeysAreCanonical(lower, section, RawObject(xs), depth)
    ensures KeysAreCanonical(lower, section, RawObject(ys), depth)
    decreases xs
  {
    hide SameJson, Lowered;
    forall j | 0 <= j < |ys|
      ensures Lowered(lower, ys[j].key) == ys[j].key
      ensures (depth == 0 && IsFreeForm(section, ys[j].key)) || KeysAreCanonical(lower, section, ys[j].value, depth + 1)
    {
      var i := TheOnlyPartner(xs, ys, j);
      assert RawObject(xs).entries[i] == xs[i];
      if !(depth == 0 && IsFreeForm(section, ys[j].key)) {
        ChildrenDistinct(RawObject(ys));
        CanonicalInAnyOrder(lower, section, xs[i].value, ys[j].value, depth + 1);
      }
    }
  }

  lemma {:induction false} SpellingsAreDistinct(lower: char -> char, root: seq<Entry>, section: string)
    requires DistinctEntries(root)
    ensures DistinctEntries(Spellings(lower, root, section))
  {
    if root != [] {
      SpellingsAreDistinct(lower, root[1..], section);
      SpellingIsEntry(lower, root[1..], section);
      var rest := Spellings(lower, root[1..], section);
      forall i | 0 <= i < |rest|
        ensures rest[i].key != root[0].key
      {
        assert rest[i] in root[1..];
      }
    }
  }

  /** The entries of a section in one listing have the keys of its entries in the other. */
  lemma SpelledAlike(lower: char -> char, xs: seq<Entry>, ys: seq<Entry>, section: string, j: nat) returns (i: nat)
    requires SameJson(RawObject(xs), RawObject(ys)) && DistinctKeys(RawObject(ys)) && j < |Spellings(lower, ys, section)|
    ensures i < |xs| && xs[i] in Spellings(lower, xs, section) && xs[i].key == Spellings(lower, ys, section)[j].key
    ensures SameJson(xs[i].value, Spellings(lower, ys, section)[j].value)
  {
    hide SameJson, DistinctKeys, Spellings, Lowered, Head;
    var t := Spellings(lower, ys, section);
    SpellingIsEntry(lower, ys, section);
    assert t[j] in t;
    var k :| 0 <= k < |ys| && ys[k] == t[j];
    i := TheOnlyPartner(xs, ys, k);
    SpellingOfSection(lower, ys, xs, section, k, i);
  }

  /** The check gives every listing of the same file the same verdict. */
  lemma SameVerdict(lower: char -> char, xs: seq<Entry>, ys: seq<Entry>, section: string)
    requires SameJson(RawObject(xs), RawObject(ys)) && DistinctKeys(RawObject(xs)) && DistinctKeys(RawObject(ys))
    requires SectionIsCanonical(lower, xs, section)
    ensures SectionIsCanonical(lower, ys, section)
  {
    hide SameJson, DistinctKeys, Spellings, KeysAreCanonical;
    var s, t := Spellings(lower, xs, section), Spellings(lower, ys, section);
    if t != [] {
      var i := SpelledAlike(lower, xs, ys, section, 0);
      assert s == [xs[i]];
      OnlyOneSpelling(lower, xs, ys, section);
      CanonicalInAnyOrder(lower, section, s[0].value, t[0].value, 0);
    }
  }

  lemma OnlyOneSpelling(lower: char -> char, xs: seq<Entry>, ys: seq<Entry>, section: string)
    requires SameJson(RawObject(xs), RawObject(ys)) && DistinctKeys(RawObject(ys)) && |Spellings(lower, xs, section)| == 1
    requires Spellings(lower, ys, section) != []
    ensures |Spellings(lower, ys, section)| == 1 && DistinctKeys(Spellings(lower, ys, section)[0].value)
  {
    hide SameJson, Spellings;
    var t := Spellings(lower, ys, section);
    ChildrenDistinct(RawObject(ys));
    SpellingIsEntry(lower, ys, section);
    assert t[0] in t;
    var j :| 0 <= j < |ys| && ys[j] == t[0];
    SpellingsAreDistinct(lower, ys, section);
    if |t| > 1 {
      var i := SpelledAlike(lower, xs, ys, section, 0);
      var k := SpelledAlike(lower, xs, ys, section, 1);
    }
  }

  /**
   Hence, once the check has accepted a section in one listing of the file, every load agrees on every string in it,
   in whatever order it lists the keys.
   */
  lemma FoldOrderIsIrrelevant(lower: char -> char, xs: seq<Entry>, ys: seq<Entry>, section: string, rest: Path)
    requires SameJson(RawObject(xs), RawObject(ys)) && DistinctKeys(RawObject(xs)) && DistinctKeys(RawObject(ys))
    requires SectionIsCanonical(lower, xs, section) && NoSeparator(section)
    requires rest != [] && !IsFreeForm(section, rest[0])
    ensures GetString(FoldedFile(lower, xs), [section] + rest) == GetString(FoldedFile(lower, ys), [section] + rest)
  {
    hide *;
    SameVerdict(lower, xs, ys, section);
    AcceptedSectionFoldsExactly(lower, xs, section, rest);
    AcceptedSectionFoldsExactly(lower, ys, section, rest);
    SameSetting(lower, xs, ys, section, rest);
  }
}
