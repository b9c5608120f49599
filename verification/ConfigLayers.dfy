/**
 Layered configuration as src/config/settings.rs uses it: trees of tables, merged layer over layer, with explicit
 overrides on top, and a runtime override file whose keys are folded to lower case in an arbitrary order.
 */
module ConfigLayers {
  import opened Wrappers

  type Path = seq<string>

  /** `Scalar` is a boolean or number, which reads as its text; `Array` stands for any list. */
  datatype Value = Nil | Str(text: string) | Scalar(text: string) | Array | Table(entries: map<string, Value>)

  const EmptyTable := Table(map[])

  function Lookup(v: Value, path: Path): Option<Value>
    decreases |path|
  {
    if path == [] then Some(v)
    else if v.Table? && path[0] in v.entries then Lookup(v.entries[path[0]], path[1..])
    else None
  }

  function Text(v: Option<Value>): Option<string> {
    match v
    case Some(Str(t)) => Some(t)
    case Some(Scalar(t)) => Some(t)
    case _ => None
  }

  function GetString(v: Value, path: Path): Option<string> {
    Text(Lookup(v, path))
  }

  // ---------- merging and setting ----------

  /** Tables merge key by key; anything else is replaced by the later layer. */
  function Merged(base: Value, over: Value): Value
    decreases over
  {
    if base.Table? && over.Table? then
      Table(map k | k in base.entries.Keys + over.entries.Keys ::
        if k !in over.entries then base.entries[k]
        else if k !in base.entries then over.entries[k]
        else Merged(base.entries[k], over.entries[k]))
    else over
  }

  function Child(v: Value, key: string): Value {
    if v.Table? && key in v.entries then v.entries[key] else EmptyTable
  }

  function Entries(v: Value): map<string, Value> {
    if v.Table? then v.entries else map[]
  }

  /** Writing one setting: missing or non-table values on the way become tables. */
  function SetPath(v: Value, path: Path, leaf: Value): Value
    decreases |path|
  {
    if path == [] then leaf
    else Table(Entries(v)[path[0] := SetPath(Child(v, path[0]), path[1..], leaf)])
  }

  /** A non-table value of the later layer hides everything the earlier one had below it. */
  lemma {:induction false} LookupMerged(base: Value, over: Value, path: Path)
    ensures match Lookup(over, path)
            case Some(o) => Lookup(Merged(base, over), path) ==
              (if Lookup(base, path).Some? then Some(Merged(Lookup(base, path).value, o)) else Some(o))
            case None => Lookup(Merged(base, over), path) in {None, Lookup(base, path)}
    decreases |path|
  {
    if path != [] && over.Table? && path[0] in over.entries && base.Table? && path[0] in base.entries {
      LookupMerged(base.entries[path[0]], over.entries[path[0]], path[1..]);
    }
  }

  lemma TextMerged(base: Value, over: Value, path: Path)
    ensures Lookup(over, path).Some? ==> GetString(Merged(base, over), path) == GetString(over, path)
    ensures Lookup(over, path).None? ==> GetString(Merged(base, over), path) in {None, GetString(base, path)}
  {
    LookupMerged(base, over, path);
  }

  predicate Unrelated(p: Path, q: Path) {
    !(p <= q) && !(q <= p)
  }

  lemma {:induction false} LookupSet(v: Value, path: Path, leaf: Value)
    ensures Lookup(SetPath(v, path, leaf), path) == Some(leaf)
    decreases |path|
  {
    if path != [] {
      LookupSet(Child(v, path[0]), path[1..], leaf);
    }
  }

  lemma {:induction false} LookupElsewhere(v: Value, path: Path, leaf: Value, q: Path)
    requires Unrelated(path, q)
    ensures Lookup(SetPath(v, path, leaf), q) == Lookup(v, q)
    decreases |path|
  {
    if path[0] == q[0] {
      assert path == [path[0]] + path[1..] && q == [q[0]] + q[1..];
      assert Unrelated(path[1..], q[1..]);
      LookupElsewhere(Child(v, path[0]), path[1..], leaf, q[1..]);
    }
  }

  // ---------- explicit overrides ----------

  /** Applying the explicit overrides in the given order. */
  function WithOverrides(v: Value, overrides: map<Path, string>, order: seq<Path>): Value
    requires forall p :: p in order ==> p in overrides
  {
    if order == [] then v else
      var last := order[|order| - 1];
      SetPath(WithOverrides(v, overrides, order[..|order| - 1]), last, Str(overrides[last]))
  }

  /** Whatever the order, an overridden setting reads as its override and an unrelated one is untouched. */
  lemma {:induction false} OverridesApply(v: Value, overrides: map<Path, string>, order: seq<Path>, q: Path)
    requires forall p :: p in order ==> p in overrides
    requires forall p :: p in order ==> p == q || Unrelated(p, q)
    ensures Lookup(WithOverrides(v, overrides, order), q) == if q in order then Some(Str(overrides[q])) else Lookup(v, q)
  {
    if order != [] {
      var most, last := order[..|order| - 1], order[|order| - 1];
      assert order == most + [last];
      OverridesApply(v, overrides, most, q);
      var before := WithOverrides(v, overrides, most);
      if last == q {
        LookupSet(before, q, Str(overrides[q]));
      } else {
        LookupElsewhere(before, last, Str(overrides[last]), q);
      }
    }
  }

  // ---------- the raw override file and its folding ----------

  /** The parsed JSON; the entries of an object come in the order its hash table is listed. */
  datatype Raw = RawNull | RawStr(text: string) | RawScalar(text: string) | RawArray(items: seq<Raw>) | RawObject(entries: seq<Entry>)

  datatype Entry = Entry(key: string, value: Raw)

  function Lowered(lower: char -> char, s: string): string {
    seq(|s|, i requires 0 <= i < |s| => lower(s[i]))
  }

  /** Folding one value over what is already there: keys to lower case, tables into tables, last one wins. */
  function Folded(lower: char -> char, existing: Value, raw: Raw): Value
    decreases raw, 0
  {
    match raw
    case RawNull => Nil
    case RawStr(t) => Str(t)
    case RawScalar(t) => Scalar(t)
    case RawArray(_) => Array
    case RawObject(entries) => FoldedEntries(lower, Table(Entries(existing)), entries)
  }

  function FoldedEntries(lower: char -> char, table: Value, entries: seq<Entry>): Value
    decreases entries, 1
  {
    if entries == [] then table else
      var last := entries[|entries| - 1];
      var before := FoldedEntries(lower, table, entries[..|entries| - 1]);
      var key := Lowered(lower, last.key);
      Table(Entries(before)[key := Folded(lower, Child(before, key), last.value)])
  }

  predicate IsSeparator(c: char) {
    c == '.' || c == '['
  }

  /** The part of a top-level key before the first `.` or `[`. */
  function Head(key: string): string {
    if key == "" || IsSeparator(key[0]) then "" else [key[0]] + Head(key[1..])
  }

  /** A top-level key names a path: it is split at the separators. */
  function Components(key: string): (r: Path)
    ensures |r| > 0 && r[0] == Head(key)
    decreases |key|
  {
    var head := Head(key);
    HeadIsPrefix(key);
    if |head| == |key| then [head] else [head] + Components(key[|head| + 1..])
  }

  lemma HeadIsPrefix(key: string)
    ensures |Head(key)| <= |key|
    ensures |Head(key)| == |key| ==> Head(key) == key
  {
  }

  function LoweredPath(lower: char -> char, path: Path): (r: Path) {
    seq(|path|, i requires 0 <= i < |path| => Lowered(lower, path[i]))
  }

  function FoldedAt(lower: char -> char, v: Value, path: Path, raw: Raw): Value
    decreases |path|
  {
    if path == [] then Folded(lower, v, raw)
    else Table(Entries(v)[path[0] := FoldedAt(lower, Child(v, path[0]), path[1..], raw)])
  }

  /** The whole file: each top-level entry at its path, in the given order. */
  function FoldedFile(lower: char -> char, entries: seq<Entry>): Value
  {
    if entries == [] then EmptyTable else
      var last := entries[|entries| - 1];
      FoldedAt(lower, FoldedFile(lower, entries[..|entries| - 1]), LoweredPath(lower, Components(last.key)), last.value)
  }
}
