/** Routing events by one bit per event type (src/core/event_bus.rs). */
module EventRouting {
  import opened Wrappers
  import opened Bits

  // ---------- registries ----------

  /** The registered types in the order of their bits. */
  type Registry = seq<string>

  ghost predicate IsRegistry(r: Registry) {
    |r| <= MAX_TYPES && forall i, j :: 0 <= i < j < |r| ==> r[i] != r[j]
  }

  function IndexOf(r: Registry, t: string): (i: nat)
    ensures i <= |r|
    ensures i < |r| ==> r[i] == t
    ensures t in r <==> i < |r|
  {
    if r == [] || r[0] == t then 0 else 1 + IndexOf(r[1..], t)
  }

  ghost function MaskOf(r: Registry, t: string): Option<bv64> {
    var i := IndexOf(r, t);
    if i < |r| then Some(Bit(i)) else None
  }

  /** The registry after a type is looked up; nothing is added once all bits are taken. */
  function Registered(r: Registry, t: string): Registry {
    if t in r || |r| >= MAX_TYPES then r else r + [t]
  }

  function RegisteredAll(r: Registry, types: seq<string>): Registry {
    if types == [] then r else Registered(RegisteredAll(r, types[..|types| - 1]), types[|types| - 1])
  }

  ghost function Combined(r: Registry, types: seq<string>): bv64 {
    if types == [] then 0 else
      Or(Combined(r, types[..|types| - 1]), MaskOf(r, types[|types| - 1]).GetOr(0))
  }

  class TypeMask {
    var masks: map<string, bv64>
    var nextBit: nat
    /** The registered types, oldest first. */
    ghost var order: Registry

    ghost predicate Valid()
      reads this
    {
      IsRegistry(order) && nextBit == |order| &&
      (forall t :: t in masks <==> t in order) &&
      forall i :: 0 <= i < |order| ==> order[i] in masks && masks[order[i]] == Bit(i)
    }

    constructor ()
      ensures Valid() && order == []
    {
      masks, nextBit, order := map[], 0, [];
    }

    /** The type's mask, new or old; none if it is new and all 64 bits are taken, where the source panics. */
    method GetOrCreateMask(t: string) returns (mask: Option<bv64>)
      requires Valid()
      modifies this
      ensures Valid() && order == Registered(old(order), t) && mask == MaskOf(order, t)
      ensures mask.None? <==> t !in old(order) && |old(order)| == 64
    {
      hide Bit;
      if t in masks {
        return Some(masks[t]);
      }
      if nextBit >= MAX_TYPES {
        return None;
      }
      var bit := Bit(nextBit);
      nextBit := nextBit + 1;
      masks := masks[t := bit];
      order := order + [t];
      return Some(bit);
    }

    /** Types that are not registered contribute nothing. */
    method CombineMasks(types: seq<string>) returns (combined: bv64)
      requires Valid()
      ensures combined == Combined(order, types)
    {
      hide Or, Bit;
      combined := 0;
      for i := 0 to |types|
        invariant combined == Combined(order, types[..i])
      {
        assert types[..i + 1][..i] == types[..i];
        if types[i] in masks {
          assert types[i] == order[IndexOf(order, types[i])];
          combined := Or(combined, masks[types[i]]);
        } else {
          BitFacts(combined, 0);
        }
      }
      assert types[..|types|] == types;
    }

    function GetMask(t: string): (mask: Option<bv64>)
      requires Valid()
      reads this
      ensures mask == MaskOf(order, t)
    {
      if t in masks then Some(masks[t]) else None
    }
  }

  // ---------- every reachable registry ----------

  /** Registering only ever adds types at the end, so a mask once given never changes. */
  lemma {:induction false} RegistriesOnlyGrow(r: Registry, types: seq<string>)
    requires IsRegistry(r)
    ensures IsRegistry(RegisteredAll(r, types)) && r <= RegisteredAll(r, types)
  {
    if types != [] {
      RegistriesOnlyGrow(r, types[..|types| - 1]);
    }
  }

  lemma {:induction false} IndexStays(r: Registry, later: Registry, t: string)
    requires r <= later && t in r
    ensures IndexOf(later, t) == IndexOf(r, t)
  {
    if r[0] != t {
      IndexStays(r[1..], later[1..], t);
    }
  }

  lemma MasksNeverChange(r: Registry, types: seq<string>, t: string)
    requires IsRegistry(r) && t in r
    ensures IsRegistry(RegisteredAll(r, types)) && MaskOf(RegisteredAll(r, types), t) == MaskOf(r, t)
  {
    RegistriesOnlyGrow(r, types);
    IndexStays(r, RegisteredAll(r, types), t);
  }

  /** Distinct types have single, disjoint bits. */
  lemma MasksAreDisjoint(r: Registry, t: string, u: string)
    requires IsRegistry(r) && t in r && u in r
    ensures MaskOf(r, t).value != 0 && (Meets(MaskOf(r, t).value, MaskOf(r, u).value) <==> t == u)
  {
    hide Bit, Meets;
    BitsAreDisjoint(IndexOf(r, t), IndexOf(r, u));
  }

  // ---------- the bit test against the list ----------

  ghost predicate AnyRegistered(r: Registry, types: seq<string>) {
    exists i :: 0 <= i < |types| && types[i] in r
  }

  lemma {:induction false} CombinedMeets(r: Registry, later: Registry, types: seq<string>, t: string)
    requires IsRegistry(r) && IsRegistry(later) && r <= later && t in later
    ensures Meets(Combined(r, types), MaskOf(later, t).value) <==> t in types && t in r
    ensures Combined(r, types) == 0 <==> !AnyRegistered(r, types)
  {
    hide Bit, Meets, Or;
    var z := MaskOf(later, t).value;
    if types == [] {
      BitFacts(z, 0);
    } else {
      var most, last := types[..|types| - 1], types[|types| - 1];
      CombinedMeets(r, later, most, t);
      var y := MaskOf(r, last).GetOr(0);
      OrMeets(Combined(r, most), y, z);
      LastMeets(r, later, last, t);
      AnyRegisteredSplits(r, types);
    }
  }

  lemma AnyRegisteredSplits(r: Registry, types: seq<string>)
    requires types != []
    ensures AnyRegistered(r, types) <==> AnyRegistered(r, types[..|types| - 1]) || types[|types| - 1] in r
  {
    var most := types[..|types| - 1];
    if AnyRegistered(r, most) {
      var i :| 0 <= i < |most| && most[i] in r;
      assert types[i] in r;
    }
    if AnyRegistered(r, types) {
      var i :| 0 <= i < |types| && types[i] in r;
      assert i < |most| ==> most[i] in r;
    }
  }

  lemma LastMeets(r: Registry, later: Registry, last: string, t: string)
    requires IsRegistry(r) && IsRegistry(later) && r <= later && t in later
    ensures var y := MaskOf(r, last).GetOr(0);
            (Meets(y, MaskOf(later, t).value) <==> last == t && t in r) && (y == 0 <==> last !in r)
  {
    hide Bit, Meets;
    if last in r {
      IndexStays(r, later, last);
      BitsAreDisjoint(IndexOf(r, last), IndexOf(later, t));
    } else {
      BitFacts(MaskOf(later, t).value, 0);
    }
  }

  // ---------- events and filters ----------

  datatype Event = Event(task: string, eventType: string, source: string, mask: bv64)

  datatype EventFilter = EventFilter(task: Option<string>, types: seq<string>, source: Option<string>, mask: bv64)

  predicate MaskPasses(filterMask: bv64, eventMask: bv64) {
    !(filterMask != 0 && !Meets(eventMask, filterMask))
  }

  predicate Matches(f: EventFilter, e: Event) {
    MaskPasses(f.mask, e.mask) &&
    (f.task.Some? ==> f.task.value == e.task) &&
    (f.types != [] ==> e.eventType in f.types) &&
    (f.source.Some? ==> f.source.value == e.source)
  }

  /**
   A filter mask combined from a list when `r` was registered lets an event through, now or after any further
   registrations, exactly when its type is in the list and was registered by then, or no type of the list was.
   */
  lemma MaskPassesExactlyWhen(r: Registry, more: seq<string>, types: seq<string>, t: string)
    requires IsRegistry(r)
    ensures IsRegistry(RegisteredAll(r, more))
    ensures t in RegisteredAll(r, more) ==>
              (MaskPasses(Combined(r, types), MaskOf(RegisteredAll(r, more), t).value) <==>
               (t in types && t in r) || !AnyRegistered(r, types))
  {
    RegistriesOnlyGrow(r, more);
    var later := RegisteredAll(r, more);
    if t in later {
      hide Combined, Bit, AnyRegistered, Meets;
      CombinedMeets(r, later, types, t);
      BitFacts(Combined(r, types), MaskOf(later, t).value);
    }
  }

  /** If all listed types were registered in time, the bit test and the list test are the same test. */
  lemma BitTestIsListTest(r: Registry, more: seq<string>, types: seq<string>, t: string)
    requires IsRegistry(r) && types != [] && forall i :: 0 <= i < |types| ==> types[i] in r
    ensures IsRegistry(RegisteredAll(r, more))
    ensures t in RegisteredAll(r, more) ==>
              (MaskPasses(Combined(r, types), MaskOf(RegisteredAll(r, more), t).value) <==> t in types)
  {
    hide Combined, Bit, Meets, MaskPasses;
    MaskPassesExactlyWhen(r, more, types, t);
    assert types[0] in r;
  }

  /** What a filter on a list of types, with the mask combined from it, lets through. */
  lemma FilterAcceptsExactlyWhen(r: Registry, more: seq<string>, f: EventFilter, e: Event)
    requires IsRegistry(r) && f.types != [] && f.mask == Combined(r, f.types)
    requires IsRegistry(RegisteredAll(r, more)) && MaskOf(RegisteredAll(r, more), e.eventType) == Some(e.mask)
    ensures Matches(f, e) <==>
            f.task in {None, Some(e.task)} && f.source in {None, Some(e.source)} && e.eventType in f.types &&
            (e.eventType in r || !AnyRegistered(r, f.types))
  {
    hide Combined, Bit, Meets, MaskPasses, AnyRegistered;
    assert e.eventType in RegisteredAll(r, more);
    MaskPassesExactlyWhen(r, more, f.types, e.eventType);
    assert MaskPasses(f.mask, e.mask) <==> (e.eventType in f.types && e.eventType in r) || !AnyRegistered(r, f.types);
    assert (f.task.Some? ==> f.task.value == e.task) <==> f.task in {None, Some(e.task)};
    assert (f.source.Some? ==> f.source.value == e.source) <==> f.source in {None, Some(e.source)};
  }

  /** Without a type list and mask, a filter looks at task and source only. */
  lemma OpenFilterAcceptsExactlyWhen(f: EventFilter, e: Event)
    requires f.types == [] && f.mask == 0
    ensures Matches(f, e) <==> f.task in {None, Some(e.task)} && f.source in {None, Some(e.source)}
  {
    hide Meets;
    assert (f.task.Some? ==> f.task.value == e.task) <==> f.task in {None, Some(e.task)};
    assert (f.source.Some? ==> f.source.value == e.source) <==> f.source in {None, Some(e.source)};
  }

  /** A listed type that is registered only after the mask was combined is turned away by it. */
  lemma LateTypeExample()
    ensures IsRegistry(["A"]) && IsRegistry(RegisteredAll(["A"], ["B"])) && "B" in RegisteredAll(["A"], ["B"])
    ensures !MaskPasses(Combined(["A"], ["A", "B"]), MaskOf(RegisteredAll(["A"], ["B"]), "B").value)
  {
    hide Combined, Bit, Meets, MaskPasses;
    assert ["B"][..0] == [];
    assert RegisteredAll(["A"], ["B"]) == Registered(RegisteredAll(["A"], []), "B");
    assert "B" != "A";
    MaskPassesExactlyWhen(["A"], ["B"], ["A", "B"], "B");
    assert ["A", "B"][0] in ["A"];
  }
}
