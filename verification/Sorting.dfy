/** A stable sort by a total preorder, standing for the standard library's `sort_by` and `sort_by_key`, and filtering. */
module Sorting {
  ghost predicate TotalPreorder<T(!new)>(le: (T, T) -> bool) {
    && (forall x, y :: le(x, y) || le(y, x))
    && (forall x, y, z :: le(x, y) && le(y, z) ==> le(x, z))
  }

  ghost predicate IsSorted<T>(le: (T, T) -> bool, s: seq<T>) {
    forall i, j :: 0 <= i < j < |s| ==> le(s[i], s[j])
  }

  function Inserted<T>(le: (T, T) -> bool, x: T, s: seq<T>): seq<T> {
    if s == [] || le(x, s[0]) then [x] + s else [s[0]] + Inserted(le, x, s[1..])
  }

  function Sorted<T>(le: (T, T) -> bool, s: seq<T>): seq<T> {
    if s == [] then [] else Inserted(le, s[0], Sorted(le, s[1..]))
  }

  predicate Distinct<T(==)>(s: seq<T>) {
    forall i, j :: 0 <= i < j < |s| ==> s[i] != s[j]
  }

  /** The elements of `s` that satisfy `p`, in order. */
  function Filtered<T>(p: T -> bool, s: seq<T>): seq<T> {
    if s == [] then [] else (if p(s[0]) then [s[0]] else []) + Filtered(p, s[1..])
  }

  lemma {:induction false} InsertedIsPermutation<T>(le: (T, T) -> bool, x: T, s: seq<T>)
    ensures multiset(Inserted(le, x, s)) == multiset([x] + s)
  {
    if s != [] && !le(x, s[0]) {
      InsertedIsPermutation(le, x, s[1..]);
      assert s == [s[0]] + s[1..];
    }
  }

  lemma {:induction false} InsertedIsSorted<T(!new)>(le: (T, T) -> bool, x: T, s: seq<T>)
    requires TotalPreorder(le) && IsSorted(le, s)
    ensures IsSorted(le, Inserted(le, x, s))
  {
    if s != [] && !le(x, s[0]) {
      InsertedIsSorted(le, x, s[1..]);
      var rest := Inserted(le, x, s[1..]);
      InsertedIsPermutation(le, x, s[1..]);
      forall i | 0 <= i < |rest|
        ensures le(s[0], rest[i])
      {
        assert rest[i] in multiset(rest);
        assert rest[i] in [x] + s[1..];
      }
    }
  }

  lemma {:induction false} SortedProperties<T(!new)>(le: (T, T) -> bool, s: seq<T>)
    requires TotalPreorder(le)
    ensures IsSorted(le, Sorted(le, s))
    ensures multiset(Sorted(le, s)) == multiset(s)
    ensures |Sorted(le, s)| == |s|
  {
    if s != [] {
      SortedProperties(le, s[1..]);
      InsertedIsSorted(le, s[0], Sorted(le, s[1..]));
      InsertedIsPermutation(le, s[0], Sorted(le, s[1..]));
      assert s == [s[0]] + s[1..];
      assert multiset(Sorted(le, s)) == multiset([s[0]] + Sorted(le, s[1..]));
    }
    assert |multiset(Sorted(le, s))| == |multiset(s)|;
  }

  lemma {:induction false} InsertedBeforeEquals<T>(le: (T, T) -> bool, x: T, s: seq<T>, p: T -> bool)
    requires forall y, z :: p(y) && p(z) ==> le(y, z)
    ensures Filtered(p, Inserted(le, x, s)) == Filtered(p, [x] + s)
  {
    if s != [] && !le(x, s[0]) {
      InsertedBeforeEquals(le, x, s[1..], p);
      assert ([x] + s)[1..] == s && ([x] + s[1..])[1..] == s[1..];
      assert Inserted(le, x, s)[1..] == Inserted(le, x, s[1..]);
    }
  }

  /** Elements that all compare equal keep their order. */
  lemma {:induction false} SortedIsStable<T>(le: (T, T) -> bool, s: seq<T>, p: T -> bool)
    requires forall y, z :: p(y) && p(z) ==> le(y, z)
    ensures Filtered(p, Sorted(le, s)) == Filtered(p, s)
  {
    if s != [] {
      SortedIsStable(le, s[1..], p);
      InsertedBeforeEquals(le, s[0], Sorted(le, s[1..]), p);
      assert ([s[0]] + Sorted(le, s[1..]))[1..] == Sorted(le, s[1..]);
    }
  }

  lemma HeadsAgree<T>(r: (T, T) -> bool, a: seq<T>, b: seq<T>)
    requires IsSorted(r, a) && IsSorted(r, b) && a != [] && b != [] && multiset(a) == multiset(b)
    requires forall x, y :: x in a && y in a && r(x, y) ==> !r(y, x)
    ensures a[0] == b[0]
  {
    assert a[0] in multiset(a) && b[0] in multiset(b);
    var i :| 0 <= i < |a| && a[i] == b[0];
    var j :| 0 <= j < |b| && b[j] == a[0];
  }

  lemma TailsAgree<T>(a: seq<T>, b: seq<T>)
    requires a != [] && b != [] && a[0] == b[0] && multiset(a) == multiset(b)
    ensures multiset(a[1..]) == multiset(b[1..])
    ensures forall x :: x in a[1..] ==> x in a
  {
    assert a == [a[0]] + a[1..] && b == [b[0]] + b[1..];
    assert multiset(a[1..]) == multiset(a) - multiset{a[0]};
    assert multiset(b[1..]) == multiset(b) - multiset{b[0]};
  }

  /** There is only one way to line things up by a strict order. */
  lemma {:induction false} OneArrangement<T>(r: (T, T) -> bool, a: seq<T>, b: seq<T>)
    requires IsSorted(r, a) && IsSorted(r, b) && multiset(a) == multiset(b)
    requires forall x, y :: x in a && y in a && r(x, y) ==> !r(y, x)
    ensures a == b
  {
    assert |multiset(a)| == |a| && |multiset(b)| == |b|;
    if a != [] {
      HeadsAgree(r, a, b);
      TailsAgree(a, b);
      assert IsSorted(r, a[1..]) && IsSorted(r, b[1..]);
      hide IsSorted;
      OneArrangement(r, a[1..], b[1..]);
      assert a == [a[0]] + a[1..] && b == [b[0]] + b[1..];
    }
  }

  lemma {:induction false} FilteredHas<T>(p: T -> bool, s: seq<T>, x: T)
    ensures x in Filtered(p, s) <==> x in s && p(x)
  {
    if s != [] {
      assert s == [s[0]] + s[1..];
      FilteredHas(p, s[1..], x);
    }
  }

  lemma {:induction false} FilteredOnce<T>(p: T -> bool, s: seq<T>) returns (i: nat)
    requires |Filtered(p, s)| == 1
    ensures i < |s| && p(s[i]) && Filtered(p, s) == [s[i]] && forall j :: 0 <= j < |s| && j != i ==> !p(s[j])
  {
    if p(s[0]) {
      i := 0;
      forall j | 0 < j < |s|
        ensures !p(s[j])
      {
        FilteredHas(p, s[1..], s[j]);
        assert s[j] == s[1..][j - 1];
      }
    } else {
      var k := FilteredOnce(p, s[1..]);
      i := k + 1;
      assert forall j :: 0 < j < |s| ==> s[j] == s[1..][j - 1];
    }
  }

  lemma {:induction false} OnceFiltered<T>(p: T -> bool, s: seq<T>, i: nat)
    requires i < |s| && p(s[i]) && forall j :: 0 <= j < |s| && j != i ==> !p(s[j])
    ensures Filtered(p, s) == [s[i]]
  {
    var before, after := s[..i], s[i + 1..];
    assert s == before + ([s[i]] + after);
    FilteredConcat(p, before, [s[i]] + after);
    FilteredConcat(p, [s[i]], after);
    NoneFiltered(p, before);
    NoneFiltered(p, after);
    assert Filtered(p, [s[i]]) == [s[i]];
  }

  lemma {:induction false} NoneFiltered<T>(p: T -> bool, s: seq<T>)
    requires forall i :: 0 <= i < |s| ==> !p(s[i])
    ensures Filtered(p, s) == []
  {
    if s != [] {
      NoneFiltered(p, s[1..]);
    }
  }

  lemma {:induction false} FilteredIsDistinct<T>(p: T -> bool, s: seq<T>)
    requires Distinct(s)
    ensures Distinct(Filtered(p, s))
  {
    if s != [] {
      FilteredIsDistinct(p, s[1..]);
      FilteredHas(p, s[1..], s[0]);
    }
  }

  lemma {:induction false} FilteredIsWhole<T>(p: T -> bool, s: seq<T>)
    requires forall x :: x in s ==> p(x)
    ensures Filtered(p, s) == s
  {
    if s != [] {
      FilteredIsWhole(p, s[1..]);
    }
  }

  lemma {:induction false} FilteredConcat<T>(p: T -> bool, s: seq<T>, t: seq<T>)
    ensures Filtered(p, s + t) == Filtered(p, s) + Filtered(p, t)
  {
    if s == [] {
      assert s + t == t;
    } else {
      var head := if p(s[0]) then [s[0]] else [];
      FilteredConcat(p, s[1..], t);
      assert (s + t)[0] == s[0] && (s + t)[1..] == s[1..] + t;
      assert Filtered(p, s + t) == head + (Filtered(p, s[1..]) + Filtered(p, t));
      assert Filtered(p, s) == head + Filtered(p, s[1..]);
    }
  }
}
