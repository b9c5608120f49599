/** The string operations the source takes from its standard library: trimming and substring search. */
module Text {
  import opened Wrappers

  /** The characters with the Unicode White_Space property. */
  predicate IsWhitespace(c: char) {
    var n := c as int;
    0x09 <= n <= 0x0D || n == 0x20 || n == 0x85 || n == 0xA0 || n == 0x1680 || 0x2000 <= n <= 0x200A ||
    n == 0x2028 || n == 0x2029 || n == 0x202F || n == 0x205F || n == 0x3000
  }

  predicate Blank(s: string) {
    forall i :: 0 <= i < |s| ==> IsWhitespace(s[i])
  }

  function TrimStart(s: string): string {
    if s != "" && IsWhitespace(s[0]) then TrimStart(s[1..]) else s
  }

  function TrimEnd(s: string): string {
    if s != "" && IsWhitespace(s[|s| - 1]) then TrimEnd(s[..|s| - 1]) else s
  }

  function Trim(s: string): string {
    TrimEnd(TrimStart(s))
  }

  /** Nothing left to trim at either end. */
  predicate Trimmed(s: string) {
    s == "" || (!IsWhitespace(s[0]) && !IsWhitespace(s[|s| - 1]))
  }

  lemma {:induction false} TrimStartSplits(s: string) returns (pad: string)
    ensures Blank(pad) && s == pad + TrimStart(s)
    ensures TrimStart(s) == "" || !IsWhitespace(TrimStart(s)[0])
  {
    if s != "" && IsWhitespace(s[0]) {
      var rest := TrimStartSplits(s[1..]);
      pad := [s[0]] + rest;
      assert s == [s[0]] + (rest + TrimStart(s[1..]));
      assert s == pad + TrimStart(s[1..]);
    } else {
      pad := "";
    }
  }

  lemma {:induction false} TrimEndSplits(s: string) returns (pad: string)
    ensures Blank(pad) && s == TrimEnd(s) + pad
    ensures TrimEnd(s) == "" || !IsWhitespace(TrimEnd(s)[|TrimEnd(s)| - 1])
  {
    if s != "" && IsWhitespace(s[|s| - 1]) {
      var rest := TrimEndSplits(s[..|s| - 1]);
      pad := rest + [s[|s| - 1]];
      assert s == TrimEnd(s[..|s| - 1]) + rest + [s[|s| - 1]];
      assert s == TrimEnd(s[..|s| - 1]) + pad;
    } else {
      pad := "";
    }
  }

  /** Trimming removes white space at both ends and nothing else. */
  lemma TrimSplits(s: string) returns (before: string, after: string)
    ensures Blank(before) && Blank(after) && s == before + Trim(s) + after && Trimmed(Trim(s))
  {
    before := TrimStartSplits(s);
    after := TrimEndSplits(TrimStart(s));
    assert TrimStart(s) == Trim(s) + after;
    if Trim(s) != "" {
      assert TrimStart(s)[0] == Trim(s)[0];
    }
  }

  lemma {:induction false} TrimStartOfPadded(pad: string, core: string)
    requires Blank(pad) && (core == "" || !IsWhitespace(core[0]))
    ensures TrimStart(pad + core) == core
  {
    if pad == "" {
      assert pad + core == core;
    } else {
      assert (pad + core)[1..] == pad[1..] + core;
      TrimStartOfPadded(pad[1..], core);
    }
  }

  lemma {:induction false} TrimEndOfPadded(core: string, pad: string)
    requires Blank(pad) && (core == "" || !IsWhitespace(core[|core| - 1]))
    ensures TrimEnd(core + pad) == core
  {
    if pad == "" {
      assert core + pad == core;
    } else {
      assert (core + pad)[..|core + pad| - 1] == core + pad[..|pad| - 1];
      TrimEndOfPadded(core, pad[..|pad| - 1]);
    }
  }

  lemma TrimOfPadded(before: string, core: string, after: string)
    requires Blank(before) && Blank(after) && core != "" && Trimmed(core)
    ensures Trim(before + core + after) == core
  {
    assert before + core + after == before + (core + after);
    TrimStartOfPadded(before, core + after);
    TrimEndOfPadded(core, after);
  }

  lemma TrimOfTrimmed(s: string)
    requires Trimmed(s)
    ensures Trim(s) == s
  {
  }

  // ---------- searching ----------

  predicate OccursAt(text: string, pattern: string, i: nat) {
    i + |pattern| <= |text| && text[i..i + |pattern|] == pattern
  }

  lemma CharsOfOccurrence(text: string, pattern: string, i: nat)
    requires OccursAt(text, pattern, i)
    ensures forall k :: 0 <= k < |pattern| ==> pattern[k] == text[i + k]
  {
    forall k | 0 <= k < |pattern|
      ensures pattern[k] == text[i + k]
    {
      assert text[i..i + |pattern|][k] == text[i + k];
    }
  }

  function FindFrom(text: string, pattern: string, from: nat): (r: Option<nat>)
    requires from <= |text|
    ensures r.Some? ==> from <= r.value && OccursAt(text, pattern, r.value) && forall j: nat :: from <= j < r.value ==> !OccursAt(text, pattern, j)
    ensures r.None? ==> forall j: nat :: from <= j ==> !OccursAt(text, pattern, j)
    decreases |text| - from
  {
    if OccursAt(text, pattern, from) then Some(from)
    else if from == |text| then None
    else FindFrom(text, pattern, from + 1)
  }

  /** The first occurrence of `pattern`. */
  function Find(text: string, pattern: string): (r: Option<nat>)
    ensures r.Some? ==> OccursAt(text, pattern, r.value) && forall j: nat :: j < r.value ==> !OccursAt(text, pattern, j)
    ensures r.None? ==> forall j: nat :: !OccursAt(text, pattern, j)
  {
    FindFrom(text, pattern, 0)
  }

  // ---------- ordering ----------

  /** Strict lexicographic order by code point. */
  predicate Below(a: string, b: string) {
    b != "" && (a == "" || a[0] < b[0] || (a[0] == b[0] && Below(a[1..], b[1..])))
  }

  lemma {:induction false} BelowIsTotal(a: string, b: string)
    ensures a == b || Below(a, b) || Below(b, a)
    ensures !(Below(a, b) && Below(b, a)) && !Below(a, a)
  {
    if a != "" {
      BelowIsTotal(a[1..], a[1..]);
    }
    if a != "" && b != "" {
      BelowIsTotal(a[1..], b[1..]);
      assert a == [a[0]] + a[1..] && b == [b[0]] + b[1..];
    }
  }

  lemma {:induction false} BelowIsTransitive(a: string, b: string, c: string)
    requires Below(a, b) && Below(b, c)
    ensures Below(a, c)
  {
    if a != "" && a[0] == b[0] == c[0] {
      BelowIsTransitive(a[1..], b[1..], c[1..]);
    }
  }

  /** The least key of a non-empty set. */
  lemma {:induction false} LeastKey(keys: set<string>) returns (least: string)
    requires keys != {}
    ensures least in keys && forall k :: k in keys && k != least ==> Below(least, k)
  {
    var some :| some in keys;
    if keys == {some} {
      least := some;
    } else {
      var rest := LeastKey(keys - {some});
      least := if Below(some, rest) then some else rest;
      BelowIsTotal(some, rest);
      forall k | k in keys && k != least
        ensures Below(least, k)
      {
        if k != some && k != rest && least == some {
          BelowIsTransitive(some, rest, k);
        }
      }
    }
  }

  /** The decimal digits of a number. */
  function Decimal(n: nat): (r: string)
    ensures r != "" && forall i :: 0 <= i < |r| ==> '0' <= r[i] <= '9'
  {
    var digit := ['0' + (n % 10) as char];
    if n < 10 then digit else Decimal(n / 10) + digit
  }
}
