/** Extracting the first JSON object from a model's answer (src/batch/extractor.rs, `extract_json`). */
module JsonExtractor {
  import opened Wrappers
  import opened Text

  const FENCE_OPEN: string := "```json"
  const FENCE: string := "```"

  // ---------- the scanner ----------

  datatype Mode = Outside | Inside | Escaped

  /** How many braces are open, and whether the next character is in a string or escaped. */
  datatype Scanner = Scanner(depth: int, mode: Mode)

  function Step(s: Scanner, c: char): Scanner {
    match s.mode
    case Escaped => s.(mode := Inside)
    case Inside => if c == '\\' then s.(mode := Escaped) else if c == '"' then s.(mode := Outside) else s
    case Outside =>
      if c == '"' then s.(mode := Inside)
      else if c == '{' then s.(depth := s.depth + 1)
      else if c == '}' then s.(depth := s.depth - 1)
      else s
  }

  function Scan(s: Scanner, text: string): Scanner {
    if text == "" then s else Step(Scan(s, text[..|text| - 1]), text[|text| - 1])
  }

  /** The braces left open by `text` when braces inside string literals do not count. */
  function OpenBraces(text: string): int {
    Scan(Scanner(0, Outside), text).depth
  }

  /** `n` characters of `text` form the shortest non-empty prefix with no brace left open. */
  predicate ShortestBalanced(text: string, n: nat) {
    0 < n <= |text| && OpenBraces(text[..n]) == 0 && forall k :: 0 < k < n ==> OpenBraces(text[..k]) != 0
  }

  /** The trimmed content of the first fenced block, if it looks like JSON. */
  function FencedCandidate(text: string): Option<string> {
    match Find(text, FENCE_OPEN)
    case None => None
    case Some(start) =>
      var after := text[start + 7..];
      match Find(after, FENCE)
      case None => None
      case Some(end) =>
        var candidate := Trim(after[..end]);
        if candidate != "" && (candidate[0] == '{' || candidate[0] == '[') then Some(candidate) else None
  }

  /**
   `text` has its first opening fence after `before`, `body` ends at the first fence after it, and looks like JSON once
   white space around it is gone.
   */
  ghost predicate Fenced(text: string, before: string, body: string, after: string) {
    text == before + "```json" + body + "```" + after &&
    (forall i: nat :: !OccursAt(before, "```json", i)) &&
    (forall i: nat :: i < |body| ==> !OccursAt(body + "```" + after, "```", i)) &&
    Trim(body) != "" && Trim(body)[0] in {'{', '['}
  }

  /** A fenced block is a candidate exactly when the text has one of that form, and then it is its trimmed body. */
  lemma FencedExactlyWhen(text: string)
    ensures forall before, body, after :: Fenced(text, before, body, after) ==> FencedCandidate(text) == Some(Trim(body))
    ensures FencedCandidate(text).Some? ==> exists before, body, after :: Fenced(text, before, body, after)
  {
    hide Trim;
    forall before, body, after | Fenced(text, before, body, after)
      ensures FencedCandidate(text) == Some(Trim(body))
    {
      hide FencedCandidate;
      FencedIsCandidate(text, before, body, after);
    }
    if FencedCandidate(text).Some? {
      hide FencedCandidate;
      CandidateIsFenced(text);
    }
  }

  lemma FencedIsCandidate(text: string, before: string, body: string, after: string)
    requires Fenced(text, before, body, after)
    ensures FencedCandidate(text) == Some(Trim(body))
  {
    hide Trim;
    assert text == before + FENCE_OPEN + (body + FENCE + after);
    FirstFenceOpen(before, body + FENCE + after);
    assert text[|before| + 7..] == body + FENCE + after;
    assert OccursAt(body + FENCE + after, FENCE, |body|);
    assert (body + FENCE + after)[..|body|] == body;
  }

  lemma CandidateIsFenced(text: string)
    requires FencedCandidate(text).Some?
    ensures exists before, body, after :: Fenced(text, before, body, after)
  {
    hide Trim;
    var start := Find(text, FENCE_OPEN).value;
    var rest := text[start + 7..];
    var end := Find(rest, FENCE).value;
    var before, body, after := text[..start], rest[..end], rest[end + 3..];
    NotBeforeTheFirst(text, FENCE_OPEN, start);
    hide FencedCandidate;
    AroundOccurrence(text, "```json", start);
    AroundOccurrence(rest, "```", end);
    Flattened(before, "```json", body, "```", after);
    assert Fenced(text, before, body, after);
  }

  lemma AroundOccurrence(text: string, pattern: string, i: nat)
    requires OccursAt(text, pattern, i)
    ensures text == text[..i] + pattern + text[i + |pattern|..]
  {
  }

  lemma Flattened(a: string, b: string, c: string, d: string, e: string)
    ensures a + b + (c + d + e) == a + b + c + d + e
  {
  }

  lemma NotBeforeTheFirst(text: string, pattern: string, start: nat)
    requires Find(text, pattern) == Some(start) && pattern != ""
    ensures forall i: nat :: !OccursAt(text[..start], pattern, i)
  {
    forall i: nat
      ensures !OccursAt(text[..start], pattern, i)
    {
      if i + |pattern| <= start {
        assert text[..start][i..i + |pattern|] == text[i..i + |pattern|];
        assert !OccursAt(text, pattern, i);
      }
    }
  }

  /**
   A fenced block wins and gives its trimmed body; otherwise the result starts at the first opening brace and is the
   shortest balanced prefix from there, and there is no result exactly when no prefix is balanced.
   */
  method ExtractJson(text: string) returns (result: Option<string>)
    ensures forall before, body, after :: Fenced(text, before, body, after) ==> result == Some(Trim(body))
    ensures FencedCandidate(text).Some? ==> result == FencedCandidate(text)
    ensures (forall before, body, after :: !Fenced(text, before, body, after)) ==>
              match Find(text, "{")
              case None => result == None
              case Some(start) =>
                (result.Some? ==> exists n: nat :: ShortestBalanced(text[start..], n) && result.value == text[start..][..n]) &&
                (result.None? ==> forall n: nat :: !ShortestBalanced(text[start..], n)) &&
                (result.Some? ==> result.value[0] == '{')
  {
    FencedExactlyWhen(text);
    hide Fenced;
    if FencedCandidate(text).Some? {
      return FencedCandidate(text);
    }
    var found := Find(text, "{");
    if found.Some? {
      var rest := text[found.value..];
      var depth: int := 0;
      var inString := false;
      var escaped := false;
      for i := 0 to |rest|
        invariant Scan(Scanner(0, Outside), rest[..i]) == Scanner(depth, if escaped then Escaped else if inString then Inside else Outside)
        invariant (escaped ==> inString) && (if i == 0 then depth == 0 && !inString else depth > 0)
        invariant forall k :: 0 < k <= i ==> OpenBraces(rest[..k]) != 0
      {
        var c := rest[i];
        assert rest[..i + 1][..i] == rest[..i];
        StartsOpen(text, found.value, i);
        if escaped {
          escaped := false;
        } else if c == '\\' && inString {
          escaped := true;
        } else if c == '"' {
          inString := !inString;
        } else if c == '{' && !inString {
          depth := depth + 1;
        } else if c == '}' && !inString {
          depth := depth - 1;
          if depth == 0 {
            assert ShortestBalanced(rest, i + 1);
            return Some(rest[..i + 1]);
          }
        }
      }
    }
    return None;
  }

  /** The first character already opens a brace, so only a closing one can bring the count to zero. */
  lemma StartsOpen(text: string, start: nat, i: nat)
    requires OccursAt(text, "{", start) && i < |text| - start
    ensures i == 0 ==> text[start..][i] == '{'
  {
    assert text[start..start + 1] == "{";
  }

  // ---------- scanning a concatenation ----------

  lemma {:induction false} ScanConcat(s: Scanner, a: string, b: string)
    ensures Scan(s, a + b) == Scan(Scan(s, a), b)
  {
    if b == "" {
      assert a + b == a;
    } else {
      assert (a + b)[..|a + b| - 1] == a + b[..|b| - 1];
      ScanConcat(s, a, b[..|b| - 1]);
    }
  }

  /** Scanned outside a string, `text` ends outside with as many open braces as before, and never has fewer. */
  ghost predicate Neutral(d: int, text: string) {
    && Scan(Scanner(d, Outside), text) == Scanner(d, Outside)
    && forall n :: 0 <= n <= |text| ==> Scan(Scanner(d, Outside), text[..n]).depth >= d
  }

  lemma NeutralConcat(d: int, a: string, b: string)
    requires Neutral(d, a) && Neutral(d, b)
    ensures Neutral(d, a + b)
  {
    ScanConcat(Scanner(d, Outside), a, b);
    forall n | 0 <= n <= |a + b|
      ensures Scan(Scanner(d, Outside), (a + b)[..n]).depth >= d
    {
      if n <= |a| {
        assert (a + b)[..n] == a[..n];
      } else {
        assert (a + b)[..n] == a + b[..n - |a|];
        ScanConcat(Scanner(d, Outside), a, b[..n - |a|]);
      }
    }
  }

  predicate PlainText(text: string) {
    forall i :: 0 <= i < |text| ==> text[i] !in {'"', '{', '}'}
  }

  lemma {:induction false} PlainIsNeutral(d: int, text: string)
    requires PlainText(text)
    ensures Neutral(d, text)
  {
    if text != "" {
      var most := text[..|text| - 1];
      PlainIsNeutral(d, most);
      forall n | 0 <= n <= |text|
        ensures Scan(Scanner(d, Outside), text[..n]).depth >= d
      {
        if n <= |most| { assert text[..n] == most[..n]; } else { assert text[..n] == text; }
      }
    }
  }

  /** Braces around a neutral text: open from the first character up to the last, and only then balanced. */
  lemma BracedScan(d: int, inner: string)
    requires Neutral(d + 1, inner)
    ensures Neutral(d, "{" + inner + "}")
    ensures forall n :: 0 < n < |inner| + 2 ==> Scan(Scanner(d, Outside), ("{" + inner + "}")[..n]).depth > d
  {
    var text := "{" + inner + "}";
    assert Scan(Scanner(d, Outside), "{") == Scanner(d + 1, Outside) by { assert "{"[..0] == ""; }
    forall n | 0 < n < |text|
      ensures Scan(Scanner(d, Outside), text[..n]) == Scan(Scanner(d + 1, Outside), inner[..n - 1])
    {
      assert text[..n] == "{" + inner[..n - 1];
      ScanConcat(Scanner(d, Outside), "{", inner[..n - 1]);
    }
    assert inner[..|inner|] == inner;
    assert text[..|text| - 1] == text[..|inner| + 1];
    assert text[..0] == "" && text[..|text|] == text;
  }

  // ---------- JSON texts (RFC 8259) ----------

  /** One character of a string: itself, or an escape sequence of section 7. */
  datatype Piece = Plain(c: char) | Short(c: char) | Unicode(hex: string)

  datatype Json =
    | Literal(text: string)
    | Str(pieces: seq<Piece>)
    | Arr(pad: string, items: seq<Item>)
    | Obj(pad: string, members: seq<Member>)

  /** A value with the white space around it. */
  datatype Item = Item(before: string, value: Json, after: string)

  datatype Member = Member(before: string, key: seq<Piece>, mid: string, item: Item)

  predicate JsonSpace(s: string) {
    forall i :: 0 <= i < |s| ==> s[i] in {' ', '\t', '\n', '\r'}
  }

  predicate ValidPiece(p: Piece) {
    match p
    case Plain(c) => c >= ' ' && c != '"' && c != '\\'
    case Short(c) => c in {'"', '\\', '/', 'b', 'f', 'n', 'r', 't'}
    case Unicode(hex) => |hex| == 4 && forall i :: 0 <= i < 4 ==> hex[i] in {'0', '1', '2', '3', '4', '5', '6', '7', '8', '9', 'a', 'b', 'c', 'd', 'e', 'f', 'A', 'B', 'C', 'D', 'E', 'F'}
  }

  predicate ValidPieces(ps: seq<Piece>) {
    forall i :: 0 <= i < |ps| ==> ValidPiece(ps[i])
  }

  /** `null`, `true`, `false`, or a run of the characters numbers are made of. */
  predicate ValidLiteral(text: string) {
    text in {"null", "true", "false"} ||
    (text != "" && forall i :: 0 <= i < |text| ==> text[i] in {'0', '1', '2', '3', '4', '5', '6', '7', '8', '9', '-', '+', '.', 'e', 'E'})
  }

  predicate Valid(v: Json) {
    match v
    case Literal(text) => ValidLiteral(text)
    case Str(pieces) => ValidPieces(pieces)
    case Arr(pad, items) => JsonSpace(pad) && forall i :: 0 <= i < |items| ==> ValidItem(items[i])
    case Obj(pad, members) => JsonSpace(pad) && forall i :: 0 <= i < |members| ==> ValidMember(members[i])
  }

  predicate ValidItem(i: Item) {
    JsonSpace(i.before) && Valid(i.value) && JsonSpace(i.after)
  }

  predicate ValidMember(m: Member) {
    JsonSpace(m.before) && ValidPieces(m.key) && JsonSpace(m.mid) && ValidItem(m.item)
  }

  function RenderPiece(p: Piece): string {
    match p
    case Plain(c) => [c]
    case Short(c) => ['\\', c]
    case Unicode(hex) => "\\u" + hex
  }

  function RenderPieces(ps: seq<Piece>): string {
    if ps == [] then "" else RenderPieces(ps[..|ps| - 1]) + RenderPiece(ps[|ps| - 1])
  }

  function RenderString(ps: seq<Piece>): string {
    "\"" + RenderPieces(ps) + "\""
  }

  function Render(v: Json): string
    decreases v
  {
    match v
    case Literal(text) => text
    case Str(pieces) => RenderString(pieces)
    case Arr(pad, items) => "[" + (pad + RenderItems(items)) + "]"
    case Obj(pad, members) => "{" + (pad + RenderMembers(members)) + "}"
  }

  function RenderItem(i: Item): string
    decreases i
  {
    i.before + Render(i.value) + i.after
  }

  function RenderItems(items: seq<Item>): string
    decreases items
  {
    if items == [] then "" else if |items| == 1 then RenderItem(items[0])
    else RenderItem(items[0]) + ("," + RenderItems(items[1..]))
  }

  function RenderMember(m: Member): string
    decreases m
  {
    m.before + RenderString(m.key) + (m.mid + ":") + RenderItem(m.item)
  }

  function RenderMembers(members: seq<Member>): string
    decreases members
  {
    if members == [] then "" else if |members| == 1 then RenderMember(members[0])
    else RenderMember(members[0]) + ("," + RenderMembers(members[1..]))
  }

  // ---------- every value is neutral, by structural induction ----------

  /** Inside a string, a piece leaves the scanner inside and the count alone. */
  ghost predicate StaysInside(d: int, text: string) {
    && Scan(Scanner(d, Inside), text) == Scanner(d, Inside)
    && forall n :: 0 <= n <= |text| ==> Scan(Scanner(d, Inside), text[..n]).depth == d
  }

  lemma StaysInsideConcat(d: int, a: string, b: string)
    requires StaysInside(d, a) && StaysInside(d, b)
    ensures StaysInside(d, a + b)
  {
    ScanConcat(Scanner(d, Inside), a, b);
    forall n | 0 <= n <= |a + b|
      ensures Scan(Scanner(d, Inside), (a + b)[..n]).depth == d
    {
      if n <= |a| {
        assert (a + b)[..n] == a[..n];
      } else {
        assert (a + b)[..n] == a + b[..n - |a|];
        ScanConcat(Scanner(d, Inside), a, b[..n - |a|]);
      }
    }
  }

  lemma {:induction false} OrdinaryStaysInside(d: int, text: string)
    requires forall i :: 0 <= i < |text| ==> text[i] != '"' && text[i] != '\\'
    ensures StaysInside(d, text)
  {
    if text != "" {
      var most, last := text[..|text| - 1], text[|text| - 1..];
      OrdinaryStaysInside(d, most);
      assert last[..0] == "" && last[..1] == last && last[..|last| - 1] == "";
      assert StaysInside(d, last);
      StaysInsideConcat(d, most, last);
      assert most + last == text;
    }
  }

  /** A backslash takes the next character with it, whatever that is. */
  lemma EscapeStaysInside(d: int, c: char)
    ensures StaysInside(d, ['\\', c])
  {
    var s, text := Scanner(d, Inside), ['\\', c];
    assert text[..0] == "" && text[..1] == ['\\'] && text[..2] == text && ['\\'][..0] == "";
    assert Scan(s, ['\\']) == Scanner(d, Escaped);
  }

  lemma PieceStaysInside(d: int, p: Piece)
    requires ValidPiece(p)
    ensures StaysInside(d, RenderPiece(p))
  {
    match p {
      case Plain(c) => OrdinaryStaysInside(d, [c]);
      case Short(c) => EscapeStaysInside(d, c);
      case Unicode(hex) =>
        EscapeStaysInside(d, 'u');
        OrdinaryStaysInside(d, hex);
        StaysInsideConcat(d, ['\\', 'u'], hex);
    }
  }

  lemma {:induction false} PiecesStayInside(d: int, ps: seq<Piece>)
    requires ValidPieces(ps)
    ensures StaysInside(d, RenderPieces(ps))
  {
    if ps != [] {
      PiecesStayInside(d, ps[..|ps| - 1]);
      PieceStaysInside(d, ps[|ps| - 1]);
      StaysInsideConcat(d, RenderPieces(ps[..|ps| - 1]), RenderPiece(ps[|ps| - 1]));
    }
  }

  lemma StringIsNeutral(d: int, ps: seq<Piece>)
    requires ValidPieces(ps)
    ensures Neutral(d, RenderString(ps))
  {
    hide Scan;
    var inner, text := RenderPieces(ps), RenderString(ps);
    PiecesStayInside(d, ps);
    forall n | 0 <= n <= |text|
      ensures Scan(Scanner(d, Outside), text[..n]).depth >= d
    {
      QuotedPrefix(d, inner, n);
    }
    QuotedPrefix(d, inner, |text|);
    assert text[..|text|] == text;
  }

  /** A prefix of a string literal: nothing, part of its inside after the opening quote, or the whole. */
  lemma QuotedPrefix(d: int, inner: string, n: nat)
    requires StaysInside(d, inner) && n <= |inner| + 2
    ensures var s := Scan(Scanner(d, Outside), ("\"" + inner + "\"")[..n]);
            s.depth == d && (n == |inner| + 2 ==> s.mode == Outside)
  {
    hide Scan;
    var text := "\"" + inner + "\"";
    if n == 0 {
      ScanOne(Scanner(d, Outside), '"');
      assert text[..0] == "";
    } else {
      var m := if n <= |inner| + 1 then n - 1 else |inner|;
      ScanOne(Scanner(d, Outside), '"');
      ScanConcat(Scanner(d, Outside), "\"", inner[..m]);
      assert inner[..|inner|] == inner;
      if n == |inner| + 2 {
        ScanConcat(Scanner(d, Outside), "\"" + inner, "\"");
        ScanOne(Scanner(d, Inside), '"');
        assert text[..n] == text;
      } else {
        assert text[..n] == "\"" + inner[..m];
      }
    }
  }

  lemma ScanOne(s: Scanner, c: char)
    ensures Scan(s, [c]) == Step(s, c) && Scan(s, "") == s
  {
    assert [c][..0] == "";
  }

  lemma {:induction false} ValueIsNeutral(d: int, v: Json)
    requires Valid(v)
    ensures Neutral(d, Render(v))
    decreases v
  {
    hide Neutral;
    match v {
      case Literal(text) => PlainIsNeutral(d, text);
      case Str(pieces) => StringIsNeutral(d, pieces);
      case Arr(pad, items) =>
        PlainIsNeutral(d, pad);
        ItemsAreNeutral(d, items);
        NeutralConcat(d, pad, RenderItems(items));
        PlainIsNeutral(d, "[");
        PlainIsNeutral(d, "]");
        NeutralConcat(d, "[", pad + RenderItems(items));
        NeutralConcat(d, "[" + (pad + RenderItems(items)), "]");
      case Obj(pad, members) =>
        ObjectInside(d + 1, pad, members);
        BracedScan(d, pad + RenderMembers(members));
    }
  }

  lemma {:induction false} ObjectInside(d: int, pad: string, members: seq<Member>)
    requires JsonSpace(pad) && forall i :: 0 <= i < |members| ==> ValidMember(members[i])
    ensures Neutral(d, pad + RenderMembers(members))
    decreases members, 1
  {
    hide Neutral;
    PlainIsNeutral(d, pad);
    MembersAreNeutral(d, members);
    NeutralConcat(d, pad, RenderMembers(members));
  }

  lemma {:induction false} ItemIsNeutral(d: int, i: Item)
    requires ValidItem(i)
    ensures Neutral(d, RenderItem(i))
    decreases i
  {
    hide Neutral;
    PlainIsNeutral(d, i.before);
    PlainIsNeutral(d, i.after);
    ValueIsNeutral(d, i.value);
    NeutralConcat(d, i.before, Render(i.value));
    NeutralConcat(d, i.before + Render(i.value), i.after);
  }

  lemma {:induction false} ItemsAreNeutral(d: int, items: seq<Item>)
    requires forall i :: 0 <= i < |items| ==> ValidItem(items[i])
    ensures Neutral(d, RenderItems(items))
    decreases items
  {
    hide Neutral;
    if items == [] {
      PlainIsNeutral(d, "");
    } else {
      ItemIsNeutral(d, items[0]);
      if |items| > 1 {
        ItemsAreNeutral(d, items[1..]);
        PlainIsNeutral(d, ",");
        NeutralConcat(d, ",", RenderItems(items[1..]));
        NeutralConcat(d, RenderItem(items[0]), "," + RenderItems(items[1..]));
      }
    }
  }

  lemma {:induction false} MemberIsNeutral(d: int, m: Member)
    requires ValidMember(m)
    ensures Neutral(d, RenderMember(m))
    decreases m
  {
    hide Neutral;
    PlainIsNeutral(d, m.before);
    StringIsNeutral(d, m.key);
    PlainIsNeutral(d, m.mid + ":");
    ItemIsNeutral(d, m.item);
    NeutralConcat(d, m.before, RenderString(m.key));
    NeutralConcat(d, m.before + RenderString(m.key), m.mid + ":");
    NeutralConcat(d, m.before + RenderString(m.key) + (m.mid + ":"), RenderItem(m.item));
  }

  lemma {:induction false} MembersAreNeutral(d: int, members: seq<Member>)
    requires forall i :: 0 <= i < |members| ==> ValidMember(members[i])
    ensures Neutral(d, RenderMembers(members))
    decreases members, 0
  {
    hide Neutral;
    if members == [] {
      PlainIsNeutral(d, "");
    } else {
      MemberIsNeutral(d, members[0]);
      if |members| > 1 {
        MembersAreNeutral(d, members[1..]);
        PlainIsNeutral(d, ",");
        NeutralConcat(d, ",", RenderMembers(members[1..]));
        NeutralConcat(d, RenderMember(members[0]), "," + RenderMembers(members[1..]));
      }
    }
  }

  // ---------- extraction undoes printing ----------

  /** A printed object is itself its shortest balanced prefix, whatever follows. */
  lemma ObjectIsShortestBalanced(v: Json, after: string)
    requires v.Obj? && Valid(v)
    ensures ShortestBalanced(Render(v) + after, |Render(v)|)
  {
    ObjectInside(1, v.pad, v.members);
    BracedScan(0, v.pad + RenderMembers(v.members));
    var text := Render(v);
    forall k | 0 < k <= |text|
      ensures (text + after)[..k] == text[..k]
    {
    }
    assert text[..|text|] == text;
  }

  /**
   For every JSON object, printed in any way RFC 8259 allows, in any surrounding text with no earlier opening brace:
   the text from the first brace on has one shortest balanced prefix, and that is the printed object.
   */
  lemma ExtractionUndoesPrinting(before: string, v: Json, after: string)
    requires v.Obj? && Valid(v) && '{' !in before
    ensures Find(before + Render(v) + after, "{") == Some(|before|)
    ensures forall n: nat :: ShortestBalanced((before + Render(v) + after)[|before|..], n) <==> n == |Render(v)|
    ensures (before + Render(v) + after)[|before|..][..|Render(v)|] == Render(v)
  {
    var text := before + Render(v) + after;
    assert text[|before|] == '{' && text[|before|..|before| + 1] == "{";
    assert OccursAt(text, "{", |before|);
    forall j: nat | j < |before|
      ensures !OccursAt(text, "{", j)
    {
      assert text[j] == before[j];
      if OccursAt(text, "{", j) {
        CharsOfOccurrence(text, "{", j);
      }
    }
    var rest := text[|before|..];
    assert rest == Render(v) + after;
    ObjectIsShortestBalanced(v, after);
    forall n | ShortestBalanced(rest, n)
      ensures n == |Render(v)|
    {
    }
  }

  /** An object printed at the first brace is what the scan from there finds. */
  lemma PrintedAtFirstBrace(text: string, v: Json, start: nat)
    requires v.Obj? && Valid(v) && OccursAt(text, Render(v), start)
    ensures forall n: nat :: ShortestBalanced(text[start..], n) <==> n == |Render(v)|
    ensures text[start..][..|Render(v)|] == Render(v)
  {
    var after := text[start + |Render(v)|..];
    assert text[start..] == Render(v) + after;
    ObjectIsShortestBalanced(v, after);
    forall n: nat | ShortestBalanced(text[start..], n)
      ensures n == |Render(v)|
    {
    }
  }

  lemma FenceMarks(before: string, body: string, after: string)
    ensures var text := before + "```json" + body + "```" + after;
            OccursAt(text, "```json", |before|) && OccursAt(text, "```", |before| + 7 + |body|)
  {
    var text := before + "```json" + body + "```" + after;
    var n := |before| + 7 + |body|;
    assert text[|before|..|before| + 7] == "```json" && text[n..n + 3] == "```";
  }

  /** An opening fence that is never closed is no block. */
  lemma UnclosedIsNotFenced(text: string)
    requires forall i: nat, j: nat :: OccursAt(text, "```json", i) && i + 7 <= j ==> !OccursAt(text, "```", j)
    ensures forall before, body, after :: !Fenced(text, before, body, after)
  {
    forall before, body, after
      ensures !Fenced(text, before, body, after)
    {
      FenceMarks(before, body, after);
    }
  }

  /**
   As a call: a printed object comes back from a text exactly when the fenced block that wins is that object, or no block
   wins and the object stands at the first opening brace. With no earlier brace only a fenced block can come between,
   and without an opening fence, or a closing one after it, nothing can.
   */
  method RoundTrip(before: string, v: Json, after: string) returns (result: Option<string>)
    requires v.Obj? && Valid(v)
    ensures var text := before + Render(v) + after;
            result == Some(Render(v)) <==>
            if exists b, c, a :: Fenced(text, b, c, a) then exists b, c, a :: Fenced(text, b, c, a) && Trim(c) == Render(v)
            else Find(text, "{").Some? && OccursAt(text, Render(v), Find(text, "{").value)
    ensures '{' !in before && (forall b, c, a :: !Fenced(before + Render(v) + after, b, c, a)) ==> result == Some(Render(v))
    ensures var text := before + Render(v) + after;
            '{' !in before && (forall i: nat, j: nat :: OccursAt(text, "```json", i) && i + 7 <= j ==> !OccursAt(text, "```", j)) ==>
              result == Some(Render(v))
  {
    var text := before + Render(v) + after;
    FencedExactlyWhen(text);
    if forall i: nat, j: nat :: OccursAt(text, "```json", i) && i + 7 <= j ==> !OccursAt(text, "```", j) {
      UnclosedIsNotFenced(text);
    }
    hide Fenced, FencedCandidate, Trim, Render, Valid;
    result := ExtractJson(text);
    if '{' !in before {
      ExtractionUndoesPrinting(before, v, after);
      assert OccursAt(text, Render(v), |before|);
    }
    var start := Find(text, "{");
    if FencedCandidate(text).None? && start.Some? {
      if OccursAt(text, Render(v), start.value) {
        PrintedAtFirstBrace(text, v, start.value);
        assert ShortestBalanced(text[start.value..], |Render(v)|);
      } else if result.Some? {
        var n: nat :| ShortestBalanced(text[start.value..], n) && result.value == text[start.value..][..n];
        assert text[start.value..][..n] == text[start.value..start.value + n];
      }
    }
  }

  // ---------- fenced blocks ----------

  ghost predicate NoFence(s: string) {
    forall i: nat :: !OccursAt(s, FENCE, i)
  }

  /** The opening mark cannot begin inside itself. */
  lemma NoSelfOverlap(text: string, j: nat, k: nat)
    requires OccursAt(text, FENCE_OPEN, j) && OccursAt(text, FENCE_OPEN, k)
    ensures !(j < k < j + 7)
  {
    CharsOfOccurrence(text, FENCE_OPEN, j);
    CharsOfOccurrence(text, FENCE_OPEN, k);
    if j < k < j + 7 {
      var i := MarkHasNoBorder(k - j);
    }
  }

  lemma MarkHasNoBorder(shift: nat) returns (i: nat)
    requires 0 < shift < 7
    ensures i + shift < 7 && FENCE_OPEN[i] != FENCE_OPEN[i + shift]
  {
    i := if shift < 3 then 3 - shift else 0;
  }

  lemma EndsInFence(text: string, j: nat, k: nat)
    requires OccursAt(text, FENCE, j) && j <= k < j + 3
    ensures text[k] == '`'
  {
    CharsOfOccurrence(text, FENCE, j);
    assert FENCE[k - j] == text[j + (k - j)];
  }

  lemma FirstFenceOpen(before: string, rest: string)
    requires Find(before, FENCE_OPEN).None?
    ensures Find(before + FENCE_OPEN + rest, FENCE_OPEN) == Some(|before|)
  {
    var text := before + FENCE_OPEN + rest;
    assert text[|before|..|before| + 7] == FENCE_OPEN;
    assert OccursAt(text, FENCE_OPEN, |before|);
    forall j: nat | j < |before|
      ensures !OccursAt(text, FENCE_OPEN, j)
    {
      if OccursAt(text, FENCE_OPEN, j) {
        if j + 7 <= |before| {
          assert text[j..j + 7] == before[j..j + 7];
          assert OccursAt(before, FENCE_OPEN, j);
        } else {
          NoSelfOverlap(text, j, |before|);
        }
      }
    }
  }

  lemma FirstFenceClose(body: string, rest: string)
    requires NoFence(body) && (body == "" || body[|body| - 1] != '`')
    ensures Find(body + FENCE + rest, FENCE) == Some(|body|)
  {
    var text := body + FENCE + rest;
    assert text[|body|..|body| + 3] == FENCE;
    assert OccursAt(text, FENCE, |body|);
    forall j: nat | j < |body|
      ensures !OccursAt(text, FENCE, j)
    {
      if OccursAt(text, FENCE, j) {
        if j + 3 <= |body| {
          assert text[j..j + 3] == body[j..j + 3];
          assert OccursAt(body, FENCE, j);
        } else {
          EndsInFence(text, j, |body| - 1);
        }
      }
    }
  }

  /** The first fenced block without an inner fence gives back its trimmed content. */
  lemma FencedBlockIsTrimmed(before: string, body: string, after: string)
    requires Find(before, FENCE_OPEN).None? && NoFence(body) && (body == "" || body[|body| - 1] != '`')
    requires Trim(body) != "" && (Trim(body)[0] == '{' || Trim(body)[0] == '[')
    ensures FencedCandidate(before + FENCE_OPEN + body + FENCE + after) == Some(Trim(body))
  {
    var text := before + FENCE_OPEN + body + FENCE + after;
    assert text == before + FENCE_OPEN + (body + FENCE + after);
    FirstFenceOpen(before, body + FENCE + after);
    assert text[|before| + 7..] == body + FENCE + after;
    FirstFenceClose(body, after);
    assert (body + FENCE + after)[..|body|] == body;
  }

  lemma ObjectEnds(v: Json)
    requires v.Obj?
    ensures Render(v)[0] == '{' && Render(v)[|Render(v)| - 1] == '}' && Trimmed(Render(v))
  {
  }

  lemma SpaceIsBlank(s: string)
    requires JsonSpace(s)
    ensures Blank(s)
  {
  }

  /** In particular a fenced object with white space around it comes back exactly. */
  lemma FencedObjectComesBack(before: string, lead: string, v: Json, trail: string, after: string)
    requires v.Obj? && JsonSpace(lead) && JsonSpace(trail)
    requires Find(before, FENCE_OPEN).None? && NoFence(Render(v))
    ensures FencedCandidate(before + FENCE_OPEN + (lead + Render(v) + trail) + FENCE + after) == Some(Render(v))
  {
    var body := lead + Render(v) + trail;
    ObjectEnds(v);
    SpaceIsBlank(lead);
    SpaceIsBlank(trail);
    TrimOfPadded(lead, Render(v), trail);
    forall i: nat | OccursAt(body, FENCE, i)
      ensures i >= |lead| && OccursAt(Render(v), FENCE, i - |lead|)
    {
      EndsInFence(body, i, i);
      EndsInFence(body, i, i + 2);
      assert i >= |lead| && i + 3 <= |lead| + |Render(v)|;
      assert body[i..i + 3] == Render(v)[i - |lead|..i - |lead| + 3];
    }
    FencedBlockIsTrimmed(before, body, after);
  }

  // ---------- a fence inside a string ----------

  function PlainPieces(s: string): (r: seq<Piece>) {
    seq(|s|, i requires 0 <= i < |s| => Plain(s[i]))
  }

  lemma {:induction false} PlainPiecesSpell(s: string)
    ensures RenderPieces(PlainPieces(s)) == s
  {
    if s != "" {
      var most := s[..|s| - 1];
      PlainPiecesSpell(most);
      assert PlainPieces(s)[..|s| - 1] == PlainPieces(most);
    }
  }

  /** The object with one key and the value 1. */
  function OneMember(key: string): Json {
    Obj("", [Member("", PlainPieces(key), "", Item("", Literal("1"), ""))])
  }

  lemma OneMemberPrints(key: string)
    requires forall i :: 0 <= i < |key| ==> ValidPiece(Plain(key[i]))
    ensures Render(OneMember(key)) == "{\"" + key + "\":1}"
    ensures OneMember(key).Obj? && Valid(OneMember(key))
  {
    assert ValidPieces(PlainPieces(key)) && ValidLiteral("1");
    hide RenderPieces, ValidPieces, ValidLiteral;
    PlainPiecesSpell(key);
    var m := OneMember(key).members[0];
    assert ValidItem(m.item) && ValidMember(m);
    assert RenderItem(m.item) == "1";
    assert RenderMember(m) == "\"" + key + "\":1";
    assert RenderMembers([m]) == RenderMember(m);
  }

  /** A fenced block inside a key is taken for the answer: printed with nothing around it, such an object comes out as the block. */
  lemma FencedKeyWins(body: string)
    requires NoFence(body) && forall i :: 0 <= i < |body| ==> ValidPiece(Plain(body[i])) && body[i] != '`'
    requires Trim(body) != "" && (Trim(body)[0] == '{' || Trim(body)[0] == '[')
    ensures var v := OneMember(FENCE_OPEN + body + FENCE);
            v.Obj? && Valid(v) && FencedCandidate(Render(v)) == Some(Trim(body)) && Trim(body) != Render(v)
  {
    hide Render, Valid, FencedCandidate, OneMember, Trim, NoFence;
    var key := FENCE_OPEN + body + FENCE;
    OneMemberPrints(key);
    NoMarkIn("{\"");
    FencedBlockIsTrimmed("{\"", body, "\":1}");
    assert "{\"" + key + "\":1}" == "{\"" + FENCE_OPEN + body + FENCE + "\":1}";
    var before, after := TrimSplits(body);
    assert |Trim(body)| <= |body|;
  }

  lemma NoMarkIn(s: string)
    requires |s| < 7
    ensures Find(s, FENCE_OPEN).None?
  {
  }

  lemma FencedKeyExample()
    ensures var v := OneMember(FENCE_OPEN + "{" + FENCE);
            v.Obj? && Valid(v) && FencedCandidate(Render(v)) == Some("{") && Render(v) != "{"
  {
    hide Render, Valid, FencedCandidate, OneMember, Find;
    TrimOfTrimmed("{");
    FencedKeyWins("{");
  }

  /** A fence that was never closed is passed over: the object after it comes out. */
  lemma UnclosedFenceExample()
    ensures forall before, body, after :: !Fenced("```json\n" + Render(OneMember("a")) + "\nok", before, body, after)
    ensures Render(OneMember("a")) == "{\"a\":1}"
  {
    OneMemberPrints("a");
    var text := "```json\n{\"a\":1}\nok";
    assert "```json\n" + Render(OneMember("a")) + "\nok" == text;
    forall j: nat | 7 <= j
      ensures !OccursAt(text, "```", j)
    {
      if j + 3 <= |text| {
        assert text[j..j + 3][0] == text[j] && text[j] != '`';
      }
    }
    UnclosedIsNotFenced(text);
  }
}
