/**
 Cutting a conversation down to size (src/core/context_compressor.rs, `ContextWindowManager`).
 The loops are methods proved against the functions below; the theorems are about those functions.
 */
module ContextWindow {
  import opened Wrappers
  import T = Text

  datatype ToolCall = ToolCall(id: string, name: string, arguments: string)

  datatype Message = Message(role: string, content: string, name: Option<string>, toolCalls: Option<seq<ToolCall>>,
                             toolCallId: Option<string>, reasoning: Option<string>)

  datatype Settings = Settings(maxMessages: nat, compressionRatio: real, preserveRecent: nat)

  /** `SlicePanic`: the program stops because a slice begins after its end. */
  datatype Outcome = SlicePanic | Compression(messages: seq<Message>, summary: string)

  // ---------- messages and groups ----------

  predicate Holds(m: Message, id: string) {
    m.toolCalls.Some? && exists c :: c in m.toolCalls.value && c.id == id
  }

  predicate HasId(m: Message) {
    m.toolCallId.Some? && m.toolCallId.value != ""
  }

  predicate IsTool(m: Message) {
    m.role == "tool"
  }

  function AsUser(content: string): Message {
    Message("user", content, None, None, None, None)
  }

  function SummaryMessage(summary: string): Message {
    AsUser("[History Summary] " + summary)
  }

  /** Message `i` answers a call of the assistant message `h`, with only tool messages in between. */
  ghost predicate Answers(messages: seq<Message>, i: nat, h: nat)
    requires i < |messages| && HasId(messages[i])
  {
    h < i && messages[h].role == "assistant" && Holds(messages[h], messages[i].toolCallId.value) &&
    forall k :: h < k < i ==> IsTool(messages[k])
  }

  /** Every run of tool messages directly follows the assistant message that made the calls; nobody else makes calls. */
  ghost predicate WellGrouped(messages: seq<Message>) {
    && (forall i :: 0 <= i < |messages| && IsTool(messages[i]) ==> HasId(messages[i]) && exists h: nat :: Answers(messages, i, h))
    && (forall i, id :: 0 <= i < |messages| && Holds(messages[i], id) ==> messages[i].role == "assistant")
  }

  // ---------- moving a boundary ----------

  /** The last of the first `n` messages that holds call `id`. */
  function LastHolder(messages: seq<Message>, id: string, n: nat): (r: Option<nat>)
    requires n <= |messages|
    ensures r.Some? ==> r.value < n && Holds(messages[r.value], id) && forall k :: r.value < k < n ==> !Holds(messages[k], id)
    ensures r.None? ==> forall k :: 0 <= k < n ==> !Holds(messages[k], id)
  {
    if n == 0 then None
    else if Holds(messages[n - 1], id) then Some(n - 1)
    else LastHolder(messages, id, n - 1)
  }

  function AdjustedBoundary(messages: seq<Message>, boundary: nat): (r: nat)
    ensures r <= boundary
  {
    if boundary == 0 || boundary >= |messages| || !IsTool(messages[boundary]) || !HasId(messages[boundary]) then boundary
    else LastHolder(messages, messages[boundary].toolCallId.value, boundary).GetOr(boundary)
  }

  method AdjustBoundaryForToolCalls(messages: seq<Message>, boundary: nat) returns (r: nat)
    ensures r == AdjustedBoundary(messages, boundary)
  {
    if boundary == 0 || boundary >= |messages| {
      return boundary;
    }
    if messages[boundary].role != "tool" {
      return boundary;
    }
    if messages[boundary].toolCallId.None? || messages[boundary].toolCallId.value == "" {
      return boundary;
    }
    var id := messages[boundary].toolCallId.value;
    var j := boundary;
    while j > 0
      invariant j <= boundary && LastHolder(messages, id, boundary) == LastHolder(messages, id, j)
    {
      j := j - 1;
      if Holds(messages[j], id) {
        return j;
      }
    }
    return boundary;
  }

  /** On well-grouped messages an adjusted boundary never lies inside a group. */
  lemma AdjustedBoundaryIsClean(messages: seq<Message>, boundary: nat)
    requires WellGrouped(messages) && boundary <= |messages|
    ensures var r := AdjustedBoundary(messages, boundary); r < |messages| ==> !IsTool(messages[r])
  {
    if boundary < |messages| && IsTool(messages[boundary]) {
      var h: nat :| Answers(messages, boundary, h);
      var id := messages[boundary].toolCallId.value;
      forall k: nat | h < k < boundary
        ensures !Holds(messages[k], id)
      {
        assert IsTool(messages[k]);
      }
      assert LastHolder(messages, id, boundary) == Some(h);
    }
  }

  lemma HeadIsInside(messages: seq<Message>, i: nat, h: nat, from: nat)
    requires from <= i < |messages| && !IsTool(messages[from])
    requires IsTool(messages[i]) && HasId(messages[i]) && Answers(messages, i, h)
    ensures from <= h
  {
  }

  /** A stretch of well-grouped messages that begins outside a group is well grouped. */
  lemma WellGroupedSlice(messages: seq<Message>, lo: nat, hi: nat)
    requires WellGrouped(messages) && lo <= hi <= |messages| && (lo < |messages| ==> !IsTool(messages[lo]))
    ensures WellGrouped(messages[lo..hi])
  {
    var part := messages[lo..hi];
    forall i | 0 <= i < |part| && IsTool(part[i])
      ensures HasId(part[i]) && exists h: nat :: Answers(part, i, h)
    {
      var h: nat :| Answers(messages, lo + i, h);
      HeadIsInside(messages, lo + i, h, lo);
      assert forall k :: h - lo < k < i ==> part[k] == messages[lo + k];
      assert Answers(part, i, h - lo);
    }
  }

  // ---------- the orphan pass ----------

  ghost predicate Named(messages: seq<Message>, n: nat, id: string)
    requires n <= |messages|
  {
    exists j :: 0 <= j < n && messages[j].role == "assistant" && Holds(messages[j], id)
  }

  /** A tool message without an id, or whose id no earlier assistant message names. */
  ghost predicate Orphaned(messages: seq<Message>, i: nat)
    requires i < |messages|
  {
    IsTool(messages[i]) && !(HasId(messages[i]) && Named(messages, i, messages[i].toolCallId.value))
  }

  ghost function Cleaned(messages: seq<Message>): (r: seq<Message>)
    ensures |r| == |messages|
    ensures forall i :: 0 <= i < |messages| ==> r[i] == if Orphaned(messages, i) then AsUser(messages[i].content) else messages[i]
  {
    seq(|messages|, i requires 0 <= i < |messages| => if Orphaned(messages, i) then AsUser(messages[i].content) else messages[i])
  }

  method RemoveOrphanedToolMessages(messages: seq<Message>) returns (result: seq<Message>)
    ensures result == Cleaned(messages)
  {
    var known: seq<string> := [];
    result := [];
    for i := 0 to |messages|
      invariant forall id :: id in known <==> Named(messages, i, id)
      invariant |result| == i && forall j :: 0 <= j < i ==> result[j] == Cleaned(messages)[j]
    {
      var msg := messages[i];
      ghost var before := known;
      if msg.role == "assistant" {
        if msg.toolCalls.Some? {
          var calls := msg.toolCalls.value;
          for j := 0 to |calls|
            invariant forall id :: id in known <==> id in before || exists k :: 0 <= k < j && calls[k].id == id
          {
            known := known + [calls[j].id];
          }
        }
        result := result + [msg];
      } else if msg.role == "tool" {
        var isOrphaned := !(msg.toolCallId.Some? && msg.toolCallId.value != "" && msg.toolCallId.value in known);
        result := result + [if isOrphaned then AsUser(msg.content) else msg];
      } else {
        result := result + [msg];
      }
      forall id
        ensures id in known <==> Named(messages, i + 1, id)
      {
        assert id in known <==> id in before || (msg.role == "assistant" && Holds(msg, id));
      }
    }
  }

  lemma NamedSurvivesCleaning(messages: seq<Message>, n: nat, id: string)
    requires n <= |messages| && Named(messages, n, id)
    ensures Named(Cleaned(messages), n, id)
  {
    var j :| 0 <= j < n && messages[j].role == "assistant" && Holds(messages[j], id);
    assert Cleaned(messages)[j] == messages[j];
  }

  /** Afterwards every tool message has an earlier assistant message naming its call, and a second pass does nothing. */
  lemma CleaningLeavesNoOrphans(messages: seq<Message>)
    ensures forall i :: 0 <= i < |messages| ==> !Orphaned(Cleaned(messages), i)
    ensures Cleaned(Cleaned(messages)) == Cleaned(messages)
  {
    var r := Cleaned(messages);
    forall i | 0 <= i < |messages|
      ensures !Orphaned(r, i)
    {
      if IsTool(r[i]) {
        NamedSurvivesCleaning(messages, i, messages[i].toolCallId.value);
      }
    }
  }

  // ---------- summarizing ----------

  function Utf8Length(s: string): nat {
    if s == "" then 0 else
      Utf8Length(s[..|s| - 1]) +
      var c := s[|s| - 1] as int;
      if c < 0x80 then 1 else if c < 0x800 then 2 else if c < 0x1_0000 then 3 else 4
  }

  predicate Contains(s: string, t: string) {
    T.Find(s, t).Some?
  }

  predicate ReportsError(m: Message) {
    IsTool(m) && (Contains(m.content, "error") || Contains(m.content, "Error"))
  }

  predicate IsKeyContent(m: Message) {
    m.role == "assistant" && 50 < Utf8Length(m.content) < 200
  }

  predicate CallsTools(m: Message) {
    m.role == "assistant" && m.toolCalls.Some? && m.toolCalls.value != []
  }

  /** What the summary speaks of: tool calls, errors, and assistant messages of medium length. */
  ghost predicate Noteworthy(messages: seq<Message>) {
    exists m :: m in messages && (CallsTools(m) || ReportsError(m) || IsKeyContent(m))
  }

  function Joined(parts: seq<string>, separator: string): (r: string)
    ensures |parts| > 0 && |parts[0]| > 0 ==> |r| > 0
  {
    if parts == [] then "" else if |parts| == 1 then parts[0] else parts[0] + separator + Joined(parts[1..], separator)
  }

  method SummarizeMiddleMessages(messages: seq<Message>) returns (summary: string)
    ensures summary != "" <==> Noteworthy(messages)
  {
    hide Contains, Utf8Length;
    var toolNames: set<string> := {};
    var errors := 0;
    var keyContents: seq<string> := [];
    for i := 0 to |messages|
      invariant toolNames != {} <==> exists j :: 0 <= j < i && CallsTools(messages[j])
      invariant errors > 0 <==> exists j :: 0 <= j < i && ReportsError(messages[j])
      invariant errors >= 0
      invariant keyContents != [] <==> exists j :: 0 <= j < i && IsKeyContent(messages[j])
    {
      var m := messages[i];
      if m.role == "assistant" {
        if m.toolCalls.Some? {
          var names := set c | c in m.toolCalls.value :: c.name;
          assert CallsTools(m) <==> names != {} by {
            if m.toolCalls.value != [] { assert m.toolCalls.value[0].name in names; }
          }
          toolNames := toolNames + names;
        }
        if 50 < Utf8Length(m.content) < 200 {
          keyContents := keyContents + [m.content];
        }
      } else if m.role == "tool" {
        if Contains(m.content, "error") || Contains(m.content, "Error") {
          errors := errors + 1;
        }
      }
    }
    var parts: seq<string> := [];
    if toolNames != {} {
      var names := SomeOrder(toolNames);
      parts := parts + ["Tools called: " + Joined(names, ", ")];
    }
    if errors > 0 {
      parts := parts + ["Errors: " + T.Decimal(errors)];
    }
    if keyContents != [] {
      parts := parts + ["Key content: " + Joined(keyContents, "; ")];
    }
    summary := Joined(parts, " | ");
    assert Noteworthy(messages) <==> exists j :: 0 <= j < |messages| && (CallsTools(messages[j]) || ReportsError(messages[j]) || IsKeyContent(messages[j]));
  }

  /** The order in which a hash set is listed is arbitrary. */
  method SomeOrder(s: set<string>) returns (r: seq<string>)
    ensures multiset(r) == multiset(s)
  {
    r := [];
    var rest := s;
    while rest != {}
      invariant rest <= s && multiset(r) == multiset(s - rest)
      decreases rest
    {
      var x :| x in rest;
      assert s - (rest - {x}) == s - rest + {x};
      r := r + [x];
      rest := rest - {x};
    }
    assert s - rest == s;
  }

  // ---------- compressing ----------

  predicate HasSystem(messages: seq<Message>) {
    messages != [] && messages[0].role == "system"
  }

  function MiddleStart(messages: seq<Message>): nat {
    if HasSystem(messages) then 1 else 0
  }

  function RecentStart(s: Settings, messages: seq<Message>): (r: nat)
    ensures r <= |messages|
  {
    AdjustedBoundary(messages, if |messages| < s.preserveRecent then 0 else |messages| - s.preserveRecent)
  }

  /** Truncation toward zero, with negative products cut off at 0, as the cast to an unsigned integer does. */
  function Truncated(x: real): nat {
    if x <= 0.0 then 0 else x.Floor
  }

  function KeepCount(s: Settings, middle: nat): nat {
    var kept := Truncated(middle as real * s.compressionRatio);
    if kept < middle then kept else middle
  }

  /** How much of the middle is summarized. */
  function Split(s: Settings, middle: seq<Message>): (r: nat)
    ensures r <= |middle|
  {
    var keep := KeepCount(s, |middle|);
    if 0 < keep < |middle| then AdjustedBoundary(middle, |middle| - keep)
    else if keep >= |middle| then 0
    else |middle|
  }

  /** The middle slice would begin after its end. */
  predicate Panics(s: Settings, messages: seq<Message>) {
    |messages| > s.maxMessages && RecentStart(s, messages) < MiddleStart(messages)
  }

  function Middle(s: Settings, messages: seq<Message>): seq<Message>
    requires MiddleStart(messages) <= RecentStart(s, messages)
  {
    messages[MiddleStart(messages)..RecentStart(s, messages)]
  }

  /** Where the kept, unsummarized end of the conversation begins. */
  function KeptFrom(s: Settings, messages: seq<Message>): (r: nat)
    requires MiddleStart(messages) <= RecentStart(s, messages)
    ensures MiddleStart(messages) <= r <= RecentStart(s, messages)
  {
    MiddleStart(messages) + Split(s, Middle(s, messages))
  }

  function Prologue(messages: seq<Message>, summary: string): seq<Message> {
    (if HasSystem(messages) then [messages[0]] else []) + (if summary != "" then [SummaryMessage(summary)] else [])
  }

  ghost function Assembled(s: Settings, messages: seq<Message>, summary: string): seq<Message>
    requires MiddleStart(messages) <= RecentStart(s, messages)
  {
    Cleaned(Prologue(messages, summary) + messages[KeptFrom(s, messages)..])
  }

  /** The part of the middle to summarize and the part to keep. */
  method SplitMiddle(s: Settings, middle: seq<Message>) returns (toSummarize: seq<Message>, toKeep: seq<Message>)
    ensures toSummarize == middle[..Split(s, middle)] && toKeep == middle[Split(s, middle)..]
  {
    hide AdjustedBoundary, KeepCount;
    var keepCount := KeepCount(s, |middle|);
    assert middle[..0] == [] && middle[0..] == middle && middle[..|middle|] == middle && middle[|middle|..] == [];
    if keepCount > 0 && keepCount < |middle| {
      var split := |middle| - keepCount;
      split := AdjustBoundaryForToolCalls(middle, split);
      toSummarize, toKeep := middle[..split], middle[split..];
    } else if keepCount >= |middle| {
      toSummarize, toKeep := [], middle;
    } else {
      toSummarize, toKeep := middle, [];
    }
  }

  method CompressMessages(s: Settings, messages: seq<Message>) returns (o: Outcome)
    ensures |messages| <= s.maxMessages ==> o == Compression(messages, "")
    ensures o.SlicePanic? <==> Panics(s, messages)
    ensures |messages| > s.maxMessages && o.Compression? ==>
              && o.messages == Assembled(s, messages, o.summary)
              && (o.summary != "" <==> Noteworthy(messages[MiddleStart(messages)..KeptFrom(s, messages)]))
  {
    hide AdjustedBoundary, Cleaned, Noteworthy, Split, SummaryMessage, KeptFrom, Prologue;
    if |messages| <= s.maxMessages {
      return Compression(messages, "");
    }
    var recentStart := if |messages| < s.preserveRecent then 0 else |messages| - s.preserveRecent;
    recentStart := AdjustBoundaryForToolCalls(messages, recentStart);
    var recent := messages[recentStart..];
    var middleStart := if messages[0].role == "system" then 1 else 0;
    if middleStart > recentStart {
      return SlicePanic;
    }
    var middle := messages[middleStart..recentStart];
    var toSummarize, toKeep := SplitMiddle(s, middle);
    KeptPieces(s, messages);
    var summary := SummarizeMiddleMessages(toSummarize);
    var compressed := Assemble(messages, summary, toKeep + recent);
    var cleaned := RemoveOrphanedToolMessages(compressed);
    return Compression(cleaned, summary);
  }

  method Assemble(messages: seq<Message>, summary: string, kept: seq<Message>) returns (compressed: seq<Message>)
    requires messages != []
    ensures compressed == Prologue(messages, summary) + kept
  {
    compressed := [];
    if messages[0].role == "system" {
      compressed := compressed + [messages[0]];
    }
    if summary != "" {
      compressed := compressed + [SummaryMessage(summary)];
    }
    assert compressed == Prologue(messages, summary);
    compressed := compressed + kept;
  }

  lemma KeptPieces(s: Settings, messages: seq<Message>)
    requires MiddleStart(messages) <= RecentStart(s, messages)
    ensures Middle(s, messages)[..Split(s, Middle(s, messages))] == messages[MiddleStart(messages)..KeptFrom(s, messages)]
    ensures Middle(s, messages)[Split(s, Middle(s, messages))..] + messages[RecentStart(s, messages)..] == messages[KeptFrom(s, messages)..]
  {
    hide Split, RecentStart, MiddleStart;
    var lo, hi, split := MiddleStart(messages), RecentStart(s, messages), Split(s, Middle(s, messages));
    assert KeptFrom(s, messages) == lo + split && Middle(s, messages) == messages[lo..hi];
  }

  // ---------- what compression guarantees ----------

  lemma SomeAnswerIsNoOrphan(messages: seq<Message>, front: seq<Message>, from: nat, i: nat)
    requires WellGrouped(messages) && from <= i < |messages| && !IsTool(messages[from])
    ensures !Orphaned(front + messages[from..], |front| + i - from)
  {
    if IsTool(messages[i]) {
      var h: nat :| Answers(messages, i, h);
      HeadIsInside(messages, i, h, from);
      var out := front + messages[from..];
      assert out[|front| + h - from] == messages[h] && out[|front| + i - from] == messages[i];
    }
  }

  lemma PrologueIsClean(messages: seq<Message>, summary: string, rest: seq<Message>, i: nat)
    requires i < |Prologue(messages, summary)|
    ensures !Orphaned(Prologue(messages, summary) + rest, i)
  {
    hide Named, HasId;
    assert (Prologue(messages, summary) + rest)[i] == Prologue(messages, summary)[i];
  }

  /**
   On a well-grouped history compression splits no group, whatever the keep ratio: the result is the optional
   system message, the optional summary, and one unmodified suffix of the input, and the orphan pass changes nothing.
   */
  lemma GroupsStayWhole(s: Settings, messages: seq<Message>, summary: string)
    requires WellGrouped(messages) && |messages| > s.maxMessages && !Panics(s, messages)
    ensures Assembled(s, messages, summary) == Prologue(messages, summary) + messages[KeptFrom(s, messages)..]
    ensures KeptFrom(s, messages) < |messages| ==> !IsTool(messages[KeptFrom(s, messages)])
    ensures WellGrouped(messages[KeptFrom(s, messages)..])
  {
    hide KeptFrom, RecentStart, Prologue, WellGrouped, Orphaned, IsTool;
    var front, from := Prologue(messages, summary), KeptFrom(s, messages);
    KeptPartIsClean(s, messages);
    var out := front + messages[from..];
    forall i | 0 <= i < |out|
      ensures !Orphaned(out, i)
    {
      if i < |front| {
        PrologueIsClean(messages, summary, messages[from..], i);
      } else {
        SomeAnswerIsNoOrphan(messages, front, from, i - |front| + from);
      }
    }
    WellGroupedSlice(messages, from, |messages|);
    assert messages[from..|messages|] == messages[from..];
  }

  lemma StartIsClean(messages: seq<Message>)
    requires WellGrouped(messages)
    ensures MiddleStart(messages) < |messages| ==> !IsTool(messages[MiddleStart(messages)])
  {
    var lo := MiddleStart(messages);
    if lo < |messages| && IsTool(messages[lo]) {
      var h: nat :| Answers(messages, lo, h);
    }
  }

  lemma KeptPartIsClean(s: Settings, messages: seq<Message>)
    requires WellGrouped(messages) && |messages| > s.maxMessages && !Panics(s, messages)
    ensures KeptFrom(s, messages) < |messages| ==> !IsTool(messages[KeptFrom(s, messages)])
  {
    hide AdjustedBoundary, KeepCount, WellGrouped;
    var lo, hi := MiddleStart(messages), RecentStart(s, messages);
    var middle := Middle(s, messages);
    AdjustedBoundaryIsClean(messages, if |messages| < s.preserveRecent then 0 else |messages| - s.preserveRecent);
    StartIsClean(messages);
    WellGroupedSlice(messages, lo, hi);
    var keep := KeepCount(s, |middle|);
    if 0 < keep < |middle| {
      AdjustedBoundaryIsClean(middle, |middle| - keep);
      assert Split(s, middle) < |middle| ==> messages[KeptFrom(s, messages)] == middle[Split(s, middle)];
    }
  }

  ghost function Contents(messages: seq<Message>): (r: seq<string>) {
    seq(|messages|, i requires 0 <= i < |messages| => messages[i].content)
  }

  /**
   On every history, well grouped or not: the result is no longer than the input, every tool message in it has an
   earlier assistant message naming its call, and the last `preserveRecent` contents survive in order at its end.
   */
  lemma CompressionGuarantees(s: Settings, messages: seq<Message>, summary: string)
    requires |messages| > s.maxMessages && !Panics(s, messages)
    requires summary != "" ==> Noteworthy(messages[MiddleStart(messages)..KeptFrom(s, messages)])
    ensures |Assembled(s, messages, summary)| <= |messages|
    ensures forall i :: 0 <= i < |Assembled(s, messages, summary)| ==> !Orphaned(Assembled(s, messages, summary), i)
    ensures s.preserveRecent <= |messages| ==>
              var out := Assembled(s, messages, summary);
              |out| >= s.preserveRecent &&
              Contents(out)[|out| - s.preserveRecent..] == Contents(messages)[|messages| - s.preserveRecent..]
  {
    hide Cleaned, Orphaned, Split, RecentStart;
    var front, from := Prologue(messages, summary), KeptFrom(s, messages);
    CleaningLeavesNoOrphans(front + messages[from..]);
    assert |front| <= from;
    if s.preserveRecent <= |messages| {
      RecentIsKept(s, messages);
      ContentsAtEnd(front, messages, from, |messages| - s.preserveRecent);
    }
  }

  lemma RecentIsKept(s: Settings, messages: seq<Message>)
    requires MiddleStart(messages) <= RecentStart(s, messages) && s.preserveRecent <= |messages|
    ensures KeptFrom(s, messages) <= |messages| - s.preserveRecent
  {
  }

  lemma ContentsAtEnd(front: seq<Message>, messages: seq<Message>, from: nat, k: nat)
    requires from <= k <= |messages|
    ensures Contents(Cleaned(front + messages[from..]))[|front| + k - from..] == Contents(messages)[k..]
  {
    assert Contents(Cleaned(front + messages[from..])) == Contents(front) + Contents(messages)[from..];
  }

  // ---------- when it panics ----------

  /** The call whose answer is the first preserved message was made by the very first message. */
  predicate BoundaryCallAtStart(s: Settings, messages: seq<Message>) {
    && 0 < s.preserveRecent < |messages|
    && var b := messages[|messages| - s.preserveRecent];
       IsTool(b) && HasId(b) && LastHolder(messages, b.toolCallId.value, |messages| - s.preserveRecent) == Some(0)
  }

  /** The slice panic happens in exactly two situations, both with a leading system message. */
  lemma PanicsExactlyWhen(s: Settings, messages: seq<Message>)
    ensures Panics(s, messages) <==>
            |messages| > s.maxMessages && HasSystem(messages) && (|messages| <= s.preserveRecent || BoundaryCallAtStart(s, messages))
  {
  }

  /** In particular never when no more messages are preserved than allowed and a system message makes no calls. */
  lemma NoPanic(s: Settings, messages: seq<Message>)
    requires s.preserveRecent <= s.maxMessages
    requires HasSystem(messages) ==> messages[0].toolCalls.None? || messages[0].toolCalls.value == []
    ensures !Panics(s, messages)
  {
    PanicsExactlyWhen(s, messages);
  }

  /** Preserving more messages than allowed does make it panic: one system message and nothing else is enough. */
  lemma PanicExample()
    ensures Panics(Settings(0, 0.3, 4), [Message("system", "sys", None, None, None, None)])
  {
  }
}
