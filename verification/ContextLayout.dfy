/**
 How much of a conversation survives compression, and where (src/core/context_compressor.rs, `compress_messages`):
 the boundaries and the length of the result in terms of the settings and the messages alone.
 */
module ContextLayout {
  import opened Wrappers
  import opened ContextWindow
  import T = Text

  /** Message `i` answers a call that message `h` holds and no message from `h + 1` to `i - 1` does. */
  ghost predicate AnswersLast(messages: seq<Message>, i: nat, h: nat)
    requires h < i < |messages|
  {
    messages[i].role == "tool" && messages[i].toolCallId.Some? && messages[i].toolCallId.value != "" &&
    MakesCall(messages[h], messages[i].toolCallId.value) &&
    forall k :: h < k < i ==> !MakesCall(messages[k], messages[i].toolCallId.value)
  }

  predicate MakesCall(m: Message, id: string) {
    m.toolCalls.Some? && exists i :: 0 <= i < |m.toolCalls.value| && m.toolCalls.value[i].id == id
  }

  /** A cut meant before message `b` is made at `r`: there, or at the call from message `lo` on that message `b` answers. */
  ghost predicate CutAt(messages: seq<Message>, lo: nat, b: nat, r: nat) {
    (r == b && (b < |messages| ==> forall h :: lo <= h < b ==> !AnswersLast(messages, b, h))) ||
    (lo <= r < b < |messages| && AnswersLast(messages, b, r))
  }

  /** A boundary moves to the last earlier message that makes the call its message answers, and else stays. */
  lemma BoundaryMovesExactlyWhen(messages: seq<Message>, boundary: nat)
    ensures CutAt(messages, 0, boundary, AdjustedBoundary(messages, boundary))
  {
    if boundary < |messages| && IsTool(messages[boundary]) && HasId(messages[boundary]) {
      var id := messages[boundary].toolCallId.value;
      forall k | 0 <= k < |messages|
        ensures Holds(messages[k], id) <==> MakesCall(messages[k], id)
      {
        SameCall(messages[k], id);
      }
    }
  }

  lemma SameCall(m: Message, id: string)
    ensures Holds(m, id) <==> MakesCall(m, id)
  {
    if MakesCall(m, id) {
      var i :| 0 <= i < |m.toolCalls.value| && m.toolCalls.value[i].id == id;
      assert m.toolCalls.value[i] in m.toolCalls.value;
    }
  }

  /** The preserved end starts `preserveRecent` messages from the end, or at the call its first message answers. */
  lemma RecentStartIs(s: Settings, messages: seq<Message>)
    ensures CutAt(messages, 0, if |messages| < s.preserveRecent then 0 else |messages| - s.preserveRecent, RecentStart(s, messages))
  {
    hide AdjustedBoundary, CutAt;
    BoundaryMovesExactlyWhen(messages, if |messages| < s.preserveRecent then 0 else |messages| - s.preserveRecent);
  }

  /**
   Of the `n` messages between the system message and the preserved end, the last `k` are kept, where `k` is the whole
   part of `n` times the ratio; if the first of these answers a call made in between, they are kept from that call on.
   */
  lemma MiddleKept(s: Settings, messages: seq<Message>, start: nat, n: nat, k: int)
    requires start == (if messages != [] && messages[0].role == "system" then 1 else 0) && start + n == RecentStart(s, messages)
    requires k == (n as real * s.compressionRatio).Floor
    ensures MiddleStart(messages) == start
    ensures k <= 0 ==> KeptFrom(s, messages) == start + n
    ensures k >= n ==> KeptFrom(s, messages) == start
    ensures 0 < k < n ==> CutAt(messages, start, start + n - k, KeptFrom(s, messages))
  {
    hide AdjustedBoundary, RecentStart, CutAt, Split, KeepCount;
    var middle := Middle(s, messages);
    SplitIs(s, middle, k);
    if 0 < k < n {
      CutInside(messages, start, start + n, n - k, Split(s, middle));
    }
  }

  lemma SplitIs(s: Settings, middle: seq<Message>, k: int)
    requires k == (|middle| as real * s.compressionRatio).Floor
    ensures k <= 0 ==> Split(s, middle) == |middle|
    ensures k >= |middle| ==> Split(s, middle) == 0
    ensures 0 < k < |middle| ==> CutAt(middle, 0, |middle| - k, Split(s, middle))
  {
    hide AdjustedBoundary, CutAt;
    assert KeepCount(s, |middle|) == if k <= 0 then 0 else if k < |middle| then k else |middle| by {
      WholePart(|middle| as real * s.compressionRatio);
    }
    hide KeepCount;
    if 0 < k < |middle| {
      BoundaryMovesExactlyWhen(middle, |middle| - k);
    }
  }

  lemma CutInside(messages: seq<Message>, lo: nat, hi: nat, b: nat, r: nat)
    requires lo <= hi <= |messages| && b < hi - lo && CutAt(messages[lo..hi], 0, b, r)
    ensures CutAt(messages, lo, lo + b, lo + r)
  {
    hide AnswersLast;
    var part := messages[lo..hi];
    if r == b {
      var at := lo + b;
      forall h | lo <= h < at
        ensures !AnswersLast(messages, at, h)
      {
        AnswersInside(messages, lo, hi, b, h - lo);
      }
    } else {
      AnswersInside(messages, lo, hi, b, r);
    }
  }

  lemma WholePart(x: real)
    ensures Truncated(x) == if x.Floor <= 0 then 0 else x.Floor
  {
  }

  lemma AnswersInside(messages: seq<Message>, lo: nat, hi: nat, i: nat, h: nat)
    requires lo <= hi <= |messages| && h < i < hi - lo
    ensures AnswersLast(messages[lo..hi], i, h) <==> AnswersLast(messages, lo + i, lo + h)
  {
    hide MakesCall;
    var part := messages[lo..hi];
    assert forall k :: h <= k <= i ==> part[k] == messages[lo + k];
    assert forall k :: lo + h <= k <= lo + i ==> messages[k] == part[k - lo];
  }

  /** The result is the system message, the summary if there is one, and as many messages as there are from `KeptFrom` on. */
  lemma ResultFront(s: Settings, messages: seq<Message>, summary: string)
    requires MiddleStart(messages) <= RecentStart(s, messages)
    ensures var system := if messages != [] && messages[0].role == "system" then 1 else 0;
            var out := Assembled(s, messages, summary);
            |out| == system + (if summary != "" then 1 else 0) + |messages| - KeptFrom(s, messages) &&
            (system == 1 ==> out[0] == messages[0]) &&
            (summary != "" ==> out[system] == Message("user", "[History Summary] " + summary, None, None, None, None))
  {
    hide KeptFrom, RecentStart, Orphaned, Prologue;
    var front := Prologue(messages, summary);
    var raw := front + messages[KeptFrom(s, messages)..];
    FrontIs(messages, summary);
    forall i | 0 <= i < |front|
      ensures !Orphaned(raw, i) && raw[i] == front[i]
    {
      OrphansAreTools(raw, i);
    }
  }

  /** Counted from the end, each kept message is as it was, but a tool message may have become a plain user message. */
  lemma ResultRest(s: Settings, messages: seq<Message>, summary: string, i: nat)
    requires MiddleStart(messages) <= RecentStart(s, messages) && KeptFrom(s, messages) <= i < |messages|
    ensures var out := Assembled(s, messages, summary);
            |out| >= |messages| - i &&
            var m := out[|out| - (|messages| - i)];
            m == messages[i] || (messages[i].role == "tool" && m == Message("user", messages[i].content, None, None, None, None))
  {
    hide KeptFrom, RecentStart, Orphaned, Prologue;
    var raw := Prologue(messages, summary) + messages[KeptFrom(s, messages)..];
    assert raw[|raw| - (|messages| - i)] == messages[i];
    OrphansAreTools(raw, |raw| - (|messages| - i));
  }

  lemma FrontIs(messages: seq<Message>, summary: string)
    ensures var system := if messages != [] && messages[0].role == "system" then 1 else 0;
            var front := Prologue(messages, summary);
            |front| == system + (if summary != "" then 1 else 0) && (system == 1 ==> front[0] == messages[0]) &&
            (summary != "" ==> front[system] == Message("user", "[History Summary] " + summary, None, None, None, None)) &&
            forall i :: 0 <= i < |front| ==> front[i].role != "tool"
  {
    SummaryIs(summary);
  }

  lemma OrphansAreTools(messages: seq<Message>, i: nat)
    requires i < |messages|
    ensures Orphaned(messages, i) ==> messages[i].role == "tool"
  {
  }

  lemma SummaryIs(summary: string)
    ensures SummaryMessage(summary) == Message("user", "[History Summary] " + summary, None, None, None, None)
  {
  }

  /**
   On the shipped settings, 25 plain messages shrink to 10 and perhaps a summary: the 4 last ones and 6 of the 21
   before them.
   */
  lemma ShippedSettingsExample(messages: seq<Message>, summary: string)
    requires |messages| == 25 && forall i :: 0 <= i < 25 ==> messages[i].role == "user"
    ensures !Panics(Settings(15, 0.3, 4), messages)
    ensures |Assembled(Settings(15, 0.3, 4), messages, summary)| == 10 + if summary != "" then 1 else 0
  {
    hide AdjustedBoundary, Cleaned, Split, KeptFrom;
    var s := Settings(15, 0.3, 4);
    assert RecentStart(s, messages) == 21 by { RecentStartIs(s, messages); }
    hide RecentStart;
    MiddleKept(s, messages, 0, 21, 6);
    ResultFront(s, messages, summary);
  }

  // ---------- groups and orphans ----------

  /** A tool message keeps its role exactly when an earlier assistant message makes the call it names; nothing else changes. */
  lemma CleanedExactlyWhen(messages: seq<Message>, i: nat)
    requires i < |messages|
    ensures var m := messages[i];
            var answered := m.toolCallId.Some? && m.toolCallId.value != "" &&
                            exists j :: 0 <= j < i && messages[j].role == "assistant" && MakesCall(messages[j], m.toolCallId.value);
            Cleaned(messages)[i] == if m.role == "tool" && !answered then Message("user", m.content, None, None, None, None) else m
  {
    if messages[i].toolCallId.Some? {
      forall j | 0 <= j < i
        ensures Holds(messages[j], messages[i].toolCallId.value) <==> MakesCall(messages[j], messages[i].toolCallId.value)
      {
        SameCall(messages[j], messages[i].toolCallId.value);
      }
    }
  }

  /** A question, a call, its answer: a well-grouped history, which it no longer is when the call is another one. */
  lemma GroupExample(question: string, call: ToolCall, answer: string, id: string)
    requires id != ""
    ensures var history := [Message("user", question, None, None, None, None), Message("assistant", "", None, Some([call]), None, None),
                            Message("tool", answer, None, None, Some(id), None)];
            WellGrouped(history) <==> call.id == id
  {
    var history := [Message("user", question, None, None, None, None), Message("assistant", "", None, Some([call]), None, None),
                    Message("tool", answer, None, None, Some(id), None)];
    assert call in history[1].toolCalls.value;
    if call.id == id {
      assert Answers(history, 2, 1);
    } else {
      assert forall h: nat | h < 2 :: !Answers(history, 2, h);
    }
  }

  // ---------- what makes a summary ----------

  /** The bytes of a text: one to four for each character, by its code point. */
  lemma BytesAddUp(text: string, c: char)
    ensures Utf8Length("") == 0
    ensures Utf8Length(text + [c]) == Utf8Length(text) + if c as int <= 127 then 1 else if c as int <= 2047 then 2 else if c as int <= 65535 then 3 else 4
  {
    assert (text + [c])[..|text|] == text;
  }

  /** A message is worth summarizing if it calls tools, is a tool's answer that says "error", or an assistant's of 51 to 199 bytes. */
  lemma NoteworthyMessage(m: Message)
    ensures Noteworthy([m]) <==>
            (m.role == "assistant" && m.toolCalls.Some? && |m.toolCalls.value| > 0) ||
            (m.role == "tool" && exists k: nat :: T.OccursAt(m.content, "error", k) || T.OccursAt(m.content, "Error", k)) ||
            (m.role == "assistant" && 51 <= Utf8Length(m.content) <= 199)
  {
    hide Utf8Length, T.OccursAt;
    assert m in [m];
  }

  lemma NoteworthyConcat(a: seq<Message>, b: seq<Message>)
    ensures Noteworthy(a + b) <==> Noteworthy(a) || Noteworthy(b)
  {
    hide CallsTools, ReportsError, IsKeyContent;
    assert forall m :: m in a + b <==> m in a || m in b;
  }
}
