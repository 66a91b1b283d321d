/** What reading a Claude session gives, told from its lines alone. */
module ClaudeLaws {
  import opened Options
  import opened Sessions
  import opened SessionLaws
  import opened ClaudeSessions
  import Names

  // ---- Texts ----

  /** A content's text is its own, or the texts of its parts that have one, a blank line between each two; a part
      gives its text, or its content unless it is a tool's result. */
  lemma ClaudeTextOfContent(a: seq<Piece>, b: seq<Piece>, p: Piece, s: string)
    ensures ContentText(Whole(s)) == s && ContentText(NoContent) == "" == ContentText(Pieces([]))
    ensures ContentText(Pieces([p])) == if p.text.Some? then p.text.value
                                        else if p.content.Some? && !p.toolResult then p.content.value else ""
    ensures var x, y := ContentText(Pieces(a)), ContentText(Pieces(b));
            ContentText(Pieces(a + b)) == if x == "" then y else if y == "" then x else x + "\n\n" + y
  {
    TextsAppend(a, b, ClaudePieceText);
    assert Texts([p], ClaudePieceText) == [ClaudePieceText(p)];
    assert [ClaudePieceText(p)][..0] == [];
  }

  predicate Silent(parts: seq<Part>) {
    forall i :: 0 <= i < |parts| ==> !parts[i].TextPart?
  }

  /** What an assistant's line says is its text parts, empty ones too, with a blank line between each two. */
  lemma {:induction false} SpokenTextExact(a: seq<Part>, b: seq<Part>, text: string)
    ensures SpokenText([TextPart(text)]) == text && (Silent(a) ==> SpokenText(a) == "")
    ensures SpokenText(a + b) == if Silent(a) then SpokenText(b) else if Silent(b) then SpokenText(a)
                                 else SpokenText(a) + "\n\n" + SpokenText(b)
    decreases |b|, |a|
  {
    SpokenAlone(a, text);
    if b == [] {
      assert a + b == a;
    } else {
      var init, last := b[..|b| - 1], b[|b| - 1];
      SpokenTextExact(a, init, text);
      assert (a + b)[..|a + b| - 1] == a + init && (a + b)[|a + b| - 1] == last;
      HasText(a + init);
      HasText(init);
      assert Silent(a + init) <==> Silent(a) && Silent(init) by { SilentAppend(a, init); }
      SilentAppend(init, [last]);
      assert b == init + [last];
      if last.TextPart? && !Silent(a) && !Silent(init) {
        assert SpokenText(a) + "\n\n" + SpokenText(init) + "\n\n" + last.text
            == SpokenText(a) + "\n\n" + (SpokenText(init) + "\n\n" + last.text);
      }
    }
  }

  lemma SilentAppend(a: seq<Part>, b: seq<Part>)
    ensures Silent(a + b) <==> Silent(a) && Silent(b)
  {
    if Silent(a + b) {
      assert forall i :: 0 <= i < |a| ==> a[i] == (a + b)[i];
      assert forall i :: 0 <= i < |b| ==> b[i] == (a + b)[|a| + i];
    }
  }

  lemma HasText(a: seq<Part>)
    ensures Silent(a) <==> !exists p :: p in a && p.TextPart?
  {
  }

  lemma {:induction false} SpokenAlone(a: seq<Part>, text: string)
    ensures SpokenText([TextPart(text)]) == text && (Silent(a) ==> SpokenText(a) == "")
  {
    assert [TextPart(text)][..0] == [];
    if a != [] {
      SpokenAlone(a[..|a| - 1], text);
    }
  }

  // ---- Turns ----

  /** A user's line that holds no tool's result. */
  predicate Prompts(e: Entry) {
    e.body.UserLine? && !(e.body.content.Pieces? && exists p :: p in e.body.content.pieces && p.toolResult)
  }

  /** The first of two names that is there, or else the line's number. */
  function NameOf(e: Entry, first: Option<string>): string {
    if first.Some? then first.value else if e.uuid.Some? then e.uuid.value else "line:" + Names.Itoa(e.line)
  }

  /** Line j, at or before i, is the last prompt, and names t. */
  ghost predicate PromptNames(es: seq<Entry>, ptid: string, j: int, i: int, t: Id) {
    && 0 <= j <= i < |es| && Prompts(es[j]) && t == TurnId(ptid, NameOf(es[j], es[j].body.promptId))
    && forall k :: j < k <= i ==> !Prompts(es[k])
  }

  /** Line j, at or before i, is the first reply, and names t. */
  ghost predicate ReplyNames(es: seq<Entry>, ptid: string, j: int, i: int, t: Id) {
    && 0 <= j <= i < |es| && es[j].body.AssistantLine? && t == TurnId(ptid, NameOf(es[j], es[j].body.parentUuid))
    && forall k :: 0 <= k < j ==> !es[k].body.AssistantLine?
  }

  ghost predicate Prompted(es: seq<Entry>, ptid: string, i: int, t: Id) {
    exists j :: PromptNames(es, ptid, j, i, t)
  }

  ghost predicate Replied(es: seq<Entry>, ptid: string, i: int, t: Id) {
    exists j :: ReplyNames(es, ptid, j, i, t)
  }

  ghost predicate NoPrompt(es: seq<Entry>, i: int) {
    i < |es| && forall k :: 0 <= k <= i ==> !Prompts(es[k])
  }

  /** The turn of line i: that of the last prompt so far, or without one that of the first reply so far, or none. */
  ghost predicate LineIn(es: seq<Entry>, ptid: string, i: int, turn: Option<Id>) {
    match turn
    case Some(t) =>
      Prompted(es, ptid, i, t) || (NoPrompt(es, i) && Replied(es, ptid, i, t))
    case None => NoPrompt(es, i) && forall k :: 0 <= k <= i ==> !es[k].body.AssistantLine?
  }

  lemma OpensExact(e: Entry, current: Option<Id>)
    ensures Opens(e, current) ==
            if Prompts(e) then Some(NameOf(e, e.body.promptId))
            else if e.body.AssistantLine? && current.None? then Some(NameOf(e, e.body.parentUuid)) else None
  {
  }

  lemma PromptStep(es: seq<Entry>, ptid: string, i: nat, t: Id)
    requires 0 < i < |es|
    ensures Prompted(es, ptid, i, t) <==>
            if Prompts(es[i]) then t == TurnId(ptid, NameOf(es[i], es[i].body.promptId))
            else Prompted(es, ptid, i - 1, t)
    ensures NoPrompt(es, i) <==> NoPrompt(es, i - 1) && !Prompts(es[i])
  {
    hide NameOf;
    if Prompts(es[i]) && t == TurnId(ptid, NameOf(es[i], es[i].body.promptId)) {
      assert PromptNames(es, ptid, i, i, t);
    }
    if Prompted(es, ptid, i - 1, t) && !Prompts(es[i]) {
      var j :| PromptNames(es, ptid, j, i - 1, t);
      assert PromptNames(es, ptid, j, i, t);
    }
    if Prompted(es, ptid, i, t) && !Prompts(es[i]) {
      var j :| PromptNames(es, ptid, j, i, t);
      assert PromptNames(es, ptid, j, i - 1, t);
    }
  }

  lemma ReplyStep(es: seq<Entry>, ptid: string, i: nat, t: Id)
    requires 0 < i < |es|
    ensures Replied(es, ptid, i, t) <==>
            Replied(es, ptid, i - 1, t) ||
            (ReplyNames(es, ptid, i, i, t) && forall k :: 0 <= k < i ==> !es[k].body.AssistantLine?)
  {
    hide NameOf;
    if Replied(es, ptid, i - 1, t) {
      var j :| ReplyNames(es, ptid, j, i - 1, t);
      assert ReplyNames(es, ptid, j, i, t);
    }
    if Replied(es, ptid, i, t) {
      var j :| ReplyNames(es, ptid, j, i, t);
      assert j < i ==> ReplyNames(es, ptid, j, i - 1, t);
    }
  }

  /** What the reader takes for a line's turn is the turn the lines name. */
  lemma {:induction false} ClaudeTurnExact(es: seq<Entry>, ptid: string, i: nat)
    requires i < |es|
    ensures LineIn(es, ptid, i, TurnAfter(es, ptid, i + 1))
  {
    hide Opens, Prompts, NameOf;
    var before, turn := TurnAfter(es, ptid, i), TurnAfter(es, ptid, i + 1);
    OpensExact(es[i], before);
    if i == 0 {
      assert before.None?;
      if Prompts(es[0]) {
        assert PromptNames(es, ptid, 0, 0, turn.value);
      } else if es[0].body.AssistantLine? {
        assert ReplyNames(es, ptid, 0, 0, turn.value);
      }
    } else {
      ClaudeTurnExact(es, ptid, i - 1);
      if turn.Some? {
        PromptStep(es, ptid, i, turn.value);
        ReplyStep(es, ptid, i, turn.value);
      }
      if before.None? && turn.Some? && !Prompts(es[i]) {
        assert ReplyNames(es, ptid, i, i, turn.value);
      }
    }
  }

  // ---- Messages ----

  /** A prompt with a text, or a reply with one; item is the message's provider item id. */
  predicate Voices(e: Entry, role: Role, text: string, item: string) {
    match role
    case User =>
      Prompts(e) && ContentText(e.body.content) == text &&
      item == if e.uuid.Some? then e.uuid.value else "jsonl:" + Names.Itoa(e.line)
    case Assistant =>
      e.body.AssistantLine? && SpokenText(e.body.parts) == text &&
      item == if e.uuid.Some? then e.uuid.value
              else if e.body.messageId.Some? then e.body.messageId.value else "jsonl:" + Names.Itoa(e.line)
  }

  predicate Stamped(e: Entry, now: Time, at: Time) {
    at == if e.stamp.At? then e.stamp.t else now
  }

  /** m is what line i says. */
  ghost predicate LineMessage(es: seq<Entry>, ptid: string, now: Time, i: nat, m: Message) {
    && i < |es| && m.text != "" && Voices(es[i], m.role, m.text, m.item)
    && Stamped(es[i], now, m.at) && LineIn(es, ptid, i, m.turn)
  }

  lemma LineMessageExact(es: seq<Entry>, ptid: string, now: Time, i: nat)
    requires i < |es|
    ensures forall m :: m in ClaudeSessions.Said(es, ptid, now, i) ==> LineMessage(es, ptid, now, i, m)
    ensures forall role, text, item :: Voices(es[i], role, text, item) && text != "" ==>
              ClaudeSessions.Said(es, ptid, now, i) != []
  {
    hide LineIn, TurnAfter, ContentText, SpokenText;
    ClaudeTurnExact(es, ptid, i);
  }

  /** A session's messages are what its prompts and replies say, in their order, nothing said left out: with the role,
      the text, the time and the turn of the line. */
  lemma ClaudeMessagesExact(es: seq<Entry>, ptid: string, now: Time)
    ensures exists at: seq<nat> ::
              var ms := ClaudeParsed(es, ptid, now).messages;
              && Rising(at, |es|, |ms|)
              && (forall k :: 0 <= k < |at| ==> LineMessage(es, ptid, now, at[k], ms[k]))
              && (forall i: nat, role, text, item :: i < |es| && Voices(es[i], role, text, item) && text != "" ==>
                    i in at)
  {
    hide ClaudeParsed, Voices, LineMessage, ClaudeSessions.Said;
    ClaudeMessagesInOrder(es, ptid, now);
    var ms, says := ClaudeParsed(es, ptid, now).messages, Says(es, ptid, now);
    var at: seq<nat> :| Sources(at, says, |es|, ms);
    forall k | 0 <= k < |at| ensures at[k] < |es| && LineMessage(es, ptid, now, at[k], ms[k]) {
      assert says(at[k]) == [ms[k]] && ms[k] in [ms[k]];
      LineMessageExact(es, ptid, now, at[k]);
    }
    forall i: nat, role, text, item | i < |es| && Voices(es[i], role, text, item) && text != "" ensures i in at {
      LineMessageExact(es, ptid, now, i);
      assert says(i) != [];
    }
    assert Rising(at, |es|, |ms|);
  }

  // ---- Activities ----

  /** a is the tool call that a part of an assistant's line makes. */
  predicate CallOf(e: Entry, p: Part, a: Activity) {
    && p.ToolUse? && a.tone == "tool" && a.kind == "provider.tool.call"
    && a.item == (if p.id.Some? then p.id.value else if e.uuid.Some? then e.uuid.value
                  else "jsonl:" + Names.Itoa(e.line))
    && a.summary == (if p.name.Some? then p.name.value else "tool") + " call"
    && a.detail == ToolCall(e.uuid, p.id, p.name, p.input)
  }

  /** The calls of a line, in the order of its parts, none left out. */
  ghost predicate CallsOf(e: Entry, parts: seq<Part>, acts: seq<Activity>, at: seq<nat>) {
    && Rising(at, |parts|, |acts|)
    && (forall k :: 0 <= k < |at| ==> CallOf(e, parts[at[k]], acts[k]))
    && (forall i: nat :: i < |parts| && parts[i].ToolUse? ==> i in at)
  }

  /** a is the tool's result that a user's line brings; its text is cut at 4000 characters. */
  predicate ResultOf(e: Entry, a: Activity) {
    && e.body.UserLine? && a.tone == "tool" && a.kind == "provider.tool.result" && a.summary == "tool result"
    && a.item == (if e.uuid.Some? then e.uuid.value else "jsonl:" + Names.Itoa(e.line))
    && var text := ContentText(e.body.content);
       a.detail == ToolResult(e.uuid, e.body.result, if |text| > 4000 then text[..4000] else text)
  }

  predicate AttachmentOf(e: Entry, a: Activity) {
    && e.body.Attachment? && a.tone == "info" && a.detail == Attached(e.uuid, e.body.attachment)
    && a.kind == "claude.attachment." + (if e.body.kind.Some? then e.body.kind.value else "unknown")
    && a.summary == (if e.body.command.Some? then e.body.command.value
                     else if e.body.hookName.Some? then e.body.hookName.value else "Claude attachment")
    && a.item == (if e.uuid.Some? then e.uuid.value else "jsonl:" + Names.Itoa(e.line))
  }

  /** acts is what line i does: its tool calls, its tool's result or its attachment. */
  ghost predicate LineActivities(es: seq<Entry>, ptid: string, now: Time, i: nat, acts: seq<Activity>) {
    && i < |es|
    && (forall k :: 0 <= k < |acts| ==>
          acts[k].line == es[i].line && Stamped(es[i], now, acts[k].at) && LineIn(es, ptid, i, acts[k].turn))
    && match es[i].body
       case UserLine(_, _, _) => if Prompts(es[i]) then acts == [] else |acts| == 1 && ResultOf(es[i], acts[0])
       case AssistantLine(_, _, parts) => exists at: seq<nat> :: CallsOf(es[i], parts, acts, at)
       case Attachment(_, _, _, _) => |acts| == 1 && AttachmentOf(es[i], acts[0])
       case OtherLine => acts == []
  }

  lemma CallsNone(e: Entry)
    ensures CallsOf(e, [], [], [])
  {
  }

  lemma CallsSkip(e: Entry, parts: seq<Part>, p: Part, acts: seq<Activity>, at: seq<nat>)
    requires CallsOf(e, parts, acts, at) && !p.ToolUse?
    ensures CallsOf(e, parts + [p], acts, at)
  {
  }

  lemma CallsMore(e: Entry, parts: seq<Part>, p: Part, acts: seq<Activity>, at: seq<nat>, a: Activity)
    requires CallsOf(e, parts, acts, at) && CallOf(e, p, a)
    ensures CallsOf(e, parts + [p], acts + [a], at + [|parts|])
  {
    hide CallOf;
    var at' := at + [|parts|];
    forall i: nat | i < |parts + [p]| && (parts + [p])[i].ToolUse? ensures i in at' {
      if i < |parts| { assert i in at; } else { assert at'[|at|] == i; }
    }
    forall k | 0 <= k < |at'| ensures CallOf(e, (parts + [p])[at'[k]], (acts + [a])[k]) {
      if k < |at| { assert at'[k] == at[k]; }
    }
  }

  lemma {:induction false} CallsExact(e: Entry, parts: seq<Part>, turn: Option<Id>, at: Time)
    ensures exists ps: seq<nat> :: CallsOf(e, parts, ToolCalls(e, parts, turn, at), ps)
    ensures forall a :: a in ToolCalls(e, parts, turn, at) ==> a.line == e.line && a.turn == turn && a.at == at
  {
    hide CallsOf;
    if parts == [] {
      CallsNone(e);
      assert CallsOf(e, parts, ToolCalls(e, parts, turn, at), []);
    } else {
      var init, p := parts[..|parts| - 1], parts[|parts| - 1];
      CallsExact(e, init, turn, at);
      var acts := ToolCalls(e, init, turn, at);
      var ps: seq<nat> :| CallsOf(e, init, acts, ps);
      assert parts == init + [p];
      if p.ToolUse? {
        CallsMore(e, init, p, acts, ps, ToolCalls(e, parts, turn, at)[|acts|]);
        assert CallsOf(e, parts, ToolCalls(e, parts, turn, at), ps + [|init|]);
      } else {
        CallsSkip(e, init, p, acts, ps);
        assert CallsOf(e, parts, ToolCalls(e, parts, turn, at), ps);
      }
    }
  }

  lemma LineActivitiesExact(es: seq<Entry>, ptid: string, now: Time, i: nat)
    requires i < |es|
    ensures LineActivities(es, ptid, now, i, Done(es, ptid, now, i))
  {
    hide LineIn, TurnAfter, ContentText, CallsOf, ToolCalls;
    ClaudeTurnExact(es, ptid, i);
    if es[i].body.AssistantLine? {
      CallsExact(es[i], es[i].body.parts, TurnAfter(es, ptid, i + 1), Read(es[i].stamp, now));
    }
  }

  function Flat<T>(blocks: seq<seq<T>>): seq<T> {
    if blocks == [] then [] else Flat(blocks[..|blocks| - 1]) + blocks[|blocks| - 1]
  }

  lemma {:induction false} GatheredFlat<T>(f: nat -> seq<T>, n: nat)
    ensures Gathered(f, n) == Flat(seq(n, i requires 0 <= i < n => f(i)))
  {
    if n > 0 {
      GatheredFlat(f, n - 1);
      assert seq(n, i requires 0 <= i < n => f(i))[..n - 1] == seq(n - 1, i requires 0 <= i < n - 1 => f(i));
    }
  }

  /** A session's activities are what its lines do, line by line. */
  lemma ClaudeActivitiesExact(es: seq<Entry>, ptid: string, now: Time)
    ensures exists blocks: seq<seq<Activity>> ::
              && |blocks| == |es| && ClaudeParsed(es, ptid, now).activities == Flat(blocks)
              && forall i: nat :: i < |blocks| ==> LineActivities(es, ptid, now, i, blocks[i])
  {
    hide LineActivities, Done, Flat, Gathered;
    var does := Does(es, ptid, now);
    GatheredFlat(does, |es|);
    var blocks := seq(|es|, i requires 0 <= i < |es| => does(i));
    forall i: nat | i < |blocks| ensures LineActivities(es, ptid, now, i, blocks[i]) {
      LineActivitiesExact(es, ptid, now, i);
    }
    assert ClaudeParsed(es, ptid, now).activities == Flat(blocks);
  }

  // ---- Times ----

  lemma {:induction false} RequestedWhenStarted(es: seq<Entry>, ptid: string, now: Time, n: nat)
    ensures forall t :: t in TimesAfter(es, ptid, now, n) ==>
              TimesAfter(es, ptid, now, n)[t].requestedAt == TimesAfter(es, ptid, now, n)[t].startedAt
  {
    if n > 0 {
      RequestedWhenStarted(es, ptid, now, n - 1);
      hide Answers, TurnAfter, Opens;
    }
  }

  lemma OneTurn(es: seq<Entry>, ptid: string, i: nat, a: Option<Id>, b: Option<Id>)
    requires LineIn(es, ptid, i, a) && LineIn(es, ptid, i, b) && i < |es|
    ensures a == b
  {
    hide NameOf, Prompts;
  }

  /** A line is in turn t exactly when the reader takes it to be. */
  lemma InExact(es: seq<Entry>, ptid: string, i: nat, t: Id)
    requires i < |es|
    ensures LineIn(es, ptid, i, Some(t)) <==> In(es, ptid, i, t)
  {
    hide LineIn, TurnAfter;
    ClaudeTurnExact(es, ptid, i);
    if LineIn(es, ptid, i, Some(t)) {
      OneTurn(es, ptid, i, Some(t), TurnAfter(es, ptid, i + 1));
    }
  }

  /** Line i is the first in turn t. */
  ghost predicate FirstLineIn(es: seq<Entry>, ptid: string, i: nat, t: Id) {
    LineIn(es, ptid, i, Some(t)) && forall j: nat :: j < i ==> !LineIn(es, ptid, j, Some(t))
  }

  /** A turn has times exactly when some line is in it, and was requested and started at the first of them. */
  lemma ClaudeTimesExact(es: seq<Entry>, ptid: string, now: Time, t: Id)
    ensures var times := ClaudeParsed(es, ptid, now).times;
            && (t in times <==> exists i: nat :: i < |es| && LineIn(es, ptid, i, Some(t)))
            && (t in times ==>
                  times[t].requestedAt == times[t].startedAt &&
                  exists i: nat :: i < |es| && FirstLineIn(es, ptid, i, t) && Stamped(es[i], now, times[t].startedAt))
  {
    hide LineIn, In, TimesAfter, Gathered, Known, ModelAfter, FirstStamp;
    RequestedWhenStarted(es, ptid, now, |es|);
    ClaudeTurns(es, ptid, now);
    var times := ClaudeParsed(es, ptid, now).times;
    assert times == TimesAfter(es, ptid, now, |es|);
    if t in times {
      assert StartedAt(es, ptid, now, |es|, t, times[t].startedAt);
      var i: nat :| i < |es| && FirstIn(es, ptid, i, t) && times[t].startedAt == Read(es[i].stamp, now);
      forall j: nat | j <= i ensures LineIn(es, ptid, j, Some(t)) <==> In(es, ptid, j, t) {
        InExact(es, ptid, j, t);
      }
      assert FirstLineIn(es, ptid, i, t);
    }
    if i: nat :| i < |es| && LineIn(es, ptid, i, Some(t)) {
      InExact(es, ptid, i, t);
      InHasTimes(es, ptid, now, i, t);
      TimesOnlyGrow(es, ptid, now, i + 1, |es|);
    }
  }

  lemma InHasTimes(es: seq<Entry>, ptid: string, now: Time, i: nat, t: Id)
    requires i < |es| && In(es, ptid, i, t)
    ensures t in TimesAfter(es, ptid, now, i + 1)
  {
    hide TurnAfter, TimesAfter;
    TurnIsKnown(es, ptid, now, i + 1);
  }

  lemma {:induction false} TimesOnlyGrow(es: seq<Entry>, ptid: string, now: Time, m: nat, n: nat)
    requires m <= n <= |es|
    ensures TimesAfter(es, ptid, now, m).Keys <= TimesAfter(es, ptid, now, n).Keys
  {
    hide TimesAfter;
    if m < n {
      TimesOnlyGrow(es, ptid, now, m, n - 1);
      TimesGrow(es, ptid, now, n - 1);
    }
  }

  // ---- Model and span ----

  /** A model named plainly, not in angle brackets. */
  predicate Plain(model: Option<string>) {
    model.Some? && model.value != "" && model.value[0] != '<'
  }

  /** The model is the last one that is named plainly, if any is. */
  lemma {:induction false} ModelAfterExact(es: seq<Entry>, n: nat, x: string)
    requires n <= |es|
    ensures ModelAfter(es, n) == Some(x) <==>
            exists j :: 0 <= j < n && Plain(es[j].model) && es[j].model == Some(x)
                        && forall k :: j < k < n ==> !Plain(es[k].model)
  {
    if n > 0 {
      ModelAfterExact(es, n - 1, x);
      if !Plain(es[n - 1].model) && ModelAfter(es, n - 1) == Some(x) {
        var j :| 0 <= j < n - 1 && Plain(es[j].model) && es[j].model == Some(x)
                 && forall k :: j < k < n - 1 ==> !Plain(es[k].model);
        assert forall k :: j < k < n ==> !Plain(es[k].model);
      }
    }
  }

  /** stamp is the first time any line has. */
  ghost predicate Earliest(es: seq<Entry>, stamp: Stamp) {
    (stamp.Missing? && forall i :: 0 <= i < |es| ==> es[i].stamp.Missing?) ||
    (!stamp.Missing? && exists i :: 0 <= i < |es| && es[i].stamp == stamp
                                    && forall k :: 0 <= k < i ==> es[k].stamp.Missing?)
  }

  lemma {:induction false} FirstStampExact(es: seq<Entry>)
    ensures Earliest(es, FirstStamp(es))
  {
    if es != [] {
      FirstStampExact(es[1..]);
      var s := FirstStamp(es[1..]);
      if es[0].stamp.Missing? && !s.Missing? {
        var i :| 0 <= i < |es[1..]| && es[1..][i].stamp == s && forall k :: 0 <= k < i ==> es[1..][k].stamp.Missing?;
        assert es[i + 1].stamp == s;
        forall k | 0 <= k < i + 1 ensures es[k].stamp.Missing? {
          assert k > 0 ==> es[1..][k - 1] == es[k];
        }
      } else if es[0].stamp.Missing? {
        forall k | 0 <= k < |es| ensures es[k].stamp.Missing? {
          assert k > 0 ==> es[1..][k - 1] == es[k];
        }
      }
    }
  }

  /** A session lasts from its first to its last message; without messages from the first time any line has to the
      last line's. The model is the last one named plainly; no effort is recorded; the assistant's last message is
      remembered. */
  lemma ClaudeSpan(es: seq<Entry>, ptid: string, now: Time)
    ensures var p := ClaudeParsed(es, ptid, now);
            && LastSaid(p.messages, p.lastAssistant) && p.effort == None
            && (forall x :: p.model == Some(x) <==>
                  exists j :: 0 <= j < |es| && Plain(es[j].model) && es[j].model == Some(x)
                              && forall k :: j < k < |es| ==> !Plain(es[k].model))
            && (p.messages != [] ==>
                  p.createdAt == p.messages[0].at && p.updatedAt == p.messages[|p.messages| - 1].at)
            && (p.messages == [] ==>
                  && (exists stamp :: Earliest(es, stamp) && p.createdAt == if stamp.At? then stamp.t else now)
                  && p.updatedAt == if es != [] && es[|es| - 1].stamp.At? then es[|es| - 1].stamp.t else p.createdAt)
  {
    hide LastSaid, Plain, Earliest, Gathered, TimesAfter, ModelAfter, FirstStamp, LastAssistant;
    LastSaidExact(Gathered(Says(es, ptid, now), |es|));
    FirstStampExact(es);
    forall x ensures ModelAfter(es, |es|) == Some(x) <==>
                     exists j :: 0 <= j < |es| && Plain(es[j].model) && es[j].model == Some(x)
                                 && forall k :: j < k < |es| ==> !Plain(es[k].model)
    {
      ModelAfterExact(es, |es|, x);
    }
  }

  /** The file is turned away exactly when some line names another session. */
  lemma ForeignExact(es: seq<Entry>, ptid: string)
    ensures Foreign(es, ptid) <==>
            exists i :: 0 <= i < |es| && es[i].sessionId.Some? && es[i].sessionId.value !in {"", ptid}
  {
    ForeignExactly(es, ptid);
  }
}
