/** The reader for Claude sessions, whose turns the importer names itself. */
module ClaudeSessions {
  import opened Options
  import opened Sessions
  import Names

  datatype Part =
    | TextPart(text: string)
    | ToolUse(id: Option<string>, name: Option<string>, input: Option<string>)
    | OtherPart

  datatype Body =
    | UserLine(promptId: Option<string>, content: Content, result: Option<string>)
    | AssistantLine(parentUuid: Option<string>, messageId: Option<string>, parts: seq<Part>)
    | Attachment(kind: Option<string>, command: Option<string>, hookName: Option<string>, attachment: string)
    | OtherLine

  datatype Entry = Entry(line: nat, stamp: Stamp, uuid: Option<string>, sessionId: Option<string>,
                         model: Option<string>, body: Body)

  /** Some line belongs to another session. */
  predicate Foreign(es: seq<Entry>, ptid: string) {
    exists e :: e in es && Mismatch(e.sessionId, ptid)
  }

  predicate Usable(model: Option<string>) {
    model.Some? && model.value != "" && model.value[0] != '<'
  }

  /** The line brings a tool's result instead of a user's words. */
  predicate HoldsResult(c: Content) {
    c.Pieces? && exists p :: p in c.pieces && p.toolResult
  }

  function ClaudePieceText(p: Piece): string {
    if p.text.Some? then p.text.value else if p.content.Some? && !p.toolResult then p.content.value else ""
  }

  function ContentText(c: Content): string {
    match c
    case Whole(text) => text
    case Pieces(ps) => Paragraphs(Texts(ps, ClaudePieceText))
    case NoContent => ""
  }

  /** A content gives no text exactly when none of its parts does. */
  lemma SilentClaudeContent(c: Content)
    ensures ContentText(c) == "" <==>
            c.NoContent? || (c.Whole? && c.text == "") ||
            (c.Pieces? && forall p :: p in c.pieces ==> ClaudePieceText(p) == "")
  {
    if c.Pieces? {
      SilentTexts(c.pieces, ClaudePieceText);
    }
  }

  function Cut(s: string, n: nat): string {
    if |s| > n then s[..n] else s
  }

  function Item(e: Entry): string {
    Else(e.uuid, Line(e.line))
  }

  /** The source a line names a turn after, if it begins one. */
  function Opens(e: Entry, current: Option<Id>): Option<string> {
    match e.body
    case UserLine(promptId, content, _) =>
      if HoldsResult(content) then None else Some(Else(promptId, Else(e.uuid, "line:" + Names.Itoa(e.line))))
    case AssistantLine(parentUuid, _, _) =>
      if current.Some? then None else Some(Else(parentUuid, Else(e.uuid, "line:" + Names.Itoa(e.line))))
    case _ => None
  }

  /** The turn in force after n lines. */
  function TurnAfter(es: seq<Entry>, ptid: string, n: nat): Option<Id> {
    if n == 0 || n > |es| then None else
    var before := TurnAfter(es, ptid, n - 1);
    var source := Opens(es[n - 1], before);
    if source.Some? then Some(TurnId(ptid, source.value)) else before
  }

  /** The text parts of an assistant's line, joined by a blank line. */
  function SpokenText(parts: seq<Part>): string {
    if parts == [] then ""
    else if parts[|parts| - 1].TextPart? then
      var before := parts[..|parts| - 1];
      if exists p :: p in before && p.TextPart? then SpokenText(before) + "\n\n" + parts[|parts| - 1].text
      else parts[|parts| - 1].text
    else SpokenText(parts[..|parts| - 1])
  }

  function ToolCalls(e: Entry, parts: seq<Part>, turn: Option<Id>, at: Time): seq<Activity> {
    if parts == [] then [] else
    var before := ToolCalls(e, parts[..|parts| - 1], turn, at);
    match parts[|parts| - 1]
    case ToolUse(id, name, input) =>
      before + [Activity(Else(id, Item(e)), turn, "tool", "provider.tool.call", Else(name, "tool") + " call",
                         ToolCall(e.uuid, id, name, input), e.line, at)]
    case _ => before
  }

  function Say(e: Entry, turn: Option<Id>, at: Time): (r: seq<Message>)
    ensures |r| <= 1
  {
    match e.body
    case UserLine(_, content, _) =>
      if HoldsResult(content) || ContentText(content) == "" then []
      else [Message(Item(e), User, ContentText(content), turn, at)]
    case AssistantLine(_, messageId, parts) =>
      if SpokenText(parts) == "" then []
      else [Message(Else(Or(e.uuid, messageId), Line(e.line)), Assistant, SpokenText(parts), turn, at)]
    case _ => []
  }

  function Do(e: Entry, turn: Option<Id>, at: Time): seq<Activity> {
    match e.body
    case UserLine(_, content, result) =>
      if !HoldsResult(content) then [] else
      [Activity(Item(e), turn, "tool", "provider.tool.result", "tool result",
                ToolResult(e.uuid, result, Cut(ContentText(content), 4000)), e.line, at)]
    case AssistantLine(_, _, parts) => ToolCalls(e, parts, turn, at)
    case Attachment(kind, command, hookName, attachment) =>
      [Activity(Item(e), turn, "info", "claude.attachment." + Else(kind, "unknown"),
                Else(Or(command, hookName), "Claude attachment"), Attached(e.uuid, attachment), e.line, at)]
    case _ => []
  }

  function Said(es: seq<Entry>, ptid: string, now: Time, i: nat): (r: seq<Message>)
    ensures |r| <= 1
  {
    if i >= |es| then [] else Say(es[i], TurnAfter(es, ptid, i + 1), Read(es[i].stamp, now))
  }

  function Done(es: seq<Entry>, ptid: string, now: Time, i: nat): seq<Activity> {
    if i >= |es| then [] else Do(es[i], TurnAfter(es, ptid, i + 1), Read(es[i].stamp, now))
  }

  function Says(es: seq<Entry>, ptid: string, now: Time): nat -> seq<Message> {
    (i: nat) => Said(es, ptid, now, i)
  }

  function Does(es: seq<Entry>, ptid: string, now: Time): nat -> seq<Activity> {
    (i: nat) => Done(es, ptid, now, i)
  }

  function Opened(times: map<Id, Times>, source: Option<string>, ptid: string, at: Time): map<Id, Times> {
    if source.Some? && TurnId(ptid, source.value) !in times
    then times[TurnId(ptid, source.value) := Times(at, at, None)] else times
  }

  function Closed(times: map<Id, Times>, turn: Option<Id>, at: Time): map<Id, Times> {
    if turn.Some? && turn.value in times
    then times[turn.value := times[turn.value].(completedAt := Some(at))] else times
  }

  predicate Answers(e: Entry) {
    e.body.AssistantLine? && SpokenText(e.body.parts) != ""
  }

  function TimesAfter(es: seq<Entry>, ptid: string, now: Time, n: nat): map<Id, Times> {
    if n == 0 || n > |es| then map[] else
    var e := es[n - 1];
    var at := Read(e.stamp, now);
    var begun := Opened(TimesAfter(es, ptid, now, n - 1), Opens(e, TurnAfter(es, ptid, n - 1)), ptid, at);
    if Answers(e) then Closed(begun, TurnAfter(es, ptid, n), at) else begun
  }

  function ModelAfter(es: seq<Entry>, n: nat): Option<string> {
    if n == 0 || n > |es| then None
    else if Usable(es[n - 1].model) then es[n - 1].model else ModelAfter(es, n - 1)
  }

  /** The first timestamp any line has. */
  function FirstStamp(es: seq<Entry>): Stamp {
    if es == [] then Missing else if es[0].stamp != Missing then es[0].stamp else FirstStamp(es[1..])
  }

  /** The times of a session are those of its messages, or of its records when it has none. */
  function Assembled(es: seq<Entry>, now: Time, model: Option<string>, last: Option<string>, ms: seq<Message>,
                     acts: seq<Activity>, times: map<Id, Times>): Parsed
  {
    var created := if ms != [] then ms[0].at else Read(FirstStamp(es), now);
    var updated := if ms != [] then ms[|ms| - 1].at
                   else if es != [] then Read(es[|es| - 1].stamp, created) else created;
    Parsed(created, updated, model, None, last, ms, acts, times)
  }

  function ClaudeParsed(es: seq<Entry>, ptid: string, now: Time): Parsed {
    var ms := Gathered(Says(es, ptid, now), |es|);
    Assembled(es, now, ModelAfter(es, |es|), ItemOf(LastAssistant(ms)), ms, Gathered(Does(es, ptid, now), |es|),
              TimesAfter(es, ptid, now, |es|))
  }

  lemma LastAssistantSnoc(ms: seq<Message>, m: Message)
    ensures LastAssistant(ms + [m]) == if m.role.Assistant? then Some(m) else LastAssistant(ms)
  {
    assert (ms + [m])[..|ms|] == ms;
  }

  /** Names a turn and, if it is new, starts its times. */
  method SetTurn(ts: map<Id, Times>, source: string, ptid: string, at: Time)
    returns (turn: Option<Id>, times: map<Id, Times>)
    ensures turn == Some(TurnId(ptid, source)) && turn.value in times
    ensures times == Opened(ts, Some(source), ptid, at)
  {
    turn, times := Some(TurnId(ptid, source)), ts;
    if turn.value !in times {
      times := times[turn.value := Times(at, at, None)];
    }
  }

  /** What the body of the loop does once the turn is settled. */
  method ReadBody(e: Entry, turn: Option<Id>, at: Time, ms: seq<Message>, acts: seq<Activity>, ts: map<Id, Times>,
                  last: Option<string>)
    returns (messages: seq<Message>, activities: seq<Activity>, times: map<Id, Times>, lastAssistant: Option<string>)
    requires last == ItemOf(LastAssistant(ms))
    ensures messages == ms + Say(e, turn, at)
    ensures activities == acts + Do(e, turn, at)
    ensures times == if Answers(e) then Closed(ts, turn, at) else ts
    ensures lastAssistant == ItemOf(LastAssistant(messages))
  {
    messages, activities, times, lastAssistant := ms, acts, ts, last;
    match e.body
    case UserLine(promptId, content, result) =>
      var text, toolResult := ContentText(content), HoldsResult(content);
      if |text| > 0 && !toolResult {
        LastAssistantSnoc(messages, Message(Item(e), User, text, turn, at));
        messages := messages + [Message(Item(e), User, text, turn, at)];
      }
      if toolResult {
        activities := activities + [Activity(Item(e), turn, "tool", "provider.tool.result", "tool result",
                                             ToolResult(e.uuid, result, Cut(text, 4000)), e.line, at)];
      }
    case AssistantLine(parentUuid, messageId, parts) =>
      var calls, text := ReadParts(e, turn, at);
      activities := activities + calls;
      if |text| > 0 {
        lastAssistant := Some(Else(Or(e.uuid, messageId), Line(e.line)));
        LastAssistantSnoc(messages, Message(lastAssistant.value, Assistant, text, turn, at));
        messages := messages + [Message(lastAssistant.value, Assistant, text, turn, at)];
        if turn.Some? && turn.value in times {
          times := times[turn.value := times[turn.value].(completedAt := Some(at))];
        }
      }
    case Attachment(kind, command, hookName, attachment) =>
      activities := activities + [Activity(Item(e), turn, "info", "claude.attachment." + Else(kind, "unknown"),
                                           Else(Or(command, hookName), "Claude attachment"),
                                           Attached(e.uuid, attachment),
                                           e.line, at)];
    case OtherLine =>
  }

  lemma LineStep(es: seq<Entry>, ptid: string, now: Time, i: nat)
    requires i < |es|
    ensures var e, at := es[i], Read(es[i].stamp, now);
            var source, turn := Opens(e, TurnAfter(es, ptid, i)), TurnAfter(es, ptid, i + 1);
            var begun := Opened(TimesAfter(es, ptid, now, i), source, ptid, at);
            && turn == (if source.Some? then Some(TurnId(ptid, source.value)) else TurnAfter(es, ptid, i))
            && TimesAfter(es, ptid, now, i + 1) == (if Answers(e) then Closed(begun, turn, at) else begun)
            && ModelAfter(es, i + 1) == (if Usable(e.model) then e.model else ModelAfter(es, i))
            && Gathered(Says(es, ptid, now), i + 1) == Gathered(Says(es, ptid, now), i) + Say(e, turn, at)
            && Gathered(Does(es, ptid, now), i + 1) == Gathered(Does(es, ptid, now), i) + Do(e, turn, at)
  {
    hide Say, Do, Answers, Opens, Usable, Opened, Closed;
  }

  /** The reader's variables after n lines. */
  datatype State = State(turn: Option<Id>, model: Option<string>, last: Option<string>, ms: seq<Message>,
                         acts: seq<Activity>, times: map<Id, Times>)

  ghost function StateAfter(es: seq<Entry>, ptid: string, now: Time, n: nat): State {
    var ms := Gathered(Says(es, ptid, now), n);
    State(TurnAfter(es, ptid, n), ModelAfter(es, n), ItemOf(LastAssistant(ms)), ms, Gathered(Does(es, ptid, now), n),
          TimesAfter(es, ptid, now, n))
  }

  lemma StateStep(es: seq<Entry>, ptid: string, now: Time, i: nat)
    requires i < |es|
    ensures var e, at, s := es[i], Read(es[i].stamp, now), StateAfter(es, ptid, now, i);
            var source := Opens(e, s.turn);
            var turn := if source.Some? then Some(TurnId(ptid, source.value)) else s.turn;
            var begun := if source.Some? then Opened(s.times, source, ptid, at) else s.times;
            && s.last == ItemOf(LastAssistant(s.ms))
            && StateAfter(es, ptid, now, i + 1) ==
              State(turn, if Usable(e.model) then e.model else s.model, ItemOf(LastAssistant(s.ms + Say(e, turn, at))),
                    s.ms + Say(e, turn, at), s.acts + Do(e, turn, at),
                    if Answers(e) then Closed(begun, turn, at) else begun)
  {
    LineStep(es, ptid, now, i);
    hide Say, Do, Answers, Opens, Usable, Closed, LastAssistant, Gathered, TimesAfter, TurnAfter, ModelAfter, Says,
         Does;
  }

  /** Reads a Claude session line by line; None when a line belongs to another session. */
  method ParseClaudeSession(es: seq<Entry>, ptid: string, now: Time) returns (r: Option<Parsed>)
    ensures r == if Foreign(es, ptid) then None else Some(ClaudeParsed(es, ptid, now))
  {
    hide *;
    StateStart(es, ptid, now);
    var currentTurn: Option<Id>, model, lastAssistant: Option<string> := None, None, None;
    var messages: seq<Message>, activities: seq<Activity>, times: map<Id, Times> := [], [], map[];
    for i := 0 to |es|
      invariant forall k :: 0 <= k < i ==> !Mismatch(es[k].sessionId, ptid)
      invariant State(currentTurn, model, lastAssistant, messages, activities, times) == StateAfter(es, ptid, now, i)
    {
      var e := es[i];
      var at := Read(e.stamp, now);
      if Usable(e.model) {
        model := e.model;
      }
      if Mismatch(e.sessionId, ptid) {
        ForeignExactly(es, ptid);
        return None;
      }
      StateStep(es, ptid, now, i);
      var source := Opens(e, currentTurn);
      if source.Some? {
        currentTurn, times := SetTurn(times, source.value, ptid, at);
      }
      messages, activities, times, lastAssistant :=
        ReadBody(e, currentTurn, at, messages, activities, times, lastAssistant);
    }
    r := Some(Assembled(es, now, model, lastAssistant, messages, activities, times));
    ForeignExactly(es, ptid);
    StateGivesParsed(es, ptid, now);
  }

  lemma StateStart(es: seq<Entry>, ptid: string, now: Time)
    ensures StateAfter(es, ptid, now, 0) == State(None, None, None, [], [], map[])
  {
  }

  lemma ForeignExactly(es: seq<Entry>, ptid: string)
    ensures Foreign(es, ptid) <==> exists i :: 0 <= i < |es| && Mismatch(es[i].sessionId, ptid)
  {
    hide Mismatch;
  }

  lemma StateGivesParsed(es: seq<Entry>, ptid: string, now: Time)
    ensures var s := StateAfter(es, ptid, now, |es|);
            ClaudeParsed(es, ptid, now) == Assembled(es, now, s.model, s.last, s.ms, s.acts, s.times)
  {
  }

  /** The loop over the parts of an assistant's line. */
  method ReadParts(e: Entry, turn: Option<Id>, at: Time) returns (calls: seq<Activity>, text: string)
    requires e.body.AssistantLine?
    ensures calls == ToolCalls(e, e.body.parts, turn, at)
    ensures text == SpokenText(e.body.parts)
  {
    var parts := e.body.parts;
    var first := true;
    calls, text := [], "";
    for i := 0 to |parts|
      invariant calls == ToolCalls(e, parts[..i], turn, at)
      invariant text == SpokenText(parts[..i])
      invariant first <==> forall p :: p in parts[..i] ==> !p.TextPart?
    {
      assert parts[..i + 1] == parts[..i] + [parts[i]];
      assert parts[..i + 1][..i] == parts[..i];
      match parts[i]
      case TextPart(t) =>
        text := if first then t else text + "\n\n" + t;
        first := false;
      case ToolUse(id, name, input) =>
        calls := calls + [Activity(Else(id, Item(e)), turn, "tool", "provider.tool.call", Else(name, "tool") + " call",
                                   ToolCall(e.uuid, id, name, input), e.line, at)];
      case OtherPart =>
    }
    assert parts[..|parts|] == parts;
  }

  // ---- Turns ----

  ghost predicate Known(turn: Option<Id>, times: map<Id, Times>) {
    turn.Some? ==> turn.value in times
  }

  lemma TimesGrow(es: seq<Entry>, ptid: string, now: Time, n: nat)
    requires n < |es|
    ensures TimesAfter(es, ptid, now, n).Keys <= TimesAfter(es, ptid, now, n + 1).Keys
  {
    hide SpokenText, Opens, TurnAfter;
  }

  lemma {:induction false} TurnIsKnown(es: seq<Entry>, ptid: string, now: Time, n: nat)
    requires n <= |es|
    ensures Known(TurnAfter(es, ptid, n), TimesAfter(es, ptid, now, n))
  {
    if n > 0 {
      TurnIsKnown(es, ptid, now, n - 1);
      TimesGrow(es, ptid, now, n - 1);
      hide SpokenText, Opens;
    }
  }

  lemma {:induction false} CallsShareTurn(e: Entry, parts: seq<Part>, turn: Option<Id>, at: Time)
    ensures forall a :: a in ToolCalls(e, parts, turn, at) ==> a.turn == turn
  {
    if parts != [] {
      CallsShareTurn(e, parts[..|parts| - 1], turn, at);
    }
  }

  lemma BodySharesTurn(e: Entry, turn: Option<Id>, at: Time)
    ensures forall m :: m in Say(e, turn, at) ==> m.turn == turn && m.at == at
    ensures forall a :: a in Do(e, turn, at) ==> a.turn == turn
    ensures Say(e, turn, at) != [] && Say(e, turn, at)[0].role.Assistant? <==> Answers(e)
  {
    if e.body.AssistantLine? {
      CallsShareTurn(e, e.body.parts, turn, at);
    }
    hide SpokenText, ToolCalls, ContentText, HoldsResult;
  }

  /** Every turn a message or an activity names is one the reader has times for. */
  lemma {:induction false} TurnsAreKnown(es: seq<Entry>, ptid: string, now: Time, n: nat)
    requires n <= |es|
    ensures forall m :: m in Gathered(Says(es, ptid, now), n) ==> Known(m.turn, TimesAfter(es, ptid, now, n))
    ensures forall a :: a in Gathered(Does(es, ptid, now), n) ==> Known(a.turn, TimesAfter(es, ptid, now, n))
  {
    if n > 0 {
      TurnsAreKnown(es, ptid, now, n - 1);
      TimesGrow(es, ptid, now, n - 1);
      TurnIsKnown(es, ptid, now, n);
      BodySharesTurn(es[n - 1], TurnAfter(es, ptid, n), Read(es[n - 1].stamp, now));
      ghost var before, after := TimesAfter(es, ptid, now, n - 1), TimesAfter(es, ptid, now, n);
      assert forall t :: Known(t, before) ==> Known(t, after);
      hide Say, Do, TimesAfter, TurnAfter, Known;
      forall m | m in Gathered(Says(es, ptid, now), n) ensures Known(m.turn, after) {
        assert m in Gathered(Says(es, ptid, now), n - 1) || m in Says(es, ptid, now)(n - 1);
      }
      forall a | a in Gathered(Does(es, ptid, now), n) ensures Known(a.turn, after) {
        assert a in Gathered(Does(es, ptid, now), n - 1) || a in Does(es, ptid, now)(n - 1);
      }
    }
  }

  /** The latest message of a turn, if any, that the assistant gave. */
  function LastAnswer(ms: seq<Message>, t: Id): Option<Time> {
    if ms == [] then None
    else if ms[|ms| - 1].role.Assistant? && ms[|ms| - 1].turn == Some(t) then Some(ms[|ms| - 1].at)
    else LastAnswer(ms[..|ms| - 1], t)
  }

  lemma LastAnswerSnoc(ms: seq<Message>, m: Message, t: Id)
    ensures LastAnswer(ms + [m], t) == if m.role.Assistant? && m.turn == Some(t) then Some(m.at) else LastAnswer(ms, t)
  {
    assert (ms + [m])[..|ms|] == ms;
  }

  lemma LastAnswerStep(es: seq<Entry>, ptid: string, now: Time, n: nat, t: Id)
    requires n < |es|
    ensures LastAnswer(Gathered(Says(es, ptid, now), n + 1), t) ==
            if Answers(es[n]) && TurnAfter(es, ptid, n + 1) == Some(t) then Some(Read(es[n].stamp, now))
            else LastAnswer(Gathered(Says(es, ptid, now), n), t)
  {
    var turn, at := TurnAfter(es, ptid, n + 1), Read(es[n].stamp, now);
    var ms, s := Gathered(Says(es, ptid, now), n), Say(es[n], turn, at);
    assert Gathered(Says(es, ptid, now), n + 1) == ms + s;
    BodySharesTurn(es[n], turn, at);
    if s == [] {
      assert ms + s == ms;
    } else {
      assert s == [s[0]];
      LastAnswerSnoc(ms, s[0], t);
    }
    hide Say, TurnAfter, Gathered, Answers, LastAnswer;
  }

  lemma CompletedStep(times: map<Id, Times>, source: Option<string>, ptid: string, turn: Option<Id>, at: Time, t: Id)
    requires t in Opened(times, source, ptid, at)
    ensures var begun := Opened(times, source, ptid, at);
            var open := if t in times then times[t].completedAt else None;
            && begun[t].completedAt == open
            && t in Closed(begun, turn, at)
            && Closed(begun, turn, at)[t].completedAt == if turn == Some(t) then Some(at) else open
  {
  }

  lemma ClosedKeys(times: map<Id, Times>, turn: Option<Id>, at: Time)
    ensures Closed(times, turn, at).Keys == times.Keys
  {
  }

  /** A turn is completed exactly when the assistant has answered in it, at the time of the last answer. */
  lemma {:induction false} TurnsCompleteWithLastAnswer(es: seq<Entry>, ptid: string, now: Time, n: nat, t: Id)
    requires n <= |es| && t in TimesAfter(es, ptid, now, n)
    ensures TimesAfter(es, ptid, now, n)[t].completedAt == LastAnswer(Gathered(Says(es, ptid, now), n), t)
  {
    hide Opens, Closed, Opened, Say, Do, Answers, TurnAfter, LastAnswer, Gathered, ModelAfter, Usable;
    if n == 0 {
      NoTimes(es, ptid, now);
    } else {
      var before := TimesAfter(es, ptid, now, n - 1);
      if t in before {
        TurnsCompleteWithLastAnswer(es, ptid, now, n - 1, t);
      } else {
        NotYetAnswered(es, ptid, now, n - 1, t);
      }
      LastAnswerStep(es, ptid, now, n - 1, t);
      LineStep(es, ptid, now, n - 1);
      var at, turn := Read(es[n - 1].stamp, now), TurnAfter(es, ptid, n);
      var source := Opens(es[n - 1], TurnAfter(es, ptid, n - 1));
      ClosedKeys(Opened(before, source, ptid, at), turn, at);
      CompletedStep(before, source, ptid, turn, at, t);
    }
  }

  lemma NoTimes(es: seq<Entry>, ptid: string, now: Time)
    ensures TimesAfter(es, ptid, now, 0) == map[] && Gathered(Says(es, ptid, now), 0) == [] &&
            forall t :: LastAnswer([], t).None?
  {
  }

  lemma {:induction false} NotYetAnswered(es: seq<Entry>, ptid: string, now: Time, n: nat, t: Id)
    requires n <= |es| && t !in TimesAfter(es, ptid, now, n)
    ensures LastAnswer(Gathered(Says(es, ptid, now), n), t).None?
  {
    if n > 0 {
      TimesGrow(es, ptid, now, n - 1);
      NotYetAnswered(es, ptid, now, n - 1, t);
      LastAnswerStep(es, ptid, now, n - 1, t);
      TurnIsKnown(es, ptid, now, n);
      hide Gathered, LastAnswer, Answers, TurnAfter, TimesAfter;
    }
  }

  /** Line i is in turn t. */
  predicate In(es: seq<Entry>, ptid: string, i: nat, t: Id) {
    TurnAfter(es, ptid, i + 1) == Some(t)
  }

  /** Line i is the first in turn t. */
  ghost predicate FirstIn(es: seq<Entry>, ptid: string, i: nat, t: Id) {
    In(es, ptid, i, t) && forall j: nat :: j < i ==> !In(es, ptid, j, t)
  }

  ghost predicate StartedAt(es: seq<Entry>, ptid: string, now: Time, n: nat, t: Id, x: Time)
    requires n <= |es|
  {
    exists i: nat :: i < n && FirstIn(es, ptid, i, t) && x == Read(es[i].stamp, now)
  }

  lemma StartedStep(times: map<Id, Times>, source: Option<string>, ptid: string, turn: Option<Id>, at: Time, t: Id)
    requires t in Opened(times, source, ptid, at)
    ensures var begun := Opened(times, source, ptid, at);
            var start := if t in times then times[t].startedAt else at;
            && t in Closed(begun, turn, at)
            && begun[t].startedAt == start && Closed(begun, turn, at)[t].startedAt == start
            && (t !in times ==> source.Some? && t == TurnId(ptid, source.value))
  {
  }

  /** A turn starts with the first line in it. */
  lemma {:induction false} TurnsStartWithFirstLine(es: seq<Entry>, ptid: string, now: Time, n: nat, t: Id)
    requires n <= |es| && t in TimesAfter(es, ptid, now, n)
    ensures StartedAt(es, ptid, now, n, t, TimesAfter(es, ptid, now, n)[t].startedAt)
  {
    if n > 0 {
      hide StartedAt, TurnAfter, TimesAfter, Opened, Closed, Opens, Answers, Gathered, ModelAfter, Say, Do, Usable;
      LineStep(es, ptid, now, n - 1);
      var before := TimesAfter(es, ptid, now, n - 1);
      var at, turn := Read(es[n - 1].stamp, now), TurnAfter(es, ptid, n);
      var source := Opens(es[n - 1], TurnAfter(es, ptid, n - 1));
      ClosedKeys(Opened(before, source, ptid, at), turn, at);
      StartedStep(before, source, ptid, turn, at, t);
      if t in before {
        TurnsStartWithFirstLine(es, ptid, now, n - 1, t);
        StartsEarlier(es, ptid, now, n - 1, t, before[t].startedAt);
      } else {
        NotYetIn(es, ptid, now, n - 1, t);
        StartsNow(es, ptid, now, n - 1, t);
      }
    }
  }

  lemma StartsEarlier(es: seq<Entry>, ptid: string, now: Time, n: nat, t: Id, x: Time)
    requires n < |es| && StartedAt(es, ptid, now, n, t, x)
    ensures StartedAt(es, ptid, now, n + 1, t, x)
  {
    hide FirstIn;
    var i: nat :| i < n && FirstIn(es, ptid, i, t) && x == Read(es[i].stamp, now);
  }

  lemma StartsNow(es: seq<Entry>, ptid: string, now: Time, n: nat, t: Id)
    requires n < |es| && In(es, ptid, n, t) && forall j: nat :: j < n ==> !In(es, ptid, j, t)
    ensures StartedAt(es, ptid, now, n + 1, t, Read(es[n].stamp, now))
  {
    hide In;
    assert FirstIn(es, ptid, n, t);
  }

  lemma {:induction false} NotYetIn(es: seq<Entry>, ptid: string, now: Time, n: nat, t: Id)
    requires n <= |es| && t !in TimesAfter(es, ptid, now, n)
    ensures forall j: nat :: j < n ==> !In(es, ptid, j, t)
  {
    if n > 0 {
      TimesGrow(es, ptid, now, n - 1);
      TurnIsKnown(es, ptid, now, n);
      hide TurnAfter, TimesAfter;
      NotYetIn(es, ptid, now, n - 1, t);
    }
  }

  /** Messages come from lines in file order, at most one from each, and none that has something to say is
      passed over. */
  lemma ClaudeMessagesInOrder(es: seq<Entry>, ptid: string, now: Time)
    ensures exists at: seq<nat> :: Sources(at, Says(es, ptid, now), |es|, ClaudeParsed(es, ptid, now).messages)
  {
    GatheredInOrder(Says(es, ptid, now), |es|);
    assert ClaudeParsed(es, ptid, now).messages == Gathered(Says(es, ptid, now), |es|);
  }

  /** Of a whole session: every turn a message or an activity names has times; a turn starts with its first line
      and is completed with the assistant's last answer in it. */
  lemma ClaudeTurns(es: seq<Entry>, ptid: string, now: Time)
    ensures var p := ClaudeParsed(es, ptid, now);
            && (forall m :: m in p.messages ==> Known(m.turn, p.times))
            && (forall a :: a in p.activities ==> Known(a.turn, p.times))
            && (forall t :: t in p.times ==> StartedAt(es, ptid, now, |es|, t, p.times[t].startedAt))
            && (forall t :: t in p.times ==> p.times[t].completedAt == LastAnswer(p.messages, t))
  {
    hide TimesAfter, Gathered, LastAnswer, Known, StartedAt;
    TurnsAreKnown(es, ptid, now, |es|);
    forall t | t in TimesAfter(es, ptid, now, |es|)
      ensures StartedAt(es, ptid, now, |es|, t, TimesAfter(es, ptid, now, |es|)[t].startedAt)
    {
      TurnsStartWithFirstLine(es, ptid, now, |es|, t);
    }
    forall t | t in TimesAfter(es, ptid, now, |es|)
      ensures TimesAfter(es, ptid, now, |es|)[t].completedAt == LastAnswer(Gathered(Says(es, ptid, now), |es|), t)
    {
      TurnsCompleteWithLastAnswer(es, ptid, now, |es|, t);
    }
  }
}
