/** The importer's readers: the records of a provider's session file become messages, activities and turn
    times. A record is what the reader looks at once its JSON is parsed. */
module Sessions {
  import opened Options
  import Names
  import Text

  type Time = int

  /** A record's timestamp: absent, present but not a date, or a date. */
  datatype Stamp = Missing | Unreadable | At(t: Time)

  datatype Role = User | Assistant

  /** An id is a text found somewhere, or a hash of its parts; each hash is a term of its own. */
  datatype Id =
    | Given(text: string)
    | ThreadUuid(provider: string, ptid: string)
    | ProjectUuid(root: string)
    | EventId(ptid: string, kind: string, index: nat, stream: Id)
    | MessageId(ptid: string, item: string, role: Role, index: nat)
    | ActivityId(ptid: string, item: string, kind: string, index: nat)
    | TurnId(ptid: string, source: string)

  /** A turn id that JavaScript takes for true: neither null nor empty. */
  predicate Truthy(id: Option<Id>) {
    id.Some? && id.value != Given("")
  }

  function Else<T>(o: Option<T>, d: T): T {
    if o.Some? then o.value else d
  }

  function Or<T>(o: Option<T>, p: Option<T>): Option<T> {
    if o.Some? then o else p
  }

  function Read(s: Stamp, d: Time): Time {
    if s.At? then s.t else d
  }

  datatype Message = Message(item: string, role: Role, text: string, turn: Option<Id>, at: Time)

  /** What an activity's payload keeps besides the line number. */
  datatype Detail =
    | Call(name: Option<string>, callId: Option<string>)
    | Output(callId: Option<string>)
    | ToolResult(uuid: Option<string>, result: Option<string>, text: string)
    | ToolCall(uuid: Option<string>, id: Option<string>, name: Option<string>, input: Option<string>)
    | Attached(uuid: Option<string>, attachment: string)

  datatype Activity = Activity(item: string, turn: Option<Id>, tone: string, kind: string, summary: string,
                               detail: Detail, line: nat, at: Time)

  datatype Times = Times(requestedAt: Time, startedAt: Time, completedAt: Option<Time>)

  datatype Parsed = Parsed(createdAt: Time, updatedAt: Time, model: Option<string>, effort: Option<string>,
                           lastAssistant: Option<string>, messages: seq<Message>, activities: seq<Activity>,
                           times: map<Id, Times>)

  function Line(n: nat): string {
    "jsonl:" + Names.Itoa(n)
  }

  // ---- Text of a content ----

  /** A part of a content array: the text members it has, and whether it is a tool's result. */
  datatype Piece = Piece(text: Option<string>, inputText: Option<string>, outputText: Option<string>,
                         content: Option<string>, toolResult: bool)

  datatype Content = Whole(text: string) | Pieces(pieces: seq<Piece>) | NoContent

  /** The texts that are not empty, with a blank line between. */
  function Paragraphs(texts: seq<string>): string {
    if texts == [] then "" else
    var before, last := Paragraphs(texts[..|texts| - 1]), texts[|texts| - 1];
    if last == "" then before else if before == "" then last else before + "\n\n" + last
  }

  lemma {:induction false} ParagraphsEmpty(texts: seq<string>)
    ensures Paragraphs(texts) == "" <==> forall t :: t in texts ==> t == ""
  {
    if texts != [] {
      var init, last := texts[..|texts| - 1], texts[|texts| - 1];
      ParagraphsEmpty(init);
      assert texts == init + [last];
      assert last in texts && forall t :: t in init ==> t in texts;
      var before := Paragraphs(init);
      assert Paragraphs(texts) == if last == "" then before else if before == "" then last else before + "\n\n" + last;
      if before != "" && last != "" {
        assert |before + "\n\n" + last| > 0;
        assert Paragraphs(texts) != "";
      }
      if Paragraphs(texts) == "" {
        assert before == "" && last == "";
        forall t | t in texts ensures t == "" {
          assert t in init || t == last;
        }
      }
    }
  }

  function PieceText(p: Piece): string {
    Else(Or(p.text, Or(p.inputText, p.outputText)), "")
  }

  function Texts(ps: seq<Piece>, f: Piece -> string): (r: seq<string>)
    ensures |r| == |ps|
  {
    seq(|ps|, i requires 0 <= i < |ps| => f(ps[i]))
  }

  function TextFromContent(c: Content): string {
    match c
    case Whole(text) => text
    case Pieces(ps) => Paragraphs(Texts(ps, PieceText))
    case NoContent => ""
  }

  /** A content gives no text exactly when none of its parts does. */
  lemma SilentContent(c: Content)
    ensures TextFromContent(c) == "" <==>
            c.NoContent? || (c.Whole? && c.text == "") ||
            (c.Pieces? && forall p :: p in c.pieces ==> PieceText(p) == "")
  {
    if c.Pieces? {
      SilentTexts(c.pieces, PieceText);
    }
  }

  lemma SilentTexts(ps: seq<Piece>, f: Piece -> string)
    ensures Paragraphs(Texts(ps, f)) == "" <==> forall p :: p in ps ==> f(p) == ""
  {
    var ts := Texts(ps, f);
    ParagraphsEmpty(ts);
    forall p | p in ps ensures f(p) in ts {
      var i :| 0 <= i < |ps| && ps[i] == p;
      assert ts[i] == f(p);
    }
    forall t | t in ts ensures exists p :: p in ps && f(p) == t {
      var i :| 0 <= i < |ts| && ts[i] == t;
      assert ps[i] in ps && f(ps[i]) == t;
    }
  }

  // ---- What a loop over records collects ----

  function Gathered<T>(f: nat -> seq<T>, n: nat): seq<T> {
    if n == 0 then [] else Gathered(f, n - 1) + f(n - 1)
  }

  /** at names, for each entry of xs, the record it came from: in file order, one entry to a record, and no
      record that has something to give is passed over. */
  ghost predicate Sources<T(!new)>(at: seq<nat>, f: nat -> seq<T>, n: nat, xs: seq<T>) {
    && |at| == |xs|
    && (forall k :: 0 <= k < |at| ==> at[k] < n && f(at[k]) == [xs[k]])
    && (forall j, k :: 0 <= j < k < |at| ==> at[j] < at[k])
    && (forall i :: 0 <= i < n && f(i) != [] ==> i in at)
  }

  lemma SourcesNone<T(!new)>(f: nat -> seq<T>)
    ensures Sources([], f, 0, Gathered(f, 0))
  {
  }

  lemma SourcesSkip<T(!new)>(at: seq<nat>, f: nat -> seq<T>, n: nat, xs: seq<T>)
    requires Sources(at, f, n, xs) && f(n) == []
    ensures Sources(at, f, n + 1, xs)
  {
  }

  lemma SourcesExtend<T(!new)>(at: seq<nat>, f: nat -> seq<T>, n: nat, xs: seq<T>, x: T)
    requires Sources(at, f, n, xs) && f(n) == [x]
    ensures Sources(at + [n], f, n + 1, xs + [x])
  {
    var at', xs' := at + [n], xs + [x];
    forall k | 0 <= k < |at'| ensures at'[k] < n + 1 && f(at'[k]) == [xs'[k]] {
      if k < |at| { assert at'[k] == at[k] && xs'[k] == xs[k]; }
    }
    forall i | 0 <= i < n + 1 && f(i) != [] ensures i in at' {
      if i < n { assert i in at; }
    }
  }

  lemma {:induction false} GatheredInOrder<T(!new)>(f: nat -> seq<T>, n: nat)
    requires forall i: nat :: |f(i)| <= 1
    ensures exists at: seq<nat> :: Sources(at, f, n, Gathered(f, n))
  {
    hide Sources;
    if n == 0 {
      SourcesNone(f);
    } else {
      GatheredInOrder(f, n - 1);
      var at: seq<nat> :| Sources(at, f, n - 1, Gathered(f, n - 1));
      assert |f(n - 1)| <= 1;
      if f(n - 1) == [] {
        SourcesSkip(at, f, n - 1, Gathered(f, n - 1));
        assert Gathered(f, n) == Gathered(f, n - 1) + [] == Gathered(f, n - 1);
        assert Sources(at, f, n, Gathered(f, n));
      } else {
        assert f(n - 1) == [f(n - 1)[0]];
        SourcesExtend(at, f, n - 1, Gathered(f, n - 1), f(n - 1)[0]);
        assert Sources(at + [n - 1], f, n, Gathered(f, n));
      }
    }
  }

  /** An entry is gathered exactly when some record gives it. */
  lemma {:induction false} GatheredElements<T>(f: nat -> seq<T>, n: nat, x: T)
    ensures x in Gathered(f, n) <==> exists i :: 0 <= i < n && x in f(i)
  {
    if n > 0 {
      GatheredElements(f, n - 1, x);
    }
  }

  function LastAssistant(ms: seq<Message>): Option<Message> {
    if ms == [] then None
    else if ms[|ms| - 1].role.Assistant? then Some(ms[|ms| - 1])
    else LastAssistant(ms[..|ms| - 1])
  }

  function ItemOf(m: Option<Message>): Option<string> {
    if m.Some? then Some(m.value.item) else None
  }

  // ---- Codex ----

  datatype Meta = Meta(id: Option<string>, stamp: Stamp, model: Option<string>)

  datatype Body =
    | SessionMeta(meta: Meta)
    | TaskStarted(turn: Option<string>, started: Stamp)
    | TurnContext(turn: Option<string>, model: Option<string>, effort: Option<string>, reasoning: Option<string>)
    | TaskComplete(turn: Option<string>, completed: Stamp)
    | UserMessage(text: string)
    | AgentMessage(text: string)
    | ResponseMessage(assistant: bool, phase: bool, content: Content)
    | FunctionCall(name: Option<string>, callId: Option<string>)
    | FunctionCallOutput(callId: Option<string>)
    | OtherBody

  datatype Record = Record(line: nat, stamp: Stamp, body: Body)

  /** The first session_meta record's payload. */
  function MetaOf(rs: seq<Record>): Meta {
    if rs == [] then Meta(None, Missing, None)
    else if rs[0].body.SessionMeta? then rs[0].body.meta
    else MetaOf(rs[1..])
  }

  /** The session file is another session's. */
  predicate Mismatch(id: Option<string>, ptid: string) {
    id.Some? && id.value != "" && id.value != ptid
  }

  function CodexAt(rs: seq<Record>, now: Time, i: nat): Time
    requires i < |rs|
  {
    Read(rs[i].stamp, Read(MetaOf(rs).stamp, now))
  }

  function AsTurn(t: Option<string>): Option<Id> {
    if t.Some? then Some(Given(t.value)) else None
  }

  /** The turn id a record puts in force. */
  function SetsTurn(b: Body): Option<Id> {
    match b
    case TaskStarted(turn, _) => AsTurn(turn)
    case TurnContext(turn, _, _, _) => AsTurn(turn)
    case _ => None
  }

  /** The turn id in force after n records. */
  function CodexTurn(rs: seq<Record>, n: nat): Option<Id>
    requires n <= |rs|
  {
    if n == 0 then None else Or(SetsTurn(rs[n - 1].body), CodexTurn(rs, n - 1))
  }

  /** It is the one of the nearest earlier record that set one. */
  lemma {:induction false} CodexTurnIsNearest(rs: seq<Record>, n: nat, t: Id)
    requires n <= |rs|
    ensures CodexTurn(rs, n) == Some(t) <==>
            exists j :: 0 <= j < n && SetsTurn(rs[j].body) == Some(t)
                        && forall k :: j < k < n ==> SetsTurn(rs[k].body).None?
  {
    if n > 0 {
      CodexTurnIsNearest(rs, n - 1, t);
      if SetsTurn(rs[n - 1].body).None? && CodexTurn(rs, n - 1) == Some(t) {
        var j :| 0 <= j < n - 1 && SetsTurn(rs[j].body) == Some(t)
                 && forall k :: j < k < n - 1 ==> SetsTurn(rs[k].body).None?;
        assert forall k :: j < k < n ==> SetsTurn(rs[k].body).None?;
      }
    }
  }

  function Said(role: Role, text: string, r: Record, turn: Option<Id>, at: Time): seq<Message> {
    if text == "" then [] else [Message(Line(r.line), role, text, turn, at)]
  }

  function CodexMessage(rs: seq<Record>, now: Time, i: nat): (r: seq<Message>)
    ensures |r| <= 1
  {
    if i >= |rs| then [] else
    match rs[i].body
    case UserMessage(text) => Said(User, text, rs[i], CodexTurn(rs, i), CodexAt(rs, now, i))
    case AgentMessage(text) => Said(Assistant, text, rs[i], CodexTurn(rs, i), CodexAt(rs, now, i))
    case ResponseMessage(true, false, content) =>
      Said(Assistant, TextFromContent(content), rs[i], CodexTurn(rs, i), CodexAt(rs, now, i))
    case _ => []
  }

  function CodexActivity(rs: seq<Record>, now: Time, i: nat): (r: seq<Activity>)
    ensures |r| <= 1
  {
    if i >= |rs| then [] else
    match rs[i].body
    case FunctionCall(name, callId) =>
      [Activity(Line(rs[i].line), CodexTurn(rs, i), "tool", "provider.tool.call", Else(name, "tool") + " call",
                Call(name, callId), rs[i].line, CodexAt(rs, now, i))]
    case FunctionCallOutput(callId) =>
      [Activity(Line(rs[i].line), CodexTurn(rs, i), "tool", "provider.tool.result",
                Text.Trim("tool result " + Else(callId, ""), Text.IsSpace), Output(callId), rs[i].line,
                CodexAt(rs, now, i))]
    case _ => []
  }

  function CodexSays(rs: seq<Record>, now: Time): nat -> seq<Message> {
    (i: nat) => CodexMessage(rs, now, i)
  }

  function CodexDoes(rs: seq<Record>, now: Time): nat -> seq<Activity> {
    (i: nat) => CodexActivity(rs, now, i)
  }

  function CodexMessages(rs: seq<Record>, now: Time, n: nat): seq<Message> {
    Gathered(CodexSays(rs, now), n)
  }

  function CodexActivities(rs: seq<Record>, now: Time, n: nat): seq<Activity> {
    Gathered(CodexDoes(rs, now), n)
  }

  function CodexTimes(rs: seq<Record>, now: Time, n: nat): map<Id, Times>
    requires n <= |rs|
  {
    if n == 0 then map[] else
    var before := CodexTimes(rs, now, n - 1);
    var at := CodexAt(rs, now, n - 1);
    match rs[n - 1].body
    case TaskStarted(_, started) =>
      var t := CodexTurn(rs, n);
      if Truthy(t) then before[t.value := Times(Read(started, at), Read(started, at), None)] else before
    case TaskComplete(turn, completed) =>
      var t := Or(AsTurn(turn), CodexTurn(rs, n - 1));
      if Truthy(t) then
        var existing := if t.value in before then before[t.value] else Times(at, at, None);
        before[t.value := existing.(completedAt := Some(Read(completed, at)))]
      else before
    case _ => before
  }

  function CodexModel(rs: seq<Record>, n: nat): Option<string>
    requires n <= |rs|
  {
    if n == 0 then MetaOf(rs).model
    else if rs[n - 1].body.TurnContext? then Or(rs[n - 1].body.model, CodexModel(rs, n - 1))
    else CodexModel(rs, n - 1)
  }

  function CodexEffort(rs: seq<Record>, n: nat): Option<string>
    requires n <= |rs|
  {
    if n == 0 then None
    else if rs[n - 1].body.TurnContext? then
      Or(rs[n - 1].body.reasoning, Or(rs[n - 1].body.effort, CodexEffort(rs, n - 1)))
    else CodexEffort(rs, n - 1)
  }

  /** The times of a session are those of its messages, or of its records when it has none. */
  function Assembled(rs: seq<Record>, now: Time, model: Option<string>, effort: Option<string>, ms: seq<Message>,
                     acts: seq<Activity>, times: map<Id, Times>): Parsed
  {
    var created := if ms != [] then ms[0].at else Read(MetaOf(rs).stamp, now);
    var updated := if ms != [] then ms[|ms| - 1].at
                   else if rs != [] then Read(rs[|rs| - 1].stamp, created) else created;
    Parsed(created, updated, model, effort, ItemOf(LastAssistant(ms)), ms, acts, times)
  }

  function CodexParsed(rs: seq<Record>, now: Time): Parsed {
    Assembled(rs, now, CodexModel(rs, |rs|), CodexEffort(rs, |rs|), CodexMessages(rs, now, |rs|),
              CodexActivities(rs, now, |rs|), CodexTimes(rs, now, |rs|))
  }

  /** Reads a Codex session, record by record; None when the file is another session's. */
  method ParseCodexSession(rs: seq<Record>, ptid: string, now: Time) returns (r: Option<Parsed>)
    ensures r == if Mismatch(MetaOf(rs).id, ptid) then None else Some(CodexParsed(rs, now))
  {
    hide Assembled, MetaOf, LastAssistant, Line, Text.Trim, TextFromContent;
    var meta := MetaOf(rs);
    if meta.id.Some? && meta.id.value != "" && meta.id.value != ptid {
      return None;
    }
    var currentTurn: Option<Id>, model, effort: Option<string> := None, meta.model, None;
    var messages: seq<Message>, activities: seq<Activity>, times: map<Id, Times> := [], [], map[];
    for i := 0 to |rs|
      invariant currentTurn == CodexTurn(rs, i)
      invariant model == CodexModel(rs, i) && effort == CodexEffort(rs, i)
      invariant messages == CodexMessages(rs, now, i)
      invariant activities == CodexActivities(rs, now, i)
      invariant times == CodexTimes(rs, now, i)
    {
      var at := Read(rs[i].stamp, Read(meta.stamp, now));
      var item := Line(rs[i].line);
      match rs[i].body
      case TaskStarted(turn, started) =>
        currentTurn := Or(AsTurn(turn), currentTurn);
        if Truthy(currentTurn) {
          times := times[currentTurn.value := Times(Read(started, at), Read(started, at), None)];
        }
      case TurnContext(turn, m, e, reasoning) =>
        currentTurn := Or(AsTurn(turn), currentTurn);
        model := Or(m, model);
        effort := Or(e, effort);
        effort := Or(reasoning, effort);
      case TaskComplete(turn, completed) =>
        var t := Or(AsTurn(turn), currentTurn);
        if Truthy(t) {
          var existing := if t.value in times then times[t.value] else Times(at, at, None);
          times := times[t.value := existing.(completedAt := Some(Read(completed, at)))];
        }
      case UserMessage(text) =>
        if |text| > 0 {
          messages := messages + [Message(item, User, text, currentTurn, at)];
        }
      case AgentMessage(text) =>
        if |text| > 0 {
          messages := messages + [Message(item, Assistant, text, currentTurn, at)];
        }
      case ResponseMessage(assistant, phase, content) =>
        if assistant && !phase {
          var text := TextFromContent(content);
          if |text| > 0 {
            messages := messages + [Message(item, Assistant, text, currentTurn, at)];
          }
        }
      case FunctionCall(name, callId) =>
        activities := activities + [Activity(item, currentTurn, "tool", "provider.tool.call",
                                             Else(name, "tool") + " call",
                                             Call(name, callId), rs[i].line, at)];
      case FunctionCallOutput(callId) =>
        activities := activities + [Activity(item, currentTurn, "tool", "provider.tool.result",
                                             Text.Trim("tool result " + Else(callId, ""), Text.IsSpace), Output(callId),
                                             rs[i].line, at)];
      case _ =>
    }
    r := Some(Assembled(rs, now, model, effort, messages, activities, times));
  }

  /** Messages come from records in file order, at most one from each, and none that has something to say is
      passed over. */
  lemma CodexMessagesInOrder(rs: seq<Record>, now: Time)
    ensures exists at: seq<nat> :: Sources(at, CodexSays(rs, now), |rs|, CodexParsed(rs, now).messages)
  {
    GatheredInOrder(CodexSays(rs, now), |rs|);
    assert CodexParsed(rs, now).messages == Gathered(CodexSays(rs, now), |rs|);
  }

  /** And so do activities. */
  lemma CodexActivitiesInOrder(rs: seq<Record>, now: Time)
    ensures exists at: seq<nat> :: Sources(at, CodexDoes(rs, now), |rs|, CodexParsed(rs, now).activities)
  {
    GatheredInOrder(CodexDoes(rs, now), |rs|);
    assert CodexParsed(rs, now).activities == Gathered(CodexDoes(rs, now), |rs|);
  }

  lemma CodexForm(rs: seq<Record>, now: Time, i: nat)
    requires i < |rs|
    ensures forall m :: m in CodexMessage(rs, now, i) ==> m.item == Line(rs[i].line) && m.turn == CodexTurn(rs, i)
    ensures forall a :: a in CodexActivity(rs, now, i) ==> a.item == Line(rs[i].line) && a.turn == CodexTurn(rs, i)
  {
    hide CodexTurn, MetaOf, TextFromContent;
  }

  ghost predicate FromRecord(rs: seq<Record>, item: string, turn: Option<Id>) {
    exists i :: 0 <= i < |rs| && item == Line(rs[i].line) && turn == CodexTurn(rs, i)
  }

  /** Each carries the line of a record and the turn in force there. */
  lemma CodexTurnsOfRecords(rs: seq<Record>, now: Time)
    ensures forall m :: m in CodexParsed(rs, now).messages ==> FromRecord(rs, m.item, m.turn)
    ensures forall a :: a in CodexParsed(rs, now).activities ==> FromRecord(rs, a.item, a.turn)
  {
    var ms, acts := CodexMessages(rs, now, |rs|), CodexActivities(rs, now, |rs|);
    assert CodexParsed(rs, now).messages == ms && CodexParsed(rs, now).activities == acts;
    hide CodexParsed, CodexTurn, Gathered, CodexMessage, CodexActivity;
    forall m | m in ms ensures FromRecord(rs, m.item, m.turn) {
      GatheredElements(CodexSays(rs, now), |rs|, m);
      var i :| 0 <= i < |rs| && m in CodexSays(rs, now)(i);
      CodexForm(rs, now, i);
    }
    forall a | a in acts ensures FromRecord(rs, a.item, a.turn) {
      GatheredElements(CodexDoes(rs, now), |rs|, a);
      var i :| 0 <= i < |rs| && a in CodexDoes(rs, now)(i);
      CodexForm(rs, now, i);
    }
  }

  // ---- Codex turn times ----

  /** Record j starts turn t. */
  predicate Starts(rs: seq<Record>, j: int, t: Id) {
    0 <= j < |rs| && rs[j].body.TaskStarted? && CodexTurn(rs, j + 1) == Some(t) && t != Given("")
  }

  /** Record j completes turn t. */
  predicate Completes(rs: seq<Record>, j: int, t: Id) {
    0 <= j < |rs| && rs[j].body.TaskComplete? && Or(AsTurn(rs[j].body.turn), CodexTurn(rs, j)) == Some(t) &&
    t != Given("")
  }

  /** Record j, one of the first n, is the last of them to start or complete t. */
  ghost predicate LastTouch(rs: seq<Record>, j: int, n: nat, t: Id) {
    j < n && (Starts(rs, j, t) || Completes(rs, j, t))
    && forall k :: j < k < n ==> !Starts(rs, k, t) && !Completes(rs, k, t)
  }

  ghost predicate LastStart(rs: seq<Record>, j: int, n: nat, t: Id) {
    j < n && Starts(rs, j, t) && forall k :: j < k < n ==> !Starts(rs, k, t)
  }

  lemma CodexTimesStep(rs: seq<Record>, now: Time, n: nat, t: Id)
    requires n < |rs|
    ensures var before, after := CodexTimes(rs, now, n), CodexTimes(rs, now, n + 1);
            if Starts(rs, n, t) then
              var x := Read(rs[n].body.started, CodexAt(rs, now, n));
              t in after && after[t] == Times(x, x, None)
            else if Completes(rs, n, t) then
              && t in after && after[t].completedAt == Some(Read(rs[n].body.completed, CodexAt(rs, now, n)))
              && (t in before ==>
                    after[t].startedAt == before[t].startedAt && after[t].requestedAt == before[t].requestedAt)
            else (t in after <==> t in before) && (t in before ==> after[t] == before[t])
  {
    hide CodexTurn, MetaOf;
  }

  lemma LastTouchStep(rs: seq<Record>, j: int, n: nat, t: Id)
    requires n < |rs| && 0 <= j <= n
    ensures LastTouch(rs, j, n + 1, t) <==>
            if j == n then Starts(rs, n, t) || Completes(rs, n, t)
            else LastTouch(rs, j, n, t) && !Starts(rs, n, t) && !Completes(rs, n, t)
    ensures LastStart(rs, j, n + 1, t)
            <==> if j == n then Starts(rs, n, t) else LastStart(rs, j, n, t) && !Starts(rs, n, t)
    ensures LastStart(rs, j, n + 1, t) && j < n ==> LastStart(rs, j, n, t)
  {
    hide Starts, Completes;
  }

  lemma NotBoth(rs: seq<Record>, j: int, t: Id)
    ensures !(Starts(rs, j, t) && Completes(rs, j, t))
  {
  }

  /** A turn has times exactly when some record started or completed it; it is completed exactly when it was not
      started again since, at the time its last completion gives. */
  lemma {:induction false} CodexTimesExact(rs: seq<Record>, now: Time, n: nat, t: Id)
    requires n <= |rs|
    ensures t in CodexTimes(rs, now, n) <==> exists j :: 0 <= j < n && LastTouch(rs, j, n, t)
    ensures forall j :: 0 <= j < n && LastTouch(rs, j, n, t) ==>
              t in CodexTimes(rs, now, n) &&
              CodexTimes(rs, now, n)[t].completedAt ==
              if Completes(rs, j, t) then Some(Read(rs[j].body.completed, CodexAt(rs, now, j))) else None
  {
    if n > 0 {
      hide CodexTimes, CodexAt, LastTouch, Starts;
      CodexTimesExact(rs, now, n - 1, t);
      CodexTimesStep(rs, now, n - 1, t);
      NotBoth(rs, n - 1, t);
      forall j | 0 <= j < n
        ensures LastTouch(rs, j, n, t) <==>
                if j == n - 1 then Starts(rs, n - 1, t) || Completes(rs, n - 1, t)
                else LastTouch(rs, j, n - 1, t) && !Starts(rs, n - 1, t) && !Completes(rs, n - 1, t)
      {
        LastTouchStep(rs, j, n - 1, t);
      }
      if Starts(rs, n - 1, t) || Completes(rs, n - 1, t) {
        assert LastTouch(rs, n - 1, n, t);
      } else if t in CodexTimes(rs, now, n - 1) {
        var j :| 0 <= j < n - 1 && LastTouch(rs, j, n - 1, t);
        assert LastTouch(rs, j, n, t);
      }
    }
  }

  /** It started, and was requested, when it was last started. */
  lemma {:induction false} CodexStartExact(rs: seq<Record>, now: Time, n: nat, t: Id, j: nat)
    requires n <= |rs| && j < n && LastStart(rs, j, n, t)
    ensures t in CodexTimes(rs, now, n)
    ensures var times := CodexTimes(rs, now, n)[t];
            times.startedAt == times.requestedAt == Read(rs[j].body.started, CodexAt(rs, now, j))
  {
    hide CodexTimes, CodexAt, LastStart;
    CodexTimesStep(rs, now, n - 1, t);
    LastTouchStep(rs, j, n - 1, t);
    if j < n - 1 {
      CodexStartExact(rs, now, n - 1, t, j);
    }
  }
}
