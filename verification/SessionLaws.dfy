/** What reading a Codex session gives, told from its records alone. */
module SessionLaws {
  import opened Options
  import opened Sessions
  import Names
  import Text

  // ---- Texts ----

  lemma {:induction false} ParagraphsAppend(a: seq<string>, b: seq<string>)
    ensures Paragraphs(a + b) == Linked(Paragraphs(a), Paragraphs(b))
  {
    if b == [] {
      assert a + b == a;
    } else {
      var init, last := b[..|b| - 1], b[|b| - 1];
      ParagraphsAppend(a, init);
      assert (a + b)[..|a + b| - 1] == a + init;
      var x, y := Paragraphs(a), Paragraphs(init);
      if x != "" && y != "" && last != "" {
        assert x + "\n\n" + y + "\n\n" + last == x + "\n\n" + (y + "\n\n" + last);
      }
    }
  }

  /** Two texts with a blank line between, if there are two. */
  function Linked(x: string, y: string): string {
    if x == "" then y else if y == "" then x else x + "\n\n" + y
  }

  lemma TextsAppend(a: seq<Piece>, b: seq<Piece>, f: Piece -> string)
    ensures Paragraphs(Texts(a + b, f)) == Linked(Paragraphs(Texts(a, f)), Paragraphs(Texts(b, f)))
  {
    assert Texts(a + b, f) == Texts(a, f) + Texts(b, f);
    ParagraphsAppend(Texts(a, f), Texts(b, f));
  }

  /** A content's text is its own, or the texts of its parts that have one, a blank line between each two; a part
      gives the first of its three texts that is there. */
  lemma TextOfContent(a: seq<Piece>, b: seq<Piece>, p: Piece, s: string)
    ensures TextFromContent(Whole(s)) == s && TextFromContent(NoContent) == "" == TextFromContent(Pieces([]))
    ensures TextFromContent(Pieces([p])) == if p.text.Some? then p.text.value
                                            else if p.inputText.Some? then p.inputText.value
                                            else if p.outputText.Some? then p.outputText.value else ""
    ensures var x, y := TextFromContent(Pieces(a)), TextFromContent(Pieces(b));
            TextFromContent(Pieces(a + b)) == if x == "" then y else if y == "" then x else x + "\n\n" + y
  {
    TextsAppend(a, b, PieceText);
    assert Texts([p], PieceText) == [PieceText(p)];
    assert [PieceText(p)][..0] == [];
  }

  // ---- Records ----

  ghost predicate FirstMeta(rs: seq<Record>, j: int) {
    0 <= j < |rs| && rs[j].body.SessionMeta? && forall k :: 0 <= k < j ==> !rs[k].body.SessionMeta?
  }

  lemma {:induction false} MetaIsFirst(rs: seq<Record>)
    ensures forall j :: FirstMeta(rs, j) ==> MetaOf(rs) == rs[j].body.meta
    ensures (forall k :: 0 <= k < |rs| ==> !rs[k].body.SessionMeta?) ==> MetaOf(rs) == Meta(None, Missing, None)
    ensures MetaOf(rs) != Meta(None, Missing, None) ==> exists j :: FirstMeta(rs, j)
  {
    if rs != [] {
      MetaIsFirst(rs[1..]);
      if rs[0].body.SessionMeta? {
        assert FirstMeta(rs, 0);
      } else {
        forall j ensures FirstMeta(rs, j) <==> FirstMeta(rs[1..], j - 1) {
          if FirstMeta(rs[1..], j - 1) {
            assert forall k :: 0 < k < j ==> rs[k] == rs[1..][k - 1];
          }
          if FirstMeta(rs, j) {
            assert j > 0 && rs[1..][j - 1] == rs[j];
          }
        }
        if MetaOf(rs) != Meta(None, Missing, None) {
          var j :| FirstMeta(rs[1..], j);
          assert FirstMeta(rs, j + 1);
        }
      }
    }
  }

  /** The file is turned away exactly when its first session record names another session. */
  lemma MismatchExact(rs: seq<Record>, ptid: string)
    ensures Mismatch(MetaOf(rs).id, ptid) <==>
            exists j :: FirstMeta(rs, j) && rs[j].body.meta.id.Some? && rs[j].body.meta.id.value !in {"", ptid}
  {
    hide FirstMeta;
    MetaIsFirst(rs);
  }

  /** The record's own time; else the session's; else the clock's. */
  ghost predicate TimeIs(rs: seq<Record>, now: Time, i: int, x: Time) {
    0 <= i < |rs| &&
    match rs[i].stamp
    case At(t) => x == t
    case _ => SessionTimeIs(rs, now, x)
  }

  ghost predicate SessionTimeIs(rs: seq<Record>, now: Time, x: Time) {
    && (forall j :: FirstMeta(rs, j) ==> x == if rs[j].body.meta.stamp.At? then rs[j].body.meta.stamp.t else now)
    && ((forall k :: 0 <= k < |rs| ==> !rs[k].body.SessionMeta?) ==> x == now)
  }

  lemma TimeIsExact(rs: seq<Record>, now: Time, i: nat)
    requires i < |rs|
    ensures TimeIs(rs, now, i, CodexAt(rs, now, i))
    ensures SessionTimeIs(rs, now, Read(MetaOf(rs).stamp, now))
  {
    hide FirstMeta;
    MetaIsFirst(rs);
  }

  /** A task's start or a turn's context with this turn id. */
  predicate Enters(b: Body, t: Option<string>) {
    t.Some? && ((b.TaskStarted? && b.turn == t) || (b.TurnContext? && b.turn == t))
  }

  /** The turn is that of the nearest record before i that enters one, if there is one. */
  ghost predicate TurnIs(rs: seq<Record>, i: int, turn: Option<Id>) {
    0 <= i <= |rs| &&
    match turn
    case None => forall j, t :: 0 <= j < i ==> !Enters(rs[j].body, t)
    case Some(id) =>
      id.Given? && exists j :: 0 <= j < i && Enters(rs[j].body, Some(id.text))
                               && forall k, t :: j < k < i ==> !Enters(rs[k].body, t)
  }

  lemma EntersExact(b: Body)
    ensures forall t :: Enters(b, t) <==> t.Some? && SetsTurn(b) == Some(Given(t.value))
    ensures SetsTurn(b).None? <==> forall t :: !Enters(b, t)
    ensures SetsTurn(b).Some? ==> SetsTurn(b).value.Given? && Enters(b, Some(SetsTurn(b).value.text))
  {
    if SetsTurn(b).Some? {
      assert Enters(b, Some(SetsTurn(b).value.text));
    }
  }

  lemma {:induction false} TurnIsExact(rs: seq<Record>, n: nat)
    requires n <= |rs|
    ensures TurnIs(rs, n, CodexTurn(rs, n))
  {
    hide Enters, SetsTurn;
    if n > 0 {
      var b := rs[n - 1].body;
      TurnIsExact(rs, n - 1);
      EntersExact(b);
      var before := CodexTurn(rs, n - 1);
      if SetsTurn(b).None? && before.Some? {
        var j :| 0 <= j < n - 1 && Enters(rs[j].body, Some(before.value.text))
                 && forall k, t :: j < k < n - 1 ==> !Enters(rs[k].body, t);
        assert forall k, t :: j < k < n ==> !Enters(rs[k].body, t);
      }
    }
  }

  // ---- Messages ----

  /** A user's words, or an assistant's: its own event, or a response without a phase. */
  predicate Speaks(b: Body, role: Role, text: string) {
    match role
    case User => b == UserMessage(text)
    case Assistant =>
      b == AgentMessage(text) || (b.ResponseMessage? && b.assistant && !b.phase && TextFromContent(b.content) == text)
  }

  /** m is what record i says. */
  ghost predicate MessageOf(rs: seq<Record>, now: Time, i: nat, m: Message) {
    && i < |rs| && m.text != "" && Speaks(rs[i].body, m.role, m.text)
    && m.item == "jsonl:" + Names.Itoa(rs[i].line)
    && TurnIs(rs, i, m.turn) && TimeIs(rs, now, i, m.at)
  }

  lemma CodexMessageExact(rs: seq<Record>, now: Time, i: nat)
    requires i < |rs|
    ensures forall m :: m in CodexMessage(rs, now, i) ==> MessageOf(rs, now, i, m)
    ensures forall role, text :: Speaks(rs[i].body, role, text) && text != "" ==> CodexMessage(rs, now, i) != []
  {
    hide CodexTurn, CodexAt, TurnIs, TimeIs, TextFromContent;
    TurnIsExact(rs, i);
    TimeIsExact(rs, now, i);
  }

  /** Rising places, one for each. */
  ghost predicate Rising(at: seq<nat>, n: nat, count: nat) {
    |at| == count && (forall k :: 0 <= k < |at| ==> at[k] < n) && forall j, k :: 0 <= j < k < |at| ==> at[j] < at[k]
  }

  /** A session's messages are what its records say, in their order, nothing said left out: with the role, the text,
      the time and the turn of the record. */
  lemma CodexMessagesExact(rs: seq<Record>, now: Time)
    ensures exists at: seq<nat> ::
              var ms := CodexParsed(rs, now).messages;
              && Rising(at, |rs|, |ms|)
              && (forall k :: 0 <= k < |at| ==> MessageOf(rs, now, at[k], ms[k]))
              && (forall i: nat, role, text :: i < |rs| && Speaks(rs[i].body, role, text) && text != "" ==> i in at)
  {
    hide CodexParsed, Speaks, MessageOf, CodexMessage;
    CodexMessagesInOrder(rs, now);
    var ms, says := CodexParsed(rs, now).messages, CodexSays(rs, now);
    var at: seq<nat> :| Sources(at, says, |rs|, ms);
    forall k | 0 <= k < |at| ensures at[k] < |rs| && MessageOf(rs, now, at[k], ms[k]) {
      assert says(at[k]) == [ms[k]] && ms[k] in [ms[k]];
      CodexMessageExact(rs, now, at[k]);
    }
    forall i: nat, role, text | i < |rs| && Speaks(rs[i].body, role, text) && text != "" ensures i in at {
      CodexMessageExact(rs, now, i);
      assert says(i) != [];
    }
    assert Rising(at, |rs|, |ms|);
  }

  // ---- Activities ----

  predicate CallsTool(b: Body) {
    b.FunctionCall? || b.FunctionCallOutput?
  }

  /** a is the tool call, or the tool's result, that record i holds. */
  ghost predicate ActivityOf(rs: seq<Record>, now: Time, i: nat, a: Activity) {
    && i < |rs| && CallsTool(rs[i].body)
    && a.item == "jsonl:" + Names.Itoa(rs[i].line) && a.line == rs[i].line && a.tone == "tool"
    && TurnIs(rs, i, a.turn) && TimeIs(rs, now, i, a.at)
    && match rs[i].body
       case FunctionCall(name, callId) =>
         && a.kind == "provider.tool.call" && a.detail == Call(name, callId)
         && a.summary == (if name.Some? then name.value else "tool") + " call"
       case FunctionCallOutput(callId) =>
         && a.kind == "provider.tool.result" && a.detail == Output(callId)
         && (callId.None? ==> a.summary == "tool result")
         && (callId.Some? && callId.value != "" && Text.Trimmed(callId.value, Text.IsSpace) ==>
               a.summary == "tool result " + callId.value)
       case _ => true
  }

  lemma ResultSummary(callId: Option<string>)
    ensures var s := Text.Trim("tool result " + Else(callId, ""), Text.IsSpace);
            && (callId.None? ==> s == "tool result")
            && (callId.Some? && callId.value != "" && Text.Trimmed(callId.value, Text.IsSpace) ==>
                  s == "tool result " + callId.value)
  {
    hide Text.Trim;
    if callId.None? {
      assert "tool result " + "" == "" + "tool result" + " ";
      Text.TrimMiddle("", "tool result", " ", Text.IsSpace);
    } else if callId.value != "" && Text.Trimmed(callId.value, Text.IsSpace) {
      var s := "tool result " + callId.value;
      assert s[|s| - 1] == callId.value[|callId.value| - 1];
      Text.TrimIsTrimmed(s, Text.IsSpace);
    }
  }

  lemma CodexActivityExact(rs: seq<Record>, now: Time, i: nat)
    requires i < |rs|
    ensures forall a :: a in CodexActivity(rs, now, i) ==> ActivityOf(rs, now, i, a)
    ensures CallsTool(rs[i].body) ==> CodexActivity(rs, now, i) != []
  {
    hide CodexTurn, CodexAt, TurnIs, TimeIs, Text.Trim, Text.Trimmed;
    TurnIsExact(rs, i);
    TimeIsExact(rs, now, i);
    if rs[i].body.FunctionCallOutput? {
      ResultSummary(rs[i].body.callId);
    }
  }

  /** A session's activities are the tool calls and results of its records, in their order, none left out. */
  lemma CodexActivitiesExact(rs: seq<Record>, now: Time)
    ensures exists at: seq<nat> ::
              var acts := CodexParsed(rs, now).activities;
              && Rising(at, |rs|, |acts|)
              && (forall k :: 0 <= k < |at| ==> ActivityOf(rs, now, at[k], acts[k]))
              && (forall i: nat :: i < |rs| && CallsTool(rs[i].body) ==> i in at)
  {
    hide CodexParsed, CallsTool, ActivityOf, CodexActivity;
    CodexActivitiesInOrder(rs, now);
    var acts, does := CodexParsed(rs, now).activities, CodexDoes(rs, now);
    var at: seq<nat> :| Sources(at, does, |rs|, acts);
    forall k | 0 <= k < |at| ensures at[k] < |rs| && ActivityOf(rs, now, at[k], acts[k]) {
      assert does(at[k]) == [acts[k]] && acts[k] in [acts[k]];
      CodexActivityExact(rs, now, at[k]);
    }
    forall i: nat | i < |rs| && CallsTool(rs[i].body) ensures i in at {
      CodexActivityExact(rs, now, i);
      assert does(i) != [];
    }
    assert Rising(at, |rs|, |acts|);
  }

  // ---- Times ----

  /** A turn completed without ever being started is dated from its first completion. */
  lemma {:induction false} CodexUnstarted(rs: seq<Record>, now: Time, n: nat, t: Id, j: nat)
    requires j < n <= |rs| && Completes(rs, j, t)
    requires forall k :: 0 <= k < n ==> !Starts(rs, k, t) && (k < j ==> !Completes(rs, k, t))
    ensures t in CodexTimes(rs, now, n)
    ensures var times := CodexTimes(rs, now, n)[t]; times.startedAt == times.requestedAt == CodexAt(rs, now, j)
  {
    hide CodexTimes, CodexAt, Starts, Completes, LastTouch;
    CodexTimesStep(rs, now, n - 1, t);
    if j < n - 1 {
      CodexUnstarted(rs, now, n - 1, t, j);
    } else {
      CodexTimesExact(rs, now, j, t);
      Untouched(rs, j, t);
      FirstCompletion(rs, now, j, t);
    }
  }

  lemma Untouched(rs: seq<Record>, n: nat, t: Id)
    requires forall k :: 0 <= k < n ==> !Starts(rs, k, t) && !Completes(rs, k, t)
    ensures !exists j :: 0 <= j < n && LastTouch(rs, j, n, t)
  {
  }

  lemma FirstCompletion(rs: seq<Record>, now: Time, n: nat, t: Id)
    requires n < |rs| && Completes(rs, n, t) && t !in CodexTimes(rs, now, n)
    ensures t in CodexTimes(rs, now, n + 1)
    ensures var times := CodexTimes(rs, now, n + 1)[t]; times.startedAt == times.requestedAt == CodexAt(rs, now, n)
  {
    hide CodexTurn, CodexAt;
  }

  /** The times of a session's turns: those started or completed have them; a turn is completed unless it was started
      again since, when its last completion says; it was requested and started when its last start says, or at its
      first completion if it has no start. */
  lemma CodexTurnTimes(rs: seq<Record>, now: Time, t: Id)
    ensures var times, n := CodexParsed(rs, now).times, |rs|;
            && (t in times <==> exists j :: 0 <= j < n && (Starts(rs, j, t) || Completes(rs, j, t)))
            && (forall j :: 0 <= j < n && LastTouch(rs, j, n, t) ==>
                  t in times && times[t].completedAt ==
                  if Completes(rs, j, t) then Some(Read(rs[j].body.completed, CodexAt(rs, now, j))) else None)
            && (forall j :: 0 <= j < n && LastStart(rs, j, n, t) ==>
                  t in times && times[t].startedAt == times[t].requestedAt ==
                                Read(rs[j].body.started, CodexAt(rs, now, j)))
            && (forall j :: 0 <= j < n && FirstCompletes(rs, j, t) ==>
                  t in times && times[t].startedAt == times[t].requestedAt == CodexAt(rs, now, j))
  {
    hide CodexTimes, CodexAt, CodexTurn, CodexMessages, CodexActivities, CodexModel, CodexEffort;
    var n := |rs|;
    CodexTimesExact(rs, now, n, t);
    LastOfTouches(rs, n, t);
    forall j | 0 <= j < n && LastStart(rs, j, n, t)
      ensures t in CodexTimes(rs, now, n)
      ensures CodexTimes(rs, now, n)[t].startedAt == CodexTimes(rs, now, n)[t].requestedAt ==
              Read(rs[j].body.started, CodexAt(rs, now, j))
    {
      CodexStartExact(rs, now, n, t, j);
    }
    forall j | 0 <= j < n && FirstCompletes(rs, j, t)
      ensures t in CodexTimes(rs, now, n)
      ensures CodexTimes(rs, now, n)[t].startedAt == CodexTimes(rs, now, n)[t].requestedAt == CodexAt(rs, now, j)
    {
      CodexUnstarted(rs, now, n, t, j);
    }
  }

  /** Record j is the first to complete t, which no record starts. */
  ghost predicate FirstCompletes(rs: seq<Record>, j: int, t: Id) {
    Completes(rs, j, t) && forall k :: 0 <= k < |rs| ==> !Starts(rs, k, t) && (k < j ==> !Completes(rs, k, t))
  }

  lemma {:induction false} LastOfTouches(rs: seq<Record>, n: nat, t: Id)
    requires n <= |rs|
    ensures (exists j :: 0 <= j < n && LastTouch(rs, j, n, t)) <==>
            exists j :: 0 <= j < n && (Starts(rs, j, t) || Completes(rs, j, t))
  {
    hide Starts, Completes;
    if n > 0 {
      var m: nat := n - 1;
      LastOfTouches(rs, m, t);
      if Starts(rs, m, t) || Completes(rs, m, t) {
        assert LastTouch(rs, m, n, t);
      } else if j :| 0 <= j < m && LastTouch(rs, j, m, t) {
        assert LastTouch(rs, j, n, t);
      }
    }
  }

  // ---- Model, effort and span ----

  /** x is what the last of the first n records to offer something offers. */
  ghost predicate LastOffer<T(!new)>(rs: seq<Record>, n: nat, offer: Body -> Option<T>, x: T) {
    exists j :: 0 <= j < n <= |rs| && offer(rs[j].body) == Some(x) && forall k :: j < k < n ==> offer(rs[k].body).None?
  }

  ghost predicate NoOffer<T(!new)>(rs: seq<Record>, n: nat, offer: Body -> Option<T>) {
    n <= |rs| && forall k :: 0 <= k < n ==> offer(rs[k].body).None?
  }

  lemma OfferStep<T(!new)>(rs: seq<Record>, n: nat, offer: Body -> Option<T>)
    requires n < |rs|
    ensures forall x :: LastOffer(rs, n + 1, offer, x) <==>
                        if offer(rs[n].body).Some? then offer(rs[n].body) == Some(x) else LastOffer(rs, n, offer, x)
    ensures NoOffer(rs, n + 1, offer) <==> NoOffer(rs, n, offer) && offer(rs[n].body).None?
  {
    forall x | LastOffer(rs, n, offer, x) && offer(rs[n].body).None? ensures LastOffer(rs, n + 1, offer, x) {
      var j :| 0 <= j < n && offer(rs[j].body) == Some(x) && forall k :: j < k < n ==> offer(rs[k].body).None?;
      assert forall k :: j < k < n + 1 ==> offer(rs[k].body).None?;
    }
  }

  function ModelOffer(b: Body): Option<string> {
    if b.TurnContext? then b.model else None
  }

  /** A context's reasoning effort stands above its effort. */
  function EffortOffer(b: Body): Option<string> {
    if b.TurnContext? then (if b.reasoning.Some? then b.reasoning else b.effort) else None
  }

  lemma {:induction false} LatestOffers(rs: seq<Record>, n: nat, x: string)
    requires n <= |rs|
    ensures CodexModel(rs, n) == Some(x) <==>
            LastOffer(rs, n, ModelOffer, x) || (NoOffer(rs, n, ModelOffer) && MetaOf(rs).model == Some(x))
    ensures CodexEffort(rs, n) == Some(x) <==> LastOffer(rs, n, EffortOffer, x)
  {
    hide LastOffer, NoOffer, MetaOf;
    if n == 0 {
      NothingOffered(rs, ModelOffer);
      NothingOffered(rs, EffortOffer);
    } else {
      LatestOffers(rs, n - 1, x);
      OfferStep(rs, n - 1, ModelOffer);
      OfferStep(rs, n - 1, EffortOffer);
      OffersExclude(rs, n - 1, ModelOffer);
    }
  }

  lemma NothingOffered<T(!new)>(rs: seq<Record>, offer: Body -> Option<T>)
    ensures NoOffer(rs, 0, offer) && forall x :: !LastOffer(rs, 0, offer, x)
  {
  }

  lemma OffersExclude<T(!new)>(rs: seq<Record>, n: nat, offer: Body -> Option<T>)
    ensures NoOffer(rs, n, offer) ==> forall x :: !LastOffer(rs, n, offer, x)
  {
  }

  /** Model and effort are those of the last turn context that gives them; the session's own model counts only when
      no context gives one. */
  lemma CodexModelExact(rs: seq<Record>, now: Time, x: string)
    ensures CodexParsed(rs, now).model == Some(x) <==>
            || LastOffer(rs, |rs|, ModelOffer, x)
            || (NoOffer(rs, |rs|, ModelOffer) && exists j :: FirstMeta(rs, j) && rs[j].body.meta.model == Some(x))
    ensures CodexParsed(rs, now).effort == Some(x) <==> LastOffer(rs, |rs|, EffortOffer, x)
  {
    hide LastOffer, NoOffer, FirstMeta, CodexMessages, CodexActivities, CodexTimes;
    LatestOffers(rs, |rs|, x);
    MetaIsFirst(rs);
  }

  /** item is that of the assistant's last message. */
  ghost predicate LastSaid(ms: seq<Message>, item: Option<string>) {
    match item
    case None => forall k :: 0 <= k < |ms| ==> ms[k].role.User?
    case Some(x) => exists k :: 0 <= k < |ms| && ms[k].role.Assistant? && ms[k].item == x
                                && forall l :: k < l < |ms| ==> ms[l].role.User?
  }

  lemma {:induction false} LastSaidExact(ms: seq<Message>)
    ensures LastSaid(ms, ItemOf(LastAssistant(ms)))
  {
    if ms != [] {
      var n := |ms| - 1;
      LastSaidExact(ms[..n]);
      if ms[n].role.User? && LastAssistant(ms[..n]).Some? {
        var x := LastAssistant(ms[..n]).value.item;
        var k :| 0 <= k < n && ms[..n][k].role.Assistant? && ms[..n][k].item == x
                 && forall l :: k < l < n ==> ms[..n][l].role.User?;
        assert forall l :: k < l < |ms| ==> ms[l].role.User? by {
          assert forall l :: k < l < n ==> ms[..n][l] == ms[l];
        }
        assert ms[k] == ms[..n][k];
      } else if ms[n].role.User? {
        assert forall k :: 0 <= k < n ==> ms[..n][k] == ms[k];
      }
    }
  }

  /** A session lasts from its first to its last message; without messages from the session's own time to the last
      record's. The assistant's last message is remembered. */
  lemma CodexSpan(rs: seq<Record>, now: Time)
    ensures var p := CodexParsed(rs, now);
            && LastSaid(p.messages, p.lastAssistant)
            && (p.messages != [] ==>
                  p.createdAt == p.messages[0].at && p.updatedAt == p.messages[|p.messages| - 1].at)
            && (p.messages == [] ==>
                  && SessionTimeIs(rs, now, p.createdAt)
                  && p.updatedAt == if rs != [] && rs[|rs| - 1].stamp.At? then rs[|rs| - 1].stamp.t else p.createdAt)
  {
    hide LastSaid, SessionTimeIs, CodexMessages, CodexActivities, CodexTimes, CodexModel, CodexEffort, LastAssistant,
         MetaOf;
    LastSaidExact(CodexMessages(rs, now, |rs|));
    if rs != [] {
      TimeIsExact(rs, now, 0);
    } else {
      NoRecords(now);
    }
  }

  lemma NoRecords(now: Time)
    ensures SessionTimeIs([], now, Read(MetaOf([]).stamp, now))
  {
  }
}
