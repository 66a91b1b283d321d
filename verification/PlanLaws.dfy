/** What a plan holds, told from the arguments and from what was read. */
module PlanLaws {
  import opened Options
  import opened Sessions
  import opened Plans
  import opened Sorting

  /** The model is the one asked for, else the session's, else the provider's; and so is the effort, which only Codex
      has without being told. */
  lemma SelectionExact(a: Args, p: Parsed, project: ProjectRef, create: bool, now: Time)
    ensures var s := PlanFor(a, p, project, create, now).h.selection;
            && s.model == (if a.model.Some? then a.model.value else if p.model.Some? then p.model.value
                           else if a.provider.Codex? then "gpt-5.5" else "claude-opus-4-8")
            && s.effort == (if a.effort.Some? then a.effort else if p.effort.Some? then p.effort
                            else if a.provider.Codex? then Some("high") else None)
            && s.instance == Adapter(a.provider)
  {
    hide EventsOf, TurnsOf, Numbered, Sequenced;
  }

  /** How the provider is called in every row and event. */
  function Adapter(p: Provider): string {
    match p
    case Codex => "codex"
    case Claude => "claudeAgent"
  }

  /** The thread asked for, or the one that provider and session determine. */
  function ThreadOf(a: Args): Id {
    match a.threadId
    case Some(id) => id
    case None => ThreadUuid(Adapter(a.provider), a.ptid)
  }

  function MessageIdAt(a: Args, m: Message, i: nat): Id {
    MessageId(a.ptid, m.item, m.role, i)
  }

  function ActivityIdAt(a: Args, x: Activity, i: nat): Id {
    ActivityId(a.ptid, x.item, x.kind, i)
  }

  lemma HeaderExact(a: Args, p: Parsed, project: ProjectRef, create: bool, now: Time)
    ensures var h := PlanFor(a, p, project, create, now).h;
            && h.ptid == a.ptid && h.provider == a.provider && h.threadId == ThreadOf(a) && h.root == a.root
            && h.project == project && h.create == create && h.title == a.title
            && h.createdAt == p.createdAt && h.updatedAt == p.updatedAt && h.now == now
            && PlanFor(a, p, project, create, now).last == p.lastAssistant
  {
    hide EventsOf, TurnsOf, Numbered, Sequenced, SelectionFor;
  }

  // ---- Events ----

  /** What an event of a message or an activity says of where it came from. */
  predicate Sourced(md: Metadata, a: Args, item: string, turn: Option<Id>, now: Time) {
    && md.adapter == Some(Adapter(a.provider)) && md.item == Some(item) && md.ingestedAt == Some(now)
    && md.turn == if turn == None || turn == Some(Given("")) then None else turn
  }

  /** Event number n is that of message i. */
  predicate TellsMessage(e: Event, n: nat, a: Args, m: Message, i: nat, now: Time) {
    var t := ThreadOf(a);
    && e.id == EventId(a.ptid, "thread.message-sent", n, t) && e.kind == ThreadKind && e.stream == t && e.at == m.at
    && e.payload == MessageSent(t, MessageIdAt(a, m, i), m.role, m.text, m.turn, false, m.at, m.at)
    && Sourced(e.metadata, a, m.item, m.turn, now)
    && e.actor == if m.role == User then Client else Provided
  }

  /** Event number n is that of activity i. */
  predicate TellsActivity(e: Event, n: nat, a: Args, x: Activity, i: nat, now: Time) {
    var t := ThreadOf(a);
    && e.id == EventId(a.ptid, "thread.activity-appended", n, t) && e.kind == ThreadKind && e.stream == t
    && e.at == x.at && e.payload == ActivityAppended(t, ActivityIdAt(a, x, i), x.tone, x.kind, x.summary, x.detail,
                                                     x.line, x.turn, i, x.at)
    && Sourced(e.metadata, a, x.item, x.turn, now) && e.actor == Provided
  }

  predicate TellsProject(e: Event, a: Args, p: Parsed, project: ProjectRef, s: Selection) {
    && e.id == EventId(a.ptid, "project.created", 0, project.id) && e.kind == ProjectKind && e.stream == project.id
    && e.at == p.createdAt && e.actor == Server && e.metadata == Metadata(None, None, None, None)
    && e.payload == ProjectCreated(project.id, project.title, project.root, s, p.createdAt, p.createdAt)
  }

  predicate TellsThread(e: Event, n: nat, a: Args, p: Parsed, project: ProjectRef, s: Selection) {
    var t := ThreadOf(a);
    && e.id == EventId(a.ptid, "thread.created", n, t) && e.kind == ThreadKind && e.stream == t
    && e.at == p.createdAt && e.actor == Server && e.metadata == Metadata(None, None, None, None)
    && e.payload == ThreadCreated(t, project.id, a.title, s, a.root, p.createdAt, p.createdAt)
  }

  predicate TellsSession(e: Event, n: nat, a: Args, p: Parsed, now: Time) {
    var t := ThreadOf(a);
    && e.id == EventId(a.ptid, "thread.session-set", n, t) && e.kind == ThreadKind && e.stream == t
    && e.at == p.updatedAt && e.actor == Server
    && e.metadata == Metadata(Some(Adapter(a.provider)), None, None, Some(now))
    && e.payload == SessionSet(t, Session(Adapter(a.provider), p.updatedAt))
  }

  /** The events of a plan: the project if it is new, the thread, each message, each activity, the session. */
  lemma EventsExact(a: Args, p: Parsed, project: ProjectRef, create: bool, now: Time)
    ensures var plan, first := PlanFor(a, p, project, create, now), if create then 2 else 1;
            var es, n, m := plan.events, |p.messages|, |p.activities|;
            && |es| == first + n + m + 1
            && (create ==> TellsProject(es[0], a, p, project, plan.h.selection))
            && TellsThread(es[first - 1], first - 1, a, p, project, plan.h.selection)
            && (forall i :: 0 <= i < n ==> TellsMessage(es[first + i], first + i, a, p.messages[i], i, now))
            && (forall i :: 0 <= i < m ==>
                  TellsActivity(es[first + n + i], first + n + i, a, p.activities[i], i, now))
            && TellsSession(es[first + n + m], first + n + m, a, p, now)
  {
    var plan, first := PlanFor(a, p, project, create, now), if create then 2 else 1;
    var h, es, n, m := plan.h, plan.events, |p.messages|, |p.activities|;
    hide TurnsOf, SelectionFor, TellsProject, TellsThread, TellsMessage, TellsActivity, TellsSession, MessageEvent,
         ActivityEvent, SessionEvent, ThreadEvent, ProjectEvent;
    LeadExact(a, p, project, create, now);
    forall i | 0 <= i < n ensures TellsMessage(es[first + i], first + i, a, p.messages[i], i, now) {
      assert es[first + i] == MessageEvent(h, first + i, plan.sent[i]);
      MessageTold(a, p, project, create, now, i, first + i);
    }
    forall i | 0 <= i < m ensures TellsActivity(es[first + n + i], first + n + i, a, p.activities[i], i, now) {
      assert es[first + n + i] == ActivityEvent(h, first + n + i, plan.acted[i], i);
      ActivityTold(a, p, project, create, now, i, first + n + i);
    }
    assert es[first + n + m] == SessionEvent(h, first + n + m);
    SessionTold(a, p, project, create, now, first + n + m);
  }

  lemma LeadExact(a: Args, p: Parsed, project: ProjectRef, create: bool, now: Time)
    ensures var h := PlanFor(a, p, project, create, now).h;
            && Lead(h) == (if create then [ProjectEvent(h, 0), ThreadEvent(h, 1)] else [ThreadEvent(h, 0)])
            && TellsProject(ProjectEvent(h, 0), a, p, project, h.selection)
            && forall n :: TellsThread(ThreadEvent(h, n), n, a, p, project, h.selection)
  {
    hide TurnsOf, SelectionFor, Numbered, Sequenced, EventsOf;
  }

  lemma MessageTold(a: Args, p: Parsed, project: ProjectRef, create: bool, now: Time, i: nat, n: nat)
    requires i < |p.messages|
    ensures var plan := PlanFor(a, p, project, create, now);
            TellsMessage(MessageEvent(plan.h, n, plan.sent[i]), n, a, p.messages[i], i, now)
  {
    hide TurnsOf, SelectionFor, Sequenced, EventsOf;
  }

  lemma ActivityTold(a: Args, p: Parsed, project: ProjectRef, create: bool, now: Time, i: nat, n: nat)
    requires i < |p.activities|
    ensures var plan := PlanFor(a, p, project, create, now);
            TellsActivity(ActivityEvent(plan.h, n, plan.acted[i], i), n, a, p.activities[i], i, now)
  {
    hide TurnsOf, SelectionFor, Numbered, EventsOf;
  }

  lemma SessionTold(a: Args, p: Parsed, project: ProjectRef, create: bool, now: Time, n: nat)
    ensures TellsSession(SessionEvent(PlanFor(a, p, project, create, now).h, n), n, a, p, now)
  {
    hide TurnsOf, SelectionFor, Numbered, Sequenced, EventsOf;
  }

  // ---- Turns ----

  /** Message i is the first that names turn t. */
  ghost predicate FirstMention(ms: seq<Message>, i: int, t: Id) {
    0 <= i < |ms| && ms[i].turn == Some(t) && forall j :: 0 <= j < i ==> ms[j].turn != Some(t)
  }

  /** Message i is the last that names turn t. */
  ghost predicate LastMention(ms: seq<Message>, i: int, t: Id) {
    0 <= i < |ms| && ms[i].turn == Some(t) && forall j :: i < j < |ms| ==> ms[j].turn != Some(t)
  }

  /** The messages as they were read. */
  function Plainly(sent: seq<Sent>): (r: seq<Message>)
    ensures |r| == |sent|
  {
    seq(|sent|, i requires 0 <= i < |sent| => sent[i].m)
  }

  lemma MentionSnoc(ms: seq<Message>, m: Message, t: Id)
    ensures forall i :: FirstMention(ms, i, t) ==> FirstMention(ms + [m], i, t)
    ensures forall i :: FirstMention(ms + [m], i, t) && i < |ms| ==> FirstMention(ms, i, t)
    ensures FirstMention(ms + [m], |ms|, t) <==>
            m.turn == Some(t) && forall i :: 0 <= i < |ms| ==> ms[i].turn != Some(t)
  {
    assert forall i :: 0 <= i < |ms| ==> (ms + [m])[i] == ms[i];
  }

  /** The turn ids stand in the order of their first mention. */
  ghost predicate InOrder(ids: seq<Id>, ms: seq<Message>) {
    forall i, j, x, y :: 0 <= i < j < |ids| && FirstMention(ms, x, ids[i]) && FirstMention(ms, y, ids[j]) ==> x < y
  }

  lemma {:induction false} TurnIdsInOrder(sent: seq<Sent>)
    ensures InOrder(TurnIds(sent), Plainly(sent))
  {
    if sent != [] {
      var init, last := sent[..|sent| - 1], sent[|sent| - 1];
      TurnIdsInOrder(init);
      TurnIdsExact(init);
      assert Plainly(sent) == Plainly(init) + [last.m];
      var ids, before := TurnIds(sent), TurnIds(init);
      hide TurnIds, FirstMention;
      var ms := Plainly(sent);
      forall i, j, x, y | 0 <= i < j < |ids| && FirstMention(ms, x, ids[i]) && FirstMention(ms, y, ids[j])
        ensures x < y
      {
        OrderStep(init, last, before, ids, i, j, x, y);
      }
    }
  }

  lemma OrderStep(init: seq<Sent>, last: Sent, before: seq<Id>, ids: seq<Id>, i: int, j: int, x: int, y: int)
    requires InOrder(before, Plainly(init)) && forall t :: t in before <==> Named(init, t)
    requires ids == if Truthy(last.m.turn) && last.m.turn.value !in before then before + [last.m.turn.value] else before
    requires 0 <= i < j < |ids|
    requires FirstMention(Plainly(init) + [last.m], x, ids[i]) && FirstMention(Plainly(init) + [last.m], y, ids[j])
    ensures x < y
  {
    var ms := Plainly(init);
    assert ids[i] == before[i] && before[i] in before;
    NamedEarlier(init, last.m, ids[i], x);
    if j < |before| {
      assert ids[j] == before[j] && before[j] in before;
      NamedEarlier(init, last.m, ids[j], y);
      MentionSnoc(ms, last.m, ids[i]);
      MentionSnoc(ms, last.m, ids[j]);
    } else {
      NotNamedEarlier(init, last.m, ids[j], y);
    }
  }

  lemma NamedEarlier(init: seq<Sent>, m: Message, t: Id, x: int)
    requires Named(init, t) && FirstMention(Plainly(init) + [m], x, t)
    ensures x < |init|
  {
    var s :| s in init && s.m.turn == Some(t);
    var k :| 0 <= k < |init| && init[k] == s;
    assert (Plainly(init) + [m])[k] == s.m;
  }

  lemma NotNamedEarlier(init: seq<Sent>, m: Message, t: Id, y: int)
    requires t != Given("") && !Named(init, t) && FirstMention(Plainly(init) + [m], y, t)
    ensures y == |init|
  {
    assert forall k :: 0 <= k < |init| ==> init[k] in init && (Plainly(init) + [m])[k] == init[k].m;
  }

  lemma Mentioned(ms: seq<Message>, t: Id)
    ensures forall x :: FirstMention(ms, x, t) ==> 0 <= x < |ms| && ms[x].turn == Some(t)
    ensures forall x :: LastMention(ms, x, t) ==> 0 <= x < |ms| && ms[x].turn == Some(t)
  {
  }

  lemma LastSnoc(ms: seq<Message>, m: Message, t: Id)
    ensures m.turn != Some(t) ==> forall i :: LastMention(ms + [m], i, t) ==> LastMention(ms, i, t)
    ensures m.turn == Some(t) ==> forall i :: LastMention(ms + [m], i, t) ==> i == |ms|
    ensures forall i :: LastMention(ms, i, t) ==> (ms + [m])[i] == ms[i]
    ensures forall i :: FirstMention(ms, i, t) ==> (ms + [m])[i] == ms[i]
  {
    assert forall i :: 0 <= i < |ms| ==> (ms + [m])[i] == ms[i];
    assert (ms + [m])[|ms|] == m;
  }

  predicate Unnamed(ms: seq<Message>, t: Id) {
    forall i :: 0 <= i < |ms| ==> ms[i].turn != Some(t)
  }

  lemma UnnamedSnoc(ms: seq<Message>, m: Message, t: Id)
    ensures Unnamed(ms + [m], t) <==> Unnamed(ms, t) && m.turn != Some(t)
    ensures Unnamed(ms, t) ==> forall i :: FirstMention(ms + [m], i, t) ==> i == |ms|
    ensures !Unnamed(ms, t) ==> forall i :: FirstMention(ms + [m], i, t) ==> FirstMention(ms, i, t)
    ensures (ms + [m])[|ms|] == m
  {
    assert forall i :: 0 <= i < |ms| ==> (ms + [m])[i] == ms[i];
    if Unnamed(ms + [m], t) {
      assert (ms + [m])[|ms|] == m;
    }
  }

  lemma {:induction false} ByTurnEnds(sent: seq<Sent>, t: Id)
    ensures var mine, ms := ByTurn(sent, t), Plainly(sent);
            && (mine == [] <==> Unnamed(ms, t))
            && (mine != [] ==> forall i :: FirstMention(ms, i, t) ==> 0 <= i < |ms| && mine[0].m == ms[i])
            && (mine != [] ==> forall i :: LastMention(ms, i, t) ==> 0 <= i < |ms| && mine[|mine| - 1].m == ms[i])
  {
    hide FirstMention, LastMention, Unnamed;
    Mentioned(Plainly(sent), t);
    if sent == [] {
      NothingNamed(t);
    } else {
      var init, last := sent[..|sent| - 1], sent[|sent| - 1];
      ByTurnEnds(init, t);
      assert Plainly(sent) == Plainly(init) + [last.m];
      LastSnoc(Plainly(init), last.m, t);
      UnnamedSnoc(Plainly(init), last.m, t);
    }
  }

  lemma NothingNamed(t: Id)
    ensures Unnamed(Plainly([]), t)
  {
  }

  /** A turn row's times are those the reader found, else those of the turn's first and last message. */
  predicate TimesOf(row: TurnRow, times: map<Id, Times>, first: Message, last: Message) {
    if row.turn in times then
      && row.requestedAt == times[row.turn].requestedAt && row.startedAt == times[row.turn].startedAt
      && row.completedAt == if times[row.turn].completedAt.Some? then times[row.turn].completedAt.value else last.at
    else row.requestedAt == first.at && row.startedAt == first.at && row.completedAt == last.at
  }

  /** The turn rows of a plan, in the order of their first mention, with the times of their turns. */
  lemma TurnRowsExact(a: Args, p: Parsed, project: ProjectRef, create: bool, now: Time)
    ensures var ms, rows := p.messages, PlanFor(a, p, project, create, now).turns;
            && (forall i, j, x, y | 0 <= i < j < |rows| ::
                  FirstMention(ms, x, rows[i].turn) && FirstMention(ms, y, rows[j].turn) ==> x < y)
            && (forall i, x, y | 0 <= i < |rows| ::
                  FirstMention(ms, x, rows[i].turn) && LastMention(ms, y, rows[i].turn) ==>
                    TimesOf(rows[i], p.times, ms[x], ms[y]))
  {
    var ms, sent := p.messages, Numbered(a.ptid, p.messages);
    var ids, rows := TurnIds(sent), TurnsOf(sent, p.times, p.createdAt, p.updatedAt);
    assert PlanFor(a, p, project, create, now).turns == rows;
    assert Plainly(sent) == ms;
    TurnIdsInOrder(sent);
    hide PlanFor, TurnIds, FirstMention, LastMention, ByTurn, FirstUser, LastReply;
    forall i | 0 <= i < |rows|
      ensures rows[i].turn == ids[i]
      ensures forall x, y :: FirstMention(ms, x, ids[i]) && LastMention(ms, y, ids[i]) ==>
                TimesOf(rows[i], p.times, ms[x], ms[y])
    {
      ByTurnEnds(sent, ids[i]);
      Mentioned(ms, ids[i]);
    }
  }
}
