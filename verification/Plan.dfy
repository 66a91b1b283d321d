/** What an import will write: events for the log, and the message, activity and turn rows beside them. */
module Plans {
  import opened Options
  import opened Sessions
  import opened Sorting

  datatype Provider = Codex | Claude

  /** Also the provider's instance id and adapter key. */
  function ProviderName(p: Provider): string {
    if p.Codex? then "codex" else "claudeAgent"
  }

  function DefaultModel(p: Provider): string {
    if p.Codex? then "gpt-5.5" else "claude-opus-4-8"
  }

  datatype Args = Args(ptid: string, provider: Provider, root: string, title: string, model: Option<string>,
                       effort: Option<string>, threadId: Option<Id>)

  datatype Selection = Selection(instance: string, model: string, effort: Option<string>)

  function SelectionFor(a: Args, p: Parsed): Selection {
    var effort := Or(a.effort, Or(p.effort, if a.provider.Codex? then Some("high") else None));
    Selection(ProviderName(a.provider), Else(Or(a.model, p.model), DefaultModel(a.provider)), effort)
  }

  function ThreadIdFor(a: Args): Id {
    Else(a.threadId, ThreadUuid(ProviderName(a.provider), a.ptid))
  }

  datatype Kind = ProjectKind | ThreadKind

  datatype Session = Session(provider: string, updatedAt: Time)

  datatype Payload =
    | ProjectCreated(projectId: Id, title: string, root: string, selection: Selection, createdAt: Time, updatedAt: Time)
    | ProjectDeleted(projectId: Id, deletedAt: Time)
    | ThreadCreated(threadId: Id, projectId: Id, title: string, selection: Selection, worktree: string, createdAt: Time,
                    updatedAt: Time)
    | MessageSent(threadId: Id, messageId: Id, role: Role, text: string, turn: Option<Id>, streaming: bool,
                  createdAt: Time,
                  updatedAt: Time)
    | ActivityAppended(threadId: Id, activityId: Id, tone: string, kind: string, summary: string, detail: Detail,
                       line: nat,
                       turn: Option<Id>, sequence: nat, createdAt: Time)
    | SessionSet(threadId: Id, session: Session)
    | Elsewhere(name: string)

  function TypeOf(p: Payload): string {
    match p
    case ProjectCreated(_, _, _, _, _, _) => "project.created"
    case ProjectDeleted(_, _) => "project.deleted"
    case ThreadCreated(_, _, _, _, _, _, _) => "thread.created"
    case MessageSent(_, _, _, _, _, _, _, _) => "thread.message-sent"
    case ActivityAppended(_, _, _, _, _, _, _, _, _, _) => "thread.activity-appended"
    case SessionSet(_, _) => "thread.session-set"
    case Elsewhere(name) => name
  }

  datatype Actor = Server | Provided | Client

  datatype Metadata = Metadata(adapter: Option<string>, item: Option<string>, turn: Option<Id>,
                               ingestedAt: Option<Time>)

  datatype Event = Event(id: Id, kind: Kind, stream: Id, at: Time, payload: Payload, metadata: Metadata, actor: Actor)

  /** A message, or an activity, with the id it is stored under. */
  datatype Sent = Sent(id: Id, m: Message)
  datatype Acted = Acted(id: Id, a: Activity)

  function Numbered(ptid: string, ms: seq<Message>): (r: seq<Sent>)
    ensures |r| == |ms|
  {
    seq(|ms|, i requires 0 <= i < |ms| => Sent(MessageId(ptid, ms[i].item, ms[i].role, i), ms[i]))
  }

  function Sequenced(ptid: string, acts: seq<Activity>): (r: seq<Acted>)
    ensures |r| == |acts|
  {
    seq(|acts|, i requires 0 <= i < |acts| => Acted(ActivityId(ptid, acts[i].item, acts[i].kind, i), acts[i]))
  }

  datatype ProjectRef = ProjectRef(id: Id, title: string, root: string)

  /** What every event of a plan draws on; root is the one asked for. */
  datatype Header = Header(ptid: string, provider: Provider, threadId: Id, project: ProjectRef, create: bool,
                           root: string, title: string, selection: Selection, createdAt: Time, updatedAt: Time,
                           now: Time)

  datatype TurnRow = TurnRow(turn: Id, pending: Option<Id>, assistant: Option<Id>, requestedAt: Time, startedAt: Time,
                             completedAt: Time)

  datatype Plan = Plan(h: Header, last: Option<string>, events: seq<Event>, sent: seq<Sent>, acted: seq<Acted>,
                       turns: seq<TurnRow>)

  // ---- Events ----

  function NewEvent(h: Header, index: nat, kind: Kind, stream: Id, at: Time, p: Payload, md: Metadata,
                    actor: Actor): Event {
    Event(EventId(h.ptid, TypeOf(p), index, stream), kind, stream, at, p, md, actor)
  }

  const NO_METADATA := Metadata(None, None, None, None)

  function ProjectEvent(h: Header, index: nat): Event {
    NewEvent(h, index, ProjectKind, h.project.id, h.createdAt,
             ProjectCreated(h.project.id, h.project.title, h.project.root, h.selection, h.createdAt, h.createdAt),
             NO_METADATA, Server)
  }

  function ThreadEvent(h: Header, index: nat): Event {
    NewEvent(h, index, ThreadKind, h.threadId, h.createdAt,
             ThreadCreated(h.threadId, h.project.id, h.title, h.selection, h.root, h.createdAt, h.createdAt),
             NO_METADATA, Server)
  }

  function Ingested(h: Header, item: string, turn: Option<Id>): Metadata {
    Metadata(Some(ProviderName(h.provider)), Some(item), if Truthy(turn) then turn else None, Some(h.now))
  }

  function MessageEvent(h: Header, index: nat, s: Sent): Event {
    NewEvent(h, index, ThreadKind, h.threadId, s.m.at,
             MessageSent(h.threadId, s.id, s.m.role, s.m.text, s.m.turn, false, s.m.at, s.m.at),
             Ingested(h, s.m.item, s.m.turn), if s.m.role.Assistant? then Provided else Client)
  }

  function ActivityEvent(h: Header, index: nat, d: Acted, sequence: nat): Event {
    NewEvent(h, index, ThreadKind, h.threadId, d.a.at,
             ActivityAppended(h.threadId, d.id, d.a.tone, d.a.kind, d.a.summary, d.a.detail, d.a.line, d.a.turn,
                              sequence, d.a.at),
             Ingested(h, d.a.item, d.a.turn), Provided)
  }

  function SessionEvent(h: Header, index: nat): Event {
    NewEvent(h, index, ThreadKind, h.threadId, h.updatedAt,
             SessionSet(h.threadId, Session(ProviderName(h.provider), h.updatedAt)),
             Metadata(Some(ProviderName(h.provider)), None, None, Some(h.now)), Server)
  }

  function Lead(h: Header): seq<Event> {
    if h.create then [ProjectEvent(h, 0), ThreadEvent(h, 1)] else [ThreadEvent(h, 0)]
  }

  function MessageEvents(h: Header, base: nat, sent: seq<Sent>): (r: seq<Event>)
    ensures |r| == |sent|
  {
    seq(|sent|, i requires 0 <= i < |sent| => MessageEvent(h, base + i, sent[i]))
  }

  function ActivityEvents(h: Header, base: nat, acted: seq<Acted>): (r: seq<Event>)
    ensures |r| == |acted|
  {
    seq(|acted|, i requires 0 <= i < |acted| => ActivityEvent(h, base + i, acted[i], i))
  }

  /** In this order: the project if it is new, the thread, its messages, its activities, its session; each
      numbered by its place. */
  function EventsOf(h: Header, sent: seq<Sent>, acted: seq<Acted>): seq<Event> {
    var n := |Lead(h)|;
    Lead(h) + MessageEvents(h, n, sent) + ActivityEvents(h, n + |sent|, acted) + [SessionEvent(h, n + |sent| + |acted|)]
  }

  // ---- Turns ----

  /** The turn ids messages name, each at its first mention; null and empty ones are left out. */
  function TurnIds(sent: seq<Sent>): seq<Id> {
    if sent == [] then [] else
    var before, t := TurnIds(sent[..|sent| - 1]), sent[|sent| - 1].m.turn;
    if Truthy(t) && t.value !in before then before + [t.value] else before
  }

  function ByTurn(sent: seq<Sent>, t: Id): seq<Sent> {
    if sent == [] then [] else
    var before, s := ByTurn(sent[..|sent| - 1], t), sent[|sent| - 1];
    if s.m.turn == Some(t) then before + [s] else before
  }

  function FirstUser(sent: seq<Sent>): Option<Id> {
    if sent == [] then None
    else if sent[0].m.role.User? then Some(sent[0].id)
    else FirstUser(sent[1..])
  }

  function LastReply(sent: seq<Sent>): Option<Id> {
    if sent == [] then None
    else if sent[|sent| - 1].m.role.Assistant? then Some(sent[|sent| - 1].id)
    else LastReply(sent[..|sent| - 1])
  }

  function TurnFor(sent: seq<Sent>, times: map<Id, Times>, t: Id, createdAt: Time, updatedAt: Time): TurnRow {
    var byTurn := ByTurn(sent, t);
    var first := if byTurn == [] then createdAt else byTurn[0].m.at;
    var last := if byTurn == [] then updatedAt else byTurn[|byTurn| - 1].m.at;
    if t in times then
      TurnRow(t, FirstUser(byTurn), LastReply(byTurn), times[t].requestedAt, times[t].startedAt,
              Else(times[t].completedAt, last))
    else TurnRow(t, FirstUser(byTurn), LastReply(byTurn), first, first, last)
  }

  function TurnsOf(sent: seq<Sent>, times: map<Id, Times>, createdAt: Time, updatedAt: Time): (r: seq<TurnRow>)
    ensures |r| == |TurnIds(sent)|
  {
    var ids := TurnIds(sent);
    seq(|ids|, i requires 0 <= i < |ids| => TurnFor(sent, times, ids[i], createdAt, updatedAt))
  }

  /** Some message is in the turn t, and t is a turn id the plan takes note of. */
  predicate Named(sent: seq<Sent>, t: Id) {
    t != Given("") && exists s :: s in sent && s.m.turn == Some(t)
  }

  lemma {:induction false} TurnIdsExact(sent: seq<Sent>)
    ensures Distinct(TurnIds(sent))
    ensures forall t :: t in TurnIds(sent) <==> Named(sent, t)
  {
    if sent != [] {
      var init, last := sent[..|sent| - 1], sent[|sent| - 1];
      TurnIdsExact(init);
      assert sent == init + [last];
      forall t ensures t in TurnIds(sent) <==> Named(sent, t) {
        assert t in TurnIds(sent) <==> t in TurnIds(init) || (Truthy(last.m.turn) && last.m.turn.value == t);
      }
    }
  }

  /** s is in turn t, and at place i. */
  predicate InTurn(sent: seq<Sent>, i: int, t: Id) {
    0 <= i < |sent| && sent[i].m.turn == Some(t)
  }

  ghost predicate IsFirstUser(sent: seq<Sent>, t: Id, id: Option<Id>) {
    match id
    case None => forall i :: InTurn(sent, i, t) ==> sent[i].m.role.Assistant?
    case Some(x) => exists i :: InTurn(sent, i, t) && sent[i].m.role.User? && sent[i].id == x &&
                      forall j :: j < i && InTurn(sent, j, t) ==> sent[j].m.role.Assistant?
  }

  ghost predicate IsLastReply(sent: seq<Sent>, t: Id, id: Option<Id>) {
    match id
    case None => forall i :: InTurn(sent, i, t) ==> sent[i].m.role.User?
    case Some(x) => exists i :: InTurn(sent, i, t) && sent[i].m.role.Assistant? && sent[i].id == x &&
                      forall j :: i < j && InTurn(sent, j, t) ==> sent[j].m.role.User?
  }

  lemma FirstUserSnoc(sent: seq<Sent>, s: Sent)
    ensures FirstUser(sent + [s]) ==
            if FirstUser(sent).Some? then FirstUser(sent) else if s.m.role.User? then Some(s.id) else None
  {
    if sent != [] {
      assert (sent + [s])[1..] == sent[1..] + [s];
      FirstUserSnoc(sent[1..], s);
    } else {
      assert (sent + [s])[1..] == [];
    }
  }

  lemma IsFirstUserSnoc(init: seq<Sent>, s: Sent, t: Id, id: Option<Id>)
    requires IsFirstUser(init, t, id)
    ensures IsFirstUser(init + [s], t, if id.None? && s.m.turn == Some(t) && s.m.role.User? then Some(s.id) else id)
  {
    var sent := init + [s];
    assert forall i :: InTurn(sent, i, t) ==>
             if i == |init| then sent[i] == s else InTurn(init, i, t) && sent[i] == init[i];
    if id.Some? {
      var i :| InTurn(init, i, t) && init[i].m.role.User? && init[i].id == id.value &&
               forall j :: j < i && InTurn(init, j, t) ==> init[j].m.role.Assistant?;
      assert InTurn(sent, i, t) && sent[i] == init[i];
    } else if s.m.turn == Some(t) && s.m.role.User? {
      assert InTurn(sent, |init|, t);
    }
  }

  lemma {:induction false} FirstUserExact(sent: seq<Sent>, t: Id)
    ensures IsFirstUser(sent, t, FirstUser(ByTurn(sent, t)))
  {
    hide IsFirstUser, FirstUser;
    if sent == [] {
      NoUser(t);
    } else {
      var init, s := sent[..|sent| - 1], sent[|sent| - 1];
      FirstUserExact(init, t);
      FirstUserSnoc(ByTurn(init, t), s);
      IsFirstUserSnoc(init, s, t, FirstUser(ByTurn(init, t)));
      assert sent == init + [s];
    }
  }

  lemma NoUser(t: Id)
    ensures IsFirstUser([], t, FirstUser([]))
  {
  }

  lemma LastReplySnoc(sent: seq<Sent>, s: Sent)
    ensures LastReply(sent + [s]) == if s.m.role.Assistant? then Some(s.id) else LastReply(sent)
  {
    assert (sent + [s])[..|sent|] == sent;
  }

  lemma IsLastReplySnoc(init: seq<Sent>, s: Sent, t: Id, id: Option<Id>)
    requires IsLastReply(init, t, id)
    ensures IsLastReply(init + [s], t, if s.m.turn == Some(t) && s.m.role.Assistant? then Some(s.id) else id)
  {
    var sent := init + [s];
    assert forall i :: InTurn(sent, i, t) ==>
             if i == |init| then sent[i] == s else InTurn(init, i, t) && sent[i] == init[i];
    if s.m.turn == Some(t) && s.m.role.Assistant? {
      assert InTurn(sent, |init|, t);
    } else if id.Some? {
      var i :| InTurn(init, i, t) && init[i].m.role.Assistant? && init[i].id == id.value &&
               forall j :: i < j && InTurn(init, j, t) ==> init[j].m.role.User?;
      assert InTurn(sent, i, t) && sent[i] == init[i];
    }
  }

  lemma {:induction false} LastReplyExact(sent: seq<Sent>, t: Id)
    ensures IsLastReply(sent, t, LastReply(ByTurn(sent, t)))
  {
    hide IsLastReply, LastReply;
    if sent == [] {
      NoReply(t);
    } else {
      var init, s := sent[..|sent| - 1], sent[|sent| - 1];
      LastReplyExact(init, t);
      LastReplySnoc(ByTurn(init, t), s);
      IsLastReplySnoc(init, s, t, LastReply(ByTurn(init, t)));
      assert sent == init + [s];
    }
  }

  lemma NoReply(t: Id)
    ensures IsLastReply([], t, LastReply([]))
  {
  }

  lemma TurnRowPoints(sent: seq<Sent>, times: map<Id, Times>, t: Id, createdAt: Time, updatedAt: Time)
    ensures var row := TurnFor(sent, times, t, createdAt, updatedAt);
            row.turn == t && IsFirstUser(sent, t, row.pending) && IsLastReply(sent, t, row.assistant)
  {
    hide IsFirstUser, IsLastReply, ByTurn, FirstUser, LastReply;
    FirstUserExact(sent, t);
    LastReplyExact(sent, t);
  }

  /** The turn rows divide exactly the messages that name a turn: one row for each turn named, pointing to the
      turn's first user message and to its last assistant message. */
  lemma TurnsPartition(sent: seq<Sent>, times: map<Id, Times>, createdAt: Time, updatedAt: Time)
    ensures var rows := TurnsOf(sent, times, createdAt, updatedAt);
            && (forall i, j :: 0 <= i < j < |rows| ==> rows[i].turn != rows[j].turn)
            && (forall t :: Named(sent, t) <==> exists i :: 0 <= i < |rows| && rows[i].turn == t)
            && (forall i :: 0 <= i < |rows| ==>
                  IsFirstUser(sent, rows[i].turn, rows[i].pending) &&
                  IsLastReply(sent, rows[i].turn, rows[i].assistant))
  {
    hide TurnIds, IsFirstUser, IsLastReply, TurnFor, Named;
    var rows, ids := TurnsOf(sent, times, createdAt, updatedAt), TurnIds(sent);
    TurnIdsExact(sent);
    forall i | 0 <= i < |rows|
      ensures rows[i].turn == ids[i]
      ensures IsFirstUser(sent, rows[i].turn, rows[i].pending) && IsLastReply(sent, rows[i].turn, rows[i].assistant)
    {
      TurnRowPoints(sent, times, ids[i], createdAt, updatedAt);
    }
    forall i, j | 0 <= i < j < |rows| ensures rows[i].turn != rows[j].turn {
      assert rows[i].turn == ids[i] && rows[j].turn == ids[j] && ids[i] != ids[j];
    }
    forall t ensures Named(sent, t) <==> exists i :: 0 <= i < |rows| && rows[i].turn == t {
      assert t in ids <==> Named(sent, t);
      if t in ids {
        var i :| 0 <= i < |ids| && ids[i] == t;
        assert rows[i].turn == t;
      }
    }
  }

  // ---- The plan ----

  function PlanFor(a: Args, p: Parsed, project: ProjectRef, create: bool, now: Time): Plan {
    var h := Header(a.ptid, a.provider, ThreadIdFor(a), project, create, a.root, a.title, SelectionFor(a, p),
                    p.createdAt,
                    p.updatedAt, now);
    var sent, acted := Numbered(a.ptid, p.messages), Sequenced(a.ptid, p.activities);
    Plan(h, p.lastAssistant, EventsOf(h, sent, acted), sent, acted, TurnsOf(sent, p.times, p.createdAt, p.updatedAt))
  }

  /** The part of buildImportPlan that numbers rows and pushes events. */
  method BuildPlan(a: Args, p: Parsed, project: ProjectRef, create: bool, now: Time) returns (plan: Plan)
    ensures plan == PlanFor(a, p, project, create, now)
  {
    hide ProjectEvent, ThreadEvent, MessageEvent, ActivityEvent, SessionEvent, TurnsOf, SelectionFor, ThreadIdFor;
    var h := Header(a.ptid, a.provider, ThreadIdFor(a), project, create, a.root, a.title, SelectionFor(a, p),
                    p.createdAt,
                    p.updatedAt, now);
    var sent, acted := Numbered(a.ptid, p.messages), Sequenced(a.ptid, p.activities);
    var events := [];
    if create {
      events := events + [ProjectEvent(h, |events|)];
    }
    events := events + [ThreadEvent(h, |events|)];
    assert events == Lead(h);
    var n := |events|;
    for i := 0 to |sent|
      invariant |events| == n + i
      invariant events == Lead(h) + MessageEvents(h, n, sent)[..i]
    {
      events := events + [MessageEvent(h, |events|, sent[i])];
    }
    assert events == Lead(h) + MessageEvents(h, n, sent);
    for i := 0 to |acted|
      invariant |events| == n + |sent| + i
      invariant events == Lead(h) + MessageEvents(h, n, sent) + ActivityEvents(h, n + |sent|, acted)[..i]
    {
      events := events + [ActivityEvent(h, |events|, acted[i], i)];
    }
    events := events + [SessionEvent(h, |events|)];
    plan := Plan(h, p.lastAssistant, events, sent, acted, TurnsOf(sent, p.times, p.createdAt, p.updatedAt));
  }

  /** No two events of a plan share an id, no two of its messages, no two of its activities. */
  lemma IdsDistinct(a: Args, p: Parsed, project: ProjectRef, create: bool, now: Time)
    ensures var plan := PlanFor(a, p, project, create, now);
            && (forall i, j :: 0 <= i < j < |plan.events| ==> plan.events[i].id != plan.events[j].id)
            && (forall i, j :: 0 <= i < j < |plan.sent| ==> plan.sent[i].id != plan.sent[j].id)
            && (forall i, j :: 0 <= i < j < |plan.acted| ==> plan.acted[i].id != plan.acted[j].id)
  {
    var plan := PlanFor(a, p, project, create, now);
    EventIndex(plan.h, plan.sent, plan.acted);
  }

  lemma EventIndex(h: Header, sent: seq<Sent>, acted: seq<Acted>)
    ensures var es := EventsOf(h, sent, acted);
            forall i :: 0 <= i < |es| ==>
              es[i].id == EventId(h.ptid, TypeOf(es[i].payload), i, es[i].stream)
  {
    var es, n := EventsOf(h, sent, acted), |Lead(h)|;
    var ms, acts := MessageEvents(h, n, sent), ActivityEvents(h, n + |sent|, acted);
    forall i | 0 <= i < |es| ensures es[i].id == EventId(h.ptid, TypeOf(es[i].payload), i, es[i].stream) {
      if i < n {
        assert es[i] == Lead(h)[i];
      } else if i < n + |sent| {
        assert es[i] == ms[i - n];
      } else if i < n + |sent| + |acted| {
        assert es[i] == acts[i - n - |sent|];
      } else {
        assert es[i] == SessionEvent(h, i);
      }
    }
  }
}
