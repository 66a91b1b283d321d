/** Importing the same session again: a forced import leaves the rows a fresh one would. */
module Reimports {
  import opened Options
  import opened Sessions
  import opened Plans
  import opened Ledger
  import opened Imports

  /** The rows of one thread. */
  datatype ThreadRows = ThreadRows(thread: Option<Thread>, messages: map<Id, MessageRow>,
                                   activities: map<Id, ActivityRow>, turns: map<TurnKey, TurnRow>,
                                   session: Option<Session>)

  function Find<T>(m: map<Id, T>, id: Id): Option<T> {
    if id in m then Some(m[id]) else None
  }

  function MessagesIn(ms: map<Id, MessageRow>, t: Id): map<Id, MessageRow> {
    map m | m in ms && ms[m].thread == t :: ms[m]
  }

  function ActivitiesIn(acts: map<Id, ActivityRow>, t: Id): map<Id, ActivityRow> {
    map a | a in acts && acts[a].thread == t :: acts[a]
  }

  function TurnsIn(turns: map<TurnKey, TurnRow>, t: Id): map<TurnKey, TurnRow> {
    map k | k in turns && k.thread == t :: turns[k]
  }

  function RowsOf(db: DB, t: Id): ThreadRows {
    ThreadRows(Find(db.threads, t), MessagesIn(db.messages, t), ActivitiesIn(db.activities, t), TurnsIn(db.turns, t),
               Find(db.sessions, t))
  }

  const NO_ROWS := ThreadRows(None, map[], map[], map[], None)

  /** The rows a plan stands for. */
  function RowsFor(p: Plan): ThreadRows {
    var t := p.h.threadId;
    ThreadRows(Some(ThreadFor(p)), FileMessages(map[], t, p.sent), FileActivities(map[], t, p.acted),
               FileTurns(map[], t, p.turns), Some(SessionFor(p.h)))
  }

  lemma ClearedHasNoRows(db: DB, t: Id)
    ensures RowsOf(Cleared(db, t), t) == NO_ROWS
  {
  }

  lemma {:induction false} FiledMessages(ms: map<Id, MessageRow>, t: Id, sent: seq<Sent>)
    requires MessagesIn(ms, t) == map[]
    ensures MessagesIn(FileMessages(ms, t, sent), t) == FileMessages(map[], t, sent)
  {
    if sent != [] {
      FiledMessages(ms, t, sent[..|sent| - 1]);
      MessagesInAdd(FileMessages(ms, t, sent[..|sent| - 1]), t, sent[|sent| - 1]);
      hide MessagesIn;
    }
  }

  lemma MessagesInAdd(ms: map<Id, MessageRow>, t: Id, s: Sent)
    ensures var row := MessageRow(t, s.m.turn, s.m.role, s.m.text, false, s.m.at, s.m.at);
            MessagesIn(ms[s.id := row], t) == MessagesIn(ms, t)[s.id := row]
  {
  }

  lemma {:induction false} FiledActivities(acts: map<Id, ActivityRow>, t: Id, acted: seq<Acted>)
    requires ActivitiesIn(acts, t) == map[]
    ensures ActivitiesIn(FileActivities(acts, t, acted), t) == FileActivities(map[], t, acted)
  {
    if acted != [] {
      var init, d := acted[..|acted| - 1], acted[|acted| - 1];
      FiledActivities(acts, t, init);
      ActivitiesInAdd(FileActivities(acts, t, init), t, d.id,
        ActivityRow(t, d.a.turn, d.a.tone, d.a.kind, d.a.summary, d.a.detail, d.a.line, |acted| - 1, d.a.at));
      hide ActivitiesIn;
    }
  }

  lemma ActivitiesInAdd(acts: map<Id, ActivityRow>, t: Id, id: Id, row: ActivityRow)
    requires row.thread == t
    ensures ActivitiesIn(acts[id := row], t) == ActivitiesIn(acts, t)[id := row]
  {
  }

  lemma {:induction false} FiledTurns(turns: map<TurnKey, TurnRow>, t: Id, rows: seq<TurnRow>)
    requires TurnsIn(turns, t) == map[]
    ensures TurnsIn(FileTurns(turns, t, rows), t) == FileTurns(map[], t, rows)
  {
    if rows != [] {
      var init, row := rows[..|rows| - 1], rows[|rows| - 1];
      FiledTurns(turns, t, init);
      TurnsInAdd(FileTurns(turns, t, init), t, row);
      hide TurnsIn;
    }
  }

  lemma TurnsInAdd(turns: map<TurnKey, TurnRow>, t: Id, row: TurnRow)
    ensures TurnsIn(turns[TurnKey(t, row.turn) := row], t) == TurnsIn(turns, t)[TurnKey(t, row.turn) := row]
  {
  }

  lemma WrittenRows(b: DB, p: Plan, first: nat)
    requires RowsOf(b, p.h.threadId) == NO_ROWS
    ensures RowsOf(Written(b, p, first), p.h.threadId) == RowsFor(p)
  {
    hide MessagesIn, ActivitiesIn, TurnsIn, FileMessages, FileActivities, FileTurns, AppendAll, Advance, ProjectsAfter;
    var t := p.h.threadId;
    FiledMessages(b.messages, t, p.sent);
    FiledActivities(b.activities, t, p.acted);
    FiledTurns(b.turns, t, p.turns);
  }

  /** The rows of a plan depend on the session, the arguments and the project's id alone. */
  lemma PlansAgree(db: DB, db': DB, r: Request, r': Request)
    requires r.args == r'.args && r.parsed == r'.parsed
    requires Picks(db.projects, r.args.root, r.pick) && Picks(db'.projects, r'.args.root, r'.pick)
    ensures var p, p' := PlanOf(db, r), PlanOf(db', r');
            && p.sent == p'.sent && p.acted == p'.acted && p.turns == p'.turns && p.h.threadId == p'.h.threadId
            && RowsFor(p').(thread := None) == RowsFor(p).(thread := None)
            && ThreadFor(p') == ThreadFor(p).(project := RefFor(db'.projects, r').id)
  {
    hide TurnsOf, FileMessages, FileActivities, FileTurns, EventsOf, Numbered, Sequenced, SelectionFor, LatestUser;
  }

  // ---- When a forced import goes through ----

  /** A hashed event id names the stream of its event. */
  ghost predicate IdsNameStreams(log: seq<Stored>) {
    forall s :: s in log && s.e.id.EventId? ==> s.e.id.stream == s.e.stream
  }

  lemma {:induction false} AppendedIds(log: seq<Stored>, es: seq<Event>, first: nat)
    requires IdsNameStreams(log)
    requires forall e :: e in es && e.id.EventId? ==> e.id.stream == e.stream
    ensures IdsNameStreams(AppendAll(log, es, first))
  {
    hide NextVersion;
    if es != [] {
      AppendedIds(log, es[..|es| - 1], first);
    }
  }

  /** The event that creates the project of a root that has none. */
  function CreationId(a: Args): Id {
    EventId(a.ptid, "project.created", 0, ProjectUuid(a.root))
  }

  /** What a forced import meets in the tables: the project it would create was created by an import of this session
      before, or a message or an activity of the session is another thread's. */
  ghost predicate Meets(db: DB, r: Request) {
    var t := ThreadIdFor(r.args);
    || (r.pick.None? && t != ProjectUuid(r.args.root) && CreationId(r.args) in LogIds(db.log))
    || (exists id :: id in SentIds(Numbered(r.args.ptid, r.parsed.messages)) && id in db.messages
                     && db.messages[id].thread != t)
    || (exists id :: id in ActedIds(Sequenced(r.args.ptid, r.parsed.activities)) && id in db.activities &&
                     db.activities[id].thread != t)
  }

  /** The event, and the stream, at each place of a plan. */
  lemma PlanStreams(h: Header, sent: seq<Sent>, acted: seq<Acted>, i: nat)
    requires i < |EventsOf(h, sent, acted)|
    ensures var e := EventsOf(h, sent, acted)[i];
            if h.create && i == 0 then e.id == EventId(h.ptid, "project.created", 0, h.project.id)
            else e.stream == h.threadId && e.id.EventId? && e.id.stream == h.threadId
  {
    EventIndex(h, sent, acted);
    var n := |Lead(h)|;
    var ms, acts := MessageEvents(h, n, sent), ActivityEvents(h, n + |sent|, acted);
    if i < n {
      assert EventsOf(h, sent, acted)[i] == Lead(h)[i];
    } else if i < n + |sent| {
      assert EventsOf(h, sent, acted)[i] == ms[i - n];
    } else if i < n + |sent| + |acted| {
      assert EventsOf(h, sent, acted)[i] == acts[i - n - |sent|];
    }
  }

  lemma EventsInsertable(log: seq<Stored>, p: Plan)
    requires IdsNameStreams(log) && p.events == EventsOf(p.h, p.sent, p.acted)
    ensures var t, made := p.h.threadId, EventId(p.h.ptid, "project.created", 0, p.h.project.id);
            Insertable(LogIds(Without(log, t)), EventIds(p.events)) <==>
            !(p.h.create && p.h.project.id != t && made in LogIds(log))
  {
    var t, made, ids := p.h.threadId, EventId(p.h.ptid, "project.created", 0, p.h.project.id), EventIds(p.events);
    var rest := LogIds(Without(log, t));
    EventIndex(p.h, p.sent, p.acted);
    WithoutFacts(log, t);
    InsertableExact(rest, ids);
    assert |p.events| > 0;
    hide EventsOf, Without, Rising, Insertable;
    forall i | 0 <= i < |ids| && !(p.h.create && i == 0) ensures ids[i] !in rest {
      PlanStreams(p.h, p.sent, p.acted, i);
    }
    PlanStreams(p.h, p.sent, p.acted, 0);
    if p.h.create {
      assert ids[0] == made;
      assert made in rest <==> made in LogIds(log) && p.h.project.id != t;
    }
  }

  lemma MessagesInsertable(ms: map<Id, MessageRow>, t: Id, ids: seq<Id>)
    requires forall i, j :: 0 <= i < j < |ids| ==> ids[i] != ids[j]
    ensures Insertable(MessagesBut(ms, t).Keys, ids) <==> !exists id :: id in ids && id in ms && ms[id].thread != t
  {
    InsertableExact(MessagesBut(ms, t).Keys, ids);
  }

  lemma ActivitiesInsertable(acts: map<Id, ActivityRow>, t: Id, ids: seq<Id>)
    requires forall i, j :: 0 <= i < j < |ids| ==> ids[i] != ids[j]
    ensures Insertable(ActivitiesBut(acts, t).Keys, ids)
            <==> !exists id :: id in ids && id in acts && acts[id].thread != t
  {
    InsertableExact(ActivitiesBut(acts, t).Keys, ids);
  }

  /** Turn keys never stand in the way: they are the thread's own, and each turn has one row. */
  lemma TurnsInsertable(taken: set<TurnKey>, t: Id, sent: seq<Sent>, times: map<Id, Times>, createdAt: Time,
                        updatedAt: Time)
    requires forall k :: k in taken ==> k.thread != t
    ensures Insertable(taken, TurnKeys(t, TurnsOf(sent, times, createdAt, updatedAt)))
  {
    TurnsPartition(sent, times, createdAt, updatedAt);
    var rows := TurnsOf(sent, times, createdAt, updatedAt);
    hide TurnsOf;
    InsertableExact(taken, TurnKeys(t, rows));
  }

  /** A forced import that is not refused succeeds exactly when it meets none of these. */
  lemma ForcedSucceedsIff(db: DB, r: Request, hex: Id -> string)
    requires IdsNameStreams(db.log) && Picks(db.projects, r.args.root, r.pick) && r.force
    ensures Succeeds(db, r, hex) <==> Proceeds(db, r, hex) && !Meets(db, r)
  {
    hide IdsNameStreams, EventsOf, TurnsOf, Without, MessagesBut, ActivitiesBut, Insertable, SelectionFor, Refused;
    var p, t := PlanOf(db, r), ThreadIdFor(r.args);
    IdsDistinct(r.args, r.parsed, RefFor(db.projects, r), r.pick.None?, r.now);
    EventsInsertable(db.log, p);
    MessagesInsertable(db.messages, t, SentIds(p.sent));
    ActivitiesInsertable(db.activities, t, ActedIds(p.acted));
    TurnsInsertable(Cleared(db, t).turns.Keys, t, p.sent, r.parsed.times, r.parsed.createdAt, r.parsed.updatedAt);
  }

  // ---- Forced and fresh ----

  /** The rows of a thread when it is put in another project. */
  function Moved(rows: ThreadRows, project: Id): ThreadRows {
    if rows.thread.Some? then rows.(thread := Some(rows.thread.value.(project := project))) else rows
  }

  /** A forced import over whatever earlier copy of the thread there is leaves the rows that an import of the same
      session into a database without the thread leaves, each in the project that it found or made; or, when it is
      refused or meets one of the obstacles, it leaves everything as it was. */
  lemma ForcedEqualsFresh(held: DB, clean: DB, r: Request, r': Request, hex: Id -> string)
    requires r.args == r'.args && r.parsed == r'.parsed && r.force && IdsNameStreams(held.log)
    requires Valid(held, r) && Valid(clean, r') && Succeeds(clean, r', hex)
    requires RowsOf(clean, ThreadIdFor(r.args)) == NO_ROWS
    ensures if Proceeds(held, r, hex) && !Meets(held, r) then
              RowsOf(Import(held, r, hex), ThreadIdFor(r.args)) ==
              Moved(RowsOf(Import(clean, r', hex), ThreadIdFor(r.args)), RefFor(held.projects, r).id)
            else Import(held, r, hex) == held
    ensures RowsOf(Import(clean, r', hex), ThreadIdFor(r.args)).thread.Some?
    ensures RowsOf(Import(clean, r', hex), ThreadIdFor(r.args)).thread.value.project == RefFor(clean.projects, r').id
  {
    hide RowsOf, RowsFor, Accepts, Written, EventsOf, TurnsOf, Numbered, Sequenced, SelectionFor, Picks, Meets,
         IdsNameStreams, Refused;
    var t := ThreadIdFor(r.args);
    ForcedSucceedsIff(held, r, hex);
    ClearedHasNoRows(held, t);
    ClearedHasNoRows(clean, t);
    PlansAgree(held, clean, r, r');
    WrittenRows(Cleared(held, t), PlanOf(held, r), r.first);
    WrittenRows(Base(clean, t, r'.force), PlanOf(clean, r'), r'.first);
    MovedRows(PlanOf(held, r), PlanOf(clean, r'));
  }

  lemma MovedRows(p: Plan, p': Plan)
    requires RowsFor(p').(thread := None) == RowsFor(p).(thread := None)
    requires ThreadFor(p') == ThreadFor(p).(project := p'.h.project.id)
    ensures RowsFor(p) == Moved(RowsFor(p'), p.h.project.id)
    ensures RowsFor(p').thread.Some? && RowsFor(p').thread.value.project == p'.h.project.id
  {
    hide FileMessages, FileActivities, FileTurns, LatestUser;
  }

  // ---- The second import ----

  /** After an import its project is one that can be picked. */
  lemma ProjectStays(db: DB, r: Request, hex: Id -> string)
    requires Valid(db, r) && Succeeds(db, r, hex)
    ensures var ref, ps := RefFor(db.projects, r), Import(db, r, hex).projects;
            ref.id in ps && Candidate(ps[ref.id], r.args.root)
  {
    hide Accepts, EventsOf, TurnsOf, Refused;
  }

  lemma NotRefusedAgain(db: DB, r: Request, again: Request, hex: Id -> string)
    requires Succeeds(db, r, hex) && again.args == r.args && again.force
    ensures Proceeds(Import(db, r, hex), again, hex)
  {
    hide Accepts, EventsOf, TurnsOf, Mentions, Without, AppendAll, FileMessages, FileActivities, FileTurns,
         ProjectsAfter, Advance;
  }

  /** Every import keeps event ids naming their streams. */
  lemma ImportKeepsIds(db: DB, r: Request, hex: Id -> string)
    requires IdsNameStreams(db.log)
    ensures IdsNameStreams(Import(db, r, hex).log)
  {
    var p := PlanOf(db, r);
    var b := Base(db, p.h.threadId, r.force);
    EventIndex(p.h, p.sent, p.acted);
    BaseIds(db, p.h.threadId, r.force);
    AppendedIds(b.log, p.events, r.first);
    hide IdsNameStreams, EventsOf, Accepts, Refused, AppendAll, TurnsOf;
  }

  lemma {:induction false} FiledMessagesOwn(ms: map<Id, MessageRow>, t: Id, sent: seq<Sent>)
    ensures forall id :: id in SentIds(sent) ==>
              id in FileMessages(ms, t, sent) && FileMessages(ms, t, sent)[id].thread == t
  {
    if sent != [] {
      FiledMessagesOwn(ms, t, sent[..|sent| - 1]);
      assert SentIds(sent) == SentIds(sent[..|sent| - 1]) + [sent[|sent| - 1].id];
    }
  }

  lemma {:induction false} FiledActivitiesOwn(acts: map<Id, ActivityRow>, t: Id, acted: seq<Acted>)
    ensures forall id :: id in ActedIds(acted) ==>
              id in FileActivities(acts, t, acted) && FileActivities(acts, t, acted)[id].thread == t
  {
    if acted != [] {
      FiledActivitiesOwn(acts, t, acted[..|acted| - 1]);
      assert ActedIds(acted) == ActedIds(acted[..|acted| - 1]) + [acted[|acted| - 1].id];
    }
  }

  /** Just written, a session's rows are its thread's own. */
  lemma MeetsNothing(b: DB, p: Plan, first: nat, again: Request)
    requires p.sent == Numbered(again.args.ptid, again.parsed.messages)
    requires p.acted == Sequenced(again.args.ptid, again.parsed.activities)
    requires p.h.threadId == ThreadIdFor(again.args) && again.pick.Some?
    ensures !Meets(Written(b, p, first), again)
  {
    hide AppendAll, FileMessages, FileActivities, FileTurns, ProjectsAfter, Advance, Numbered, Sequenced;
    FiledMessagesOwn(b.messages, p.h.threadId, p.sent);
    FiledActivitiesOwn(b.activities, p.h.threadId, p.acted);
  }

  /** No other project of this root has the same last update. */
  ghost predicate Untied(ps: map<Id, Project>, root: string) {
    forall a, b | a in ps && b in ps && Candidate(ps[a], root) && Candidate(ps[b], root)
      :: ps[a].updatedAt == ps[b].updatedAt ==> a == b
  }

  /** Once a session is imported, a forced import of it goes through and leaves every row of the thread as it was;
      the project could differ only if two of the same root were last updated together. */
  lemma ReimportChangesNoRow(db: DB, r: Request, again: Request, hex: Id -> string)
    requires IdsNameStreams(db.log) && Valid(db, r) && Succeeds(db, r, hex)
    requires r.force || RowsOf(db, ThreadIdFor(r.args)) == NO_ROWS
    requires again.args == r.args && again.parsed == r.parsed && again.force && Valid(Import(db, r, hex), again)
    ensures var db', t := Import(db, r, hex), ThreadIdFor(r.args);
            var rows, rows' := RowsOf(db', t), RowsOf(Import(db', again, hex), t);
            && Succeeds(db', again, hex)
            && rows.thread.Some? && rows'.thread.Some?
            && rows' == rows.(thread := Some(rows.thread.value.(project := rows'.thread.value.project)))
            && (r.pick.None? || Untied(db.projects, r.args.root) ==> rows' == rows)
  {
    hide RowsOf, RowsFor, Accepts, Written, EventsOf, TurnsOf, Numbered, Sequenced, SelectionFor, Refused,
         IdsNameStreams, Meets;
    var db', t := Import(db, r, hex), ThreadIdFor(r.args);
    var b := Base(db, t, r.force);
    var p, p' := PlanOf(db, r), PlanOf(db', again);
    ProjectStays(db, r, hex);
    NotRefusedAgain(db, r, again, hex);
    PlansAgree(db, db', r, again);
    assert db' == Written(b, p, r.first);
    ImportKeepsIds(db, r, hex);
    MeetsNothing(b, p, r.first, again);
    ForcedSucceedsIff(db', again, hex);
    ClearedHasNoRows(db, t);
    ClearedHasNoRows(db', t);
    WrittenRows(b, p, r.first);
    WrittenRows(Cleared(db', t), p', again.first);
    ThreadsOfPlans(p, p');
    if r.pick.None? || Untied(db.projects, r.args.root) {
      SamePick(db, r, again, hex);
    }
  }

  lemma BaseIds(db: DB, t: Id, force: bool)
    requires IdsNameStreams(db.log)
    ensures IdsNameStreams(Base(db, t, force).log)
  {
    WithoutFacts(db.log, t);
  }

  lemma ThreadsOfPlans(p: Plan, p': Plan)
    requires RowsFor(p').(thread := None) == RowsFor(p).(thread := None)
    requires ThreadFor(p') == ThreadFor(p).(project := p'.h.project.id)
    ensures RowsFor(p).thread.Some? && RowsFor(p').thread.Some?
    ensures RowsFor(p')
            == RowsFor(p).(thread := Some(RowsFor(p).thread.value.(project := RowsFor(p').thread.value.project)))
    ensures RowsFor(p').thread.value.project == p'.h.project.id && RowsFor(p).thread.value.project == p.h.project.id
  {
    hide FileMessages, FileActivities, FileTurns, LatestUser;
  }

  lemma SamePick(db: DB, r: Request, again: Request, hex: Id -> string)
    requires Valid(db, r) && Succeeds(db, r, hex) && again.args == r.args && Valid(Import(db, r, hex), again)
    requires r.pick.None? || Untied(db.projects, r.args.root)
    ensures RefFor(Import(db, r, hex).projects, again).id == RefFor(db.projects, r).id
  {
    hide Accepts, EventsOf, TurnsOf, Refused;
    ProjectStays(db, r, hex);
  }
}
