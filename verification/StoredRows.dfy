/** What a successful import leaves in each table, told from its arguments and from what was read. */
module StoredRows {
  import opened Options
  import opened Sessions
  import opened Plans
  import opened PlanLaws
  import opened Ledger
  import opened Imports
  import opened ImportLaws
  import opened Bookkeeping

  /** The project the query gave, or the one the root determines. */
  function ProjectOf(r: Request): Id {
    match r.pick
    case Some(id) => id
    case None => ProjectUuid(r.args.root)
  }

  /** The request ran on the database it was made for, and every statement succeeded. */
  ghost predicate Done(db: DB, r: Request, hex: Id -> string) {
    Succeeds(db, r, hex) && Picks(db.projects, r.args.root, r.pick)
  }

  /** The turn whose first mention comes last, empty ids aside; none when no message names one. */
  ghost predicate LatestTurn(ms: seq<Message>, turn: Option<Id>) {
    match turn
    case None => forall i :: 0 <= i < |ms| ==> ms[i].turn == None || ms[i].turn == Some(Given(""))
    case Some(t) =>
      t != Given("") && exists i :: FirstMention(ms, i, t) && forall j, u :: FirstMention(ms, j, u) && i < j ==>
                                      u == Given("")
  }

  /** The time of the last message a user sent, if there is one. */
  ghost predicate LatestUserAt(ms: seq<Message>, at: Option<Time>) {
    match at
    case None => forall i :: 0 <= i < |ms| ==> ms[i].role == Assistant
    case Some(x) => exists i :: 0 <= i < |ms| && ms[i].role == User && ms[i].at == x
                                && forall j :: i < j < |ms| ==> ms[j].role == Assistant
  }

  lemma LatestUserStored(ptid: string, ms: seq<Message>)
    ensures LatestUserAt(ms, LatestUser(Numbered(ptid, ms)))
  {
    hide LatestUser;
    var sent := Numbered(ptid, ms);
    LatestUserExact(sent);
    if LatestUser(sent).Some? {
      var i :| 0 <= i < |sent| && sent[i].m.role.User? && LatestUser(sent) == Some(sent[i].m.at) &&
               forall j :: i < j < |sent| ==> sent[j].m.role.Assistant?;
      assert forall k :: 0 <= k < |ms| ==> sent[k].m == ms[k];
      assert ms[i].role == User && ms[i].at == LatestUser(sent).value;
    } else {
      forall i | 0 <= i < |ms| ensures ms[i].role == Assistant {
        assert sent[i] in sent;
      }
    }
  }

  lemma {:induction false} FirstMentionOf(ms: seq<Message>, i: nat, t: Id)
    requires i < |ms| && ms[i].turn == Some(t)
    ensures exists j :: 0 <= j <= i && FirstMention(ms, j, t)
  {
    if k :| 0 <= k < i && ms[k].turn == Some(t) {
      FirstMentionOf(ms, k, t);
      var j :| 0 <= j <= k && FirstMention(ms, j, t);
    } else {
      assert FirstMention(ms, i, t);
    }
  }

  lemma NamedBy(ptid: string, ms: seq<Message>, t: Id)
    ensures Named(Numbered(ptid, ms), t) <==> t != Given("") && exists i :: FirstMention(ms, i, t)
  {
    var sent := Numbered(ptid, ms);
    if Named(sent, t) {
      var s :| s in sent && s.m.turn == Some(t);
      var i :| 0 <= i < |sent| && sent[i] == s;
      FirstMentionOf(ms, i, t);
    }
    if i :| FirstMention(ms, i, t) {
      assert sent[i] in sent && sent[i].m == ms[i];
    }
  }

  lemma LatestTurnStored(a: Args, p: Parsed, project: ProjectRef, create: bool, now: Time)
    ensures var rows := PlanFor(a, p, project, create, now).turns;
            LatestTurn(p.messages, if rows == [] then None else Some(rows[|rows| - 1].turn))
  {
    hide *;
    var ms, rows := p.messages, PlanFor(a, p, project, create, now).turns;
    TurnsOfPlan(a, p, project, create, now);
    if rows == [] {
      NoneLatest(ms, a.ptid);
    } else {
      var n := |rows| - 1;
      var t := rows[n].turn;
      NamedBy(a.ptid, ms, t);
      var i :| FirstMention(ms, i, t);
      forall j, u | FirstMention(ms, j, u) && i < j ensures u == Given("") {
        if u != Given("") {
          NamedBy(a.ptid, ms, u);
          var k :| 0 <= k < |rows| && rows[k].turn == u;
          if k < n {
            MentionsInOrder(a, p, project, create, now, k, n, j, i);
          } else {
            OneFirst(ms, i, j, t);
          }
        }
      }
      SomeLatest(ms, t, i);
    }
  }

  lemma TurnsOfPlan(a: Args, p: Parsed, project: ProjectRef, create: bool, now: Time)
    ensures var rows := PlanFor(a, p, project, create, now).turns;
            forall t :: Named(Numbered(a.ptid, p.messages), t) <==> exists k :: 0 <= k < |rows| && rows[k].turn == t
  {
    hide TurnsOf, Named, IsFirstUser, IsLastReply;
    TurnsPartition(Numbered(a.ptid, p.messages), p.times, p.createdAt, p.updatedAt);
  }

  lemma MentionsInOrder(a: Args, p: Parsed, project: ProjectRef, create: bool, now: Time, k: int, n: int, x: int,
                        y: int)
    requires var rows := PlanFor(a, p, project, create, now).turns;
             && 0 <= k < n < |rows|
             && FirstMention(p.messages, x, rows[k].turn) && FirstMention(p.messages, y, rows[n].turn)
    ensures x < y
  {
    hide *;
    TurnRowsExact(a, p, project, create, now);
  }

  lemma NoneLatest(ms: seq<Message>, ptid: string)
    requires forall t :: !Named(Numbered(ptid, ms), t)
    ensures LatestTurn(ms, None)
  {
    hide Named, FirstMention;
    forall i | 0 <= i < |ms| ensures ms[i].turn == None || ms[i].turn == Some(Given("")) {
      if ms[i].turn.Some? {
        FirstMentionOf(ms, i, ms[i].turn.value);
        NamedBy(ptid, ms, ms[i].turn.value);
      }
    }
  }

  lemma SomeLatest(ms: seq<Message>, t: Id, i: int)
    requires t != Given("") && FirstMention(ms, i, t)
    requires forall j, u :: FirstMention(ms, j, u) && i < j ==> u == Given("")
    ensures LatestTurn(ms, Some(t))
  {
    hide FirstMention;
  }

  lemma OneFirst(ms: seq<Message>, i: int, j: int, t: Id)
    requires FirstMention(ms, i, t) && FirstMention(ms, j, t)
    ensures i == j
  {
  }

  // ---- The rows ----

  lemma PlanDone(db: DB, r: Request, hex: Id -> string)
    requires Done(db, r, hex)
    ensures var p, b := PlanOf(db, r), Base(db, ThreadOf(r.args), r.force);
            && Import(db, r, hex) == Written(b, p, r.first) && Accepts(b, p)
            && p == PlanFor(r.args, r.parsed, p.h.project, r.pick.None?, r.now)
            && p.h.threadId == ThreadOf(r.args) && p.h.project.id == ProjectOf(r) && p.h.project.root == r.args.root
            && (r.pick.None? ==> p.h.project.title == r.title)
            && p.sent == Numbered(r.args.ptid, r.parsed.messages)
            && p.acted == Sequenced(r.args.ptid, r.parsed.activities)
  {
    hide Accepts, Written, EventsOf, TurnsOf, SelectionFor, Refused, Cleared, Numbered, Sequenced;
    var p := PlanOf(db, r);
    HeaderExact(r.args, r.parsed, p.h.project, r.pick.None?, r.now);
  }

  /** The thread's row: its latest turn is the one whose first mention comes last. */
  lemma ThreadStored(db: DB, r: Request, hex: Id -> string)
    requires Done(db, r, hex)
    ensures var db', t := Import(db, r, hex), ThreadOf(r.args);
            && t in db'.threads && db'.threads.Keys == db.threads.Keys + {t}
            && (forall u :: u in db.threads && u != t ==> db'.threads[u] == db.threads[u])
            && var row := db'.threads[t];
               && row.project == ProjectOf(r) && row.title == r.args.title && row.worktree == r.args.root
               && row.createdAt == r.parsed.createdAt && row.updatedAt == r.parsed.updatedAt
               && row.selection == PlanOf(db, r).h.selection
               && LatestTurn(r.parsed.messages, row.latestTurn)
               && LatestUserAt(r.parsed.messages, row.latestUserAt)
  {
    hide Accepts, EventsOf, TurnsOf, SelectionFor, Refused, Without, AppendAll, FileMessages, FileActivities, FileTurns,
         Advance, LatestTurn, LatestUserAt, LatestUser, MessagesBut, ActivitiesBut, Picks, Import, PlanOf, PlanFor,
         ProjectsAfter, RuntimeFor, MaxSequence, MaxCursor;
    PlanDone(db, r, hex);
    var p := PlanOf(db, r);
    HeaderExact(r.args, r.parsed, p.h.project, r.pick.None?, r.now);
    LatestTurnStored(r.args, r.parsed, p.h.project, r.pick.None?, r.now);
    LatestUserStored(r.args.ptid, r.parsed.messages);
  }

  /** A message or an activity is swept out first when the import is forced and it is the thread's own. */
  predicate Goes(force: bool, owner: Id, t: Id) {
    force && owner == t
  }

  lemma {:induction false} FiledMessagesExact(ms: map<Id, MessageRow>, t: Id, sent: seq<Sent>)
    requires Insertable(ms.Keys, SentIds(sent))
    ensures forall id :: id in FileMessages(ms, t, sent) <==> id in ms || id in SentIds(sent)
    ensures forall id :: id in ms ==> FileMessages(ms, t, sent)[id] == ms[id]
    ensures forall i :: 0 <= i < |sent| ==>
              FileMessages(ms, t, sent)[SentIds(sent)[i]] ==
              MessageRow(t, sent[i].m.turn, sent[i].m.role, sent[i].m.text, false, sent[i].m.at, sent[i].m.at)
  {
    FileMessagesKeys(ms, t, sent);
    InsertableExact(ms.Keys, SentIds(sent));
    if sent != [] {
      var init := sent[..|sent| - 1];
      assert SentIds(sent)[..|init|] == SentIds(init);
      FiledMessagesExact(ms, t, init);
      forall i | 0 <= i < |init| ensures SentIds(sent)[i] == SentIds(init)[i] != sent[|init|].id && init[i] == sent[i] {
        assert SentIds(sent)[|init|] == sent[|init|].id;
      }
      assert SentIds(sent)[|init|] == sent[|init|].id && sent[|init|].id !in ms;
    }
  }

  lemma {:induction false} FiledActivitiesExact(acts: map<Id, ActivityRow>, t: Id, acted: seq<Acted>)
    requires Insertable(acts.Keys, ActedIds(acted))
    ensures forall id :: id in FileActivities(acts, t, acted) <==> id in acts || id in ActedIds(acted)
    ensures forall id :: id in acts ==> FileActivities(acts, t, acted)[id] == acts[id]
    ensures forall i :: 0 <= i < |acted| ==>
              var id, a := ActedIds(acted)[i], acted[i].a;
              id in FileActivities(acts, t, acted) &&
              FileActivities(acts, t, acted)[id] ==
              ActivityRow(t, a.turn, a.tone, a.kind, a.summary, a.detail, a.line, i, a.at)
  {
    FileActivitiesKeys(acts, t, acted);
    InsertableExact(acts.Keys, ActedIds(acted));
    if acted != [] {
      var init := acted[..|acted| - 1];
      assert ActedIds(acted)[..|init|] == ActedIds(init);
      FiledActivitiesExact(acts, t, init);
      forall i | 0 <= i < |init|
        ensures ActedIds(acted)[i] == ActedIds(init)[i] != acted[|init|].id && init[i] == acted[i]
      {
        assert ActedIds(acted)[|init|] == acted[|init|].id;
      }
      assert ActedIds(acted)[|init|] == acted[|init|].id && acted[|init|].id !in acts;
    }
  }

  lemma {:induction false} FiledTurnsExact(turns: map<TurnKey, TurnRow>, t: Id, rows: seq<TurnRow>)
    requires Insertable(turns.Keys, TurnKeys(t, rows))
    ensures forall k :: k in FileTurns(turns, t, rows) <==> k in turns || k in TurnKeys(t, rows)
    ensures forall k :: k in turns ==> FileTurns(turns, t, rows)[k] == turns[k]
    ensures forall i :: 0 <= i < |rows| ==>
              var k := TurnKey(t, rows[i].turn);
              k in FileTurns(turns, t, rows) && FileTurns(turns, t, rows)[k] == rows[i]
  {
    InsertableExact(turns.Keys, TurnKeys(t, rows));
    if rows != [] {
      var init, row := rows[..|rows| - 1], rows[|rows| - 1];
      assert TurnKeys(t, rows) == TurnKeys(t, init) + [TurnKey(t, row.turn)];
      assert TurnKeys(t, rows)[..|init|] == TurnKeys(t, init);
      FiledTurnsExact(turns, t, init);
      assert TurnKeys(t, rows)[|init|] == TurnKey(t, row.turn) && TurnKey(t, row.turn) !in turns;
      forall i | 0 <= i < |init| ensures TurnKey(t, rows[i].turn) != TurnKey(t, row.turn) && init[i] == rows[i] {
        assert TurnKeys(t, rows)[i] == TurnKey(t, rows[i].turn);
      }
    }
  }

  /** Each message read has its row, and no other row comes, or goes but for the thread's own. */
  lemma MessagesStored(db: DB, r: Request, hex: Id -> string)
    requires Done(db, r, hex)
    ensures var ms, stored, t := r.parsed.messages, Import(db, r, hex).messages, ThreadOf(r.args);
            && (forall i :: 0 <= i < |ms| ==>
                  var id, m := MessageIdAt(r.args, ms[i], i), ms[i];
                  id in stored && stored[id] == MessageRow(t, m.turn, m.role, m.text, false, m.at, m.at))
            && (forall id :: id in stored ==>
                  (id in db.messages && !Goes(r.force, db.messages[id].thread, t)) ||
                  exists i :: 0 <= i < |ms| && id == MessageIdAt(r.args, ms[i], i))
            && (forall id :: id in db.messages && !Goes(r.force, db.messages[id].thread, t) ==>
                  id in stored && stored[id] == db.messages[id])
  {
    hide Accepts, EventsOf, TurnsOf, SelectionFor, Refused, Without, AppendAll, FileMessages, FileActivities, FileTurns,
         Advance, Picks, Import, PlanOf, PlanFor, ProjectsAfter, RuntimeFor, MaxSequence, MaxCursor, Insertable,
         ThreadFor, Done, ActivitiesBut;
    PlanDone(db, r, hex);
    var p, b := PlanOf(db, r), Base(db, ThreadOf(r.args), r.force);
    Accepted(b, p);
    FiledMessagesExact(b.messages, p.h.threadId, p.sent);
    forall id | id in SentIds(p.sent)
      ensures exists i :: 0 <= i < |r.parsed.messages| && id == MessageIdAt(r.args, r.parsed.messages[i], i)
    {
      var i :| 0 <= i < |p.sent| && SentIds(p.sent)[i] == id;
      assert id == MessageIdAt(r.args, r.parsed.messages[i], i);
    }
    forall i | 0 <= i < |r.parsed.messages| ensures MessageIdAt(r.args, r.parsed.messages[i], i) == SentIds(p.sent)[i] {
    }
  }

  lemma Accepted(b: DB, p: Plan)
    requires Accepts(b, p)
    ensures Insertable(b.messages.Keys, SentIds(p.sent)) && Insertable(b.activities.Keys, ActedIds(p.acted))
    ensures Insertable(b.turns.Keys, TurnKeys(p.h.threadId, p.turns))
  {
  }

  /** The same of activities, numbered as they were read. */
  lemma ActivitiesStored(db: DB, r: Request, hex: Id -> string)
    requires Done(db, r, hex)
    ensures var acts, stored, t := r.parsed.activities, Import(db, r, hex).activities, ThreadOf(r.args);
            && (forall i :: 0 <= i < |acts| ==>
                  var id, a := ActivityIdAt(r.args, acts[i], i), acts[i];
                  id in stored &&
                  stored[id] == ActivityRow(t, a.turn, a.tone, a.kind, a.summary, a.detail, a.line, i, a.at))
            && (forall id :: id in stored ==>
                  (id in db.activities && !Goes(r.force, db.activities[id].thread, t)) ||
                  exists i :: 0 <= i < |acts| && id == ActivityIdAt(r.args, acts[i], i))
            && (forall id :: id in db.activities && !Goes(r.force, db.activities[id].thread, t) ==>
                  id in stored && stored[id] == db.activities[id])
  {
    hide Accepts, EventsOf, TurnsOf, SelectionFor, Refused, Without, AppendAll, FileMessages, FileActivities, FileTurns,
         Advance, Picks, Import, PlanOf, PlanFor, ProjectsAfter, RuntimeFor, MaxSequence, MaxCursor, Insertable,
         ThreadFor, Done, MessagesBut;
    PlanDone(db, r, hex);
    var p, b := PlanOf(db, r), Base(db, ThreadOf(r.args), r.force);
    Accepted(b, p);
    FiledActivitiesExact(b.activities, p.h.threadId, p.acted);
    forall id | id in ActedIds(p.acted)
      ensures exists i :: 0 <= i < |r.parsed.activities| && id == ActivityIdAt(r.args, r.parsed.activities[i], i)
    {
      var i :| 0 <= i < |p.acted| && ActedIds(p.acted)[i] == id;
      assert id == ActivityIdAt(r.args, r.parsed.activities[i], i);
    }
    forall i | 0 <= i < |r.parsed.activities|
      ensures ActivityIdAt(r.args, r.parsed.activities[i], i) == ActedIds(p.acted)[i]
    {
    }
  }

  /** Each turn row of the plan is stored under the thread and its turn. */
  lemma TurnsStored(db: DB, r: Request, hex: Id -> string)
    requires Done(db, r, hex)
    ensures var rows, stored, t := PlanOf(db, r).turns, Import(db, r, hex).turns, ThreadOf(r.args);
            && (forall i :: 0 <= i < |rows| ==>
                  TurnKey(t, rows[i].turn) in stored && stored[TurnKey(t, rows[i].turn)] == rows[i])
            && (forall k :: k in stored ==>
                  (k in db.turns && !Goes(r.force, k.thread, t)) ||
                  exists i :: 0 <= i < |rows| && k == TurnKey(t, rows[i].turn))
            && (forall k :: k in db.turns && !Goes(r.force, k.thread, t) ==> k in stored && stored[k] == db.turns[k])
  {
    hide Accepts, EventsOf, TurnsOf, SelectionFor, Refused, Without, AppendAll, FileMessages, FileActivities, FileTurns,
         Advance, Picks, Import, PlanOf, PlanFor, ProjectsAfter, RuntimeFor, MaxSequence, MaxCursor, Insertable,
         ThreadFor, Done, MessagesBut, ActivitiesBut;
    PlanDone(db, r, hex);
    var p, b := PlanOf(db, r), Base(db, ThreadOf(r.args), r.force);
    Accepted(b, p);
    FiledTurnsExact(b.turns, p.h.threadId, p.turns);
    forall k | k in TurnKeys(p.h.threadId, p.turns)
      ensures exists i :: 0 <= i < |p.turns| && k == TurnKey(ThreadOf(r.args), p.turns[i].turn)
    {
      var i :| 0 <= i < |p.turns| && TurnKeys(p.h.threadId, p.turns)[i] == k;
      assert k == TurnKey(ThreadOf(r.args), p.turns[i].turn);
    }
    forall i | 0 <= i < |p.turns|
      ensures TurnKey(ThreadOf(r.args), p.turns[i].turn) in TurnKeys(p.h.threadId, p.turns)
    {
      assert TurnKeys(p.h.threadId, p.turns)[i] == TurnKey(ThreadOf(r.args), p.turns[i].turn);
    }
  }

  /** What the provider needs to go on: for Claude also the thread, the assistant's last message and the number of
      turns. */
  predicate ResumesFrom(c: Resume, a: Args, p: Parsed, turns: nat) {
    match a.provider
    case Codex => c == CodexResume(a.ptid)
    case Claude =>
      c == ClaudeResume(ThreadOf(a), a.ptid,
                        if p.lastAssistant == Some("") then None else p.lastAssistant, turns)
  }

  /** The thread's session, its runtime and its project. */
  lemma SessionStored(db: DB, r: Request, hex: Id -> string)
    requires Done(db, r, hex)
    ensures var db', t, plan := Import(db, r, hex), ThreadOf(r.args), PlanOf(db, r);
            && db'.sessions == db.sessions[t := Session(Adapter(r.args.provider), r.parsed.updatedAt)]
            && db'.runtimes.Keys == db.runtimes.Keys + {t}
            && (forall u :: u in db.runtimes && u != t ==> db'.runtimes[u] == db.runtimes[u])
            && ResumesFrom(db'.runtimes[t].resume, r.args, r.parsed, |plan.turns|)
            && db'.runtimes[t] == Runtime(Adapter(r.args.provider), r.parsed.updatedAt, db'.runtimes[t].resume,
                                          r.args.root, plan.h.selection, r.now)
            && (r.pick.Some? ==> db'.projects == db.projects)
            && (r.pick.None? ==>
                  var first := if ProjectOf(r) in db.projects then db.projects[ProjectOf(r)].createdAt
                               else r.parsed.createdAt;
                  db'.projects == db.projects[ProjectOf(r) := Project(r.title, r.args.root, plan.h.selection, first,
                                                                      r.parsed.createdAt, None)])
  {
    hide Accepts, EventsOf, TurnsOf, SelectionFor, Refused, Without, AppendAll, FileMessages, FileActivities, FileTurns,
         Advance, Picks, Import, PlanOf, PlanFor, MaxSequence, MaxCursor, Insertable, ThreadFor, Done, MessagesBut,
         ActivitiesBut;
    PlanDone(db, r, hex);
    var p := PlanOf(db, r);
    HeaderExact(r.args, r.parsed, p.h.project, r.pick.None?, r.now);
  }

  // ---- The log and the cursors ----

  /** The log is what it kept and then the events, in order and under consecutive sequence values. */
  predicate Follows(log: seq<Stored>, kept: seq<Stored>, es: seq<Event>, first: nat) {
    && |log| == |kept| + |es| && log[..|kept|] == kept
    && forall i :: 0 <= i < |es| ==> log[|kept| + i].e == es[i] && log[|kept| + i].sequence == first + i
  }

  lemma FollowsSnoc(log: seq<Stored>, kept: seq<Stored>, es: seq<Event>, first: nat, s: Stored)
    requires Follows(log, kept, es, first) && s.sequence == first + |es|
    ensures Follows(log + [s], kept, es + [s.e], first)
  {
    var all, fs := log + [s], es + [s.e];
    assert all[..|kept|] == log[..|kept|];
    forall i | 0 <= i < |fs| ensures all[|kept| + i].e == fs[i] && all[|kept| + i].sequence == first + i {
      if i < |es| {
        assert all[|kept| + i] == log[|kept| + i] && fs[i] == es[i];
      }
    }
  }

  lemma {:induction false} AppendedExact(log: seq<Stored>, es: seq<Event>, first: nat)
    ensures Follows(AppendAll(log, es, first), log, es, first)
  {
    hide NextVersion;
    if es != [] {
      var init, e := es[..|es| - 1], es[|es| - 1];
      AppendedExact(log, init, first);
      var before := AppendAll(log, init, first);
      FollowsSnoc(before, log, init, first, Stored(first + |init|, NextVersion(before, e.kind, e.stream), e));
      assert es == init + [e];
    }
  }

  /** The plan's events are appended to what the log keeps. */
  lemma EventsStored(db: DB, r: Request, hex: Id -> string)
    requires Done(db, r, hex)
    ensures Follows(Import(db, r, hex).log, if r.force then Without(db.log, ThreadOf(r.args)) else db.log,
                    PlanOf(db, r).events, r.first)
  {
    hide Accepts, EventsOf, TurnsOf, SelectionFor, Refused, Without, AppendAll, FileMessages, FileActivities, FileTurns,
         Advance, Picks, Import, PlanOf, PlanFor, MaxSequence, MaxCursor, Insertable, ThreadFor, Done, MessagesBut,
         ActivitiesBut, RuntimeFor, ProjectsAfter, Follows;
    PlanDone(db, r, hex);
    var p, kept := PlanOf(db, r), if r.force then Without(db.log, ThreadOf(r.args)) else db.log;
    assert Import(db, r, hex).log == AppendAll(kept, p.events, r.first);
    AppendedExact(kept, p.events, r.first);
  }

  /** The projectors whose cursors an import sets. */
  const NINE: set<string> := {
    "projection.projects", "projection.threads", "projection.thread-messages", "projection.thread-proposed-plans",
    "projection.thread-activities", "projection.thread-sessions", "projection.thread-turns", "projection.checkpoints",
    "projection.pending-approvals"}

  lemma NineProjectors()
    ensures forall n :: n in PROJECTORS <==> n in NINE
  {
  }

  /** All nine are set to the highest sequence value of the log and of any cursor, and no other cursor moves. */
  lemma CursorsStored(db: DB, r: Request, hex: Id -> string)
    requires Done(db, r, hex)
    ensures var db' := Import(db, r, hex);
            && db'.cursors.Keys == db.cursors.Keys + NINE
            && (forall k :: k in db.cursors && k !in NINE ==> db'.cursors[k] == db.cursors[k])
            && exists n: nat ::
                 && (forall k :: k in NINE ==> db'.cursors[k] == Cursor(n, r.now))
                 && (forall s :: s in db'.log ==> s.sequence <= n)
                 && (forall k :: k in db.cursors ==> db.cursors[k].sequence <= n)
                 && (n == 0 || (exists s :: s in db'.log && s.sequence == n) ||
                     exists k :: k in db.cursors && db.cursors[k].sequence == n)
  {
    hide Accepts, EventsOf, TurnsOf, SelectionFor, Refused, Without, AppendAll, FileMessages, FileActivities, FileTurns,
         Advance, Picks, Import, PlanOf, PlanFor, MaxSequence, MaxCursor, Insertable, ThreadFor, Done, MessagesBut,
         ActivitiesBut, RuntimeFor, ProjectsAfter, PROJECTORS, NINE;
    PlanDone(db, r, hex);
    var p, b := PlanOf(db, r), Base(db, ThreadOf(r.args), r.force);
    HeaderExact(r.args, r.parsed, p.h.project, r.pick.None?, r.now);
    var log := AppendAll(b.log, p.events, r.first);
    var n := Max(MaxSequence(log), MaxCursor(b.cursors));
    AdvanceExact(b.cursors, PROJECTORS, Cursor(n, r.now));
    NineProjectors();
    assert Import(db, r, hex).log == log && b.cursors == db.cursors;
  }
}
