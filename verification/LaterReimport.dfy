/** Importing a session again later: after other imports, and after its project was deleted. */
module LaterReimports {
  import opened Options
  import opened Sessions
  import opened Plans
  import opened Ledger
  import opened Imports
  import opened ImportLaws
  import opened Reimports

  // ---- After other threads were imported ----

  lemma MessagesInOther(ms: map<Id, MessageRow>, id: Id, row: MessageRow, t: Id)
    requires id !in ms && row.thread != t
    ensures MessagesIn(ms[id := row], t) == MessagesIn(ms, t)
  {
  }

  lemma ActivitiesInOther(acts: map<Id, ActivityRow>, id: Id, row: ActivityRow, t: Id)
    requires id !in acts && row.thread != t
    ensures ActivitiesIn(acts[id := row], t) == ActivitiesIn(acts, t)
  {
  }

  lemma {:induction false} FiledMessagesOthers(ms: map<Id, MessageRow>, u: Id, sent: seq<Sent>, t: Id)
    requires u != t && Insertable(ms.Keys, SentIds(sent))
    ensures MessagesIn(FileMessages(ms, u, sent), t) == MessagesIn(ms, t)
  {
    hide MessagesIn;
    if sent != [] {
      var init, s := sent[..|sent| - 1], sent[|sent| - 1];
      assert SentIds(sent)[..|init|] == SentIds(init);
      FiledMessagesOthers(ms, u, init, t);
      FileMessagesKeys(ms, u, init);
      MessagesInOther(FileMessages(ms, u, init), s.id,
                      MessageRow(u, s.m.turn, s.m.role, s.m.text, false, s.m.at, s.m.at), t);
    }
  }

  lemma {:induction false} FiledActivitiesOthers(acts: map<Id, ActivityRow>, u: Id, acted: seq<Acted>, t: Id)
    requires u != t && Insertable(acts.Keys, ActedIds(acted))
    ensures ActivitiesIn(FileActivities(acts, u, acted), t) == ActivitiesIn(acts, t)
  {
    hide ActivitiesIn;
    if acted != [] {
      var init, d := acted[..|acted| - 1], acted[|acted| - 1];
      assert ActedIds(acted)[..|init|] == ActedIds(init);
      FiledActivitiesOthers(acts, u, init, t);
      FileActivitiesKeys(acts, u, init);
      ActivitiesInOther(FileActivities(acts, u, init), d.id,
        ActivityRow(u, d.a.turn, d.a.tone, d.a.kind, d.a.summary, d.a.detail, d.a.line, |acted| - 1, d.a.at), t);
    }
  }

  lemma {:induction false} FiledTurnsOthers(turns: map<TurnKey, TurnRow>, u: Id, rows: seq<TurnRow>, t: Id)
    requires u != t
    ensures TurnsIn(FileTurns(turns, u, rows), t) == TurnsIn(turns, t)
  {
    if rows != [] {
      FiledTurnsOthers(turns, u, rows[..|rows| - 1], t);
    }
  }

  lemma MessagesInBut(ms: map<Id, MessageRow>, u: Id, t: Id)
    requires u != t
    ensures MessagesIn(MessagesBut(ms, u), t) == MessagesIn(ms, t)
  {
  }

  lemma ActivitiesInBut(acts: map<Id, ActivityRow>, u: Id, t: Id)
    requires u != t
    ensures ActivitiesIn(ActivitiesBut(acts, u), t) == ActivitiesIn(acts, t)
  {
  }

  lemma ClearedOthers(db: DB, u: Id, t: Id)
    requires u != t
    ensures RowsOf(Cleared(db, u), t) == RowsOf(db, t)
  {
    hide Without, MessagesIn, MessagesBut, ActivitiesIn, ActivitiesBut;
    MessagesInBut(db.messages, u, t);
    ActivitiesInBut(db.activities, u, t);
    assert TurnsIn(Cleared(db, u).turns, t) == TurnsIn(db.turns, t);
  }

  lemma WrittenOthers(b: DB, p: Plan, first: nat, t: Id)
    requires Accepts(b, p) && p.h.threadId != t
    ensures RowsOf(Written(b, p, first), t) == RowsOf(b, t)
  {
    hide MessagesIn, ActivitiesIn, TurnsIn, FileMessages, FileActivities, FileTurns, AppendAll, Advance, ProjectsAfter,
         Insertable;
    FiledMessagesOthers(b.messages, p.h.threadId, p.sent, t);
    FiledActivitiesOthers(b.activities, p.h.threadId, p.acted, t);
    FiledTurnsOthers(b.turns, p.h.threadId, p.turns, t);
  }

  /** An import leaves the rows of every other thread alone. */
  lemma ImportKeepsOthers(db: DB, r: Request, hex: Id -> string, t: Id)
    requires ThreadIdFor(r.args) != t
    ensures RowsOf(Import(db, r, hex), t) == RowsOf(db, t)
  {
    hide RowsOf, Accepts, Written, Cleared, Refused, EventsOf, TurnsOf;
    var u := ThreadIdFor(r.args);
    ClearedOthers(db, u, t);
    if Succeeds(db, r, hex) {
      WrittenOthers(Base(db, u, r.force), PlanOf(db, r), r.first, t);
    }
  }

  lemma {:induction false} RunKeepsOthers(dbs: seq<DB>, rs: seq<Request>, hex: Id -> string, t: Id, i: nat)
    requires IsRun(dbs, rs, hex) && 1 <= i < |dbs| && IdsNameStreams(dbs[0].log)
    requires forall j :: 1 <= j < |rs| ==> ThreadIdFor(rs[j].args) != t
    ensures RowsOf(dbs[i], t) == RowsOf(dbs[1], t) && IdsNameStreams(dbs[i].log)
  {
    hide RowsOf, Import, Valid, IdsNameStreams, ThreadIdFor;
    if i == 1 {
      ImportKeepsIds(dbs[0], rs[0], hex);
    } else {
      RunKeepsOthers(dbs, rs, hex, t, i - 1);
      ImportKeepsOthers(dbs[i - 1], rs[i - 1], hex, t);
      ImportKeepsIds(dbs[i - 1], rs[i - 1], hex);
    }
  }

  /** The messages and activities of a session are stored as the thread's own. */
  ghost predicate Holds(db: DB, r: Request) {
    var t := ThreadIdFor(r.args);
    && (forall id :: id in SentIds(Numbered(r.args.ptid, r.parsed.messages)) ==> id in MessagesIn(db.messages, t))
    && (forall id :: id in ActedIds(Sequenced(r.args.ptid, r.parsed.activities)) ==>
                       id in ActivitiesIn(db.activities, t))
  }

  lemma ImportHolds(db: DB, r: Request, hex: Id -> string)
    requires Succeeds(db, r, hex)
    ensures Holds(Import(db, r, hex), r)
  {
    hide FileMessages, FileActivities, FileTurns, AppendAll, Advance, ProjectsAfter, Numbered, Sequenced, EventsOf,
         TurnsOf, Accepts, Refused;
    var p := PlanOf(db, r);
    var b := Base(db, p.h.threadId, r.force);
    FiledMessagesOwn(b.messages, p.h.threadId, p.sent);
    FiledActivitiesOwn(b.activities, p.h.threadId, p.acted);
  }

  lemma HoldsByRows(a: DB, b: DB, r: Request)
    requires Holds(a, r) && RowsOf(b, ThreadIdFor(r.args)) == RowsOf(a, ThreadIdFor(r.args))
    ensures Holds(b, r)
  {
    hide MessagesIn, ActivitiesIn, TurnsIn, Numbered, Sequenced;
  }

  /** After a session is imported and any number of other threads after it, its rows are still what they were. A
      forced import of it then succeeds exactly when it is not refused and its project need not be created a second
      time, and changes none of the rows but, perhaps, the thread's project. */
  lemma ReimportAfterRun(dbs: seq<DB>, rs: seq<Request>, hex: Id -> string, again: Request)
    requires IsRun(dbs, rs, hex) && rs != [] && IdsNameStreams(dbs[0].log) && Succeeds(dbs[0], rs[0], hex)
    requires rs[0].force || RowsOf(dbs[0], ThreadIdFor(rs[0].args)) == NO_ROWS
    requires forall j :: 1 <= j < |rs| ==> ThreadIdFor(rs[j].args) != ThreadIdFor(rs[0].args)
    requires again.args == rs[0].args && again.parsed == rs[0].parsed && again.force && Valid(dbs[|rs|], again)
    ensures var db, t := dbs[|rs|], ThreadIdFor(again.args);
            var rows, rows' := RowsOf(db, t), RowsOf(Import(db, again, hex), t);
            && rows == RowsOf(dbs[1], t) && rows.thread.Some?
            && (Succeeds(db, again, hex) <==>
                Proceeds(db, again, hex) &&
                !(again.pick.None? && t != ProjectUuid(again.args.root) && CreationId(again.args) in LogIds(db.log)))
            && (Succeeds(db, again, hex) ==>
                  rows'.thread.Some? &&
                  rows' == rows.(thread := Some(rows.thread.value.(project := rows'.thread.value.project))))
  {
    hide *;
    FirstImport(dbs, rs, hex);
    var db, t := dbs[|rs|], ThreadIdFor(again.args);
    RunKeepsOthers(dbs, rs, hex, t, |rs|);
    ImportHolds(dbs[0], rs[0], hex);
    HoldsByRows(dbs[1], db, rs[0]);
    HeldMeets(db, rs[0], again);
    ValidPicks(db, again);
    ForcedSucceedsIff(db, again, hex);
    ImportedRows(dbs[0], rs[0], hex);
    if Succeeds(db, again, hex) {
      ForcedImportedRows(db, again, hex);
      ValidPicks(dbs[0], rs[0]);
      PlansAgree(dbs[0], db, rs[0], again);
      PlanParts(dbs[0], rs[0]);
      PlanParts(db, again);
      ThreadsOfPlans(PlanOf(dbs[0], rs[0]), PlanOf(db, again));
    } else {
      FailedImport(db, again, hex);
      SomeThread(PlanOf(dbs[0], rs[0]));
    }
  }

  lemma SomeThread(p: Plan)
    ensures RowsFor(p).thread.Some?
  {
  }

  lemma FailedImport(db: DB, r: Request, hex: Id -> string)
    requires !Succeeds(db, r, hex)
    ensures Import(db, r, hex) == db
  {
    hide Accepts, Cleared, Written, Refused, EventsOf, TurnsOf;
  }

  lemma PlanParts(db: DB, r: Request)
    ensures PlanOf(db, r).h.project.id == RefFor(db.projects, r).id && PlanOf(db, r).h.threadId == ThreadIdFor(r.args)
  {
    hide EventsOf, TurnsOf, Numbered, Sequenced, SelectionFor;
  }

  lemma FirstImport(dbs: seq<DB>, rs: seq<Request>, hex: Id -> string)
    requires IsRun(dbs, rs, hex) && rs != []
    ensures |dbs| == |rs| + 1 && Valid(dbs[0], rs[0]) && dbs[1] == Import(dbs[0], rs[0], hex)
  {
    hide Import, Valid;
  }

  lemma ValidPicks(db: DB, r: Request)
    requires Valid(db, r)
    ensures Picks(db.projects, r.args.root, r.pick)
  {
  }

  lemma HeldMeets(db: DB, r: Request, again: Request)
    requires Holds(db, r) && again.args == r.args && again.parsed == r.parsed
    ensures Meets(db, again) <==>
            again.pick.None? && ThreadIdFor(r.args) != ProjectUuid(r.args.root) && CreationId(r.args) in LogIds(db.log)
  {
    hide Numbered, Sequenced, LogIds;
  }

  lemma ImportedRows(db: DB, r: Request, hex: Id -> string)
    requires Succeeds(db, r, hex) && (r.force || RowsOf(db, ThreadIdFor(r.args)) == NO_ROWS)
    ensures RowsOf(Import(db, r, hex), ThreadIdFor(r.args)) == RowsFor(PlanOf(db, r))
  {
    hide RowsOf, RowsFor, Accepts, Written, Refused, EventsOf, TurnsOf;
    var t := ThreadIdFor(r.args);
    ClearedHasNoRows(db, t);
    WrittenRows(Base(db, t, r.force), PlanOf(db, r), r.first);
  }

  lemma ForcedImportedRows(db: DB, r: Request, hex: Id -> string)
    requires Succeeds(db, r, hex) && r.force
    ensures RowsOf(Import(db, r, hex), ThreadIdFor(r.args)) == RowsFor(PlanOf(db, r))
  {
    hide *;
    ImportedRows(db, r, hex);
  }

  // ---- After the project was deleted ----

  lemma {:induction false} Appended(log: seq<Stored>, es: seq<Event>, first: nat, i: nat)
    requires i < |es|
    ensures exists s :: s in AppendAll(log, es, first) && s.e == es[i]
  {
    var n := |es| - 1;
    hide NextVersion;
    if i < n {
      Appended(log, es[..n], first, i);
      var s :| s in AppendAll(log, es[..n], first) && s.e == es[i];
      assert s in AppendAll(log, es, first);
    } else {
      var s := AppendAll(log, es, first)[|AppendAll(log, es, first)| - 1];
      assert s in AppendAll(log, es, first) && s.e == es[n];
    }
  }

  lemma CreationLogged(db: DB, r: Request, hex: Id -> string)
    requires r.pick.None? && Succeeds(db, r, hex)
    ensures exists s :: s in Import(db, r, hex).log && s.e.kind.ProjectKind? && s.e.id == CreationId(r.args) &&
                        s.e.stream == ProjectUuid(r.args.root)
  {
    hide AppendAll, EventsOf, TurnsOf, Accepts, Refused, FileMessages, FileActivities, FileTurns, Advance,
         ProjectsAfter;
    var p := PlanOf(db, r);
    var b := Base(db, p.h.threadId, r.force);
    FirstEvent(p.h, p.sent, p.acted);
    Appended(b.log, p.events, r.first, 0);
  }

  /** Once an import has created its project, no import of the session for that root in which there is again no
      project to pick can succeed, as long as the events of projects are still in the log: the same event would be
      written twice. */
  lemma GoneProjectBlocks(db: DB, r: Request, later: DB, again: Request, hex: Id -> string)
    requires r.pick.None? && Succeeds(db, r, hex)
    requires forall s :: s in Import(db, r, hex).log && s.e.kind.ProjectKind? ==> s in later.log
    requires again.args.ptid == r.args.ptid && again.args.root == r.args.root && again.pick.None?
    requires again.force ==> ThreadIdFor(again.args) != ProjectUuid(r.args.root)
    ensures !Succeeds(later, again, hex)
  {
    hide Import, EventsOf, TurnsOf, Without, Refused, Insertable, Rising;
    CreationLogged(db, r, hex);
    var s :| s in Import(db, r, hex).log && s.e.kind.ProjectKind? && s.e.id == CreationId(r.args) &&
             s.e.stream == ProjectUuid(r.args.root);
    var t, p := ThreadIdFor(again.args), PlanOf(later, again);
    var b := Base(later, t, again.force);
    WithoutFacts(later.log, t);
    FirstEvent(p.h, p.sent, p.acted);
    assert s in b.log && EventIds(p.events)[0] == s.e.id;
    InsertableExact(LogIds(b.log), EventIds(p.events));
  }

  lemma FirstEvent(h: Header, sent: seq<Sent>, acted: seq<Acted>)
    requires h.create
    ensures EventsOf(h, sent, acted) != [] && EventsOf(h, sent, acted)[0] == ProjectEvent(h, 0)
  {
  }

  /** A project is marked deleted, by an event and in its row. */
  function Deleted(db: DB, id: Id, at: Time, sequence: nat): DB
    requires id in db.projects
  {
    var gone := Event(Given("gone"), ProjectKind, id, at, ProjectDeleted(id, at), NO_METADATA, Server);
    db.(log := Append(db.log, gone, sequence), projects := db.projects[id := db.projects[id].(deletedAt := Some(at))])
  }

  const NOTHING := DB([], map[], map[], map[], map[], map[], map[], map[], map[])

  /** A session without messages imported for the root /p, and the same again, forced. */
  function FirstTime(): Request {
    Request(Args("x", Codex, "/p", "t", None, None, None), Parsed(0, 0, None, None, None, [], [], map[]), false, None,
            "p", 0, 0)
  }

  function SecondTime(): Request {
    FirstTime().(force := true, now := 9, first := 9)
  }

  lemma FirstTimeSucceeds(hex: Id -> string)
    ensures Succeeds(NOTHING, FirstTime(), hex) && Valid(NOTHING, FirstTime())
  {
    var r := FirstTime();
    var p := PlanOf(NOTHING, r);
    IdsDistinct(r.args, r.parsed, RefFor(NOTHING.projects, r), true, 0);
    hide EventsOf, SelectionFor;
    assert p.sent == [] && p.acted == [] && p.turns == [];
    InsertableExact(LogIds([]), EventIds(p.events));
    hide EventIds;
  }

  lemma FirstTimeProjects(hex: Id -> string)
    requires Succeeds(NOTHING, FirstTime(), hex)
    ensures Import(NOTHING, FirstTime(), hex).projects.Keys == {ProjectUuid("/p")}
  {
    hide EventsOf, TurnsOf, Accepts, Refused, AppendAll, FileMessages, FileActivities, FileTurns, Advance, MaxCursor,
         MaxSequence;
  }

  lemma FirstTimeLog(hex: Id -> string)
    requires Succeeds(NOTHING, FirstTime(), hex)
    ensures Below(Import(NOTHING, FirstTime(), hex).log, 3)
  {
    hide TurnsOf, Accepts, Refused, AppendAll, FileMessages, FileActivities, FileTurns, Advance, MaxCursor, MaxSequence;
    var p := PlanOf(NOTHING, FirstTime());
    assert |p.events| == 3;
    AppendAllKeepsOrder([], p.events, 0);
  }

  lemma DeletedFacts(db: DB, at: Time)
    requires db.projects.Keys == {ProjectUuid("/p")} && Below(db.log, 3)
    ensures var later := Deleted(db, ProjectUuid("/p"), at, 3);
            && Valid(later, SecondTime()) && (forall s :: s in db.log ==> s in later.log)
            && forall hex: Id -> string :: Proceeds(later, SecondTime(), hex) <==> Proceeds(db, SecondTime(), hex)
  {
    hide Mentions, NextVersion;
  }

  /** So after this deletion the forced import, though it is not refused, fails. */
  lemma DeletionBlocksReimport(hex: Id -> string)
    ensures var db := Import(NOTHING, FirstTime(), hex);
            && Succeeds(NOTHING, FirstTime(), hex) && ProjectUuid("/p") in db.projects
            && var later := Deleted(db, ProjectUuid("/p"), 1, 3);
               Valid(later, SecondTime()) && Proceeds(later, SecondTime(), hex) && !Succeeds(later, SecondTime(), hex)
  {
    hide Import, Succeeds, Proceeds, Deleted, Below, Valid;
    FirstTimeSucceeds(hex);
    FirstTimeProjects(hex);
    FirstTimeLog(hex);
    var db := Import(NOTHING, FirstTime(), hex);
    NotRefusedAgain(NOTHING, FirstTime(), SecondTime(), hex);
    DeletedFacts(db, 1);
    var later := Deleted(db, ProjectUuid("/p"), 1, 3);
    GoneProjectBlocks(NOTHING, FirstTime(), later, SecondTime(), hex);
  }
}
