/** What every import keeps: the log and the rows beside it agree. */
module ImportLaws {
  import opened Options
  import opened Sessions
  import opened Plans
  import opened Ledger
  import opened Imports

  // ---- Agreement ----

  function FactsOf(ts: map<Id, Thread>): map<Id, Facts> {
    map t | t in ts ::
      Facts(ts[t].project, ts[t].title, ts[t].selection, ts[t].worktree, ts[t].createdAt, ts[t].updatedAt)
  }

  function ViewOf(db: DB): View {
    View(db.projects, FactsOf(db.threads), db.messages, db.activities, db.sessions)
  }

  /** The rows are what a replay of the log gives. */
  predicate Agrees(db: DB) {
    ViewOf(db) == Replay(db.log)
  }

  /** The same of all rows but those of projects. */
  predicate ThreadsAgree(db: DB) {
    ViewOf(db) == Replay(db.log).(projects := db.projects)
  }

  ghost predicate Sound(db: DB) {
    WellFormed(db.log) && Gapless(db.log) && Rising(db.log) && ThreadsAgree(db)
  }

  lemma FactsOfLess(ts: map<Id, Thread>, t: Id)
    ensures FactsOf(ts - {t}) == FactsOf(ts) - {t}
  {
  }

  lemma FactsOfMore(ts: map<Id, Thread>, t: Id, x: Thread)
    ensures FactsOf(ts[t := x])
            == FactsOf(ts)[t := Facts(x.project, x.title, x.selection, x.worktree, x.createdAt, x.updatedAt)]
  {
  }

  lemma ClearedReplays(db: DB, t: Id)
    requires Sound(db)
    ensures var b := Cleared(db, t);
            Sound(b) && b.projects == db.projects && Replay(b.log).projects == Replay(db.log).projects - {t}
  {
    WithoutReplays(db.log, t);
    WithoutFacts(db.log, t);
    WithoutKeepsGapless(db.log, t);
    FactsOfLess(db.threads, t);
    hide Without, WellFormed, Gapless, Rising, MessagesBut, ActivitiesBut, FactsOf, Replay;
  }

  // ---- Playing a plan's events ----

  lemma {:induction false} FileMessagesKeys(ms: map<Id, MessageRow>, t: Id, sent: seq<Sent>)
    ensures forall id :: id in FileMessages(ms, t, sent) <==> id in ms || id in SentIds(sent)
  {
    if sent != [] {
      var init := sent[..|sent| - 1];
      FileMessagesKeys(ms, t, init);
      assert SentIds(sent) == SentIds(init) + [sent[|sent| - 1].id];
    }
  }

  lemma {:induction false} FileActivitiesKeys(acts: map<Id, ActivityRow>, t: Id, acted: seq<Acted>)
    ensures forall id :: id in FileActivities(acts, t, acted) <==> id in acts || id in ActedIds(acted)
  {
    if acted != [] {
      var init := acted[..|acted| - 1];
      FileActivitiesKeys(acts, t, init);
      assert ActedIds(acted) == ActedIds(init) + [acted[|acted| - 1].id];
    }
  }

  lemma MessageEventsSnoc(h: Header, base: nat, init: seq<Sent>, s: Sent)
    ensures MessageEvents(h, base, init + [s]) == MessageEvents(h, base, init) + [MessageEvent(h, base + |init|, s)]
  {
    hide MessageEvent;
  }

  lemma ActivityEventsSnoc(h: Header, base: nat, init: seq<Acted>, d: Acted)
    ensures ActivityEvents(h, base, init + [d])
            == ActivityEvents(h, base, init) + [ActivityEvent(h, base + |init|, d, |init|)]
  {
    hide ActivityEvent;
  }

  lemma PlaySnoc(v: View, es: seq<Event>, e: Event)
    ensures PlayAll(v, es + [e]) == Play(PlayAll(v, es), e)
    ensures FitAll(v, es + [e]) <==> FitAll(v, es) && Fits(PlayAll(v, es), e)
  {
    hide Play, Fits;
    assert (es + [e])[..|es|] == es;
  }

  /** Each message, and each activity, moves its thread's last update. */
  function TouchSent(ts: map<Id, Facts>, t: Id, sent: seq<Sent>): map<Id, Facts> {
    if sent == [] then ts else Touch(TouchSent(ts, t, sent[..|sent| - 1]), t, sent[|sent| - 1].m.at)
  }

  function TouchActed(ts: map<Id, Facts>, t: Id, acted: seq<Acted>): map<Id, Facts> {
    if acted == [] then ts else Touch(TouchActed(ts, t, acted[..|acted| - 1]), t, acted[|acted| - 1].a.at)
  }

  lemma {:induction false} TouchAfterSent(ts: map<Id, Facts>, t: Id, sent: seq<Sent>, at: Time)
    ensures Touch(TouchSent(ts, t, sent), t, at) == Touch(ts, t, at)
  {
    if sent != [] {
      TouchAfterSent(ts, t, sent[..|sent| - 1], at);
    }
  }

  lemma {:induction false} TouchAfterActed(ts: map<Id, Facts>, t: Id, acted: seq<Acted>, at: Time)
    ensures Touch(TouchActed(ts, t, acted), t, at) == Touch(ts, t, at)
  {
    if acted != [] {
      TouchAfterActed(ts, t, acted[..|acted| - 1], at);
    }
  }

  lemma {:induction false} PlayMessages(v: View, h: Header, base: nat, sent: seq<Sent>)
    requires Insertable(v.messages.Keys, SentIds(sent))
    ensures PlayAll(v, MessageEvents(h, base, sent)) ==
            v.(messages := FileMessages(v.messages, h.threadId, sent),
               threads := TouchSent(v.threads, h.threadId, sent))
    ensures FitAll(v, MessageEvents(h, base, sent))
  {
    hide MessageEvents, PlayAll, FitAll, Touch;
    if sent == [] {
      NoMessageEvents(v, h, base);
    } else {
      var init, s := sent[..|sent| - 1], sent[|sent| - 1];
      assert sent == init + [s];
      assert SentIds(sent)[..|init|] == SentIds(init);
      PlayMessages(v, h, base, init);
      FileMessagesKeys(v.messages, h.threadId, init);
      MessageEventsSnoc(h, base, init, s);
      PlaySnoc(v, MessageEvents(h, base, init), MessageEvent(h, base + |init|, s));
    }
  }

  lemma NoMessageEvents(v: View, h: Header, base: nat)
    ensures PlayAll(v, MessageEvents(h, base, [])) == v && FitAll(v, MessageEvents(h, base, []))
  {
  }

  lemma {:induction false} PlayActivities(v: View, h: Header, base: nat, acted: seq<Acted>)
    requires Insertable(v.activities.Keys, ActedIds(acted))
    ensures PlayAll(v, ActivityEvents(h, base, acted)) ==
            v.(activities := FileActivities(v.activities, h.threadId, acted),
               threads := TouchActed(v.threads, h.threadId, acted))
    ensures FitAll(v, ActivityEvents(h, base, acted))
  {
    hide ActivityEvents, PlayAll, FitAll, Touch;
    if acted == [] {
      NoActivityEvents(v, h, base);
    } else {
      var init, d := acted[..|acted| - 1], acted[|acted| - 1];
      assert acted == init + [d];
      assert ActedIds(acted)[..|init|] == ActedIds(init);
      PlayActivities(v, h, base, init);
      FileActivitiesKeys(v.activities, h.threadId, init);
      ActivityEventsSnoc(h, base, init, d);
      PlaySnoc(v, ActivityEvents(h, base, init), ActivityEvent(h, base + |init|, d, |init|));
    }
  }

  lemma NoActivityEvents(v: View, h: Header, base: nat)
    ensures PlayAll(v, ActivityEvents(h, base, [])) == v && FitAll(v, ActivityEvents(h, base, []))
  {
  }

  lemma PlayOne(v: View, e: Event)
    ensures PlayAll(v, [e]) == Play(v, e) && (FitAll(v, [e]) <==> Fits(v, e))
  {
    hide Play, Fits;
    assert [e][..0] == [];
  }

  /** The project a plan's events create has the time its payload carries. */
  function ProjectsPlayed(ps: map<Id, Project>, h: Header): map<Id, Project> {
    if h.create
    then ps[h.project.id := Project(h.project.title, h.project.root, h.selection, h.createdAt, h.createdAt, None)]
    else ps
  }

  /** What the first events of a plan do. */
  lemma PlayLead(v: View, h: Header)
    ensures PlayAll(v, Lead(h)) ==
            v.(projects := ProjectsPlayed(v.projects, h),
               threads := v.threads[h.threadId :=
                 Facts(h.project.id, h.title, h.selection, h.root, h.createdAt, h.createdAt)])
    ensures FitAll(v, Lead(h))
  {
    hide PlayAll, FitAll;
    if h.create {
      PlayOne(v, ProjectEvent(h, 0));
      PlaySnoc(v, [ProjectEvent(h, 0)], ThreadEvent(h, 1));
      assert Lead(h) == [ProjectEvent(h, 0)] + [ThreadEvent(h, 1)];
    } else {
      PlayOne(v, ThreadEvent(h, 0));
    }
  }

  /** What all of them do. */
  lemma PlayPlan(v: View, h: Header, sent: seq<Sent>, acted: seq<Acted>)
    requires Insertable(v.messages.Keys, SentIds(sent)) && Insertable(v.activities.Keys, ActedIds(acted))
    ensures PlayAll(v, EventsOf(h, sent, acted)) ==
            View(ProjectsPlayed(v.projects, h),
                 v.threads[h.threadId := Facts(h.project.id, h.title, h.selection, h.root, h.createdAt, h.updatedAt)],
                 FileMessages(v.messages, h.threadId, sent), FileActivities(v.activities, h.threadId, acted),
                 v.sessions[h.threadId := SessionFor(h)])
    ensures FitAll(v, EventsOf(h, sent, acted))
  {
    hide PlayAll, FitAll, Lead, ProjectsPlayed, FileMessages, FileActivities, Insertable, SentIds, ActedIds;
    var n := |Lead(h)|;
    var ms, acts := MessageEvents(h, n, sent), ActivityEvents(h, n + |sent|, acted);
    var last := SessionEvent(h, n + |sent| + |acted|);
    PlayLead(v, h);
    var v1 := PlayAll(v, Lead(h));
    PlayMessages(v1, h, n, sent);
    PlayAllConcat(v, Lead(h), ms);
    var v2 := PlayAll(v1, ms);
    PlayActivities(v2, h, n + |sent|, acted);
    PlayAllConcat(v, Lead(h) + ms, acts);
    PlaySnoc(v, Lead(h) + ms + acts, last);
    TouchAfterActed(v2.threads, h.threadId, acted, h.updatedAt);
    TouchAfterSent(v1.threads, h.threadId, sent, h.updatedAt);
  }

  // ---- An import ----

  lemma WrittenReplays(b: DB, p: Plan, first: nat)
    requires Sound(b) && Below(b.log, first) && Accepts(b, p) && p.events == EventsOf(p.h, p.sent, p.acted)
    requires p.h.project.root == p.h.root
    ensures Sound(Written(b, p, first))
    ensures Replay(Written(b, p, first).log).projects == ProjectsPlayed(Replay(b.log).projects, p.h)
  {
    hide EventsOf, PlayAll, FitAll, WellFormed, Replay, AppendAll, Gapless, Rising, Insertable, FileMessages,
         FileActivities, FileTurns, Advance, FactsOf, EventIds, ProjectsAfter, ProjectsPlayed;
    var v := Replay(b.log);
    FactsOfKeys(b.threads);
    PlayPlan(v, p.h, p.sent, p.acted);
    AppendAllReplays(b.log, p.events, first);
    AppendAllKeepsOrder(b.log, p.events, first);
    FactsOfMore(b.threads, p.h.threadId, ThreadFor(p));
  }

  lemma FactsOfKeys(ts: map<Id, Thread>)
    ensures FactsOf(ts).Keys == ts.Keys
  {
  }

  lemma BaseReplays(db: DB, t: Id, force: bool)
    requires Sound(db)
    ensures var b := Base(db, t, force);
            && Sound(b) && b.projects == db.projects && (forall n :: Below(db.log, n) ==> Below(b.log, n))
            && Replay(b.log).projects == if force then Replay(db.log).projects - {t} else Replay(db.log).projects
  {
    hide Sound, Replay, MessagesBut, ActivitiesBut;
    if force {
      ClearedReplays(db, t);
      WithoutFacts(db.log, t);
    }
  }

  /** In a sound database every import leaves a sound one: the log of each stream counts its versions from 0
      without a gap, and the rows of threads, messages, activities and sessions are what the log replays to. */
  lemma ImportKeepsSound(db: DB, r: Request, hex: Id -> string)
    requires Sound(db) && Valid(db, r)
    ensures Sound(Import(db, r, hex))
    ensures Succeeds(db, r, hex) ==>
              Replay(Import(db, r, hex).log).projects ==
              ProjectsPlayed(if r.force then Replay(db.log).projects - {ThreadIdFor(r.args)}
                             else Replay(db.log).projects,
                             PlanOf(db, r).h)
  {
    hide Sound, Replay, Cleared, Accepts, Written, EventsOf, TurnsOf, ProjectsAfter, ProjectsPlayed, Refused;
    var p := PlanOf(db, r);
    BaseReplays(db, p.h.threadId, r.force);
    if Succeeds(db, r, hex) {
      WrittenReplays(Base(db, p.h.threadId, r.force), p, r.first);
    }
  }

  /** Two imports do harm. One creates a project whose id an old row still has: the row keeps its creation time,
      the event carries a new one. The other is forced under an id that is also a project's: it deletes that project's
      events and, unless it creates this very project again, leaves the row without any. */
  predicate Harmless(db: DB, r: Request, hex: Id -> string) {
    var t, made := ThreadIdFor(r.args), ProjectUuid(r.args.root);
    Succeeds(db, r, hex) ==>
      && (r.pick.None? && made in db.projects ==> db.projects[made].createdAt == r.parsed.createdAt)
      && (r.force && t in db.projects ==> r.pick.None? && made == t)
  }

  lemma ProjectsDiffer(ps: map<Id, Project>, h: Header, force: bool)
    ensures var t := h.threadId;
            ProjectsPlayed(if force then ps - {t} else ps, h) == ProjectsAfter(ps, h) <==>
            && (h.create && h.project.id in ps ==> ps[h.project.id].createdAt == h.createdAt)
            && (force && t in ps ==> h.create && h.project.id == t)
  {
    var t, id := h.threadId, h.project.id;
    var a, b := ProjectsPlayed(if force then ps - {t} else ps, h), ProjectsAfter(ps, h);
    if force && t in ps && !(h.create && id == t) {
      assert t in b && t !in a;
    } else if h.create && id in ps {
      assert a[id].createdAt == h.createdAt && b[id].createdAt == ps[id].createdAt;
      assert ps[id].createdAt == h.createdAt ==> a == b;
    } else {
      assert a == b;
    }
  }

  /** An import keeps the agreement of log and rows exactly when it is harmless. */
  lemma AgreementIff(db: DB, r: Request, hex: Id -> string)
    requires Sound(db) && Agrees(db) && Valid(db, r)
    ensures Agrees(Import(db, r, hex)) <==> Harmless(db, r, hex)
  {
    ImportKeepsSound(db, r, hex);
    var p, db' := PlanOf(db, r), Import(db, r, hex);
    ProjectsDiffer(db.projects, p.h, r.force);
    if Succeeds(db, r, hex) {
      WrittenProjects(Base(db, p.h.threadId, r.force), p, r.first);
      assert db'.projects == ProjectsAfter(db.projects, p.h);
      AgreesExactly(db');
    }
    hide Replay, Written, Accepts, ProjectsAfter, ProjectsPlayed, EventsOf, TurnsOf, WellFormed, Gapless, Rising,
         FactsOf, Refused;
  }

  lemma WrittenProjects(b: DB, p: Plan, first: nat)
    ensures Written(b, p, first).projects == ProjectsAfter(b.projects, p.h)
  {
  }

  lemma AgreesExactly(db: DB)
    requires ThreadsAgree(db)
    ensures Agrees(db) <==> db.projects == Replay(db.log).projects
  {
  }

  // ---- Runs ----

  ghost predicate IsRun(dbs: seq<DB>, rs: seq<Request>, hex: Id -> string) {
    |dbs| == |rs| + 1 && forall i :: 0 <= i < |rs| ==> Valid(dbs[i], rs[i]) && dbs[i + 1] == Import(dbs[i], rs[i], hex)
  }

  /** Over every run of imports the log stays sound and agrees with the rows of threads, messages, activities
      and sessions. */
  lemma {:induction false} RunKeepsSound(dbs: seq<DB>, rs: seq<Request>, hex: Id -> string, i: nat)
    requires IsRun(dbs, rs, hex) && Sound(dbs[0]) && i < |dbs|
    ensures Sound(dbs[i])
  {
    hide Sound, Import, Valid;
    if i > 0 {
      RunKeepsSound(dbs, rs, hex, i - 1);
      ImportKeepsSound(dbs[i - 1], rs[i - 1], hex);
    }
  }

  /** And with the rows of projects too, in all of a run's states, exactly when every import in it is harmless. */
  lemma {:induction false} RunKeepsAgreement(dbs: seq<DB>, rs: seq<Request>, hex: Id -> string, i: nat)
    requires IsRun(dbs, rs, hex) && Sound(dbs[0]) && Agrees(dbs[0]) && i < |dbs|
    ensures (forall j :: 0 <= j <= i ==> Agrees(dbs[j])) <==> (forall j :: 0 <= j < i ==> Harmless(dbs[j], rs[j], hex))
  {
    hide Sound, Import, Valid, Agrees, Harmless;
    if i > 0 {
      RunKeepsAgreement(dbs, rs, hex, i - 1);
      RunKeepsSound(dbs, rs, hex, i - 1);
      assert Valid(dbs[i - 1], rs[i - 1]) && dbs[i - 1 + 1] == Import(dbs[i - 1], rs[i - 1], hex);
      if Agrees(dbs[i - 1]) {
        AgreementIff(dbs[i - 1], rs[i - 1], hex);
      }
      assert (forall j :: 0 <= j <= i ==> Agrees(dbs[j]))
             <==> (forall j :: 0 <= j <= i - 1 ==> Agrees(dbs[j])) && Agrees(dbs[i]);
      assert (forall j :: 0 <= j < i ==> Harmless(dbs[j], rs[j], hex)) <==>
             (forall j :: 0 <= j < i - 1 ==> Harmless(dbs[j], rs[j], hex)) && Harmless(dbs[i - 1], rs[i - 1], hex);
    }
  }

  // ---- When it fails ----

  /** A database with one project, p. */
  function OneProject(): DB {
    var sel := Selection("codex", "m", None);
    var created := Event(Given("e"), ProjectKind, Given("p"), 0, ProjectCreated(Given("p"), "p", "/p", sel, 0, 0),
                         NO_METADATA, Server);
    DB([Stored(1, 0, created)], map[Given("p") := Project("p", "/p", sel, 0, 0, None)], map[], map[], map[], map[],
       map[], map[], map[])
  }

  /** A forced import into p of a session without messages, under a thread id that is p too. */
  function UnderProjectId(): Request {
    Request(Args("x", Codex, "/p", "t", None, None, Some(Given("p"))), Parsed(0, 0, None, None, None, [], [], map[]),
            true, Some(Given("p")), "p", 0, 2)
  }

  lemma OneProjectIsSound()
    ensures Sound(OneProject()) && Agrees(OneProject()) && Valid(OneProject(), UnderProjectId())
  {
    var db := OneProject();
    var s := db.log[0];
    assert db.log == [] + [s];
    ReplaySnoc([], s);
    forall k, id ensures Counting(Versions(db.log, k, id)) {
      VersionsSnoc([], s, k, id);
    }
  }

  lemma UnderProjectIdSucceeds(hex: Id -> string)
    ensures Succeeds(OneProject(), UnderProjectId(), hex)
  {
    var db, r := OneProject(), UnderProjectId();
    var p := PlanOf(db, r);
    IdsDistinct(r.args, r.parsed, RefFor(db.projects, r), false, 0);
    hide EventsOf, SelectionFor;
    assert p.sent == [] && p.acted == [] && p.turns == [];
    assert db.log[..0] == [];
    assert Without(db.log, Given("p")) == [];
    InsertableExact(LogIds([]), EventIds(p.events));
    hide EventIds;
  }

  /** So the log and the rows need not agree after every import. */
  lemma ForcedImportCanDisagree(hex: Id -> string)
    ensures exists db, r ::
              Sound(db) && Agrees(db) && Valid(db, r) && Succeeds(db, r, hex) && !Agrees(Import(db, r, hex))
  {
    var db, r := OneProject(), UnderProjectId();
    OneProjectIsSound();
    UnderProjectIdSucceeds(hex);
    AgreementIff(db, r, hex);
    hide Sound, Agrees, Valid, Succeeds, Import;
  }

  /** A database whose one project, for the root /p, was created at 0 and deleted at 1. */
  function ProjectGone(): DB {
    var sel, id := Selection("codex", "m", None), ProjectUuid("/p");
    var created := Event(Given("e"), ProjectKind, id, 0, ProjectCreated(id, "p", "/p", sel, 0, 0), NO_METADATA, Server);
    var deleted := Event(Given("f"), ProjectKind, id, 1, ProjectDeleted(id, 1), NO_METADATA, Server);
    DB([Stored(1, 0, created), Stored(2, 1, deleted)], map[id := Project("p", "/p", sel, 0, 0, Some(1))], map[], map[],
       map[], map[], map[], map[], map[])
  }

  /** An ordinary import for that root of a session that began at 5. */
  function IntoGone(): Request {
    Request(Args("x", Codex, "/p", "t", None, None, None), Parsed(5, 5, None, None, None, [], [], map[]), false, None,
            "p", 9, 3)
  }

  lemma ProjectGoneIsSound()
    ensures Sound(ProjectGone()) && Agrees(ProjectGone()) && Valid(ProjectGone(), IntoGone())
  {
    var db := ProjectGone();
    var a, b := db.log[0], db.log[1];
    assert db.log == ([] + [a]) + [b];
    ReplaySnoc([], a);
    ReplaySnoc([] + [a], b);
    forall k, id ensures Counting(Versions(db.log, k, id)) {
      VersionsSnoc([], a, k, id);
      VersionsSnoc([] + [a], b, k, id);
    }
  }

  lemma IntoGoneSucceeds(hex: Id -> string)
    ensures Succeeds(ProjectGone(), IntoGone(), hex)
  {
    var db, r := ProjectGone(), IntoGone();
    var p := PlanOf(db, r);
    EventIndex(p.h, p.sent, p.acted);
    hide EventsOf, SelectionFor;
    assert p.sent == [] && p.acted == [] && p.turns == [];
    InsertableExact(LogIds(db.log), EventIds(p.events));
    hide EventIds;
  }

  /** Nor after every import that is not forced: a project created again keeps its first creation time in its row. */
  lemma OrdinaryImportCanDisagree(hex: Id -> string)
    ensures exists db, r ::
              Sound(db) && Agrees(db) && Valid(db, r) && !r.force && Succeeds(db, r, hex) && !Agrees(Import(db, r, hex))
  {
    var db, r := ProjectGone(), IntoGone();
    ProjectGoneIsSound();
    IntoGoneSucceeds(hex);
    AgreementIff(db, r, hex);
    hide Sound, Agrees, Valid, Succeeds, Import;
  }
}
