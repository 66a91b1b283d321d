/** What imports keep besides the rows: projector cursors, and which thread resumes a provider's session. */
module Bookkeeping {
  import opened Options
  import opened Sessions
  import opened Plans
  import opened Ledger
  import opened Imports
  import opened ImportLaws
  import Names

  // ---- Cursors ----

  /** Every named projector has been moved up to the end of the log. */
  ghost predicate CaughtUp(db: DB) {
    forall n :: n in PROJECTORS ==> n in db.cursors && forall s :: s in db.log ==> s.sequence <= db.cursors[n].sequence
  }

  /** No cursor goes back. */
  ghost predicate NoneBack(cs: map<string, Cursor>, cs': map<string, Cursor>) {
    forall k :: k in cs ==> k in cs' && cs[k].sequence <= cs'[k].sequence
  }

  lemma WrittenCursors(b: DB, p: Plan, first: nat)
    ensures CaughtUp(Written(b, p, first)) && NoneBack(b.cursors, Written(b, p, first).cursors)
  {
    hide AppendAll, Advance, MaxSequence, MaxCursor, FileMessages, FileActivities, FileTurns, ProjectsAfter, PROJECTORS;
    var log := AppendAll(b.log, p.events, first);
    var c := Cursor(Max(MaxSequence(log), MaxCursor(b.cursors)), p.h.now);
    AdvanceExact(b.cursors, PROJECTORS, c);
  }

  /** An import never moves a cursor back, and one that succeeds leaves all nine named ones at or past every
      event. */
  lemma ImportMovesCursors(db: DB, r: Request, hex: Id -> string)
    ensures NoneBack(db.cursors, Import(db, r, hex).cursors)
    ensures Succeeds(db, r, hex) || CaughtUp(db) ==> CaughtUp(Import(db, r, hex))
  {
    hide Written, Accepts, CaughtUp, TurnsOf, EventsOf, Refused;
    var p := PlanOf(db, r);
    WrittenCursors(Base(db, p.h.threadId, r.force), p, r.first);
  }

  lemma {:induction false} RunNeverMovesBack(dbs: seq<DB>, rs: seq<Request>, hex: Id -> string, i: nat, j: nat)
    requires IsRun(dbs, rs, hex) && i <= j < |dbs|
    ensures NoneBack(dbs[i].cursors, dbs[j].cursors)
    ensures CaughtUp(dbs[i]) ==> CaughtUp(dbs[j])
    decreases j
  {
    hide Import, CaughtUp, Valid;
    if i < j {
      RunNeverMovesBack(dbs, rs, hex, i, j - 1);
      ImportMovesCursors(dbs[j - 1], rs[j - 1], hex);
    }
  }

  // ---- Resume bindings ----

  /** The thread's runtime row would resume session ptid of this provider. */
  predicate Resumes(r: Runtime, provider: string, ptid: string) {
    r.provider == provider && r.resume.ptid == ptid
  }

  /** At most one thread does. */
  ghost predicate BoundOnce(db: DB, provider: string, ptid: string) {
    forall t, u ::
      t in db.runtimes && Resumes(db.runtimes[t], provider, ptid) &&
      u in db.runtimes && Resumes(db.runtimes[u], provider, ptid)
      ==> t == u
  }

  /** Nothing in it needs an escape. */
  predicate Plain(s: string) {
    forall c :: c in s ==> !Quoted(c)
  }

  lemma {:induction false} PlainIsItsEscape(s: string)
    requires Plain(s)
    ensures Escape(s) == s
  {
    if s != "" {
      PlainIsItsEscape(s[1..]);
      assert s[0] in s && !Quoted(s[0]);
      assert EscapeChar(s[0]) == [s[0]];
      assert s == [s[0]] + s[1..];
    }
  }

  lemma FoundBetween(a: string, x: string, b: string)
    ensures Contains(a + x + b, x)
  {
    assert (a + x + b)[|a|..|a| + |x|] == x;
    assert FoundAt(a + x + b, x, |a|);
  }

  /** A cursor that the importer writes for session ptid of provider p. */
  predicate CursorOf(p: Provider, ptid: string, c: Resume) {
    c.ptid == ptid && if p.Codex? then c.CodexResume? else c.ClaudeResume? && c.at != Some("")
  }

  /** The query by session id finds every cursor that the importer writes for the session. */
  ghost predicate SelfFound(p: Provider, ptid: string, hex: Id -> string) {
    forall c :: CursorOf(p, ptid, c) ==> Contains(ResumeText(c, hex), ptid)
  }

  /** For Codex this is a condition on the id alone. */
  lemma CodexSelfFound(ptid: string, hex: Id -> string)
    ensures SelfFound(Codex, ptid, hex) <==> Contains("{\"threadId\":\"" + Escape(ptid) + "\"}", ptid)
  {
    hide Contains, Escape;
    assert ResumeText(CodexResume(ptid), hex) == "{\"threadId\":\"" + Escape(ptid) + "\"}";
    assert CursorOf(Codex, ptid, CodexResume(ptid));
  }

  /** For Claude it is enough that the id occurs in its escape and the fixed text around it. */
  lemma ClaudeSelfFound(ptid: string, hex: Id -> string)
    requires Contains("\",\"resume\":\"" + Escape(ptid) + "\"", ptid)
    ensures SelfFound(Claude, ptid, hex)
  {
    hide Contains, Escape, Names.Itoa;
    forall c | CursorOf(Claude, ptid, c) ensures Contains(ResumeText(c, hex), ptid) {
      var a, m, b := "{\"threadId\":\"" + hex(c.thread), "\",\"resume\":\"" + Escape(ptid) + "\"", ResumeTail(c)[1..];
      ClaudeText(c, hex);
      FoundWithin(a, m, b, ptid);
    }
  }

  lemma ClaudeText(c: Resume, hex: Id -> string)
    requires c.ClaudeResume?
    ensures ResumeText(c, hex) ==
            ("{\"threadId\":\"" + hex(c.thread)) + ("\",\"resume\":\"" + Escape(c.ptid) + "\"") + ResumeTail(c)[1..]
  {
    hide Escape, Names.Itoa;
    TailQuote(c);
    var open, key, tail := "{\"threadId\":\"" + hex(c.thread), "\",\"resume\":\"", ResumeTail(c);
    assert tail == "\"" + tail[1..];
    assert ResumeHead(c, hex) == open + key;
    assert open + key + Escape(c.ptid) + ("\"" + tail[1..]) == open + (key + Escape(c.ptid) + "\"") + tail[1..];
  }

  lemma TailQuote(c: Resume)
    ensures |ResumeTail(c)| > 0 && ResumeTail(c)[0] == '"'
  {
    hide Escape, Names.Itoa;
  }

  lemma FoundWithin(a: string, m: string, b: string, x: string)
    requires Contains(m, x)
    ensures Contains(a + m + b, x)
  {
    var i :| 0 <= i <= |m| && FoundAt(m, x, i);
    var s := a + m + b;
    assert s[|a| + i..|a| + i + |x|] == m[i..i + |x|];
    assert FoundAt(s, x, |a| + i);
  }

  /** An id that needs no escape is found by either provider's query. */
  lemma PlainIsSelfFound(p: Provider, ptid: string, hex: Id -> string)
    requires Plain(ptid)
    ensures SelfFound(p, ptid, hex)
  {
    hide ResumeHead, ResumeTail, Contains, Plain, Escape;
    PlainIsItsEscape(ptid);
    forall c | CursorOf(p, ptid, c) ensures Contains(ResumeText(c, hex), ptid) {
      FoundBetween(ResumeHead(c, hex), ptid, ResumeTail(c));
    }
  }

  /** Needing an escape is not enough to be missed: a backslash is found inside its own escape. */
  lemma BackslashIsSelfFound(hex: Id -> string)
    ensures SelfFound(Codex, "\\", hex) && !Plain("\\")
  {
    hide Contains, SelfFound;
    var head, tail := "{\"threadId\":\"", "\"}";
    assert Escape("\\") == "\\\\" && "\\\\" == "\\" + "\\";
    hide Escape;
    FoundBetween(head + "\\", "\\", tail);
    assert head + "\\" + "\\" + tail == head + "\\\\" + tail;
    CodexSelfFound("\\", hex);
    assert '\\' in "\\" && Quoted('\\');
  }

  // ---- Bound at most once ----

  /** Runtime rows of the two providers hold cursors as the importer writes them. */
  predicate OwnCursor(t: Id, r: Runtime) {
    && (r.provider == "codex" ==> CursorOf(Codex, r.resume.ptid, r.resume))
    && (r.provider == "claudeAgent" ==> CursorOf(Claude, r.resume.ptid, r.resume) && r.resume.thread == t)
  }

  ghost predicate OwnCursors(db: DB) {
    forall t :: t in db.runtimes ==> OwnCursor(t, db.runtimes[t])
  }

  lemma PlannedCursor(p: Plan)
    ensures OwnCursor(p.h.threadId, RuntimeFor(p))
  {
  }

  lemma ImportKeepsOwnCursors(db: DB, r: Request, hex: Id -> string)
    requires OwnCursors(db)
    ensures OwnCursors(Import(db, r, hex))
  {
    hide Accepts, EventsOf, TurnsOf, Refused, OwnCursor, RuntimeFor, AppendAll, FileMessages, FileActivities, FileTurns,
         Advance, ProjectsAfter, Without, MessagesBut, ActivitiesBut;
    PlannedCursor(PlanOf(db, r));
  }

  /** An import keeps a session that its query finds bound to at most one thread. */
  lemma ImportKeepsBoundOnce(db: DB, r: Request, hex: Id -> string, p: Provider, ptid: string)
    requires OwnCursors(db) && BoundOnce(db, ProviderName(p), ptid) && SelfFound(p, ptid, hex)
    ensures BoundOnce(Import(db, r, hex), ProviderName(p), ptid)
  {
    hide Accepts, EventsOf, TurnsOf, Contains, ResumeText, AppendAll, FileMessages, FileActivities, FileTurns, Advance,
         ProjectsAfter, Without, MessagesBut, ActivitiesBut, RuntimeFor;
    var t := ThreadIdFor(r.args);
    ProvidersDiffer(p, r.args.provider);
    PlannedRuntime(PlanOf(db, r));
    if Succeeds(db, r, hex) && p == r.args.provider && ptid == r.args.ptid {
      forall u | u in db.runtimes && Resumes(db.runtimes[u], ProviderName(p), ptid) ensures u == t && r.force {
        assert OwnCursor(u, db.runtimes[u]) && CursorOf(p, ptid, db.runtimes[u].resume);
        assert Mentions(db.runtimes[u], ptid, hex);
      }
    }
  }

  lemma ProvidersDiffer(p: Provider, q: Provider)
    ensures ProviderName(p) == ProviderName(q) <==> p == q
  {
  }

  lemma PlannedRuntime(p: Plan)
    ensures RuntimeFor(p).provider == ProviderName(p.h.provider) && RuntimeFor(p).resume.ptid == p.h.ptid
  {
  }

  /** Over every run of imports, at most one thread of a provider resumes such a session. */
  lemma {:induction false} RunKeepsBoundOnce(dbs: seq<DB>, rs: seq<Request>,
                                             hex: Id -> string, p: Provider, ptid: string, i: nat)
    requires IsRun(dbs, rs, hex) && i < |dbs|
    requires OwnCursors(dbs[0]) && BoundOnce(dbs[0], ProviderName(p), ptid) && SelfFound(p, ptid, hex)
    ensures OwnCursors(dbs[i]) && BoundOnce(dbs[i], ProviderName(p), ptid)
  {
    hide BoundOnce, Import, Valid, SelfFound, OwnCursors;
    if i > 0 {
      RunKeepsBoundOnce(dbs, rs, hex, p, ptid, i - 1);
      ImportKeepsOwnCursors(dbs[i - 1], rs[i - 1], hex);
      ImportKeepsBoundOnce(dbs[i - 1], rs[i - 1], hex, p, ptid);
    }
  }

  /** Of one import, whatever the provider: when it succeeds, its session stays bound once exactly when the query by
      its id finds every row of another thread that resumes the session. */
  lemma BoundOnceAfterIff(db: DB, r: Request, hex: Id -> string)
    requires Succeeds(db, r, hex) && BoundOnce(db, ProviderName(r.args.provider), r.args.ptid)
    ensures BoundOnce(Import(db, r, hex), ProviderName(r.args.provider), r.args.ptid) <==>
            forall u :: u in db.runtimes && u != ThreadIdFor(r.args) &&
                        Resumes(db.runtimes[u], ProviderName(r.args.provider), r.args.ptid) ==>
                        Mentions(db.runtimes[u], r.args.ptid, hex)
  {
    hide Accepts, EventsOf, TurnsOf, Mentions, AppendAll, FileMessages, FileActivities, FileTurns, Advance,
         ProjectsAfter, Without, MessagesBut, ActivitiesBut, RuntimeFor;
    var t, db' := ThreadIdFor(r.args), Import(db, r, hex);
    PlannedRuntime(PlanOf(db, r));
    assert db'.runtimes.Keys == Base(db, t, r.force).runtimes.Keys + {t};
    forall u | u in db.runtimes && u != t ensures u in db'.runtimes && db'.runtimes[u] == db.runtimes[u] {
    }
    assert t in db'.runtimes && Resumes(db'.runtimes[t], ProviderName(r.args.provider), r.args.ptid);
  }

  // ---- And otherwise not ----

  function OtherThan(t: Id): Id {
    if t == Given("a") then Given("b") else Given("a")
  }

  function KeyOf(c: Resume): Id {
    if c.ClaudeResume? then c.thread else Given("a")
  }

  /** A database in which a thread resumes a session by this cursor. */
  function Held(p: Provider, c: Resume): DB {
    var row := Runtime(ProviderName(p), 0, c, "/", Selection(ProviderName(p), "m", None), 0);
    DB([], map[], map[], map[], map[], map[], map[], map[KeyOf(c) := row], map[])
  }

  /** The session imported under another thread id. */
  function SecondTime(p: Provider, c: Resume): Request {
    Request(Args(c.ptid, p, "/", "t", None, None, Some(OtherThan(KeyOf(c)))),
            Parsed(0, 0, None, None, None, [], [], map[]), false, None, "/", 0, 0)
  }

  lemma SecondTimeAccepted(p: Provider, c: Resume)
    ensures Accepts(Held(p, c), PlanOf(Held(p, c), SecondTime(p, c)))
  {
    hide EventsOf, SelectionFor, EventIds, Insertable;
    var db, r := Held(p, c), SecondTime(p, c);
    var plan := PlanOf(db, r);
    IdsDistinct(r.args, r.parsed, RefFor(db.projects, r), true, 0);
    assert plan.sent == [] && plan.acted == [] && plan.turns == [];
    EventIdsOf(plan.events);
    assert LogIds(db.log) == {} && db.messages.Keys == {} && db.activities.Keys == {} && db.turns.Keys == {};
    InsertableExact({}, EventIds(plan.events));
    NoneInsertable(plan);
  }

  lemma EventIdsOf(es: seq<Event>)
    ensures forall i :: 0 <= i < |es| ==> EventIds(es)[i] == es[i].id
  {
  }

  lemma NoneInsertable(plan: Plan)
    requires plan.sent == [] && plan.acted == [] && plan.turns == []
    ensures Insertable({}, SentIds(plan.sent)) && Insertable({}, ActedIds(plan.acted))
    ensures Insertable({}, TurnKeys(plan.h.threadId, plan.turns))
  {
  }

  lemma HeldIsSound(p: Provider, c: Resume)
    requires CursorOf(p, c.ptid, c)
    ensures Sound(Held(p, c)) && OwnCursors(Held(p, c)) && BoundOnce(Held(p, c), ProviderName(p), c.ptid)
    ensures Valid(Held(p, c), SecondTime(p, c))
  {
    var db := Held(p, c);
    assert FactsOf(db.threads) == map[];
    assert OwnCursor(KeyOf(c), db.runtimes[KeyOf(c)]) by {
      ProvidersDiffer(p, Codex);
      ProvidersDiffer(p, Claude);
    }
  }

  lemma BindsTwice(db: DB, r: Request, hex: Id -> string, u: Id)
    requires Succeeds(db, r, hex) && !r.force
    requires u in db.runtimes && u != ThreadIdFor(r.args) &&
             Resumes(db.runtimes[u], ProviderName(r.args.provider), r.args.ptid)
    ensures !BoundOnce(Import(db, r, hex), ProviderName(r.args.provider), r.args.ptid)
  {
    hide Mentions, Accepts, EventsOf, TurnsOf, AppendAll, ProjectsAfter, Advance, FileMessages, FileActivities,
         FileTurns, RuntimeFor;
    PlannedRuntime(PlanOf(db, r));
    var db' := Import(db, r, hex);
    assert u in db'.runtimes && ThreadIdFor(r.args) in db'.runtimes;
  }

  /** A cursor that the query misses lets an ordinary import bind its session a second time. */
  lemma MissedIsBoundTwice(p: Provider, c: Resume, hex: Id -> string)
    requires CursorOf(p, c.ptid, c) && c.ptid != "" && !Contains(ResumeText(c, hex), c.ptid)
    ensures var db, r := Held(p, c), SecondTime(p, c);
            && Sound(db) && OwnCursors(db) && BoundOnce(db, ProviderName(p), c.ptid)
            && Valid(db, r) && Succeeds(db, r, hex)
            && !BoundOnce(Import(db, r, hex), ProviderName(p), c.ptid)
  {
    hide Accepts, PlanOf, Sound, OwnCursors, BoundOnce, Valid, Import, ResumeText, Contains;
    HeldIsSound(p, c);
    SecondTimeAccepted(p, c);
    assert Proceeds(Held(p, c), SecondTime(p, c), hex);
    BindsTwice(Held(p, c), SecondTime(p, c), hex, KeyOf(c));
  }

  ghost predicate AlwaysBoundOnce(p: Provider, ptid: string, hex: Id -> string) {
    forall db, r :: Sound(db) && OwnCursors(db) && BoundOnce(db, ProviderName(p), ptid) && Valid(db, r) ==>
      BoundOnce(Import(db, r, hex), ProviderName(p), ptid)
  }

  /** Imports keep a session bound to at most one thread exactly when its query finds every cursor written for it. */
  lemma BoundOnceIff(p: Provider, ptid: string, hex: Id -> string)
    requires ptid != ""
    ensures AlwaysBoundOnce(p, ptid, hex) <==> SelfFound(p, ptid, hex)
  {
    hide Sound, OwnCursors, BoundOnce, Valid, Import, CursorOf, ResumeText, Contains, Succeeds, Held, SecondTime;
    if SelfFound(p, ptid, hex) {
      forall db, r | Sound(db) && OwnCursors(db) && BoundOnce(db, ProviderName(p), ptid) && Valid(db, r)
        ensures BoundOnce(Import(db, r, hex), ProviderName(p), ptid)
      {
        ImportKeepsBoundOnce(db, r, hex, p, ptid);
      }
    } else {
      var c :| CursorOf(p, ptid, c) && !Contains(ResumeText(c, hex), ptid);
      CursorId(p, ptid, c);
      MissedIsBoundTwice(p, c, hex);
    }
  }

  lemma CursorId(p: Provider, ptid: string, c: Resume)
    requires CursorOf(p, ptid, c)
    ensures c.ptid == ptid
  {
  }

  // ---- An id that is missed ----

  lemma {:induction false} EscapeHasNoControls(s: string, c: char)
    requires c < ' '
    ensures c !in Escape(s)
  {
    if s != "" {
      EscapeHasNoControls(s[1..], c);
      assert forall d :: d in EscapeChar(s[0]) ==> d >= ' ';
    }
  }

  lemma FoundCharacters(s: string, x: string, c: char)
    requires Contains(s, x) && c in x
    ensures c in s
  {
    var i :| 0 <= i <= |s| && FoundAt(s, x, i);
    var j :| 0 <= j < |x| && x[j] == c;
    assert s[i..i + |x|][j] == s[i + j];
  }

  /** A Codex id with a control character is missed, for its cursor has none. */
  lemma ControlIsMissed(ptid: string, c: char, hex: Id -> string)
    requires c in ptid && c < ' '
    ensures !SelfFound(Codex, ptid, hex)
  {
    hide Escape, Contains;
    CodexSelfFound(ptid, hex);
    EscapeHasNoControls(ptid, c);
    var head, tail := "{\"threadId\":\"", "\"}";
    assert forall d :: d in head || d in tail ==> d >= ' ';
    if Contains(head + Escape(ptid) + tail, ptid) {
      FoundCharacters(head + Escape(ptid) + tail, ptid, c);
    }
  }

  /** So a line break as session id can be bound twice. */
  lemma LineBreakBindsTwice(hex: Id -> string)
    ensures !AlwaysBoundOnce(Codex, "\n", hex)
  {
    ControlIsMissed("\n", '\n', hex);
    hide AlwaysBoundOnce, SelfFound;
    BoundOnceIff(Codex, "\n", hex);
  }
}
