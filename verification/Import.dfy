/** One import on the importer's tables, as a function of what they held before. */
module Imports {
  import opened Options
  import opened Sessions
  import opened Plans
  import opened Ledger
  import Names

  // ---- Keys ----

  /** Rows with these keys, inserted one after another, violate no key. */
  predicate Insertable<K(==)>(taken: set<K>, ids: seq<K>) {
    ids == [] || (var init, last := ids[..|ids| - 1], ids[|ids| - 1];
                  Insertable(taken, init) && last !in taken && last !in init)
  }

  lemma {:induction false} InsertableExact<K>(taken: set<K>, ids: seq<K>)
    ensures Insertable(taken, ids) <==>
            (forall i :: 0 <= i < |ids| ==> ids[i] !in taken) &&
            (forall i, j :: 0 <= i < j < |ids| ==> ids[i] != ids[j])
  {
    if ids != [] {
      InsertableExact(taken, ids[..|ids| - 1]);
    }
  }

  lemma {:induction false} InsertablePrefix<K>(taken: set<K>, ids: seq<K>, n: nat)
    requires n <= |ids| && Insertable(taken, ids)
    ensures Insertable(taken, ids[..n])
  {
    if n < |ids| {
      InsertablePrefix(taken, ids[..|ids| - 1], n);
      assert ids[..|ids| - 1][..n] == ids[..n];
    } else {
      assert ids[..n] == ids;
    }
  }

  function EventIds(es: seq<Event>): (r: seq<Id>)
    ensures |r| == |es|
  {
    seq(|es|, i requires 0 <= i < |es| => es[i].id)
  }

  function LogIds(log: seq<Stored>): set<Id> {
    set s | s in log :: s.e.id
  }

  function SentIds(sent: seq<Sent>): (r: seq<Id>)
    ensures |r| == |sent|
  {
    seq(|sent|, i requires 0 <= i < |sent| => sent[i].id)
  }

  function ActedIds(acted: seq<Acted>): (r: seq<Id>)
    ensures |r| == |acted|
  {
    seq(|acted|, i requires 0 <= i < |acted| => acted[i].id)
  }

  function TurnKeys(t: Id, rows: seq<TurnRow>): (r: seq<TurnKey>)
    ensures |r| == |rows|
  {
    seq(|rows|, i requires 0 <= i < |rows| => TurnKey(t, rows[i].turn))
  }

  // ---- Rows ----

  function FileMessages(ms: map<Id, MessageRow>, t: Id, sent: seq<Sent>): map<Id, MessageRow> {
    if sent == [] then ms else
    var s := sent[|sent| - 1];
    FileMessages(ms, t, sent[..|sent| - 1])[s.id := MessageRow(t, s.m.turn, s.m.role, s.m.text, false, s.m.at, s.m.at)]
  }

  function FileActivities(acts: map<Id, ActivityRow>, t: Id, acted: seq<Acted>): map<Id, ActivityRow> {
    if acted == [] then acts else
    var d := acted[|acted| - 1];
    FileActivities(acts, t, acted[..|acted| - 1])
      [d.id := ActivityRow(t, d.a.turn, d.a.tone, d.a.kind, d.a.summary, d.a.detail, d.a.line, |acted| - 1, d.a.at)]
  }

  function FileTurns(turns: map<TurnKey, TurnRow>, t: Id, rows: seq<TurnRow>): map<TurnKey, TurnRow> {
    if rows == [] then turns
    else FileTurns(turns, t, rows[..|rows| - 1])[TurnKey(t, rows[|rows| - 1].turn) := rows[|rows| - 1]]
  }

  /** INSERT INTO projection_projects ... ON CONFLICT DO UPDATE keeps created_at. */
  function ProjectsAfter(ps: map<Id, Project>, h: Header): map<Id, Project> {
    if !h.create then ps else
    var first := if h.project.id in ps then ps[h.project.id].createdAt else h.createdAt;
    ps[h.project.id := Project(h.project.title, h.project.root, h.selection, first, h.createdAt, None)]
  }

  function LatestUser(sent: seq<Sent>): Option<Time> {
    if sent == [] then None
    else if sent[|sent| - 1].m.role.User? then Some(sent[|sent| - 1].m.at)
    else LatestUser(sent[..|sent| - 1])
  }

  /** It is the time of the last message a user sent, if there is one. */
  lemma {:induction false} LatestUserExact(sent: seq<Sent>)
    ensures LatestUser(sent).None? <==> forall s :: s in sent ==> s.m.role.Assistant?
    ensures LatestUser(sent).Some? ==>
              exists i :: 0 <= i < |sent| && sent[i].m.role.User? && LatestUser(sent) == Some(sent[i].m.at) &&
                          forall j :: i < j < |sent| ==> sent[j].m.role.Assistant?
  {
    if sent != [] {
      var init, s := sent[..|sent| - 1], sent[|sent| - 1];
      LatestUserExact(init);
      assert sent == init + [s];
    }
  }

  function ThreadFor(p: Plan): Thread {
    var latest := if p.turns == [] then None else Some(p.turns[|p.turns| - 1].turn);
    Thread(p.h.project.id, p.h.title, p.h.selection, p.h.project.root, latest, p.h.createdAt, p.h.updatedAt,
           LatestUser(p.sent))
  }

  function SessionFor(h: Header): Session {
    Session(ProviderName(h.provider), h.updatedAt)
  }

  function ResumeFor(p: Plan): Resume {
    if p.h.provider.Claude? then
      ClaudeResume(p.h.threadId, p.h.ptid, if p.last == Some("") then None else p.last, |p.turns|)
    else CodexResume(p.h.ptid)
  }

  function RuntimeFor(p: Plan): Runtime {
    Runtime(ProviderName(p.h.provider), p.h.updatedAt, ResumeFor(p), p.h.project.root, p.h.selection, p.h.now)
  }

  // ---- Cursors ----

  const PROJECTORS: seq<string> := [
    "projection.checkpoints", "projection.pending-approvals", "projection.projects", "projection.thread-activities",
    "projection.thread-messages", "projection.thread-proposed-plans", "projection.thread-sessions",
    "projection.thread-turns", "projection.threads"]

  function Max(a: nat, b: nat): nat {
    if a < b then b else a
  }

  /** COALESCE(MAX(sequence), 0) over the log. */
  function MaxSequence(log: seq<Stored>): (n: nat)
    ensures forall s :: s in log ==> s.sequence <= n
    ensures n == 0 || exists s :: s in log && s.sequence == n
  {
    if log == [] then 0 else
    var n := MaxSequence(log[..|log| - 1]);
    assert log == log[..|log| - 1] + [log[|log| - 1]];
    assert log[|log| - 1] in log;
    Max(n, log[|log| - 1].sequence)
  }

  /** COALESCE(MAX(last_applied_sequence), 0) over projection_state. */
  ghost function MaxCursor(cs: map<string, Cursor>): (n: nat)
    ensures forall k :: k in cs ==> cs[k].sequence <= n
    ensures n == 0 || exists k :: k in cs && cs[k].sequence == n
    decreases |cs|
  {
    if cs == map[] then 0 else
    var k :| k in cs;
    var rest := cs - {k};
    assert |rest| < |cs| by { assert rest.Keys == cs.Keys - {k}; }
    var n := MaxCursor(rest);
    assert forall j :: j in cs ==> j == k || (j in rest && rest[j] == cs[j]);
    Max(cs[k].sequence, n)
  }

  function Advance(cs: map<string, Cursor>, names: seq<string>, c: Cursor): map<string, Cursor> {
    if names == [] then cs else Advance(cs, names[..|names| - 1], c)[names[|names| - 1] := c]
  }

  lemma {:induction false} AdvanceExact(cs: map<string, Cursor>, names: seq<string>, c: Cursor)
    ensures Advance(cs, names, c).Keys == cs.Keys + set n | n in names
    ensures forall n :: n in Advance(cs, names, c) ==> Advance(cs, names, c)[n] == if n in names then c else cs[n]
  {
    if names != [] {
      AdvanceExact(cs, names[..|names| - 1], c);
      assert names == names[..|names| - 1] + [names[|names| - 1]];
    }
  }

  // ---- Applying a plan ----

  /** The seven DELETE statements of a forced import. */
  function Cleared(db: DB, t: Id): DB {
    db.(log := Without(db.log, t), threads := db.threads - {t}, messages := MessagesBut(db.messages, t),
        activities := ActivitiesBut(db.activities, t), turns := map k | k in db.turns && k.thread != t :: db.turns[k],
        sessions := db.sessions - {t}, runtimes := db.runtimes - {t})
  }

  function Base(db: DB, t: Id, force: bool): DB {
    if force then Cleared(db, t) else db
  }

  /** No INSERT of the plan violates a key. */
  predicate Accepts(b: DB, p: Plan) {
    var t := p.h.threadId;
    && Insertable(LogIds(b.log), EventIds(p.events))
    && t !in b.threads
    && Insertable(b.messages.Keys, SentIds(p.sent))
    && Insertable(b.activities.Keys, ActedIds(p.acted))
    && Insertable(b.turns.Keys, TurnKeys(t, p.turns))
    && t !in b.sessions && t !in b.runtimes
  }

  ghost function Written(b: DB, p: Plan, first: nat): DB {
    var t, log := p.h.threadId, AppendAll(b.log, p.events, first);
    var applied := Max(MaxSequence(log), MaxCursor(b.cursors));
    DB(log, ProjectsAfter(b.projects, p.h), b.threads[t := ThreadFor(p)], FileMessages(b.messages, t, p.sent),
       FileActivities(b.activities, t, p.acted), FileTurns(b.turns, t, p.turns), b.sessions[t := SessionFor(p.h)],
       b.runtimes[t := RuntimeFor(p)], Advance(b.cursors, PROJECTORS, Cursor(applied, p.h.now)))
  }

  /** All or nothing. */
  ghost function Applied(db: DB, p: Plan, force: bool, first: nat): DB {
    var b := Base(db, p.h.threadId, force);
    if Accepts(b, p) then Written(b, p, first) else db
  }

  // ---- Whether to import at all ----

  /** JSON string escapes. */
  function Escape(s: string): string {
    if s == "" then "" else EscapeChar(s[0]) + Escape(s[1..])
  }

  predicate Quoted(c: char) {
    c == '"' || c == '\\' || c < ' '
  }

  function HexDigit(n: nat): char
    requires n < 16
  {
    if n < 10 then '0' + n as char else 'a' + (n - 10) as char
  }

  function EscapeChar(c: char): string {
    if c == '"' then "\\\"" else if c == '\\' then "\\\\"
    else if c == '\n' then "\\n" else if c == '\r' then "\\r" else if c == '\t' then "\\t"
    else if c as int == 8 then "\\b" else if c as int == 12 then "\\f"
    else if c < ' ' then "\\u00" + [HexDigit(c as int / 16), HexDigit(c as int % 16)]
    else [c]
  }

  /** resume_cursor_json up to the session id, and from there on. */
  function ResumeHead(c: Resume, hex: Id -> string): string {
    match c
    case CodexResume(_) => "{\"threadId\":\""
    case ClaudeResume(thread, _, _, _) => "{\"threadId\":\"" + hex(thread) + "\",\"resume\":\""
  }

  function ResumeTail(c: Resume): string {
    match c
    case CodexResume(_) => "\"}"
    case ClaudeResume(_, _, at, turnCount) =>
      "\"" + (if at.Some? then ",\"resumeSessionAt\":\"" + Escape(at.value) + "\"" else "") +
      ",\"turnCount\":" + Names.Itoa(turnCount) + "}"
  }

  function ResumeText(c: Resume, hex: Id -> string): string {
    ResumeHead(c, hex) + Escape(c.ptid) + ResumeTail(c)
  }

  predicate FoundAt(s: string, x: string, i: int) {
    0 <= i <= |s| - |x| && s[i..i + |x|] == x
  }

  predicate Contains(s: string, x: string) {
    exists i :: 0 <= i <= |s| && FoundAt(s, x, i)
  }

  /** resume_cursor_json LIKE '%ptid%' */
  predicate Mentions(r: Runtime, ptid: string, hex: Id -> string) {
    Contains(ResumeText(r.resume, hex), ptid)
  }

  predicate Refused(db: DB, a: Args, force: bool, hex: Id -> string) {
    var t := ThreadIdFor(a);
    if force then
      exists u :: u in db.runtimes && db.runtimes[u].provider == ProviderName(a.provider) &&
                  Mentions(db.runtimes[u], a.ptid, hex) && u != t
    else t in db.threads || exists u :: u in db.runtimes && Mentions(db.runtimes[u], a.ptid, hex)
  }

  predicate Candidate(p: Project, root: string) {
    p.root == root && p.deletedAt.None?
  }

  /** WHERE workspace_root = ? AND deleted_at IS NULL ORDER BY updated_at DESC LIMIT 1: a newest one, if any. */
  ghost predicate Picks(ps: map<Id, Project>, root: string, pick: Option<Id>) {
    match pick
    case None => forall id :: id in ps ==> !Candidate(ps[id], root)
    case Some(x) =>
      && x in ps && Candidate(ps[x], root)
      && forall id :: id in ps && Candidate(ps[id], root) ==> ps[id].updatedAt <= ps[x].updatedAt
  }

  /** One run of the importer: its arguments, what it read, which project the query gave, and the clock and the
      next sequence value as it found them. */
  datatype Request = Request(args: Args, parsed: Parsed, force: bool, pick: Option<Id>, title: string, now: Time,
                             first: nat)

  predicate Complete(a: Args) {
    a.ptid != "" && a.root != "" && a.title != ""
  }

  /** title: the last component of the root, for a project to be created. */
  function RefFor(ps: map<Id, Project>, r: Request): ProjectRef {
    if r.pick.Some? && r.pick.value in ps then ProjectRef(r.pick.value, ps[r.pick.value].title, ps[r.pick.value].root)
    else ProjectRef(ProjectUuid(r.args.root), r.title, r.args.root)
  }

  function PlanOf(db: DB, r: Request): Plan {
    PlanFor(r.args, r.parsed, RefFor(db.projects, r), r.pick.None?, r.now)
  }

  predicate Proceeds(db: DB, r: Request, hex: Id -> string) {
    Complete(r.args) && !Refused(db, r.args, r.force, hex)
  }

  /** The import goes ahead and every statement succeeds. */
  predicate Succeeds(db: DB, r: Request, hex: Id -> string) {
    Proceeds(db, r, hex) && Accepts(Base(db, ThreadIdFor(r.args), r.force), PlanOf(db, r))
  }

  ghost function Import(db: DB, r: Request, hex: Id -> string): DB {
    if Proceeds(db, r, hex) then Applied(db, PlanOf(db, r), r.force, r.first) else db
  }

  /** What the database itself guarantees a request about to run. */
  ghost predicate Valid(db: DB, r: Request) {
    Picks(db.projects, r.args.root, r.pick) && Below(db.log, r.first)
  }
}
